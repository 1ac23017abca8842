# Colour-scheme engine of react-app-limitless-scroller, in Dafny

`react-app-limitless-scroller` is a React scroller. It shows a list of sections, each
painted with one colour scheme of a theme. On the desktop the primary section is pinned
on the left and the active one is shown on the right. On a phone the sections are
stacked with diagonal dividers.

This project models the scroller's colour-scheme engine and proves what it promises:

- **Theme** (`theme.dfy`): colour values (a string or a text/background pair), colour
  sets, schemes and the theme, as datatypes with `Option` fields.
- **Element converter** (`resolver.dfy`, `existing_colour.dfy`, `style_text.dfy`,
  `element_converter.dfy`, `conversion_facts.dfy`). It applies one colour set to one
  element, live or virtual:
  - the shape check;
  - the style-attribute snapshot;
  - the "already coloured" test;
  - the five colour phases;
  - the write-back of classes, inline styles, mouse handlers and the disabled observer.

  The `ElementConverter` class keeps the source's accumulated fields. Its methods are
  proved against the pure functions `LiveConvert` and `VirtualConvert`. Those functions
  are in turn proved against an independent reference reading of the phases
  (`ExpectedClasses`, `ExpectedAction`, `ExpectedStyle`).
- **Live DOM** (`live_dom.dfy`): a live element whose fields change in place. Mouse
  listeners and disabled-attribute observers are stored as the colours their closures
  capture, and are run by explicit `Fire` and `SetDisabled` calls.
- **Virtual tree walker** (`virtual_dom.dfy`, `dom_converter.dfy`, `tag_slots.dfy`):
  - five tag passes;
  - a post-order rebuild of a React element tree;
  - one-entry child lists collapse to a single child.
- **Live tree walker** (`html_converter.dfy`): converts matching descendants in place, in
  document order, then builds the summary message from per-slot counters.
- **Section** (`section.dfy`): the component's class lists and inline styles, assembled
  step by step, plus the title, the asynchronous flag and the ready-on-mount rule.
- **Items** (`items.dfy`), the scroller itself:
  - url checks;
  - default primary and active sections;
  - scheme choice, stacking priority, header and footer flags;
  - the ready counter;
  - the scroll decision and the reveal.

The screen width, the mounted flag and the ready flag are parameters. Nothing is read
from a clock, a window or a real DOM.

### An asymmetry kept as written

For a virtual (React) element, `setColours` asks the *foreground* question twice
(src/utils/element-converter.ts:244-245). For a live element it asks the foreground and
then the background question. The model keeps this as written:

- `ElementConversion.LiveSuppressed` asks both channels.
- `ElementConversion.VirtualSuppressed` asks the foreground channel twice.

`ConversionFacts.BackgroundClassSuppressesOnlyLive` proves the consequence. A class list
holding only a background colour class (`bg-pink-400`) stops a live conversion, but not a
virtual one. Whether the authors meant this cannot be settled from the code, so no
corrected variant is given.

## Model

| member | source | states |
|---|---|---|
| Resolver.Validate | src/utils/element-converter.ts:82-126 | a rejection is either a wrong input type or an invalid element; a wrong input type happens only for an `input` whose type is neither button nor submit |
| Resolver.ValidateUnknownKind | src/utils/element-converter.ts:82-126 | any tag other than h2, h3, a, button or input (compared lower-cased) is rejected whatever the set |
| Resolver.ValidateTypedSets | src/@types/theme.ts:24-39 | a heading set passes on h2/h3, a link set on `a`, a button set on `button` and on a button/submit `input` |
| Resolver.ValidateMismatchedSets | src/utils/element-converter.ts:86-125 | link and button sets fail on headings; button and heading sets fail on links; link and heading sets fail on buttons; h4 fails; a non-button input fails with its type |
| Resolver.Step | src/utils/element-converter.ts:226-350 | one phase fails exactly when it is not suppressed and the value is a pair mixing a '#' colour with a class; a suppressed phase changes nothing |
| Resolver.StepEffect | src/utils/element-converter.ts:248-349 | an unsuppressed phase appends exactly the value's class tokens (a class pair gives background then text), adds its handlers and sets its inline colours, keeping the style keys distinct |
| Resolver.ResolveSuppressed | src/utils/element-converter.ts:247-248 | when either channel is already coloured, no phase adds a style, a class or a handler, and none throws |
| Resolver.ResolveFails | src/utils/element-converter.ts:128-145 | the five phases fail exactly when unsuppressed and some member mixes forms, and then with the mixed-form error |
| Resolver.ResolveContents | src/utils/element-converter.ts:128-145 | after the phases, the classes are every class member in phase order; leave, enter, down and up hold the default, hover, active and hover-else-default raw values; color and backgroundColor take the disabled value when disabled, otherwise the default unless the snapshot already has the key |
| Resolver.ResolveNoRawClass | src/utils/element-converter.ts:249-291 | a '#' colour never reaches the class list |
| ExistingColour.HasExisting | src/utils/element-converter.ts:370-423 | a style key present in the snapshot always counts as coloured; without a class list, only the style key counts |
| ExistingColour.ShadeFromIffMatch | src/utils/element-converter.ts:393-396 | the scanner finds a shade class exactly when `<prefix>[a-z]*-[0-9]{2,3}` matches somewhere at or after the start position |
| ExistingColour.HasExistingIff | src/utils/element-converter.ts:370-423 | a channel is coloured exactly when its style key is in the snapshot, or the class list contains one of its five fixed words, or the shade pattern matches |
| ExistingColour.KnownShadeClass | src/utils/element-converter.ts:393-414 | `text-purple-200` counts as a foreground class and `bg-pink-400` as a background class |
| ExistingColour.LayoutClassesDoNotCount | src/utils/element-converter.ts:393-414 | with no inline colour, `text-center` and `text-2xl` make neither the shade test nor `hasExisting` count the foreground as coloured, nor `bg-bottom` and `bg-wrap` the background |
| StyleText.Terminated | src/utils/element-converter.ts:49-52 | non-empty style text always ends in ';' afterwards, and at most one ';' is appended; empty text stays empty |
| StyleText.TerminatedKeeps | src/utils/element-converter.ts:50-52 | text that already ends in ';' is kept unchanged |
| StyleText.TerminatedIdempotent | src/utils/element-converter.ts:50-52 | terminating the style text twice is the same as once |
| StyleText.KebabCamelRoundTrip | src/utils/element-converter.ts:59-65 | reading back a written kebab-case key gives the camelCase key that was written |
| StyleText.SnapshotAfterDecls | src/utils/element-converter.ts:173-188 | the written style text can be read again, and its snapshot is the old snapshot overlaid by the new declarations |
| StyleText.Assign | src/utils/element-converter.ts:252-253 | assigning a style key keeps keys distinct and updates exactly that key |
| LiveDom.WriteColour | src/utils/element-converter.ts:359-364 | a colour write keeps the old (terminated) style text as a prefix |
| LiveDom.WriteColourSnapshot | src/utils/element-converter.ts:359-364 | a string writes color; a pair writes backgroundColor and color; nothing else in the snapshot changes |
| LiveDom.FireListeners | src/utils/element-converter.ts:352-367 | on a disabled element every handler leaves the style untouched |
| LiveDom.FireOneListener | src/utils/element-converter.ts:352-367 | the one listener for an event on an enabled element writes its colours into the snapshot |
| LiveDom.LiveElement.Fire | src/utils/element-converter.ts:352-367 | a mouse event runs the listeners for that event in order; class list, disabled flag and handlers stay |
| LiveDom.LiveElement.SetDisabled | src/utils/element-converter.ts:147-170 | a disabled-attribute change runs every observer with the new value; removing an absent attribute changes nothing |
| LiveDom.ObserversOn | src/utils/element-converter.ts:150-166 | the observer loop runs every observer in order, each writing its disabled colours when the attribute is set and its default colours otherwise, as `RunObservers` says |
| VirtualDom.CollapseRoundTrip | src/utils/dom-converter.ts:66-74 | putting a converted list back as children and reading it again as a list gives the same list, unless it is a lone string |
| VirtualDom.ChildItemsRoundTrip | src/utils/dom-converter.ts:48-74 | reading children as a list and putting them back gives the same children, except that a one-entry list collapses to its entry |
| ElementConversion.ElementConverter.constructor | src/utils/element-converter.ts:31-80 | the converter starts with nothing accumulated; a live one holds the terminated style text and its snapshot, a virtual one the node's style prop |
| ElementConversion.ElementConverter.Create | src/utils/element-converter.ts:42-44 | construction throws the shape check's error before reading anything, and otherwise yields a fresh converter with the snapshot |
| ElementConversion.ElementConverter.ReadStyle | src/utils/element-converter.ts:47-68 | the segment loop yields the terminated text and the snapshot |
| ElementConversion.ElementConverter.CamelKey | src/utils/element-converter.ts:58-65 | the character loop drops each '-' and upper-cases the character after it |
| ElementConversion.ElementConverter.KebabKey | src/utils/element-converter.ts:178-186 | the character loop turns each upper-case character into '-' and its lower case |
| ElementConversion.ElementConverter.ExistingChannels | src/utils/element-converter.ts:234-246 | the two channel answers suppress the phase exactly as the element kind's test says |
| ElementConversion.ElementConverter.SetColours | src/utils/element-converter.ts:226-350 | one phase changes the accumulated classes, styles and handlers exactly as `Step`, and fails with the mixed-form error when `Step` does |
| ElementConversion.ElementConverter.SetColoursIf | src/utils/element-converter.ts:130-145 | an absent optional member is skipped |
| ElementConversion.ElementConverter.RunPhases | src/utils/element-converter.ts:128-145 | default, hover, active, visited and disabled run in that order, stopping at the first failure |
| ElementConversion.ElementConverter.WriteDecls | src/utils/element-converter.ts:175-188 | the write-back appends `kebab:value;` for every accumulated style, in order |
| ElementConversion.ElementConverter.WriteLive | src/utils/element-converter.ts:173-205 | the live element gets the new style text, its class list plus ' ' plus the new classes, and one listener per set handler |
| ElementConversion.ElementConverter.CloneVirtual | src/utils/element-converter.ts:206-223 | the clone's classes are the new ones followed by the node's own; its style is the old one overlaid by the new |
| ElementConversion.ElementConverter.Convert | src/utils/element-converter.ts:128-224 | a failing phase throws with the live element untouched; otherwise the live element is merged, or the virtual clone returned, as the reference functions say |
| ElementConversion.ElementConverter.ConvertLive | src/utils/html-converter.ts:64-68 | converting one live element changes it exactly as `LiveConvert`, and leaves it untouched on an error |
| ElementConversion.ElementConverter.ConvertVirtual | src/utils/dom-converter.ts:89-93 | converting one virtual element returns exactly `VirtualConvert` |
| ConversionFacts.LiveConvertFails | src/utils/element-converter.ts:82-145 | a live conversion fails exactly on a shape error, or when unsuppressed with a mixed member |
| ConversionFacts.VirtualConvertFails | src/utils/element-converter.ts:82-145 | the same for a virtual element, where only the foreground question suppresses |
| ConversionFacts.LiveConvertSuppressed | src/utils/element-converter.ts:239-248 | an already coloured live element keeps its snapshot and class tokens; only a ' ' and the observer are added |
| ConversionFacts.VirtualConvertSuppressed | src/utils/element-converter.ts:242-248 | an already coloured virtual element comes back with its style and class list as they were, and its four handler props cleared |
| ConversionFacts.ListenersAgree | src/utils/element-converter.ts:189-204 | the listeners added are the expected handlers in the order enter, leave, down, up |
| ConversionFacts.LiveConvertContents | src/utils/element-converter.ts:173-205 | the live result has the original style text as a prefix, the reference inline colours in its snapshot, the reference classes after a ' ', and the reference listeners |
| ConversionFacts.VirtualConvertContents | src/utils/element-converter.ts:206-223 | the virtual result has the reference classes then the node's own, its style overlaid by the reference colours, and the reference handlers |
| ConversionFacts.FireAfterConvert | src/utils/element-converter.ts:352-367 | after a conversion, a mouse event writes exactly its expected colour; an event with no handler changes nothing |
| ConversionFacts.LiveConvertWellFormed | src/utils/element-converter.ts:173-190 | a converted live element's style text can be read again, and it carries one observer more for a button set |
| ConversionFacts.RunOneObserver | src/utils/element-converter.ts:150-166 | an observer writes the disabled colours when the attribute is set and the default colours when it is removed |
| ConversionFacts.ObserverAfterConvert | src/utils/element-converter.ts:147-170 | after converting with a button set, a disabled change writes the disabled or default colours into the snapshot |
| ConversionFacts.BackgroundClassSuppressesOnlyLive | src/utils/element-converter.ts:239-245 | a background colour class alone suppresses a live conversion but not a virtual one |
| TagSlots.PassSets | src/utils/html-converter.ts:17-25 | five passes; the button and input passes share the button set |
| TagSlots.EmptySchemeNoPass | src/utils/dom-converter.ts:27-37 | a scheme runs no pass at all exactly when it has no optional set |
| TagSlots.TagsDistinct | src/utils/dom-converter.ts:19 | the five tags are pairwise distinct |
| DomConversion.DOMConverter.constructor | src/utils/dom-converter.ts:11-14 | the walker holds the children and the scheme |
| DomConversion.DOMConverter.Convert | src/utils/dom-converter.ts:16-39 | the pass loop returns the children after every pass whose set exists, in tag order, or the first error; after a throw the children hold the results of the passes before the failing one |
| DomConversion.DOMConverter.ConvertTag | src/utils/dom-converter.ts:41-98 | each entry is rebuilt post-order (its element children first), then converted if its type is the tag, as `ConvertItems` says |
| DomConversion.DOMConverter.ConvertEntry | src/utils/dom-converter.ts:55-95 | one entry of the loop is rebuilt exactly as `ConvertItem` says: its element children first, then the entry itself when its type is the tag |
| DomConversion.EmptySchemeIdentity | src/utils/dom-converter.ts:27-38 | a scheme without optional sets returns the children unchanged |
| DomConversion.ConvertItemsShape | src/utils/dom-converter.ts:51-97 | a pass keeps the list's length, every string entry and every element's tag; an element it does not select keeps every prop but its children |
| DomConversion.ConvertItemShape | src/utils/dom-converter.ts:55-95 | a string entry is unchanged; an element keeps its tag; an unselected element keeps every prop but its children |
| DomConversion.UnselectedNodeKept | src/utils/dom-converter.ts:56-75 | an element the pass does not select keeps its tag, type, class list, style, disabled flag and handlers; its children become the converted list, a one-entry list collapsed to its entry |
| DomConversion.NestedLeafConverted | src/utils/dom-converter.ts:55-95 | post-order: an element whose only child is a selected leaf gets that leaf's conversion as its single child first, and is then converted itself only when selected too |
| DomConversion.QuietItems | src/utils/dom-converter.ts:51-97 | a list with no element of the pass's tag anywhere, and no one-entry child list, comes back unchanged |
| DomConversion.QuietNode | src/utils/dom-converter.ts:55-95 | the same for one element |
| DomConversion.ConvertItemsFails | src/utils/dom-converter.ts:89-93 | a pass throws exactly when some entry throws, and with the first such error |
| DomConversion.PasswordInputUntouched | src/utils/dom-converter.ts:80-87 | a password input is not converted by the input pass |
| DomConversion.SelectedLeafConverted | src/utils/dom-converter.ts:77-95 | a matching leaf element is converted to exactly its virtual conversion |
| HtmlConversion.Container.QuerySelectorAll | src/utils/html-converter.ts:53 | the query yields exactly the descendants with that (lower-cased) tag name, each once |
| HtmlConversion.TagIndex | src/utils/html-converter.ts:17 | an element's tag matches at most one pass |
| HtmlConversion.SlotCounts | src/utils/html-converter.ts:26-37 | four counters; heading, subheading and link end in {0,1}, the button slot in {0,2} |
| HtmlConversion.HTMLConverter.constructor | src/utils/html-converter.ts:9-12 | the walker holds the container and the scheme |
| HtmlConversion.HTMLConverter.Convert | src/utils/html-converter.ts:14-47 | success exactly when every element's conversion succeeds; then every element is converted once by its own pass and the result is the summary; a failure carries some element's error, and every element is either untouched or fully converted |
| HtmlConversion.HTMLConverter.RunPass | src/utils/html-converter.ts:29-36 | one pass touches only elements of its tag, converts each, and fails only when its set exists |
| HtmlConversion.HTMLConverter.RunPasses | src/utils/html-converter.ts:26-37 | after the pass loop the counters are the slot counts and every element has been converted by its own pass; a failure carries some element's error and leaves each element untouched or fully converted |
| HtmlConversion.HTMLConverter.CountPass | src/utils/html-converter.ts:31-35 | a pass whose set exists bumps its own counter, except the input pass, which bumps the button counter |
| HtmlConversion.HTMLConverter.ConvertTag | src/utils/html-converter.ts:49-70 | every picked descendant is converted in place; non-button inputs and other tags are untouched; a failure carries a picked element's error |
| HtmlConversion.Visit | src/utils/html-converter.ts:56-68 | a non-button input is skipped unchanged; any other node is converted in place as `LiveConvert` says, and a failure leaves it untouched with the conversion's error |
| HtmlConversion.BuildMessages | src/utils/html-converter.ts:38-45 | the message loop yields one message per non-zero slot, in slot order |
| HtmlConversion.SummaryLength | src/utils/html-converter.ts:38-46 | there is one message per optional set the scheme has, the button set counting once |
| HtmlConversion.NothingConvertedIffEmpty | src/utils/html-converter.ts:46 | the summary is "Nothing converted" exactly for a scheme without optional sets |
| HtmlConversion.FirstMessage | src/utils/html-converter.ts:39-45 | the first message names the first non-zero slot |
| HtmlConversion.FullSchemeSummary | src/utils/html-converter.ts:38-46 | with all four sets the summary is "1 x H2 converted, 1 x H3 converted, 1 x A converted, 2 x BUTTON converted" |
| HtmlConversion.EmptySchemeUntouched | src/utils/html-converter.ts:29-30 | an empty scheme leaves every element unchanged and does not throw |
| HtmlConversion.UnpickedUntouched | src/utils/html-converter.ts:56-63 | an element of no pass's tag, or a non-button input, is left unchanged |
| HtmlConversion.ColouredElementKept | src/utils/html-converter.ts:64-68 | an already coloured element keeps its snapshot: existing colours are never overridden |
| SectionLayout.AssembleFails | src/components/Section.tsx:77-83 | rendering throws exactly when the heading default is a colour pair |
| SectionLayout.ColourStepClasses | src/components/Section.tsx:66-83 | the colour step pushes the non-'#' foreground, then the non-'#' background |
| SectionLayout.ImageStepClasses | src/components/Section.tsx:87-103 | the image step pushes only a non-empty image name that is not read as a file |
| SectionLayout.LaterStepsClasses | src/components/Section.tsx:105-149 | the placement, edge and stretch steps push exactly the flag classes and the inner classes, in order |
| SectionLayout.SectionClasses | src/components/Section.tsx:55-149 | the section classes are the base, then the scheme's, then the flag classes; the inner classes are the base, the primary or secondary inner class, then the stretch class |
| SectionLayout.FlagClassesIff | src/components/Section.tsx:105-149 | `lg:visible` iff active or primary, `lg:hidden` otherwise; primary and secondary classes are exclusive; header and footer classes iff those flags; the stretch class iff stretch is unset or true |
| SectionLayout.ZIndexIsPriority | src/components/Section.tsx:60-61 | the section's z-index is its priority |
| SectionLayout.ColourDispatch | src/components/Section.tsx:66-76 | foreground and background go inline exactly when '#'-prefixed, and otherwise into the class list |
| SectionLayout.HeadingDispatch | src/components/Section.tsx:77-83 | the heading default goes inline when '#'-prefixed and otherwise into the heading's classes; no heading set leaves the heading at its base |
| SectionLayout.BackgroundImageRule | src/components/Section.tsx:87-103 | an image element becomes `url(src)`; a name with '.' and neither '(' nor '[' becomes `url(name)`; any other non-empty name becomes a class |
| SectionLayout.RenderShape | src/components/Section.tsx:219-233 | the spacer is rendered iff there is a header; the heading iff `data-title` is a non-empty string, showing that title |
| ItemsLayout.CollectNames | src/components/Items.tsx:31-36 | `names` holds each child's url, in order |
| ItemsLayout.BuildRefs | src/components/Items.tsx:82-103 | the refs loop returns exactly `CheckUrls` |
| ItemsLayout.CheckUrlsOk | src/components/Items.tsx:82-103 | the check passes exactly when every child has a non-empty url and no two share one; then each url maps to its own position and every key is some child's url |
| ItemsLayout.CheckUrlsErr | src/components/Items.tsx:86-97 | a missing-url error means some child lacks a url; a duplicate error names a url used by two children |
| ItemsLayout.ChooseSections | src/components/Items.tsx:53-74 | the reassigned primary and active are the defaults, primary first |
| ItemsLayout.DefaultsKeepSetProps | src/components/Items.tsx:53-74 | a primary or active that is set is kept |
| ItemsLayout.DesktopDefaultsDiffer | src/components/Items.tsx:53-74 | on the desktop, with two distinct first urls and at most one prop set, primary and active differ |
| ItemsLayout.NarrowDefaultsCoincide | src/components/Items.tsx:53-74 | on a narrow screen with neither prop set, the first url is both primary and active |
| ItemsLayout.GetColourScheme | src/components/Items.tsx:105-119 | on a narrow screen the scheme at the position modulo the scheme count (none without schemes); on the desktop the first scheme for the primary section and the second for every other (none when the theme lacks it) |
| ItemsLayout.NeighboursAlternate | src/components/Items.tsx:111 | on a narrow screen with two or more schemes, neighbouring sections get different scheme indices |
| ItemsLayout.NeighbourSchemesDiffer | src/components/Items.tsx:105-119 | on a narrow screen with two or more pairwise distinct schemes, neighbouring sections are painted with different schemes |
| ItemsLayout.SlotSchemes | src/components/Items.tsx:195-205 | in the rendered list, narrow-screen sections cycle through the schemes by position; on the desktop the primary section has the first scheme and every other section the second |
| ItemsLayout.PriorityOrder | src/components/Items.tsx:190-193 | the desktop primary stacks above every other section; otherwise earlier sections stack above later ones |
| ItemsLayout.PrioritiesDistinct | src/components/Items.tsx:190-193 | sections with distinct urls stack in distinct layers |
| ItemsLayout.EdgeSlots | src/components/Items.tsx:204-205 | in the rendered list only the first section lacks a header and only the last lacks a footer |
| ItemsLayout.SectionStyles | src/components/Items.tsx:42-46 | the padding style is present exactly for a set, non-zero padding, as that number followed by "px" |
| ItemsLayout.Render | src/components/Items.tsx:31-211 | the render runs names, defaults, url checks and one slot per child, and returns exactly `Layout` |
| ItemsLayout.OnePrimaryOneActive | src/components/Items.tsx:202-203 | with valid urls at most one section is primary and at most one active; a known primary marks exactly one |
| ItemsLayout.SectionGetsPriority | src/components/Items.tsx:195-201 | each section's z-index is its priority; its padding is present exactly for a set, non-zero theme padding, and is then that number followed by "px" |
| ItemsLayout.ReadyTracker.constructor | src/components/Items.tsx:39-40 | the tracker starts with no section loaded and not ready |
| ItemsLayout.ReadyTracker.ChildReady | src/components/Items.tsx:126-132 | one more section counts as loaded; ready becomes true when the count reaches the number of sections, and stays true |
| ItemsLayout.ReadyOnMount | src/components/Section.tsx:186-201 | at most one report per section; every section reports at mount exactly when every mount-time conversion returned without throwing and none has `data-async` equal to "true" |
| ItemsLayout.MountSections | src/components/Section.tsx:186-201 | when every section is mounted once, converts its content and then reports ready unless asynchronous, the scroller is ready exactly when there is a section, every conversion succeeded and none is asynchronous |
| ItemsLayout.ScrollIff | src/components/Items.tsx:147-177 | a scroll happens exactly when ready, narrow, with an active that is set, not the first url, and has a ref |
| ItemsLayout.ScrollGoesToActive | src/components/Items.tsx:147-177 | with the checked refs, the scroll goes to the active section, never the first, and an unknown active never scrolls |
| ItemsLayout.RemoveClass | src/components/Items.tsx:143-145 | `classList.remove` drops every occurrence of the token and keeps the others |
| ItemsLayout.Revealed | src/components/Items.tsx:139-146 | once ready the container has no `hidden` class, keeps every other one and gains none; before that it is unchanged |

## Left out

- Browser timing: MutationObserver scheduling, `addEventListener` and real event dispatch are not modelled. Listeners and observers are stored values run by explicit `Fire` and `SetDisabled` calls.
- The re-convert observer of src/components/Section.tsx:203-213 is not modelled. It is asynchronous host behaviour that converts again and reports ready after a content change.
- React internals are not modelled: the keys, the null filtering and the flattening of nested child arrays of `React.Children.toArray` (child lists in the model are already flat), `cloneElement` identity, hooks (`useRef`, `useState`, `useEffect`) and number children. Trees are plain datatypes.
- src/hooks/useScreenSize.ts is not part of this model. The width is a parameter.
- CSS validity and the browser's normalisation of `style` are not modelled. A style write is modelled as appending a `kebab:value;` declaration, whose last occurrence wins when read back.
- StyleText.WellFormed: a style attribute that would make the constructor's parse crash is a precondition, not an error path. This covers a segment without ':' and a key ending in '-'.
- Strings.ToLower, Strings.ToUpper, Strings.Trim: case conversion and whitespace trimming are ASCII only. JavaScript `trim()` also strips no-break spaces, U+FEFF and line separators, so a style key such as "\u00A0color" counts as `color` in the source but not in the model.
- Error message texts are not modelled. Errors are datatype constructors: wrong input type, invalid element, mixed colour forms, missing url, duplicate url.
- Console logging (`verbose`), image loading and `scrollIntoView` are not modelled. The scroll is reduced to the index of the section it targets, and refs are taken to be attached.
- The container's `style={styles.default}` (src/components/Items.tsx:185) is not modelled, because `styles.default` is never assigned.
- HtmlConversion.HTMLConverter.Convert: on a failure it states that every element is untouched or fully converted. It does not state which elements come before the failing one in document order.
- The live tree (`HtmlConversion.Container`) is reduced to its descendants in document order, each a distinct element. Parent and child links are not modelled.
- ItemsLayout.GetColourScheme: an undefined scheme, which makes the section throw when it reads it, is modelled as `None`.
- ItemsLayout.GetColourScheme: with no scheme at all, `position % 0` is NaN in the source; the model also yields `None` there.
- The theme's `padding` is an integer in the model. A fractional padding (2.5 gives "2.5px") or `NaN` (falsy, so no padding) cannot be expressed.
- LiveDom.LiveElement.Fire: a listener colours `e.target` and checks that target's `disabled` attribute. A mouse event bubbling up from a child would colour the child; the model always colours the element the listener is attached to, since child targets are not modelled.
- Demo application, fixtures and tests are not part of this model.
