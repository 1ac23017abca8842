/**
 * One section of the scroller: the class lists and inline styles of the section, its
 * inner wrapper and its heading, assembled step by step from the scheme and the
 * placement flags the scroller hands down; plus the title, the asynchronous flag and
 * what the mount effect does.
 */
module SectionLayout {
  import opened Wrappers
  import opened Strings
  import opened Theme
  import Resolver

  /** A CSS property value: React writes numbers (the z-index) unitless. */
  datatype StyleValue = Num(n: int) | Text(s: string)

  type Style = map<string, StyleValue>

  /** A class list (in push order) and an inline style object. */
  datatype Box = Box(classes: seq<string>, style: Style)

  /** The three boxes a section renders. */
  datatype Layout = Layout(section: Box, inner: Box, heading: Box)

  /** The data attributes of the section's child. */
  datatype ChildProps = ChildProps(url: Option<string>, title: Option<string>, asynchronous: Option<string>)

  datatype SectionProps = SectionProps(
    scheme: ColourScheme,
    stretch: Option<bool>,
    sectionStyle: Style,
    priority: int,
    active: bool,
    primary: bool,
    header: bool,
    footer: bool,
    child: ChildProps)

  /** Rendering throws when the heading default is a colour pair, which has no `startsWith`. */
  datatype SectionError = HeadingDefaultNotString

  const SectionBase: seq<string> := ["relative", "lg:h-screen", "bg-cover"]
  const InnerBase: seq<string> := ["max-lg:pb-[75px]"]
  const HeadingBase: seq<string> := ["text-4xl", "xl:text-5xl", "2xl:text-6xl"]

  const PrimaryPlacement := "lg:w-[40%] lg:min-w-[40%] lg:flex lg:flex-row lg:fixed lg:left-0 group first"
  const SecondaryPlacement := "lg:fixed lg:left-[40%] lg:w-[calc(60%_+_75px)]"
  const Visible := "lg:visible"
  const Hidden := "lg:hidden"
  const PrimaryDivider := "lg:[clip-path:polygon(0%_0%,0%_100%,calc(100%_-_75px)_100%,100%_0%)]"
  const PrimaryInner := "lg:mr-[75px] lg:overflow-x-hidden lg:overflow-y-auto"
  const SecondaryOverlap := "lg:ml-[-75px] lg:overflow-y-auto"
  const SecondaryInner := "lg:ml-[75px]"
  const HeaderShift := "max-lg:mt-[-75px]"
  const FooterClip := "max-lg:[clip-path:polygon(0%_0%,0%_100%,100%_calc(100%_-_75px),100%_0%)]"
  const StretchHeight := "max-lg:min-h-[calc(100vh+75px)]"

  /** The classes the section pushes on its own account, whatever the scheme. */
  function OwnClasses(): set<string> {
    {PrimaryPlacement, SecondaryPlacement, Visible, Hidden, PrimaryDivider, PrimaryInner,
     SecondaryOverlap, SecondaryInner, HeaderShift, FooterClip, StretchHeight}
  }

  // ---------------------------------------------------------------------------
  // The assembly steps.

  function Push(b: Box, c: string): Box {
    b.(classes := b.classes + [c])
  }

  function SetStyle(b: Box, key: string, v: StyleValue): Box {
    b.(style := b.style[key := v])
  }

  /** A '#' colour becomes the inline property `key`; anything else is pushed as a class. */
  function Dispatch(b: Box, key: string, colour: string): Box {
    if IsRaw(colour) then SetStyle(b, key, Text(colour)) else Push(b, colour)
  }

  /** The starting boxes: the base classes, and the z-index with the theme's section style spread over it. */
  function Initial(priority: int, sectionStyle: Style): Layout {
    Layout(Box(SectionBase, map["zIndex" := Num(priority)] + sectionStyle), Box(InnerBase, map[]), Box(HeadingBase, map[]))
  }

  /** The scheme's foreground, background and heading default. */
  function ColourStep(l: Layout, scheme: ColourScheme): Result<Layout, SectionError> {
    var section := Dispatch(Dispatch(l.section, "color", scheme.foregroundColour), "backgroundColor", scheme.backgroundColour);
    if scheme.headingColour.None? then Ok(l.(section := section))
    else match scheme.headingColour.value.default
      case Str(c) => Ok(l.(section := section, heading := Dispatch(l.heading, "color", c)))
      case Pair(_, _) => Err(HeadingDefaultNotString)
  }

  /** Whether a background-image string is read as a file name rather than a class. */
  predicate IsImageUrl(name: string) {
    '.' in name && !('(' in name || '[' in name)
  }

  /** The background image: an image element or a file name as `url(...)`, else a class; an empty name is skipped. */
  function ImageStep(l: Layout, image: Option<Image>): Layout {
    match image
    case None => l
    case Some(ImageElement(src)) => l.(section := SetStyle(l.section, "backgroundImage", Text("url(" + src + ")")))
    case Some(ImageName(name)) =>
      if name == "" then l
      else if IsImageUrl(name) then l.(section := SetStyle(l.section, "backgroundImage", Text("url(" + name + ")")))
      else l.(section := Push(l.section, name))
  }

  /** The desktop placement: primary on the left with the divider, the others on the right overlapping it. */
  function PlacementStep(l: Layout, active: bool, primary: bool): Layout {
    var section := Push(l.section, if primary then PrimaryPlacement else SecondaryPlacement);
    var section' := Push(section, if active || primary then Visible else Hidden);
    if primary then Layout(Push(section', PrimaryDivider), Push(l.inner, PrimaryInner), l.heading)
    else Layout(Push(section', SecondaryOverlap), Push(l.inner, SecondaryInner), l.heading)
  }

  /** The mobile overlap with the previous section and the clip towards the next. */
  function EdgeStep(l: Layout, header: bool, footer: bool): Layout {
    var section := if header then Push(l.section, HeaderShift) else l.section;
    l.(section := if footer then Push(section, FooterClip) else section)
  }

  /** Stretching is the default: only an explicit `false` turns it off. */
  predicate Stretches(stretch: Option<bool>) {
    stretch.None? || stretch == Some(true)
  }

  function StretchStep(l: Layout, stretch: Option<bool>): Layout {
    if Stretches(stretch) then l.(inner := Push(l.inner, StretchHeight)) else l
  }

  /** All the steps, in the order the component runs them. */
  function Assemble(p: SectionProps): Result<Layout, SectionError> {
    var l :- ColourStep(Initial(p.priority, p.sectionStyle), p.scheme);
    Ok(StretchStep(EdgeStep(PlacementStep(ImageStep(l, p.scheme.backgroundImage), p.active, p.primary), p.header, p.footer), p.stretch))
  }

  // ---------------------------------------------------------------------------
  // The rendered section.

  /** `data-title`, when it is a non-empty string. */
  function Title(child: ChildProps): Option<string> {
    if child.title.Some? && child.title.value != "" then child.title else None
  }

  /**
   * A section waits for a later update before reporting ready exactly when `data-async`
   * is the string "true" (the source's truthiness guard before the comparison adds nothing).
   */
  predicate IsAsynchronous(child: ChildProps) {
    child.asynchronous == Some("true")
  }

  datatype HeadingView = HeadingView(text: string, className: string, style: Style)

  datatype SectionView = SectionView(
    className: string,
    style: Style,
    spacer: bool,
    innerClassName: string,
    heading: Option<HeadingView>)

  function Render(p: SectionProps): Result<SectionView, SectionError> {
    var l :- Assemble(p);
    var title := Title(p.child);
    Ok(SectionView(
      Join(l.section.classes, " "), l.section.style, p.header, Join(l.inner.classes, " "),
      if title.Some? then Some(HeadingView(title.value, Join(l.heading.classes, " "), l.heading.style)) else None))
  }

  /**
   * What the mount effect does: convert the mounted content, then report ready at once
   * unless asynchronous. `converted` is what that conversion (`HTMLConverter.convert`)
   * returned; when it throws, the effect stops before the ready report.
   */
  datatype MountActions = MountActions(converts: bool, readyNow: bool)

  function Mount(mounted: bool, child: ChildProps, converted: Result<string, Resolver.ConvertError>): MountActions {
    MountActions(mounted, mounted && converted.Ok? && !IsAsynchronous(child))
  }

  // ---------------------------------------------------------------------------
  // What the assembly promises.

  /** The classes a scheme contributes to the section: its non-'#' colours and a class-name image. */
  function SchemeClasses(scheme: ColourScheme): seq<string> {
    (if IsRaw(scheme.foregroundColour) then [] else [scheme.foregroundColour])
    + (if IsRaw(scheme.backgroundColour) then [] else [scheme.backgroundColour])
    + (match scheme.backgroundImage
       case Some(ImageName(name)) => if name == "" || IsImageUrl(name) then [] else [name]
       case _ => [])
  }

  /** The classes the placement flags contribute to the section. */
  function FlagClasses(active: bool, primary: bool, header: bool, footer: bool): seq<string> {
    [if primary then PrimaryPlacement else SecondaryPlacement,
     if active || primary then Visible else Hidden,
     if primary then PrimaryDivider else SecondaryOverlap]
    + (if header then [HeaderShift] else [])
    + (if footer then [FooterClip] else [])
  }

  /** Rendering fails exactly when the heading default is a colour pair. */
  lemma AssembleFails(p: SectionProps)
    ensures Assemble(p).Err? <==> p.scheme.headingColour.Some? && p.scheme.headingColour.value.default.Pair?
  {
  }

  /** The class list each step leaves behind. */
  lemma ColourStepClasses(l: Layout, scheme: ColourScheme)
    requires ColourStep(l, scheme).Ok?
    ensures ColourStep(l, scheme).value.section.classes == l.section.classes
      + (if IsRaw(scheme.foregroundColour) then [] else [scheme.foregroundColour])
      + (if IsRaw(scheme.backgroundColour) then [] else [scheme.backgroundColour])
    ensures ColourStep(l, scheme).value.inner == l.inner
  {
  }

  lemma ImageStepClasses(l: Layout, image: Option<Image>)
    ensures ImageStep(l, image).section.classes == l.section.classes
      + (match image
         case Some(ImageName(name)) => if name == "" || IsImageUrl(name) then [] else [name]
         case _ => [])
    ensures ImageStep(l, image).inner == l.inner
  {
  }

  lemma LaterStepsClasses(l: Layout, p: SectionProps)
    ensures StretchStep(EdgeStep(PlacementStep(l, p.active, p.primary), p.header, p.footer), p.stretch).section.classes
      == l.section.classes + FlagClasses(p.active, p.primary, p.header, p.footer)
    ensures StretchStep(EdgeStep(PlacementStep(l, p.active, p.primary), p.header, p.footer), p.stretch).inner.classes
      == l.inner.classes + [if p.primary then PrimaryInner else SecondaryInner] + (if Stretches(p.stretch) then [StretchHeight] else [])
  {
    var c1 := if p.primary then PrimaryPlacement else SecondaryPlacement;
    var c2 := if p.active || p.primary then Visible else Hidden;
    var c3 := if p.primary then PrimaryDivider else SecondaryOverlap;
    var h := if p.header then [HeaderShift] else [];
    var f := if p.footer then [FooterClip] else [];
    var l1 := PlacementStep(l, p.active, p.primary);
    PlacementClasses(l, p.active, p.primary);
    var l2 := EdgeStep(l1, p.header, p.footer);
    EdgeClasses(l1, p.header, p.footer);
    StretchClasses(l2, p.stretch);
    assert FlagClasses(p.active, p.primary, p.header, p.footer) == [c1, c2, c3] + h + f;
    assert l.section.classes + [c1, c2, c3] + h + f == l.section.classes + ([c1, c2, c3] + h + f);
  }

  lemma PlacementClasses(l: Layout, active: bool, primary: bool)
    ensures PlacementStep(l, active, primary).section.classes == l.section.classes
      + [if primary then PrimaryPlacement else SecondaryPlacement, if active || primary then Visible else Hidden,
         if primary then PrimaryDivider else SecondaryOverlap]
    ensures PlacementStep(l, active, primary).inner.classes == l.inner.classes + [if primary then PrimaryInner else SecondaryInner]
  {
  }

  lemma EdgeClasses(l: Layout, header: bool, footer: bool)
    ensures EdgeStep(l, header, footer).section.classes == l.section.classes
      + (if header then [HeaderShift] else []) + (if footer then [FooterClip] else [])
    ensures EdgeStep(l, header, footer).inner == l.inner
  {
  }

  lemma StretchClasses(l: Layout, stretch: Option<bool>)
    ensures StretchStep(l, stretch).section == l.section
    ensures StretchStep(l, stretch).inner.classes == l.inner.classes + (if Stretches(stretch) then [StretchHeight] else [])
  {
  }

  /** The order of the section's classes: base, scheme, then placement flags. */
  lemma SectionClasses(p: SectionProps)
    requires Assemble(p).Ok?
    ensures Assemble(p).value.section.classes ==
      SectionBase + SchemeClasses(p.scheme) + FlagClasses(p.active, p.primary, p.header, p.footer)
    ensures Assemble(p).value.inner.classes ==
      InnerBase + [if p.primary then PrimaryInner else SecondaryInner] + (if Stretches(p.stretch) then [StretchHeight] else [])
  {
    var l0 := Initial(p.priority, p.sectionStyle);
    var l1 := ColourStep(l0, p.scheme).value;
    ColourStepClasses(l0, p.scheme);
    var l2 := ImageStep(l1, p.scheme.backgroundImage);
    ImageStepClasses(l1, p.scheme.backgroundImage);
    LaterStepsClasses(l2, p);
    assert l2.section.classes == SectionBase + SchemeClasses(p.scheme);
  }

  /** A class in neither the base nor the scheme part is in the list exactly when it is among the flag classes. */
  lemma InTail(c: string, base: seq<string>, sc: seq<string>, fc: seq<string>)
    requires forall k :: 0 <= k < |base| ==> base[k] != c
    requires forall k :: 0 <= k < |sc| ==> sc[k] != c
    ensures c in base + sc + fc <==> c in fc
  {
    if c in base + sc + fc {
      var k :| 0 <= k < |base + sc + fc| && (base + sc + fc)[k] == c;
      assert k >= |base| + |sc|;
      assert fc[k - |base| - |sc|] == c;
    }
  }

  /** Membership in the flag classes alone. */
  lemma FlagMembership(active: bool, primary: bool, header: bool, footer: bool)
    ensures var fc := FlagClasses(active, primary, header, footer);
      (Visible in fc <==> active || primary) && (Hidden in fc <==> !(active || primary))
      && (PrimaryPlacement in fc <==> primary) && (SecondaryPlacement in fc <==> !primary)
      && (PrimaryDivider in fc <==> primary) && (SecondaryOverlap in fc <==> !primary)
      && (HeaderShift in fc <==> header) && (FooterClip in fc <==> footer)
  {
    var fc := FlagClasses(active, primary, header, footer);
    assert |Visible| != |Hidden|;
    assert |PrimaryPlacement| != |SecondaryPlacement|;
    assert |PrimaryDivider| != |SecondaryOverlap|;
    assert |HeaderShift| != |FooterClip|;
    assert fc[0] in {PrimaryPlacement, SecondaryPlacement};
    assert fc[1] in {Visible, Hidden};
    assert fc[2] in {PrimaryDivider, SecondaryOverlap};
    assert forall k :: 3 <= k < |fc| ==> fc[k] in {HeaderShift, FooterClip};
  }

  /** The flag iffs for any scheme part that spells none of the section's own classes. */
  lemma FlagsAfterScheme(sc: seq<string>, active: bool, primary: bool, header: bool, footer: bool)
    requires forall k :: 0 <= k < |sc| ==> sc[k] !in OwnClasses()
    ensures var cs := SectionBase + sc + FlagClasses(active, primary, header, footer);
      (Visible in cs <==> active || primary) && (Hidden in cs <==> !(active || primary))
      && (PrimaryPlacement in cs <==> primary) && (SecondaryPlacement in cs <==> !primary)
      && (PrimaryDivider in cs <==> primary) && (SecondaryOverlap in cs <==> !primary)
      && (HeaderShift in cs <==> header) && (FooterClip in cs <==> footer)
  {
    FlagMembership(active, primary, header, footer);
    var fc := FlagClasses(active, primary, header, footer);
    InTail(Visible, SectionBase, sc, fc);
    InTail(Hidden, SectionBase, sc, fc);
    InTail(PrimaryPlacement, SectionBase, sc, fc);
    InTail(SecondaryPlacement, SectionBase, sc, fc);
    InTail(PrimaryDivider, SectionBase, sc, fc);
    InTail(SecondaryOverlap, SectionBase, sc, fc);
    InTail(HeaderShift, SectionBase, sc, fc);
    InTail(FooterClip, SectionBase, sc, fc);
  }

  /**
   * Each flag class is present exactly when its flag says so, as long as the scheme's
   * own classes do not spell one of them.
   */
  lemma FlagClassesIff(p: SectionProps)
    requires Assemble(p).Ok?
    requires forall k :: 0 <= k < |SchemeClasses(p.scheme)| ==> SchemeClasses(p.scheme)[k] !in OwnClasses()
    ensures var cs := Assemble(p).value.section.classes;
      (Visible in cs <==> p.active || p.primary) && (Hidden in cs <==> !(p.active || p.primary))
      && (PrimaryPlacement in cs <==> p.primary) && (SecondaryPlacement in cs <==> !p.primary)
      && (PrimaryDivider in cs <==> p.primary) && (SecondaryOverlap in cs <==> !p.primary)
      && (HeaderShift in cs <==> p.header) && (FooterClip in cs <==> p.footer)
    ensures var inner := Assemble(p).value.inner.classes;
      (PrimaryInner in inner <==> p.primary) && (SecondaryInner in inner <==> !p.primary)
      && (StretchHeight in inner <==> Stretches(p.stretch))
  {
    SectionClasses(p);
    FlagsAfterScheme(SchemeClasses(p.scheme), p.active, p.primary, p.header, p.footer);
    InnerFlags(p.primary, p.stretch);
  }

  lemma InnerFlags(primary: bool, stretch: Option<bool>)
    ensures var inner := InnerBase + [if primary then PrimaryInner else SecondaryInner] + (if Stretches(stretch) then [StretchHeight] else []);
      (PrimaryInner in inner <==> primary) && (SecondaryInner in inner <==> !primary)
      && (StretchHeight in inner <==> Stretches(stretch))
  {
    assert |PrimaryInner| != |SecondaryInner| && |SecondaryInner| != |StretchHeight| && |PrimaryInner| != |StretchHeight|;
    assert |InnerBase[0]| != |PrimaryInner| && |InnerBase[0]| != |SecondaryInner| && |InnerBase[0]| != |StretchHeight|;
  }

  /** A section style under any key but the two colours and the image is the one it started with. */
  lemma StyleKeyKept(p: SectionProps, key: string)
    requires Assemble(p).Ok?
    requires key != "color" && key != "backgroundColor" && key != "backgroundImage"
    ensures var init := Initial(p.priority, p.sectionStyle).section.style;
      var st := Assemble(p).value.section.style;
      (key in st <==> key in init) && (key in init ==> st[key] == init[key])
  {
    var l0 := Initial(p.priority, p.sectionStyle);
    var l1 := ColourStep(l0, p.scheme).value;
    ColourStepKeeps(l0, p.scheme, key);
    ImageStepKeeps(l1, p.scheme.backgroundImage, key);
    StylesAfterImage(p);
  }

  lemma DispatchKeeps(b: Box, k: string, colour: string, key: string)
    requires key != k
    ensures (key in Dispatch(b, k, colour).style <==> key in b.style)
      && (key in b.style ==> Dispatch(b, k, colour).style[key] == b.style[key])
  {
  }

  lemma ColourStepKeeps(l: Layout, scheme: ColourScheme, key: string)
    requires ColourStep(l, scheme).Ok?
    requires key != "color" && key != "backgroundColor"
    ensures var st := ColourStep(l, scheme).value.section.style;
      (key in st <==> key in l.section.style) && (key in l.section.style ==> st[key] == l.section.style[key])
  {
    var b1 := Dispatch(l.section, "color", scheme.foregroundColour);
    DispatchKeeps(l.section, "color", scheme.foregroundColour, key);
    DispatchKeeps(b1, "backgroundColor", scheme.backgroundColour, key);
    assert ColourStep(l, scheme).value.section == Dispatch(b1, "backgroundColor", scheme.backgroundColour);
  }

  lemma ImageStepKeeps(l: Layout, image: Option<Image>, key: string)
    requires key != "backgroundImage"
    ensures var st := ImageStep(l, image).section.style;
      (key in st <==> key in l.section.style) && (key in l.section.style ==> st[key] == l.section.style[key])
  {
  }

  /** The z-index is the priority, and nothing later overwrites it. */
  lemma ZIndexIsPriority(p: SectionProps)
    requires Assemble(p).Ok?
    requires "zIndex" !in p.sectionStyle
    ensures "zIndex" in Assemble(p).value.section.style
    ensures Assemble(p).value.section.style["zIndex"] == Num(p.priority)
  {
    assert |"zIndex"| == 6;
    StyleKeyKept(p, "zIndex");
  }

  /** Only the colour and image steps write styles or touch the heading. */
  lemma StylesAfterImage(p: SectionProps)
    requires Assemble(p).Ok?
    ensures var l := ColourStep(Initial(p.priority, p.sectionStyle), p.scheme).value;
      Assemble(p).value.section.style == ImageStep(l, p.scheme.backgroundImage).section.style
      && Assemble(p).value.heading == l.heading
  {
    var l := ColourStep(Initial(p.priority, p.sectionStyle), p.scheme).value;
    LaterStepsStyle(ImageStep(l, p.scheme.backgroundImage), p);
  }

  /** The placement, edge and stretch steps only push classes. */
  lemma LaterStepsStyle(l: Layout, p: SectionProps)
    ensures var l' := StretchStep(EdgeStep(PlacementStep(l, p.active, p.primary), p.header, p.footer), p.stretch);
      l'.section.style == l.section.style && l'.heading == l.heading
  {
  }

  /** The base colours go inline when written with '#' and into the class list otherwise. */
  lemma ColourDispatch(p: SectionProps)
    requires Assemble(p).Ok?
    requires "color" !in p.sectionStyle && "backgroundColor" !in p.sectionStyle
    ensures var section := Assemble(p).value.section;
      ("color" in section.style <==> IsRaw(p.scheme.foregroundColour))
      && (IsRaw(p.scheme.foregroundColour) ==> section.style["color"] == Text(p.scheme.foregroundColour))
      && (!IsRaw(p.scheme.foregroundColour) ==> p.scheme.foregroundColour in section.classes)
      && ("backgroundColor" in section.style <==> IsRaw(p.scheme.backgroundColour))
      && (IsRaw(p.scheme.backgroundColour) ==> section.style["backgroundColor"] == Text(p.scheme.backgroundColour))
      && (!IsRaw(p.scheme.backgroundColour) ==> p.scheme.backgroundColour in section.classes)
  {
    var l0 := Initial(p.priority, p.sectionStyle);
    assert |"zIndex"| == 6 && |"color"| == 5 && |"backgroundColor"| == 15;
    assert "color" !in l0.section.style && "backgroundColor" !in l0.section.style;
    ColourStepStyle(l0, p.scheme);
    var l1 := ColourStep(l0, p.scheme).value;
    assert |"backgroundImage"| == 15 && "backgroundImage"[10] != "backgroundColor"[10];
    ImageStepKeeps(l1, p.scheme.backgroundImage, "color");
    ImageStepKeeps(l1, p.scheme.backgroundImage, "backgroundColor");
    StylesAfterImage(p);
    SectionClasses(p);
    SchemeClassesHoldColours(p.scheme, SectionBase, FlagClasses(p.active, p.primary, p.header, p.footer));
  }

  /** The colour step writes a '#' colour inline under its own key. */
  lemma ColourStepStyle(l: Layout, scheme: ColourScheme)
    requires ColourStep(l, scheme).Ok?
    requires "color" !in l.section.style && "backgroundColor" !in l.section.style
    ensures var st := ColourStep(l, scheme).value.section.style;
      ("color" in st <==> IsRaw(scheme.foregroundColour))
      && (IsRaw(scheme.foregroundColour) ==> st["color"] == Text(scheme.foregroundColour))
      && ("backgroundColor" in st <==> IsRaw(scheme.backgroundColour))
      && (IsRaw(scheme.backgroundColour) ==> st["backgroundColor"] == Text(scheme.backgroundColour))
  {
    assert |"color"| != |"backgroundColor"|;
    var b1 := Dispatch(l.section, "color", scheme.foregroundColour);
    DispatchKeeps(b1, "backgroundColor", scheme.backgroundColour, "color");
    assert ColourStep(l, scheme).value.section == Dispatch(b1, "backgroundColor", scheme.backgroundColour);
  }

  /** A class-form base colour is among the scheme's classes, wherever they are spliced in. */
  lemma SchemeClassesHoldColours(scheme: ColourScheme, before: seq<string>, after: seq<string>)
    ensures var cs := before + SchemeClasses(scheme) + after;
      (!IsRaw(scheme.foregroundColour) ==> scheme.foregroundColour in cs)
      && (!IsRaw(scheme.backgroundColour) ==> scheme.backgroundColour in cs)
  {
    var sc := SchemeClasses(scheme);
    var cs := before + sc + after;
    if !IsRaw(scheme.foregroundColour) {
      assert sc[0] == scheme.foregroundColour;
      assert cs[|before|] == sc[0];
    }
    if !IsRaw(scheme.backgroundColour) {
      var k := if IsRaw(scheme.foregroundColour) then 0 else 1;
      assert sc[k] == scheme.backgroundColour;
      assert cs[|before| + k] == sc[k];
    }
  }

  /** The heading default goes inline on the heading when written with '#', else into its class list. */
  lemma HeadingDispatch(p: SectionProps)
    requires Assemble(p).Ok?
    ensures var heading := Assemble(p).value.heading;
      (p.scheme.headingColour.None? ==> heading == Box(HeadingBase, map[]))
      && (p.scheme.headingColour.Some? ==>
        var c := TextOf(p.scheme.headingColour.value.default);
        (IsRaw(c) ==> heading.style == map["color" := Text(c)] && heading.classes == HeadingBase)
        && (!IsRaw(c) ==> heading.style == map[] && heading.classes == HeadingBase + [c]))
  {
    StylesAfterImage(p);
  }

  /** The three readings of a background image. */
  lemma BackgroundImageRule(p: SectionProps)
    requires Assemble(p).Ok?
    requires "backgroundImage" !in p.sectionStyle
    ensures var section := Assemble(p).value.section;
      match p.scheme.backgroundImage
      case None => "backgroundImage" !in section.style
      case Some(ImageElement(src)) => "backgroundImage" in section.style && section.style["backgroundImage"] == Text("url(" + src + ")")
      case Some(ImageName(name)) =>
        ("backgroundImage" in section.style <==> name != "" && IsImageUrl(name))
        && (name != "" && IsImageUrl(name) ==> section.style["backgroundImage"] == Text("url(" + name + ")"))
        && (name != "" && !IsImageUrl(name) ==> name in section.classes)
  {
    SectionClasses(p);
  }

  /** The spacer and the heading are rendered exactly when the section has a header and a title. */
  lemma RenderShape(p: SectionProps)
    ensures Render(p).Ok? <==> Assemble(p).Ok?
    ensures Render(p).Ok? ==> Render(p).value.spacer == p.header
    ensures Render(p).Ok? ==> (Render(p).value.heading.Some? <==> p.child.title.Some? && p.child.title.value != "")
    ensures Render(p).Ok? && Render(p).value.heading.Some? ==> Render(p).value.heading.value.text == p.child.title.value
  {
  }
}
