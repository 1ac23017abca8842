/**
 * The element converter: applies one colour set to one node, live or virtual.
 *
 * The class keeps the source's accumulated state (classes, styles, the style text and
 * the handler map) and is proved against the pure functions `LiveConvert` and
 * `VirtualConvert`, which the tree walkers and the lemmas use.
 */
module ElementConversion {
  import opened Wrappers
  import opened Strings
  import opened Theme
  import opened StyleText
  import opened ExistingColour
  import opened Resolver
  import opened LiveDom
  import opened VirtualDom

  /** The node being converted: a live element (changed in place) or a virtual one (a value). */
  datatype Target = Live(el: LiveElement) | Virtual(node: Node)

  function TagOf(t: Target): string {
    if t.Live? then t.el.tagName else t.node.tag
  }

  function TypeOf(t: Target): Option<string> {
    if t.Live? then t.el.typeAttr else t.node.typeAttr
  }

  // ---------------------------------------------------------------------------
  // The conversion as functions of the node's state.

  /** A live node is left alone when either channel is already coloured. */
  function LiveSuppressed(existing: map<string, string>, className: string): bool {
    HasExisting(existing, Some(className), Foreground) || HasExisting(existing, Some(className), Background)
  }

  /**
   * A virtual node asks the foreground question for both channels, so a background
   * colour class or style alone does not stop the conversion.
   */
  function VirtualSuppressed(existing: map<string, string>, className: string): bool {
    HasExisting(existing, Some(className), Foreground) || HasExisting(existing, Some(className), Foreground)
  }

  /** Only a button element reports itself disabled; an input never does. */
  function LiveDisabled(st: ElementState): bool {
    ToLower(st.tagName) == "button" && st.disabled
  }

  /** The listeners `convert` adds: the handlers that were set, in the order enter, leave, down, up. */
  function ListenersFor(actions: map<Action, ColourValue>): seq<Listener> {
    ListenerFor(actions, Enter) + ListenerFor(actions, Leave) + ListenerFor(actions, Down) + ListenerFor(actions, Up)
  }

  /** The listener one handler adds, if it was set. */
  function ListenerFor(actions: map<Action, ColourValue>, a: Action): seq<Listener> {
    if a in actions then [Listener(a, actions[a])] else []
  }

  lemma AppendAssoc(a: seq<Listener>, b: seq<Listener>, c: seq<Listener>)
    ensures (a + b) + c == a + (b + c)
  {
  }

  /** A button set attaches a disabled-attribute observer. */
  function ObserversFor(cs: ColourSet): seq<Observer> {
    if cs.disabled.Some? then [Observer(cs.disabled.value, cs.default)] else []
  }

  /** Writing the accumulated state into a live node. */
  function LiveMerge(st: ElementState, css: string, res: Resolution, cs: ColourSet): ElementState {
    st.(style := css + DeclsText(res.styles),
        className := st.className + " " + Join(res.classes, " "),
        listeners := st.listeners + ListenersFor(res.actions),
        observers := st.observers + ObserversFor(cs))
  }

  /** The classes of a virtual result: the new ones, then the node's own class list if it has one. */
  function OwnClass(node: Node): seq<string> {
    if node.className != "" then [node.className] else []
  }

  /** The clone `convert` returns for a virtual node. */
  function VirtualMerge(node: Node, res: Resolution): Node {
    node.(style := node.style + DeclsMap(res.styles),
          className := Join(res.classes + OwnClass(node), " "),
          handlers := HandlerProps(res.actions))
  }

  /** Converting a live node: check, snapshot, run the phases, write back. */
  function LiveConvert(st: ElementState, cs: ColourSet): Result<ElementState, ConvertError>
    requires Validate(st.tagName, st.typeAttr, cs).Pass? ==> WellFormed(st.style)
  {
    var check := Validate(st.tagName, st.typeAttr, cs);
    if check.Fail? then Err(check.error)
    else
      var existing := Snapshot(st.style);
      var res :- Resolve(cs, LiveSuppressed(existing, st.className), LiveDisabled(st), existing);
      Ok(LiveMerge(st, Terminated(st.style), res, cs))
  }

  /** Converting a virtual node: check, read its style prop, run the phases, clone. */
  function VirtualConvert(node: Node, cs: ColourSet): Result<Node, ConvertError> {
    var check := Validate(node.tag, node.typeAttr, cs);
    if check.Fail? then Err(check.error)
    else
      var res :- Resolve(cs, VirtualSuppressed(node.style, node.className), node.disabled, node.style);
      Ok(VirtualMerge(node, res))
  }

  // ---------------------------------------------------------------------------
  // The converter object.

  class ElementConverter {
    const target: Target
    const cs: ColourSet
    var classes: seq<string>
    var styles: seq<Decl>
    var css: string
    var actions: map<Action, ColourValue>
    var existing: map<string, string>

    /** The live element a conversion writes to, if any. */
    ghost function Frame(): set<object> {
      if target.Live? then {target.el} else {}
    }

    function Accumulated(): Resolution
      reads this
    {
      Resolution(classes, styles, actions)
    }

    /** The `hasForeground || hasBackground` test of `setColours`. */
    function Suppressed(): bool
      reads this, Frame()
    {
      if target.Live? then LiveSuppressed(existing, target.el.className)
      else VirtualSuppressed(existing, target.node.className)
    }

    /** The `disabled` flag of `setColours`. */
    function DisabledNow(): bool
      reads Frame()
    {
      if target.Live? then LiveDisabled(target.el.State()) else target.node.disabled
    }

    /**
     * The constructor: records the node and the set and snapshots the existing inline
     * styles. The shape check that precedes the snapshot is `Create`'s.
     */
    constructor (target: Target, cs: ColourSet)
      requires target.Live? ==> WellFormed(target.el.style)
      ensures this.target == target && this.cs == cs
      ensures Accumulated() == EmptyResolution()
      ensures target.Live? ==> css == Terminated(target.el.style) && existing == Snapshot(target.el.style)
      ensures target.Virtual? ==> css == "" && existing == target.node.style
    {
      this.target := target;
      this.cs := cs;
      classes := [];
      styles := [];
      actions := map[];
      if target.Live? {
        var text, snapshot := ReadStyle(target.el.style);
        css := text;
        existing := snapshot;
      } else {
        css := "";
        existing := target.node.style;
      }
    }

    /** Construction with the shape check, which throws before anything is read. */
    static method Create(target: Target, cs: ColourSet) returns (r: Result<ElementConverter, ConvertError>)
      requires Validate(TagOf(target), TypeOf(target), cs).Pass? && target.Live? ==> WellFormed(target.el.style)
      ensures Validate(TagOf(target), TypeOf(target), cs).Fail? ==> r == Err(Validate(TagOf(target), TypeOf(target), cs).error)
      ensures Validate(TagOf(target), TypeOf(target), cs).Pass? ==> r.Ok?
      ensures r.Ok? ==> (fresh(r.value) && r.value.target == target && r.value.cs == cs && r.value.Accumulated() == EmptyResolution())
      ensures r.Ok? && target.Live? ==>
        r.value.css == Terminated(target.el.style) && r.value.existing == Snapshot(target.el.style)
      ensures r.Ok? && target.Virtual? ==> r.value.css == "" && r.value.existing == target.node.style
    {
      var check := Validate(TagOf(target), TypeOf(target), cs);
      if check.Fail? {
        return Err(check.error);
      }
      var c := new ElementConverter(target, cs);
      r := Ok(c);
    }

    /** The constructor's reading of the style attribute, segment by segment. */
    static method ReadStyle(attr: string) returns (css: string, existing: map<string, string>)
      requires WellFormed(attr)
      ensures css == Terminated(attr) && existing == Snapshot(attr)
    {
      css := attr;
      if css != "" && !EndsWith(css, ";") {
        css := css + ";";
      }
      var segs := Split(css, ';');
      existing := map[];
      var i := 0;
      while i < |segs|
        invariant 0 <= i <= |segs|
        invariant SegmentsOk(segs[..i])
        invariant existing == AddSegments(map[], segs[..i])
      {
        var seg := segs[i];
        AddSegmentsStep(segs, i);
        if seg != "" {
          var fields := Split(seg, ':');
          var prop := CamelKey(fields[0]);
          existing := existing[Trim(prop) := Trim(fields[1])];
        }
        i := i + 1;
      }
      assert segs[..|segs|] == segs;
    }

    /** The kebab-case to camelCase loop: a '-' is dropped and the character after it upper-cased. */
    static method CamelKey(key: string) returns (prop: string)
      requires CamelDefined(key)
      ensures prop == KebabToCamel(key)
    {
      prop := "";
      var c := 0;
      while c < |key|
        invariant 0 <= c <= |key|
        invariant CamelDefined(key[c..])
        invariant prop + KebabToCamel(key[c..]) == KebabToCamel(key)
      {
        var rest := key[c..];
        if key[c] == '-' {
          assert rest[2..] == key[c + 2..];
          c := c + 1;
          prop := prop + [UpperChar(key[c])];
        } else {
          assert rest[1..] == key[c + 1..];
          prop := prop + [key[c]];
        }
        c := c + 1;
      }
    }

    /** The camelCase to kebab-case loop of `convert`, character by character. */
    static method KebabKey(key: string) returns (prop: string)
      ensures prop == CamelToKebab(key)
    {
      prop := "";
      var j := 0;
      while j < |key|
        invariant 0 <= j <= |key|
        invariant prop == CamelToKebab(key[..j])
      {
        var lt := key[j];
        KebabAppend(key[..j], [lt]);
        assert key[..j + 1] == key[..j] + [lt];
        assert CamelToKebab([lt]) == (if UpperChar(lt) == lt then ['-', LowerChar(lt)] else [lt]);
        if UpperChar(lt) == lt {
          prop := prop + ['-', LowerChar(lt)];
        } else {
          prop := prop + [lt];
        }
        j := j + 1;
      }
      assert key[..|key|] == key;
    }

    /** The two `hasExisting` questions of `setColours`; a virtual node asks the foreground one twice. */
    method ExistingChannels() returns (hasForeground: bool, hasBackground: bool)
      ensures (hasForeground || hasBackground) == Suppressed()
    {
      if target.Live? {
        hasForeground := HasExisting(existing, Some(target.el.className), Foreground);
        hasBackground := HasExisting(existing, Some(target.el.className), Background);
      } else {
        hasForeground := HasExisting(existing, Some(target.node.className), Foreground);
        hasBackground := HasExisting(existing, Some(target.node.className), Foreground);
      }
    }

    /** One phase: the state changes exactly as `Step` says. */
    method SetColours(phase: Phase, v: ColourValue) returns (r: Outcome<ConvertError>)
      modifies this
      ensures css == old(css) && existing == old(existing)
      ensures Step(old(Accumulated()), phase, v, Suppressed(), DisabledNow(), existing).Err? ==>
        r == Fail(MixedColourForms)
      ensures Step(old(Accumulated()), phase, v, Suppressed(), DisabledNow(), existing).Ok? ==>
        r == Pass && Accumulated() == Step(old(Accumulated()), phase, v, Suppressed(), DisabledNow(), existing).value
    {
      var disabled := DisabledNow();
      var hasForeground, hasBackground := ExistingChannels();
      r := Pass;
      if !hasForeground && !hasBackground {
        match v
        case Str(s) =>
          SetString(phase, s, disabled);
        case Pair(t, b) =>
          if IsMixed(v) {
            return Fail(MixedColourForms);
          }
          SetPair(phase, t, b, disabled);
      }
    }

    /** A string value: a '#' colour goes to styles and handlers as its phase says, anything else is a class. */
    method SetString(phase: Phase, s: string, disabled: bool)
      modifies this
      ensures css == old(css) && existing == old(existing)
      ensures Accumulated() == Step(old(Accumulated()), phase, Str(s), false, disabled, existing).value
    {
      var v := Str(s);
      if IsRaw(s) {
        match phase
        case Default =>
          styles := Assign(styles, "color", s);
          actions := actions[Leave := v];
          actions := actions[Up := v];
        case Disabled =>
          if disabled {
            styles := Assign(styles, "color", s);
          }
        case Hover =>
          actions := actions[Enter := v];
          actions := actions[Up := v];
        case Active =>
          actions := actions[Down := v];
        case Visited =>
      } else {
        classes := classes + [s];
      }
    }

    /** A pair in one form: raw colours go to styles and handlers, a class pair adds background then text. */
    method SetPair(phase: Phase, t: string, b: string, disabled: bool)
      requires !IsMixed(Pair(t, b))
      modifies this
      ensures css == old(css) && existing == old(existing)
      ensures Accumulated() == Step(old(Accumulated()), phase, Pair(t, b), false, disabled, existing).value
    {
      var v := Pair(t, b);
      if IsRaw(b) {
        match phase
        case Default =>
          if "backgroundColor" !in existing {
            styles := Assign(styles, "backgroundColor", b);
          }
          if "color" !in existing {
            styles := Assign(styles, "color", t);
          }
          actions := actions[Leave := v];
          actions := actions[Up := v];
        case Disabled =>
          if disabled {
            styles := Assign(styles, "backgroundColor", b);
            styles := Assign(styles, "color", t);
          }
        case Hover =>
          actions := actions[Enter := v];
          actions := actions[Up := v];
        case Active =>
          actions := actions[Down := v];
        case Visited =>
      } else {
        classes := classes + [b];
        classes := classes + [t];
      }
    }

    /** Run the phase of an optional member; a missing member is skipped. */
    method SetColoursIf(phase: Phase, v: Option<ColourValue>) returns (r: Outcome<ConvertError>)
      modifies this
      ensures css == old(css) && existing == old(existing)
      ensures StepIf(old(Accumulated()), phase, v, Suppressed(), DisabledNow(), existing).Err? ==>
        r == Fail(MixedColourForms)
      ensures StepIf(old(Accumulated()), phase, v, Suppressed(), DisabledNow(), existing).Ok? ==>
        r == Pass && Accumulated() == StepIf(old(Accumulated()), phase, v, Suppressed(), DisabledNow(), existing).value
    {
      r := Pass;
      if v.Some? {
        r := SetColours(phase, v.value);
      }
    }

    /** The five phases of `convert`, in order; the first failing one throws. */
    method RunPhases() returns (r: Outcome<ConvertError>)
      modifies this
      ensures css == old(css) && existing == old(existing)
      ensures ResolveFrom(old(Accumulated()), cs, Suppressed(), DisabledNow(), existing).Err? ==>
        r == Fail(MixedColourForms)
      ensures ResolveFrom(old(Accumulated()), cs, Suppressed(), DisabledNow(), existing).Ok? ==>
        r == Pass && Accumulated() == ResolveFrom(old(Accumulated()), cs, Suppressed(), DisabledNow(), existing).value
    {
      r := SetColours(Default, cs.default);
      if r.Fail? {
        return;
      }
      r := SetColoursIf(Hover, cs.hover);
      if r.Fail? {
        return;
      }
      r := SetColoursIf(Active, cs.active);
      if r.Fail? {
        return;
      }
      r := SetColoursIf(Visited, VisitedValue(cs));
      if r.Fail? {
        return;
      }
      r := SetColoursIf(Disabled, cs.disabled);
    }

    /** The write-back loop: each accumulated declaration under its kebab-case name. */
    static method WriteDecls(css0: string, decls: seq<Decl>) returns (css: string)
      ensures css == css0 + DeclsText(decls)
    {
      css := css0;
      var i := 0;
      while i < |decls|
        invariant 0 <= i <= |decls|
        invariant css == css0 + DeclsText(decls[..i])
      {
        var prop := KebabKey(decls[i].key);
        DeclsTextStep(decls, i);
        ConcatAssoc(css0, DeclsText(decls[..i]), DeclText(prop, decls[i].value));
        css := css + DeclText(prop, decls[i].value);
        i := i + 1;
      }
      assert decls[..|decls|] == decls;
    }

    /** The live write-back: style text, class list and the handlers that were set. */
    static method WriteLive(el: LiveElement, css0: string, res: Resolution) returns (css: string)
      modifies el
      ensures css == css0 + DeclsText(res.styles)
      ensures el.State() == old(el.State()).(
        style := css,
        className := old(el.className) + " " + Join(res.classes, " "),
        listeners := old(el.listeners) + ListenersFor(res.actions))
    {
      css := WriteDecls(css0, res.styles);
      el.style := css;
      el.className := el.className + " " + Join(res.classes, " ");
      ghost var before := el.listeners;
      ghost var e, l, d, u := ListenerFor(res.actions, Enter), ListenerFor(res.actions, Leave),
        ListenerFor(res.actions, Down), ListenerFor(res.actions, Up);
      AddListener(el, Enter, res.actions);
      AddListener(el, Leave, res.actions);
      AppendAssoc(before, e, l);
      AddListener(el, Down, res.actions);
      AppendAssoc(before, e + l, d);
      AddListener(el, Up, res.actions);
      AppendAssoc(before, e + l + d, u);
    }

    /** `addEventListener` for one handler; an unset handler adds nothing. */
    static method AddListener(el: LiveElement, a: Action, actions: map<Action, ColourValue>)
      modifies el
      ensures el.State() == old(el.State()).(listeners := old(el.listeners) + ListenerFor(actions, a))
    {
      if a in actions {
        el.listeners := el.listeners + [Listener(a, actions[a])];
      }
    }

    /** The virtual write-back: the node's own class list goes last, then the clone. */
    method CloneVirtual() returns (n: Node)
      requires target.Virtual?
      modifies this
      ensures n == VirtualMerge(target.node, old(Accumulated()))
      ensures classes == old(classes) + OwnClass(target.node)
      ensures styles == old(styles) && actions == old(actions) && css == old(css) && existing == old(existing)
    {
      var node := target.node;
      if node.className != "" {
        classes := classes + [node.className];
      }
      assert classes == old(classes) + OwnClass(node);
      n := node.(style := node.style + DeclsMap(styles),
                 className := Join(classes, " "),
                 handlers := HandlerProps(actions));
    }

    /**
     * `convert`: all phases, then the write-back. A failing phase throws before
     * anything is written, so the live node is untouched.
     */
    method Convert() returns (r: Result<Option<Node>, ConvertError>)
      modifies this, Frame()
      ensures existing == old(existing)
      ensures ResolveFrom(old(Accumulated()), cs, old(Suppressed()), old(DisabledNow()), existing).Err? ==>
        r == Err(MixedColourForms) && (target.Live? ==> target.el.State() == old(target.el.State()))
      ensures ResolveFrom(old(Accumulated()), cs, old(Suppressed()), old(DisabledNow()), existing).Ok? && target.Live? ==>
        var res := ResolveFrom(old(Accumulated()), cs, old(Suppressed()), old(DisabledNow()), existing).value;
        r == Ok(None) && Accumulated() == res && css == old(css) + DeclsText(res.styles)
        && target.el.State() == LiveMerge(old(target.el.State()), old(css), res, cs)
      ensures ResolveFrom(old(Accumulated()), cs, old(Suppressed()), old(DisabledNow()), existing).Ok? && target.Virtual? ==>
        var res := ResolveFrom(old(Accumulated()), cs, old(Suppressed()), old(DisabledNow()), existing).value;
        r == Ok(Some(VirtualMerge(target.node, res))) && classes == res.classes + OwnClass(target.node)
    {
      var o := RunPhases();
      if o.Fail? {
        return Err(o.error);
      }
      if target.Live? {
        if cs.disabled.Some? {
          target.el.observers := target.el.observers + [Observer(cs.disabled.value, cs.default)];
        }
        css := WriteLive(target.el, css, Accumulated());
        r := Ok(None);
      } else {
        var n := CloneVirtual();
        r := Ok(Some(n));
      }
    }

    /** Convert one live element, as the live-tree walker does for each match. */
    static method ConvertLive(el: LiveElement, cs: ColourSet) returns (r: Outcome<ConvertError>)
      requires Validate(el.tagName, el.typeAttr, cs).Pass? ==> WellFormed(el.style)
      modifies el
      ensures LiveConvert(old(el.State()), cs).Err? ==>
        r == Fail(LiveConvert(old(el.State()), cs).error) && el.State() == old(el.State())
      ensures LiveConvert(old(el.State()), cs).Ok? ==>
        r == Pass && el.State() == LiveConvert(old(el.State()), cs).value
    {
      var created := Create(Live(el), cs);
      if created.Err? {
        return Fail(created.error);
      }
      var converter := created.value;
      ghost var st := el.State();
      assert LiveDisabled(st) == converter.DisabledNow();
      assert LiveSuppressed(Snapshot(st.style), st.className) == converter.Suppressed();
      ghost var res := Resolve(cs, converter.Suppressed(), converter.DisabledNow(), converter.existing);
      assert LiveConvert(st, cs) == if res.Err? then Err(res.error) else Ok(LiveMerge(st, Terminated(st.style), res.value, cs));
      var x := converter.Convert();
      if x.Err? {
        return Fail(x.error);
      }
      r := Pass;
    }

    /** Convert one virtual element, as the virtual-tree walker does for each match. */
    static method ConvertVirtual(node: Node, cs: ColourSet) returns (r: Result<Node, ConvertError>)
      ensures r == VirtualConvert(node, cs)
    {
      var created := Create(Virtual(node), cs);
      if created.Err? {
        return Err(created.error);
      }
      var converter := created.value;
      assert converter.target == Virtual(node) && converter.Frame() == {};
      assert converter.existing == node.style && converter.DisabledNow() == node.disabled;
      ghost var res := Resolve(cs, VirtualSuppressed(node.style, node.className), node.disabled, node.style);
      assert converter.Suppressed() == VirtualSuppressed(node.style, node.className);
      assert VirtualConvert(node, cs) == if res.Err? then Err(res.error) else Ok(VirtualMerge(node, res.value));
      var x := converter.Convert();
      if x.Err? {
        return Err(x.error);
      }
      r := Ok(x.value.value);
    }
  }
}
