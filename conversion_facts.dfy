/**
 * What one conversion does to a node, stated against the reference reading of the
 * phases: when it fails, what a suppressed conversion still changes, and the classes,
 * inline colours and handlers a successful one leaves behind.
 */
module ConversionFacts {
  import opened Wrappers
  import opened Strings
  import opened Theme
  import opened StyleText
  import opened ExistingColour
  import opened Resolver
  import opened LiveDom
  import opened VirtualDom
  import opened ElementConversion

  // ---------------------------------------------------------------------------
  // Failure.

  /** A live conversion fails on a wrong node kind or, unless suppressed, on a mixed pair. */
  lemma LiveConvertFails(st: ElementState, cs: ColourSet)
    requires Validate(st.tagName, st.typeAttr, cs).Pass? ==> WellFormed(st.style)
    ensures LiveConvert(st, cs).Err? <==>
      Validate(st.tagName, st.typeAttr, cs).Fail?
      || (!LiveSuppressed(Snapshot(st.style), st.className) && HasMixedMember(cs))
    ensures Validate(st.tagName, st.typeAttr, cs).Fail? ==>
      LiveConvert(st, cs) == Err(Validate(st.tagName, st.typeAttr, cs).error)
    ensures Validate(st.tagName, st.typeAttr, cs).Pass? && LiveConvert(st, cs).Err? ==>
      LiveConvert(st, cs).error == MixedColourForms
  {
    if Validate(st.tagName, st.typeAttr, cs).Pass? {
      var existing := Snapshot(st.style);
      ResolveFails(EmptyResolution(), cs, LiveSuppressed(existing, st.className), LiveDisabled(st), existing);
    }
  }

  /** The same for a virtual node, where only the foreground question suppresses. */
  lemma VirtualConvertFails(node: Node, cs: ColourSet)
    ensures VirtualConvert(node, cs).Err? <==>
      Validate(node.tag, node.typeAttr, cs).Fail?
      || (!VirtualSuppressed(node.style, node.className) && HasMixedMember(cs))
    ensures Validate(node.tag, node.typeAttr, cs).Fail? ==>
      VirtualConvert(node, cs) == Err(Validate(node.tag, node.typeAttr, cs).error)
    ensures Validate(node.tag, node.typeAttr, cs).Pass? && VirtualConvert(node, cs).Err? ==>
      VirtualConvert(node, cs).error == MixedColourForms
  {
    if Validate(node.tag, node.typeAttr, cs).Pass? {
      ResolveFails(EmptyResolution(), cs, VirtualSuppressed(node.style, node.className), node.disabled, node.style);
    }
  }

  // ---------------------------------------------------------------------------
  // Suppressed conversions.

  /**
   * A live node that is already coloured keeps its colours: the style text is only
   * normalised, the class list only gains the separator, no handler is added, and a
   * button set still attaches its observer.
   */
  lemma LiveConvertSuppressed(st: ElementState, cs: ColourSet)
    requires WellFormed(st.style)
    requires Validate(st.tagName, st.typeAttr, cs).Pass?
    requires LiveSuppressed(Snapshot(st.style), st.className)
    ensures LiveConvert(st, cs) ==
      Ok(st.(style := Terminated(st.style), className := st.className + " ",
             observers := st.observers + ObserversFor(cs)))
    ensures Snapshot(Terminated(st.style)) == Snapshot(st.style)
  {
    var existing := Snapshot(st.style);
    ResolveSuppressed(EmptyResolution(), cs, LiveDisabled(st), existing);
    assert DeclsText([]) == "";
    assert Terminated(st.style) + "" == Terminated(st.style);
    assert st.className + " " + Join([], " ") == st.className + " ";
    assert ListenersFor(map[]) == [];
    assert st.listeners + [] == st.listeners;
    SnapshotAfterDecls(st.style, []);
  }

  /**
   * A virtual node whose foreground is already coloured is cloned with its styles and
   * class list as they were; its four mouse-handler props are cleared.
   */
  lemma VirtualConvertSuppressed(node: Node, cs: ColourSet)
    requires Validate(node.tag, node.typeAttr, cs).Pass?
    requires VirtualSuppressed(node.style, node.className)
    ensures VirtualConvert(node, cs) == Ok(node.(handlers := map[]))
  {
    ResolveSuppressed(EmptyResolution(), cs, node.disabled, node.style);
    assert DeclsMap([]) == map[];
    assert node.style + map[] == node.style;
    assert Join(OwnClass(node), " ") == node.className;
  }

  // ---------------------------------------------------------------------------
  // Successful conversions.

  /** A raw member the style text reads back exactly. */
  predicate PlainRaw(v: ColourValue) {
    IsRawValue(v) ==> PlainColour(v)
  }

  /** The members that can reach the inline styles (default and disabled) are plain when raw. */
  predicate PlainSet(cs: ColourSet) {
    PlainRaw(cs.default) && (cs.disabled.Some? ==> PlainRaw(cs.disabled.value))
  }

  lemma AssignPlain(decls: seq<Decl>, key: string, value: string)
    requires PlainDecls(decls) && AllLetters(key) && PlainValue(value)
    ensures PlainDecls(Assign(decls, key, value))
  {
  }

  /** A phase only ever writes plain declarations under letter keys. */
  lemma StepPlain(res: Resolution, phase: Phase, v: ColourValue, suppressed: bool, disabled: bool,
                  existing: map<string, string>)
    requires PlainDecls(res.styles)
    requires phase == Default || phase == Disabled ==> PlainRaw(v)
    requires Step(res, phase, v, suppressed, disabled, existing).Ok?
    ensures PlainDecls(Step(res, phase, v, suppressed, disabled, existing).value.styles)
  {
    assert AllLetters("color") && AllLetters("backgroundColor");
    if !suppressed && (phase == Default || phase == Disabled) {
      match v
      case Str(s) =>
        if IsRaw(s) {
          AssignPlain(res.styles, "color", s);
        }
      case Pair(t, b) =>
        if IsRaw(b) {
          AssignPlain(res.styles, "backgroundColor", b);
          var s1 := if "backgroundColor" in existing && phase == Default then res.styles
                    else Assign(res.styles, "backgroundColor", b);
          AssignPlain(s1, "color", t);
        }
    }
  }

  lemma StepIfPlain(res: Resolution, phase: Phase, v: Option<ColourValue>, suppressed: bool, disabled: bool,
                    existing: map<string, string>)
    requires PlainDecls(res.styles)
    requires v.Some? && (phase == Default || phase == Disabled) ==> PlainRaw(v.value)
    requires StepIf(res, phase, v, suppressed, disabled, existing).Ok?
    ensures PlainDecls(StepIf(res, phase, v, suppressed, disabled, existing).value.styles)
  {
    if v.Some? {
      StepPlain(res, phase, v.value, suppressed, disabled, existing);
    }
  }

  /** The styles a conversion accumulates are plain when the set's raw members are. */
  lemma ResolvePlain(cs: ColourSet, suppressed: bool, disabled: bool, existing: map<string, string>)
    requires PlainSet(cs)
    requires Resolve(cs, suppressed, disabled, existing).Ok?
    ensures PlainDecls(Resolve(cs, suppressed, disabled, existing).value.styles)
  {
    var r0 := EmptyResolution();
    StepPlain(r0, Default, cs.default, suppressed, disabled, existing);
    var r1 := Step(r0, Default, cs.default, suppressed, disabled, existing).value;
    StepIfPlain(r1, Hover, cs.hover, suppressed, disabled, existing);
    var r2 := StepIf(r1, Hover, cs.hover, suppressed, disabled, existing).value;
    StepIfPlain(r2, Active, cs.active, suppressed, disabled, existing);
    var r3 := StepIf(r2, Active, cs.active, suppressed, disabled, existing).value;
    StepIfPlain(r3, Visited, VisitedValue(cs), suppressed, disabled, existing);
    var r4 := StepIf(r3, Visited, VisitedValue(cs), suppressed, disabled, existing).value;
    StepIfPlain(r4, Disabled, cs.disabled, suppressed, disabled, existing);
  }

  /** The listener a handler value becomes, if the set gives that handler one. */
  function OptListener(a: Action, v: Option<ColourValue>): seq<Listener> {
    if v.Some? then [Listener(a, v.value)] else []
  }

  /** The reference listeners: each handler's expected value, in the order enter, leave, down, up. */
  function ExpectedListeners(cs: ColourSet): seq<Listener> {
    OptListener(Enter, ExpectedAction(cs, Enter)) + OptListener(Leave, ExpectedAction(cs, Leave))
      + OptListener(Down, ExpectedAction(cs, Down)) + OptListener(Up, ExpectedAction(cs, Up))
  }

  lemma ListenersAgree(actions: map<Action, ColourValue>, cs: ColourSet)
    requires ActionsAgree(actions, cs)
    ensures ListenersFor(actions) == ExpectedListeners(cs)
  {
    assert Enter in actions <==> ExpectedAction(cs, Enter).Some?;
    assert Leave in actions <==> ExpectedAction(cs, Leave).Some?;
    assert Down in actions <==> ExpectedAction(cs, Down).Some?;
    assert Up in actions <==> ExpectedAction(cs, Up).Some?;
  }

  /** The handler props of a virtual result agree with the reference reading. */
  ghost predicate HandlersAgree(handlers: map<Action, Handler>, cs: ColourSet) {
    forall a: Action ::
      (a in handlers <==> ExpectedAction(cs, a).Some?)
      && (a in handlers ==> handlers[a] == ColourHandler(ExpectedAction(cs, a).value))
  }

  /**
   * The inline colours after a conversion: a key the reference reading sets has its
   * expected value, every other key keeps the value it had.
   */
  ghost predicate InlineAgree(after: map<string, string>, before: map<string, string>, cs: ColourSet,
                              disabled: bool, existing: map<string, string>) {
    forall key: string {:trigger key in after} {:trigger ExpectedStyle(cs, disabled, existing, key)} ::
      (key in after <==> key in before || ExpectedStyle(cs, disabled, existing, key).Some?)
      && (key in after ==>
            after[key] == if ExpectedStyle(cs, disabled, existing, key).Some?
                          then ExpectedStyle(cs, disabled, existing, key).value else before[key])
  }

  lemma MergeAgree(before: map<string, string>, styles: seq<Decl>, cs: ColourSet, disabled: bool,
                   existing: map<string, string>)
    requires StylesAgree(styles, cs, disabled, existing)
    ensures InlineAgree(before + DeclsMap(styles), before, cs, disabled, existing)
  {
  }

  /**
   * A live node that is not yet coloured, converted with a well-formed set: the class
   * list gains every class member in phase order, the style text keeps what it had and
   * reads back with the expected inline colours, and the expected listeners follow the
   * old ones.
   */
  lemma LiveConvertContents(st: ElementState, cs: ColourSet)
    requires WellFormed(st.style)
    requires Validate(st.tagName, st.typeAttr, cs).Pass?
    requires !LiveSuppressed(Snapshot(st.style), st.className)
    requires !HasMixedMember(cs) && PlainSet(cs)
    ensures LiveConvert(st, cs).Ok?
    ensures var r := LiveConvert(st, cs).value;
      r.tagName == st.tagName && r.typeAttr == st.typeAttr && r.disabled == st.disabled
      && r.className == st.className + " " + Join(ExpectedClasses(cs), " ")
      && StartsWith(r.style, Terminated(st.style)) && WellFormed(r.style)
      && InlineAgree(Snapshot(r.style), Snapshot(st.style), cs, LiveDisabled(st), Snapshot(st.style))
      && r.listeners == st.listeners + ExpectedListeners(cs)
      && r.observers == st.observers + ObserversFor(cs)
  {
    var existing := Snapshot(st.style);
    var disabled := LiveDisabled(st);
    ResolveContents(cs, disabled, existing);
    ResolvePlain(cs, false, disabled, existing);
    var res := Resolve(cs, false, disabled, existing).value;
    assert LiveConvert(st, cs) == Ok(LiveMerge(st, Terminated(st.style), res, cs));
    SnapshotAfterDecls(st.style, res.styles);
    MergeAgree(existing, res.styles, cs, disabled, existing);
    ListenersAgree(res.actions, cs);
  }

  /**
   * A virtual node whose foreground is not yet coloured: the clone carries the expected
   * inline colours over the node's own styles, the class members followed by the node's
   * own class list, and exactly the expected handlers; tag, type, children and the
   * disabled flag are untouched.
   */
  lemma VirtualConvertContents(node: Node, cs: ColourSet)
    requires Validate(node.tag, node.typeAttr, cs).Pass?
    requires !VirtualSuppressed(node.style, node.className)
    requires !HasMixedMember(cs)
    ensures VirtualConvert(node, cs).Ok?
    ensures var r := VirtualConvert(node, cs).value;
      r.tag == node.tag && r.typeAttr == node.typeAttr && r.disabled == node.disabled
      && r.children == node.children
      && r.className == Join(ExpectedClasses(cs) + OwnClass(node), " ")
      && InlineAgree(r.style, node.style, cs, node.disabled, node.style)
      && HandlersAgree(r.handlers, cs)
  {
    ResolveContents(cs, node.disabled, node.style);
    var res := Resolve(cs, false, node.disabled, node.style).value;
    assert VirtualConvert(node, cs) == Ok(VirtualMerge(node, res));
    MergeAgree(node.style, res.styles, cs, node.disabled, node.style);
  }

  // ---------------------------------------------------------------------------
  // Events after a conversion.

  /** Where a handler's listener sits among the expected ones; it is the only one for its event. */
  lemma ExpectedListenerAt(cs: ColourSet, a: Action) returns (k: nat)
    requires ExpectedAction(cs, a).Some?
    ensures k < |ExpectedListeners(cs)| && ExpectedListeners(cs)[k] == Listener(a, ExpectedAction(cs, a).value)
    ensures forall j :: 0 <= j < |ExpectedListeners(cs)| && j != k ==> ExpectedListeners(cs)[j].event != a
  {
    var l1 := OptListener(Enter, ExpectedAction(cs, Enter));
    var l2 := OptListener(Leave, ExpectedAction(cs, Leave));
    var l3 := OptListener(Down, ExpectedAction(cs, Down));
    var l4 := OptListener(Up, ExpectedAction(cs, Up));
    var e := ExpectedListeners(cs);
    assert e == l1 + l2 + l3 + l4;
    match a
    case Enter => k := 0;
    case Leave => k := |l1|;
    case Down => k := |l1| + |l2|;
    case Up => k := |l1| + |l2| + |l3|;
  }

  /** Firing an event on listeners that end with the expected ones and hold no earlier one for it. */
  lemma FireExpected(style: string, prior: seq<Listener>, cs: ColourSet, a: Action)
    requires WellFormed(style)
    requires forall j :: 0 <= j < |prior| ==> prior[j].event != a
    requires ExpectedAction(cs, a).Some? && PlainColour(ExpectedAction(cs, a).value)
    ensures WellFormed(FireListeners(style, false, prior + ExpectedListeners(cs), a))
    ensures Snapshot(FireListeners(style, false, prior + ExpectedListeners(cs), a))
      == ColourUpdate(Snapshot(style), ExpectedAction(cs, a).value)
  {
    var ls := prior + ExpectedListeners(cs);
    var e := ExpectedListeners(cs);
    var k := ExpectedListenerAt(cs, a);
    var n := |prior|;
    forall j | 0 <= j < |ls| && j != n + k
      ensures ls[j].event != a
    {
      if j >= n {
        assert ls[j] == e[j - n];
      } else {
        assert ls[j] == prior[j];
      }
    }
    assert ls[n + k] == e[k];
    FireOneListener(style, ls, a, n + k);
  }

  /** Firing an event the expected listeners have no entry for changes nothing. */
  lemma FireUnexpected(style: string, prior: seq<Listener>, cs: ColourSet, a: Action)
    requires forall j :: 0 <= j < |prior| ==> prior[j].event != a
    requires ExpectedAction(cs, a).None?
    ensures FireListeners(style, false, prior + ExpectedListeners(cs), a) == style
  {
    var ls := prior + ExpectedListeners(cs);
    var e := ExpectedListeners(cs);
    var n := |prior|;
    assert e == OptListener(Enter, ExpectedAction(cs, Enter)) + OptListener(Leave, ExpectedAction(cs, Leave))
      + OptListener(Down, ExpectedAction(cs, Down)) + OptListener(Up, ExpectedAction(cs, Up));
    forall j | 0 <= j < |ls|
      ensures ls[j].event != a
    {
      if j >= n {
        assert ls[j] == e[j - n];
      } else {
        assert ls[j] == prior[j];
      }
    }
    NoListenerFires(style, ls, a);
  }

  /**
   * On an enabled element with no earlier listener for the event, the event shows the
   * handler's expected colour (hover on enter, the default on leave, active on down), and
   * an event the set has no handler for leaves the style as the conversion wrote it.
   */
  lemma FireAfterConvert(st: ElementState, cs: ColourSet, a: Action)
    requires WellFormed(st.style) && !st.disabled
    requires Validate(st.tagName, st.typeAttr, cs).Pass?
    requires !LiveSuppressed(Snapshot(st.style), st.className)
    requires !HasMixedMember(cs) && PlainSet(cs)
    requires forall j :: 0 <= j < |st.listeners| ==> st.listeners[j].event != a
    requires ExpectedAction(cs, a).Some? ==> PlainColour(ExpectedAction(cs, a).value)
    ensures LiveConvert(st, cs).Ok? && WellFormed(LiveConvert(st, cs).value.style)
    ensures var r := LiveConvert(st, cs).value;
      ExpectedAction(cs, a).Some? ==>
        WellFormed(FireListeners(r.style, r.disabled, r.listeners, a))
        && Snapshot(FireListeners(r.style, r.disabled, r.listeners, a))
           == ColourUpdate(Snapshot(r.style), ExpectedAction(cs, a).value)
    ensures var r := LiveConvert(st, cs).value;
      ExpectedAction(cs, a).None? ==> FireListeners(r.style, r.disabled, r.listeners, a) == r.style
  {
    LiveConvertContents(st, cs);
    var r := LiveConvert(st, cs).value;
    if ExpectedAction(cs, a).Some? {
      FireExpected(r.style, st.listeners, cs, a);
    } else {
      FireUnexpected(r.style, st.listeners, cs, a);
    }
  }

  /** Any successful conversion with plain raw members leaves style text the snapshot can read. */
  lemma LiveConvertWellFormed(st: ElementState, cs: ColourSet)
    requires WellFormed(st.style)
    requires PlainSet(cs)
    requires LiveConvert(st, cs).Ok?
    ensures WellFormed(LiveConvert(st, cs).value.style)
    ensures LiveConvert(st, cs).value.observers == st.observers + ObserversFor(cs)
  {
    var existing := Snapshot(st.style);
    var suppressed := LiveSuppressed(existing, st.className);
    ResolvePlain(cs, suppressed, LiveDisabled(st), existing);
    var res := Resolve(cs, suppressed, LiveDisabled(st), existing).value;
    assert LiveConvert(st, cs) == Ok(LiveMerge(st, Terminated(st.style), res, cs));
    SnapshotAfterDecls(st.style, res.styles);
  }

  /** A single observer writes the colours for the new attribute value. */
  lemma RunOneObserver(style: string, o: Observer, b: bool)
    requires WellFormed(style) && PlainColour(o.disabledValue) && PlainColour(o.defaultValue)
    ensures WellFormed(RunObservers(style, [o], b))
    ensures Snapshot(RunObservers(style, [o], b))
      == ColourUpdate(Snapshot(style), if b then o.disabledValue else o.defaultValue)
  {
    var v := if b then o.disabledValue else o.defaultValue;
    assert RunObservers(style, [o], b) == RunObservers(WriteColour(style, v), [], b);
    WriteColourSnapshot(style, v);
  }

  /**
   * The observer a button set attaches writes the disabled colours when the attribute is
   * set and the default ones when it is removed, whether or not the conversion itself
   * was suppressed.
   */
  lemma ObserverAfterConvert(st: ElementState, cs: ColourSet, b: bool)
    requires WellFormed(st.style) && st.observers == []
    requires PlainSet(cs) && LiveConvert(st, cs).Ok?
    requires cs.disabled.Some? && PlainColour(cs.disabled.value) && PlainColour(cs.default)
    ensures WellFormed(LiveConvert(st, cs).value.style)
    ensures var r := LiveConvert(st, cs).value;
      r.observers == [Observer(cs.disabled.value, cs.default)]
      && WellFormed(RunObservers(r.style, r.observers, b))
      && Snapshot(RunObservers(r.style, r.observers, b))
         == ColourUpdate(Snapshot(r.style), if b then cs.disabled.value else cs.default)
  {
    LiveConvertWellFormed(st, cs);
    var r := LiveConvert(st, cs).value;
    assert r.observers == [] + [Observer(cs.disabled.value, cs.default)];
    RunOneObserver(r.style, Observer(cs.disabled.value, cs.default), b);
  }

  // ---------------------------------------------------------------------------
  // The two suppression tests differ.

  /** A string without the first character of `t` does not contain `t`. */
  lemma {:induction false} MissingFirstChar(s: string, t: string)
    requires |t| > 0 && forall k :: 0 <= k < |s| ==> s[k] != t[0]
    ensures !Contains(s, t)
    decreases |s|
  {
    if |t| <= |s| {
      assert s[..|t|][0] == s[0];
    }
    if |s| > 0 {
      assert forall k :: 0 <= k < |s[1..]| ==> s[1..][k] == s[k + 1];
      MissingFirstChar(s[1..], t);
    }
  }

  /** A string without the first character of the prefix holds no shade class for it. */
  lemma {:induction false} MissingPrefixChar(s: string, p: string, i: nat)
    requires |p| > 0 && forall k :: 0 <= k < |s| ==> s[k] != p[0]
    ensures !ShadeFrom(s, p, i)
    decreases |s| - i
  {
    if i + |p| <= |s| {
      assert s[i..i + |p|][0] == s[i];
    }
    if i < |s| {
      MissingPrefixChar(s, p, i + 1);
    }
  }

  /** A class list without a 't' holds no foreground colour class. */
  lemma NoForegroundClass(s: string)
    requires forall k :: 0 <= k < |s| ==> s[k] != 't'
    ensures !HasSpecialClass(s, Foreground) && !HasShadeClass(s, Foreground)
  {
    forall k | 0 <= k < 5
      ensures !Contains(s, SpecialClasses(Foreground)[k])
    {
      assert SpecialClasses(Foreground)[k][0] == 't';
      MissingFirstChar(s, SpecialClasses(Foreground)[k]);
    }
    MissingPrefixChar(s, "text-", 0);
  }

  /**
   * A background colour class alone makes a live node count as coloured, but not a
   * virtual one, whose second question is the foreground one again.
   */
  lemma BackgroundClassSuppressesOnlyLive()
    ensures LiveSuppressed(map[], "bg-pink-400")
    ensures !VirtualSuppressed(map[], "bg-pink-400")
  {
    KnownShadeClass();
    var s := "bg-pink-400";
    assert forall k :: 0 <= k < |s| ==> s[k] != 't';
    NoForegroundClass(s);
  }
}
