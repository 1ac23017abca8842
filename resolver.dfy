/**
 * What the element converter decides before it touches a node: whether the colour set
 * fits the tag, and what each phase of the set contributes (class tokens, inline styles
 * and mouse handlers).
 */
module Resolver {
  import opened Wrappers
  import opened Strings
  import opened Theme
  import opened StyleText

  datatype Phase = Default | Hover | Active | Visited | Disabled

  /** The four mouse handlers a conversion can install. */
  datatype Action = Enter | Leave | Down | Up

  datatype ConvertError =
    | WrongInputType(inputType: Option<string>)
    | InvalidElement(tag: string)
    | MixedColourForms

  predicate IsButtonType(inputType: Option<string>) {
    inputType == Some("button") || inputType == Some("submit")
  }

  /**
   * The shape check: the set's optional members must fit the element kind. An
   * input must be a button or submit input before its set is looked at.
   */
  function Validate(tag: string, inputType: Option<string>, cs: ColourSet): (r: Outcome<ConvertError>)
    ensures r.Fail? ==> r.error == InvalidElement(tag) || r.error == WrongInputType(inputType)
    ensures r.Fail? && r.error.WrongInputType? ==> ToLower(tag) == "input" && !IsButtonType(inputType)
  {
    var kind := ToLower(tag);
    if kind == "input" && !IsButtonType(inputType) then Fail(WrongInputType(inputType))
    else
      var valid :=
        if kind == "h2" || kind == "h3" then cs.hover.None? && cs.active.None?
        else if kind == "a" then cs.hover.Some? && cs.disabled.None?
        else if kind == "button" || kind == "input" then cs.disabled.Some?
        else false;
      if valid then Pass else Fail(InvalidElement(tag))
  }

  /** The element kinds the converter accepts at all. */
  predicate KnownKind(tag: string) {
    ToLower(tag) in {"h2", "h3", "a", "button", "input"}
  }

  /** Only the five element kinds can ever pass, whatever the set. */
  lemma ValidateUnknownKind(tag: string, inputType: Option<string>, cs: ColourSet)
    requires !KnownKind(tag)
    ensures Validate(tag, inputType, cs) == Fail(InvalidElement(tag))
  {
  }

  /** A set of each typed shape passes for the element kinds it is written for. */
  lemma ValidateTypedSets(d: ColourValue, h: ColourValue, a: ColourValue, v: Option<string>, dis: ColourValue, t: Option<string>)
    ensures Validate("h2", t, HeadingSet(d)).Pass? && Validate("H3", t, HeadingSet(d)).Pass?
    ensures Validate("a", t, LinkSet(d, h, a, v)).Pass?
    ensures Validate("BUTTON", t, ButtonSet(d, h, a, dis)).Pass?
    ensures IsButtonType(t) ==> Validate("input", t, ButtonSet(d, h, a, dis)).Pass?
  {
  }

  /** ... and fails for the others: links and buttons on headings, buttons on links, headings on buttons. */
  lemma ValidateMismatchedSets(d: ColourValue, h: ColourValue, a: ColourValue, v: Option<string>, dis: ColourValue, t: Option<string>)
    ensures Validate("h2", t, LinkSet(d, h, a, v)) == Fail(InvalidElement("h2"))
    ensures Validate("h3", t, ButtonSet(d, h, a, dis)) == Fail(InvalidElement("h3"))
    ensures Validate("a", t, ButtonSet(d, h, a, dis)) == Fail(InvalidElement("a"))
    ensures Validate("a", t, HeadingSet(d)) == Fail(InvalidElement("a"))
    ensures Validate("button", t, LinkSet(d, h, a, v)) == Fail(InvalidElement("button"))
    ensures Validate("button", t, HeadingSet(d)) == Fail(InvalidElement("button"))
    ensures Validate("h4", t, HeadingSet(d)) == Fail(InvalidElement("h4"))
    ensures !IsButtonType(t) ==> Validate("input", t, ButtonSet(d, h, a, dis)) == Fail(WrongInputType(t))
  {
    assert ToLower("h4") == "h4";
  }

  /** What a conversion has accumulated: class tokens, inline styles and handlers. */
  datatype Resolution = Resolution(classes: seq<string>, styles: seq<Decl>, actions: map<Action, ColourValue>)

  function EmptyResolution(): Resolution {
    Resolution([], [], map[])
  }

  /**
   * One `setColours` call. A suppressed phase contributes nothing; a class value is
   * appended to the classes; a raw value goes to styles and handlers as its phase says;
   * a pair mixing the two forms is an error.
   */
  function Step(res: Resolution, phase: Phase, v: ColourValue, suppressed: bool, disabled: bool,
                existing: map<string, string>): (r: Result<Resolution, ConvertError>)
    ensures r.Err? <==> !suppressed && IsMixed(v)
    ensures r.Err? ==> r.error == MixedColourForms
    ensures suppressed ==> r == Ok(res)
  {
    if suppressed then Ok(res)
    else
      match v
      case Str(s) =>
        if IsRaw(s) then
          Ok(match phase
            case Default => res.(styles := Assign(res.styles, "color", s), actions := res.actions[Leave := v][Up := v])
            case Disabled => if disabled then res.(styles := Assign(res.styles, "color", s)) else res
            case Hover => res.(actions := res.actions[Enter := v][Up := v])
            case Active => res.(actions := res.actions[Down := v])
            case Visited => res)
        else Ok(res.(classes := res.classes + [s]))
      case Pair(t, b) =>
        if IsMixed(v) then Err(MixedColourForms)
        else if IsRaw(b) then
          Ok(match phase
            case Default =>
              var s1 := if "backgroundColor" in existing then res.styles else Assign(res.styles, "backgroundColor", b);
              var s2 := if "color" in existing then s1 else Assign(s1, "color", t);
              res.(styles := s2, actions := res.actions[Leave := v][Up := v])
            case Disabled =>
              if disabled then res.(styles := Assign(Assign(res.styles, "backgroundColor", b), "color", t)) else res
            case Hover => res.(actions := res.actions[Enter := v][Up := v])
            case Active => res.(actions := res.actions[Down := v])
            case Visited => res)
        else Ok(res.(classes := res.classes + [b, t]))
  }

  /** Run the phase for an optional member of the set. */
  function StepIf(res: Resolution, phase: Phase, v: Option<ColourValue>, suppressed: bool, disabled: bool,
                  existing: map<string, string>): Result<Resolution, ConvertError>
  {
    if v.Some? then Step(res, phase, v.value, suppressed, disabled, existing) else Ok(res)
  }

  function VisitedValue(cs: ColourSet): Option<ColourValue> {
    if cs.visited.Some? then Some(Str(cs.visited.value)) else None
  }

  /** The phases of `convert`, in order, starting from what has been accumulated so far. */
  function ResolveFrom(res: Resolution, cs: ColourSet, suppressed: bool, disabled: bool,
                       existing: map<string, string>): Result<Resolution, ConvertError>
  {
    var r1 :- Step(res, Default, cs.default, suppressed, disabled, existing);
    var r2 :- StepIf(r1, Hover, cs.hover, suppressed, disabled, existing);
    var r3 :- StepIf(r2, Active, cs.active, suppressed, disabled, existing);
    var r4 :- StepIf(r3, Visited, VisitedValue(cs), suppressed, disabled, existing);
    StepIf(r4, Disabled, cs.disabled, suppressed, disabled, existing)
  }

  function Resolve(cs: ColourSet, suppressed: bool, disabled: bool, existing: map<string, string>): Result<Resolution, ConvertError> {
    ResolveFrom(EmptyResolution(), cs, suppressed, disabled, existing)
  }

  // ---------------------------------------------------------------------------
  // Reference reading of the phases, member by member.

  predicate MixedMember(v: Option<ColourValue>) {
    v.Some? && IsMixed(v.value)
  }

  /** The set holds a pair that mixes raw and class colours. */
  predicate HasMixedMember(cs: ColourSet) {
    IsMixed(cs.default) || MixedMember(cs.hover) || MixedMember(cs.active) || MixedMember(cs.disabled)
  }

  /** The class tokens one value contributes: a class string, or a class pair's background then text. */
  function Tokens(v: ColourValue): seq<string> {
    match v
    case Str(s) => if IsRaw(s) then [] else [s]
    case Pair(t, b) => if IsRaw(b) then [] else [b, t]
  }

  function OptTokens(v: Option<ColourValue>): seq<string> {
    if v.Some? then Tokens(v.value) else []
  }

  /** Every class member of the set, in phase order. */
  function ExpectedClasses(cs: ColourSet): seq<string> {
    Tokens(cs.default) + OptTokens(cs.hover) + OptTokens(cs.active) + OptTokens(VisitedValue(cs))
      + OptTokens(cs.disabled)
  }

  /** A member in raw form, if the set has it. */
  function RawMember(v: Option<ColourValue>): Option<ColourValue> {
    if v.Some? && IsRawValue(v.value) then v else None
  }

  /**
   * The value each handler ends up with: leave is the default, enter the hover, down
   * the active; up is the hover when there is a raw one, since Hover runs after
   * Default and overwrites it, and otherwise the default.
   */
  function ExpectedAction(cs: ColourSet, a: Action): Option<ColourValue> {
    match a
    case Leave => RawMember(Some(cs.default))
    case Enter => RawMember(cs.hover)
    case Down => RawMember(cs.active)
    case Up => if RawMember(cs.hover).Some? then RawMember(cs.hover) else RawMember(Some(cs.default))
  }

  /**
   * The inline colour each style key ends up with: the raw disabled value when the
   * node is disabled, else the raw default unless the existing styles already set
   * that key for a pair.
   */
  function ExpectedStyle(cs: ColourSet, disabled: bool, existing: map<string, string>, key: string): Option<string> {
    var dis := RawMember(cs.disabled);
    var def := RawMember(Some(cs.default));
    if key == "color" then
      if disabled && dis.Some? then Some(TextOf(dis.value))
      else if def.Some? && (def.value.Str? || "color" !in existing) then Some(TextOf(def.value))
      else None
    else if key == "backgroundColor" then
      if disabled && dis.Some? && dis.value.Pair? then Some(dis.value.background)
      else if def.Some? && def.value.Pair? && "backgroundColor" !in existing then Some(def.value.background)
      else None
    else None
  }

  ghost predicate ActionsAgree(actions: map<Action, ColourValue>, cs: ColourSet) {
    forall a: Action ::
      (a in actions <==> ExpectedAction(cs, a).Some?)
      && (a in actions ==> actions[a] == ExpectedAction(cs, a).value)
  }

  ghost predicate StylesAgree(styles: seq<Decl>, cs: ColourSet, disabled: bool, existing: map<string, string>) {
    DistinctKeys(styles)
      && forall key: string {:trigger ExpectedStyle(cs, disabled, existing, key)} {:trigger key in DeclsMap(styles)} ::
        (key in DeclsMap(styles) <==> ExpectedStyle(cs, disabled, existing, key).Some?)
        && (key in DeclsMap(styles) ==> DeclsMap(styles)[key] == ExpectedStyle(cs, disabled, existing, key).value)
  }

  // ---------------------------------------------------------------------------
  // What one phase does to each part of the accumulated state.

  function StyleEffect(m: map<string, string>, phase: Phase, v: ColourValue, disabled: bool,
                       existing: map<string, string>): map<string, string>
  {
    if !IsRawValue(v) then m
    else match phase
      case Default =>
        (match v
         case Str(s) => m["color" := s]
         case Pair(t, b) =>
           var m1 := if "backgroundColor" in existing then m else m["backgroundColor" := b];
           if "color" in existing then m1 else m1["color" := t])
      case Disabled =>
        if !disabled then m
        else (match v
              case Str(s) => m["color" := s]
              case Pair(t, b) => m["backgroundColor" := b]["color" := t])
      case _ => m
  }

  function ActionEffect(m: map<Action, ColourValue>, phase: Phase, v: ColourValue): map<Action, ColourValue> {
    if !IsRawValue(v) then m
    else match phase
      case Default => m[Leave := v][Up := v]
      case Hover => m[Enter := v][Up := v]
      case Active => m[Down := v]
      case _ => m
  }

  function OptActionEffect(m: map<Action, ColourValue>, phase: Phase, v: Option<ColourValue>): map<Action, ColourValue> {
    if v.Some? then ActionEffect(m, phase, v.value) else m
  }

  function OptStyleEffect(m: map<string, string>, phase: Phase, v: Option<ColourValue>, disabled: bool,
                          existing: map<string, string>): map<string, string>
  {
    if v.Some? then StyleEffect(m, phase, v.value, disabled, existing) else m
  }

  lemma StepEffect(res: Resolution, phase: Phase, v: ColourValue, suppressed: bool, disabled: bool,
                   existing: map<string, string>)
    requires !suppressed && !IsMixed(v)
    requires DistinctKeys(res.styles)
    ensures Step(res, phase, v, suppressed, disabled, existing).Ok?
    ensures var r := Step(res, phase, v, suppressed, disabled, existing).value;
      r.classes == res.classes + Tokens(v)
      && r.actions == ActionEffect(res.actions, phase, v)
      && DistinctKeys(r.styles)
      && DeclsMap(r.styles) == StyleEffect(DeclsMap(res.styles), phase, v, disabled, existing)
  {
    match v
    case Str(s) => StrStepEffect(res, phase, s, disabled, existing);
    case Pair(t, b) => PairStepEffect(res, phase, t, b, disabled, existing);
  }

  lemma StrStepEffect(res: Resolution, phase: Phase, s: string, disabled: bool, existing: map<string, string>)
    requires DistinctKeys(res.styles)
    ensures Step(res, phase, Str(s), false, disabled, existing).Ok?
    ensures var r := Step(res, phase, Str(s), false, disabled, existing).value;
      r.classes == res.classes + Tokens(Str(s))
      && r.actions == ActionEffect(res.actions, phase, Str(s))
      && DistinctKeys(r.styles)
      && DeclsMap(r.styles) == StyleEffect(DeclsMap(res.styles), phase, Str(s), disabled, existing)
  {
    match phase
    case Default =>
    case Disabled =>
    case Hover =>
    case Active =>
    case Visited =>
  }

  lemma PairStepEffect(res: Resolution, phase: Phase, t: string, b: string, disabled: bool,
                       existing: map<string, string>)
    requires !IsMixed(Pair(t, b))
    requires DistinctKeys(res.styles)
    ensures Step(res, phase, Pair(t, b), false, disabled, existing).Ok?
    ensures var r := Step(res, phase, Pair(t, b), false, disabled, existing).value;
      r.classes == res.classes + Tokens(Pair(t, b))
      && r.actions == ActionEffect(res.actions, phase, Pair(t, b))
      && DistinctKeys(r.styles)
      && DeclsMap(r.styles) == StyleEffect(DeclsMap(res.styles), phase, Pair(t, b), disabled, existing)
  {
    if IsRaw(b) && phase == Default {
      PairDefaultEffect(res, t, b, existing);
      var s1 := if "backgroundColor" in existing then res.styles else Assign(res.styles, "backgroundColor", b);
      var s2 := if "color" in existing then s1 else Assign(s1, "color", t);
      assert Step(res, phase, Pair(t, b), false, disabled, existing)
        == Ok(res.(styles := s2, actions := res.actions[Leave := Pair(t, b)][Up := Pair(t, b)]));
    } else if IsRaw(b) && phase == Disabled {
      PairDisabledEffect(res, t, b, disabled, existing);
    } else if IsRaw(b) && phase == Hover {
      assert Step(res, phase, Pair(t, b), false, disabled, existing)
        == Ok(res.(actions := res.actions[Enter := Pair(t, b)][Up := Pair(t, b)]));
    } else if IsRaw(b) && phase == Active {
      assert Step(res, phase, Pair(t, b), false, disabled, existing) == Ok(res.(actions := res.actions[Down := Pair(t, b)]));
    } else if IsRaw(b) {
      assert Step(res, phase, Pair(t, b), false, disabled, existing) == Ok(res);
    } else {
      assert Step(res, phase, Pair(t, b), false, disabled, existing) == Ok(res.(classes := res.classes + [b, t]));
    }
  }

  /** The disabled phase with a raw pair writes both channels, only on a disabled element. */
  lemma PairDisabledEffect(res: Resolution, t: string, b: string, disabled: bool, existing: map<string, string>)
    requires IsRaw(b) && !IsMixed(Pair(t, b))
    requires DistinctKeys(res.styles)
    ensures var r := Step(res, Disabled, Pair(t, b), false, disabled, existing).value;
      DistinctKeys(r.styles) && DeclsMap(r.styles) == StyleEffect(DeclsMap(res.styles), Disabled, Pair(t, b), disabled, existing)
  {
    if disabled {
      var s1 := Assign(res.styles, "backgroundColor", b);
      assert DistinctKeys(s1);
    }
  }

  /** The default phase with a raw pair fills only the channels the element does not already set. */
  lemma PairDefaultEffect(res: Resolution, t: string, b: string, existing: map<string, string>)
    requires IsRaw(b) && !IsMixed(Pair(t, b))
    requires DistinctKeys(res.styles)
    ensures var s1 := if "backgroundColor" in existing then res.styles else Assign(res.styles, "backgroundColor", b);
      var s2 := if "color" in existing then s1 else Assign(s1, "color", t);
      DistinctKeys(s2) && DeclsMap(s2) == StyleEffect(DeclsMap(res.styles), Default, Pair(t, b), false, existing)
  {
    var s1 := if "backgroundColor" in existing then res.styles else Assign(res.styles, "backgroundColor", b);
    assert DistinctKeys(s1);
  }

  lemma StepIfEffect(res: Resolution, phase: Phase, v: Option<ColourValue>, suppressed: bool, disabled: bool,
                     existing: map<string, string>)
    requires !suppressed && !MixedMember(v)
    requires DistinctKeys(res.styles)
    ensures StepIf(res, phase, v, suppressed, disabled, existing).Ok?
    ensures var r := StepIf(res, phase, v, suppressed, disabled, existing).value;
      r.classes == res.classes + OptTokens(v)
      && r.actions == OptActionEffect(res.actions, phase, v)
      && DistinctKeys(r.styles)
      && DeclsMap(r.styles) == OptStyleEffect(DeclsMap(res.styles), phase, v, disabled, existing)
  {
    if v.Some? {
      StepEffect(res, phase, v.value, suppressed, disabled, existing);
    }
  }

  /** A suppressed conversion contributes nothing, and raises nothing. */
  lemma ResolveSuppressed(res: Resolution, cs: ColourSet, disabled: bool, existing: map<string, string>)
    ensures ResolveFrom(res, cs, true, disabled, existing) == Ok(res)
  {
  }

  /** The phases fail exactly when the conversion is not suppressed and the set mixes forms. */
  lemma {:induction false} ResolveFails(res: Resolution, cs: ColourSet, suppressed: bool, disabled: bool,
                                        existing: map<string, string>)
    ensures ResolveFrom(res, cs, suppressed, disabled, existing).Err?
        <==> !suppressed && HasMixedMember(cs)
    ensures ResolveFrom(res, cs, suppressed, disabled, existing).Err?
        ==> ResolveFrom(res, cs, suppressed, disabled, existing).error == MixedColourForms
  {
    var r1 := Step(res, Default, cs.default, suppressed, disabled, existing);
    if r1.Ok? {
      var r2 := StepIf(r1.value, Hover, cs.hover, suppressed, disabled, existing);
      if r2.Ok? {
        var r3 := StepIf(r2.value, Active, cs.active, suppressed, disabled, existing);
        if r3.Ok? {
          var r4 := StepIf(r3.value, Visited, VisitedValue(cs), suppressed, disabled, existing);
          assert r4.Ok?;
        }
      }
    }
  }

  /**
   * When the conversion is not suppressed and succeeds, the accumulated state is
   * exactly the reference reading: every class member in phase order, every handler
   * as `ExpectedAction` says and every inline colour as `ExpectedStyle` says.
   */
  lemma {:induction false} ResolveContents(cs: ColourSet, disabled: bool, existing: map<string, string>)
    requires !HasMixedMember(cs)
    ensures Resolve(cs, false, disabled, existing).Ok?
    ensures var r := Resolve(cs, false, disabled, existing).value;
      r.classes == ExpectedClasses(cs)
      && ActionsAgree(r.actions, cs)
      && StylesAgree(r.styles, cs, disabled, existing)
  {
    var r0 := EmptyResolution();
    StepEffect(r0, Default, cs.default, false, disabled, existing);
    var r1 := Step(r0, Default, cs.default, false, disabled, existing).value;
    StepIfEffect(r1, Hover, cs.hover, false, disabled, existing);
    var r2 := StepIf(r1, Hover, cs.hover, false, disabled, existing).value;
    StepIfEffect(r2, Active, cs.active, false, disabled, existing);
    var r3 := StepIf(r2, Active, cs.active, false, disabled, existing).value;
    StepIfEffect(r3, Visited, VisitedValue(cs), false, disabled, existing);
    var r4 := StepIf(r3, Visited, VisitedValue(cs), false, disabled, existing).value;
    StepIfEffect(r4, Disabled, cs.disabled, false, disabled, existing);
    var r5 := StepIf(r4, Disabled, cs.disabled, false, disabled, existing).value;
    ResolveFromSteps(r0, cs, disabled, existing, r1, r2, r3, r4, r5);
    ClassesAfterPhases(cs, r1.classes, r2.classes, r3.classes, r4.classes, r5.classes);
    ActionsAfterPhases(cs, r1.actions, r2.actions, r3.actions, r4.actions, r5.actions);
    assert DeclsMap(r4.styles) == DeclsMap(r1.styles);
    StylesAfterPhases(cs, disabled, existing, DeclsMap(r1.styles), DeclsMap(r4.styles), DeclsMap(r5.styles));
  }

  lemma ResolveFromSteps(r0: Resolution, cs: ColourSet, disabled: bool, existing: map<string, string>,
                         r1: Resolution, r2: Resolution, r3: Resolution, r4: Resolution, r5: Resolution)
    requires Step(r0, Default, cs.default, false, disabled, existing) == Ok(r1)
    requires StepIf(r1, Hover, cs.hover, false, disabled, existing) == Ok(r2)
    requires StepIf(r2, Active, cs.active, false, disabled, existing) == Ok(r3)
    requires StepIf(r3, Visited, VisitedValue(cs), false, disabled, existing) == Ok(r4)
    requires StepIf(r4, Disabled, cs.disabled, false, disabled, existing) == Ok(r5)
    ensures ResolveFrom(r0, cs, false, disabled, existing) == Ok(r5)
  { }

  lemma ClassesAfterPhases(cs: ColourSet, c1: seq<string>, c2: seq<string>, c3: seq<string>, c4: seq<string>,
                           c5: seq<string>)
    requires c1 == [] + Tokens(cs.default)
    requires c2 == c1 + OptTokens(cs.hover)
    requires c3 == c2 + OptTokens(cs.active)
    requires c4 == c3 + OptTokens(VisitedValue(cs))
    requires c5 == c4 + OptTokens(cs.disabled)
    ensures c5 == ExpectedClasses(cs)
  {
    assert c1 == Tokens(cs.default);
  }

  lemma ActionsAfterPhases(cs: ColourSet, a1: map<Action, ColourValue>, a2: map<Action, ColourValue>,
                           a3: map<Action, ColourValue>, a4: map<Action, ColourValue>, a5: map<Action, ColourValue>)
    requires a1 == ActionEffect(map[], Default, cs.default)
    requires a2 == OptActionEffect(a1, Hover, cs.hover)
    requires a3 == OptActionEffect(a2, Active, cs.active)
    requires a4 == OptActionEffect(a3, Visited, VisitedValue(cs))
    requires a5 == OptActionEffect(a4, Disabled, cs.disabled)
    ensures ActionsAgree(a5, cs)
  {
    assert a4 == a3 && a5 == a4;
  }

  lemma StylesAfterPhases(cs: ColourSet, disabled: bool, existing: map<string, string>,
                          m1: map<string, string>, m4: map<string, string>, m5: map<string, string>)
    requires m1 == StyleEffect(map[], Default, cs.default, disabled, existing)
    requires m4 == m1
    requires m5 == OptStyleEffect(m4, Disabled, cs.disabled, disabled, existing)
    ensures forall key: string {:trigger ExpectedStyle(cs, disabled, existing, key)} {:trigger key in m5} ::
        (key in m5 <==> ExpectedStyle(cs, disabled, existing, key).Some?)
        && (key in m5 ==> m5[key] == ExpectedStyle(cs, disabled, existing, key).value)
  {
  }

  /** A raw colour only ever reaches styles and handlers, never the class list. */
  lemma ResolveNoRawClass(cs: ColourSet, disabled: bool, existing: map<string, string>)
    requires !HasMixedMember(cs)
    ensures Resolve(cs, false, disabled, existing).Ok?
    ensures forall k :: 0 <= k < |Resolve(cs, false, disabled, existing).value.classes| ==>
      !IsRaw(Resolve(cs, false, disabled, existing).value.classes[k])
  {
    ResolveContents(cs, disabled, existing);
    forall v: ColourValue | !IsMixed(v)
      ensures forall k :: 0 <= k < |Tokens(v)| ==> !IsRaw(Tokens(v)[k])
    {
    }
  }
}
