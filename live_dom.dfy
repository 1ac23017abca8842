/**
 * The part of a live DOM element the converter reads and writes: its tag, `type` and
 * `disabled` attributes, class list and style attribute, plus the mouse handlers and
 * disabled-attribute observers a conversion attaches. Handlers and observers are kept
 * as the colour values their closures capture and are run by explicit calls.
 */
module LiveDom {
  import opened Wrappers
  import opened Strings
  import opened Theme
  import opened StyleText
  import opened Resolver

  /** A mouse listener installed by a conversion: the event and the colour it writes. */
  datatype Listener = Listener(event: Action, value: ColourValue)

  /** A disabled-attribute observer: the colours it writes when disabled and when enabled. */
  datatype Observer = Observer(disabledValue: ColourValue, defaultValue: ColourValue) {
    /** The colours the observer writes for the new attribute state. */
    function Value(disabled: bool): ColourValue {
      if disabled then disabledValue else defaultValue
    }
  }

  datatype ElementState = ElementState(
    tagName: string,
    typeAttr: Option<string>,
    className: string,
    style: string,
    disabled: bool,
    listeners: seq<Listener>,
    observers: seq<Observer>)

  /**
   * `el.style.color = …` (and the pair form, background first): each assignment adds the
   * declaration, under its kebab-case name, after the text.
   */
  function WriteColour(style: string, v: ColourValue): (r: string)
    ensures StartsWith(r, Terminated(style))
  {
    match v
    case Str(s) => WriteProperty(style, CamelToKebab("color"), s)
    case Pair(t, b) =>
      var w := WriteProperty(style, CamelToKebab("backgroundColor"), b);
      WritePropertyPrefix(style, CamelToKebab("backgroundColor"), b);
      WritePropertyPrefix(w, CamelToKebab("color"), t);
      PrefixTransitive(WriteProperty(w, CamelToKebab("color"), t), w, Terminated(style));
      WriteProperty(w, CamelToKebab("color"), t)
  }

  lemma PrefixTransitive(a: string, b: string, c: string)
    requires StartsWith(a, b) && StartsWith(b, c)
    ensures StartsWith(a, c)
  {
    assert a[..|c|] == a[..|b|][..|c|];
  }

  /** The map the snapshot reads, after one colour write. */
  function ColourUpdate(m: map<string, string>, v: ColourValue): map<string, string> {
    match v
    case Str(s) => m["color" := s]
    case Pair(t, b) => m["backgroundColor" := b]["color" := t]
  }

  predicate PlainColour(v: ColourValue) {
    match v
    case Str(s) => PlainValue(s)
    case Pair(t, b) => PlainValue(t) && PlainValue(b)
  }

  /** A colour write keeps the style text readable and sets exactly the written channels. */
  lemma WriteColourSnapshot(style: string, v: ColourValue)
    requires WellFormed(style) && PlainColour(v)
    ensures WellFormed(WriteColour(style, v))
    ensures Snapshot(WriteColour(style, v)) == ColourUpdate(Snapshot(style), v)
  {
    assert AllLetters("color") && AllLetters("backgroundColor");
    match v
    case Str(s) =>
      SnapshotWriteCamel(style, "color", s);
    case Pair(t, b) =>
      SnapshotWriteCamel(style, "backgroundColor", b);
      SnapshotWriteCamel(WriteProperty(style, CamelToKebab("backgroundColor"), b), "color", t);
  }

  /** The listeners for one event run in the order they were added; each is a no-op on a disabled target. */
  function FireListeners(style: string, disabled: bool, ls: seq<Listener>, ev: Action): (r: string)
    ensures disabled ==> r == style
    decreases |ls|
  {
    if |ls| == 0 then style
    else
      var s1 := if ls[0].event == ev && !disabled then WriteColour(style, ls[0].value) else style;
      FireListeners(s1, disabled, ls[1..], ev)
  }

  /** On a `disabled` attribute change every observer writes its disabled or its default colours. */
  function RunObservers(style: string, os: seq<Observer>, disabled: bool): string
    decreases |os|
  {
    if |os| == 0 then style
    else
      RunObservers(WriteColour(style, os[0].Value(disabled)), os[1..], disabled)
  }

  /** A single listener for an event on an enabled element writes its colours. */
  lemma {:induction false} FireOneListener(style: string, ls: seq<Listener>, ev: Action, k: nat)
    requires WellFormed(style)
    requires k < |ls| && ls[k].event == ev && PlainColour(ls[k].value)
    requires forall j :: 0 <= j < |ls| && j != k ==> ls[j].event != ev
    ensures WellFormed(FireListeners(style, false, ls, ev))
    ensures Snapshot(FireListeners(style, false, ls, ev)) == ColourUpdate(Snapshot(style), ls[k].value)
    decreases |ls|
  {
    if k == 0 {
      FireHead(style, ls, ev);
    } else {
      var rest := ls[1..];
      forall j | 0 <= j < |rest| && j != k - 1
        ensures rest[j].event != ev
      {
        assert rest[j] == ls[j + 1];
      }
      assert rest[k - 1] == ls[k];
      FireOneListener(style, rest, ev, k - 1);
      FireStep(style, false, ls, ev);
      assert ls[0].event != ev;
    }
  }

  /** The only listener for the event is the first one. */
  lemma FireHead(style: string, ls: seq<Listener>, ev: Action)
    requires WellFormed(style)
    requires 0 < |ls| && ls[0].event == ev && PlainColour(ls[0].value)
    requires forall j :: 0 < j < |ls| ==> ls[j].event != ev
    ensures WellFormed(FireListeners(style, false, ls, ev))
    ensures Snapshot(FireListeners(style, false, ls, ev)) == ColourUpdate(Snapshot(style), ls[0].value)
  {
    var rest := ls[1..];
    forall j | 0 <= j < |rest|
      ensures rest[j].event != ev
    {
      assert rest[j] == ls[j + 1];
    }
    FireStep(style, false, ls, ev);
    WriteColourSnapshot(style, ls[0].value);
    NoListenerFires(WriteColour(style, ls[0].value), rest, ev);
  }

  lemma {:induction false} NoListenerFires(style: string, ls: seq<Listener>, ev: Action)
    requires forall j :: 0 <= j < |ls| ==> ls[j].event != ev
    ensures FireListeners(style, false, ls, ev) == style
    decreases |ls|
  {
    if |ls| > 0 {
      NoListenerFires(style, ls[1..], ev);
    }
  }

  lemma FireStep(style: string, disabled: bool, ls: seq<Listener>, ev: Action)
    requires |ls| > 0
    ensures FireListeners(style, disabled, ls, ev)
      == FireListeners(if ls[0].event == ev && !disabled then WriteColour(style, ls[0].value) else style, disabled, ls[1..], ev)
  { }

  lemma ObserverStep(style: string, os: seq<Observer>, disabled: bool)
    requires |os| > 0
    ensures RunObservers(style, os, disabled)
      == RunObservers(WriteColour(style, os[0].Value(disabled)), os[1..], disabled)
  { }

  /** The observers run one after another over the style text. */
  method ObserversOn(style: string, os: seq<Observer>, disabled: bool) returns (s: string)
    ensures s == RunObservers(style, os, disabled)
  {
    s := style;
    var i := 0;
    while i < |os|
      invariant 0 <= i <= |os|
      invariant RunObservers(style, os, disabled) == RunObservers(s, os[i..], disabled)
    {
      ObserverStep(s, os[i..], disabled);
      assert os[i..][1..] == os[i + 1..];
      s := WriteColour(s, os[i].Value(disabled));
      i := i + 1;
    }
    assert os[i..] == [];
  }

  /** The live element, updated in place by conversions, events and attribute changes. */
  class LiveElement {
    const tagName: string
    const typeAttr: Option<string>
    var className: string
    var style: string
    var disabled: bool
    var listeners: seq<Listener>
    var observers: seq<Observer>

    constructor (tagName: string, typeAttr: Option<string>, className: string, style: string, disabled: bool)
      ensures State() == ElementState(tagName, typeAttr, className, style, disabled, [], [])
    {
      this.tagName := tagName;
      this.typeAttr := typeAttr;
      this.className := className;
      this.style := style;
      this.disabled := disabled;
      listeners := [];
      observers := [];
    }

    function State(): ElementState
      reads this
    {
      ElementState(tagName, typeAttr, className, style, disabled, listeners, observers)
    }

    /** Dispatch a mouse event to the element itself. */
    method Fire(ev: Action)
      modifies this
      ensures style == FireListeners(old(style), disabled, listeners, ev)
      ensures className == old(className) && disabled == old(disabled)
      ensures listeners == old(listeners) && observers == old(observers)
    {
      var ls, d, s := listeners, disabled, style;
      var i := 0;
      while i < |ls|
        invariant 0 <= i <= |ls|
        invariant FireListeners(old(style), d, ls, ev) == FireListeners(s, d, ls[i..], ev)
        invariant unchanged(this)
      {
        FireStep(s, d, ls[i..], ev);
        assert ls[i..][1..] == ls[i + 1..];
        if ls[i].event == ev && !d {
          s := WriteColour(s, ls[i].value);
        }
        i := i + 1;
      }
      assert ls[i..] == [];
      style := s;
    }

    /**
     * Set or remove the `disabled` attribute. Setting it, or removing it when it
     * was present, is a change the observers see.
     */
    method SetDisabled(b: bool)
      modifies this
      ensures disabled == b
      ensures style == if b || old(disabled) then RunObservers(old(style), observers, b) else old(style)
      ensures className == old(className)
      ensures listeners == old(listeners) && observers == old(observers)
    {
      if b || disabled {
        style := ObserversOn(style, observers, b);
      }
      disabled := b;
    }
  }
}
