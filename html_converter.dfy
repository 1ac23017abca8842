/**
 * The live-tree walker: for each tag pass with a colour set, every matching descendant
 * of the container is converted in place, in document order; then a summary of the
 * passes that ran is built from per-slot counters.
 */
module HtmlConversion {
  import opened Wrappers
  import opened Strings
  import opened Theme
  import opened StyleText
  import opened ExistingColour
  import opened Resolver
  import opened LiveDom
  import opened ElementConversion
  import opened TagSlots
  import ConversionFacts

  /** The container's descendants, in document order; the tree shape itself is not needed. */
  class Container {
    const descendants: seq<LiveElement>

    constructor (descendants: seq<LiveElement>)
      ensures this.descendants == descendants
    {
      this.descendants := descendants;
    }

    ghost function Elements(): set<LiveElement> {
      set e | e in descendants
    }

    /** A DOM node occurs once in the tree. */
    ghost predicate Distinct() {
      forall i, j :: 0 <= i < j < |descendants| ==> descendants[i] != descendants[j]
    }

    /** `querySelectorAll(tag)`: the descendants whose (case-insensitive) tag name is `tag`, in order. */
    function QuerySelectorAll(tag: string): (r: seq<LiveElement>)
      ensures forall i :: 0 <= i < |r| ==> r[i] in descendants && ToLower(r[i].tagName) == tag
      ensures forall i :: 0 <= i < |descendants| && ToLower(descendants[i].tagName) == tag ==> descendants[i] in r
      ensures Distinct() ==> forall i, j :: 0 <= i < j < |r| ==> r[i] != r[j]
    {
      FilterTag(descendants, tag)
    }
  }

  function FilterTag(els: seq<LiveElement>, tag: string): (r: seq<LiveElement>)
    ensures forall i :: 0 <= i < |r| ==> r[i] in els && ToLower(r[i].tagName) == tag
    ensures forall i :: 0 <= i < |els| && ToLower(els[i].tagName) == tag ==> els[i] in r
    ensures (forall i, j :: 0 <= i < j < |els| ==> els[i] != els[j]) ==>
      forall i, j :: 0 <= i < j < |r| ==> r[i] != r[j]
    decreases |els|
  {
    if |els| == 0 then []
    else
      var rest := FilterTag(els[1..], tag);
      assert forall i :: 0 <= i < |els[1..]| ==> els[1..][i] == els[i + 1];
      if ToLower(els[0].tagName) == tag then
        assert (forall i, j :: 0 <= i < j < |els| ==> els[i] != els[j]) ==> els[0] !in els[1..];
        [els[0]] + rest
      else rest
  }

  /** The pass for `tag` converts an element with that tag name; an input only with a button type. */
  predicate Picked(tagName: string, typeAttr: Option<string>, tag: string) {
    ToLower(tagName) == tag && (tag == "input" ==> IsButtonType(typeAttr))
  }

  /** The pass whose tag an element has, or `|Tags|` when it has none of them. */
  function TagIndex(tagName: string): (c: nat)
    ensures c <= |Tags|
    ensures c < |Tags| ==> ToLower(tagName) == Tags[c]
    ensures forall k :: 0 <= k < |Tags| && ToLower(tagName) == Tags[k] ==> k == c
  {
    var t := ToLower(tagName);
    if t == "h2" then 0 else if t == "h3" then 1 else if t == "a" then 2
    else if t == "button" then 3 else if t == "input" then 4 else 5
  }

  /** The pass for `tag` reads an element's style text: it picks the element and the shape check passes. */
  predicate ReadsStyle(tagName: string, typeAttr: Option<string>, tag: string, cs: ColourSet) {
    Picked(tagName, typeAttr, tag) && Validate(tagName, typeAttr, cs).Pass?
  }

  /** The style text parses if the pass for `tag` reads it. */
  predicate Parses(st: ElementState, tag: string, cs: ColourSet) {
    ReadsStyle(st.tagName, st.typeAttr, tag, cs) ==> WellFormed(st.style)
  }

  /** The walk reads an element's style text: its own pass runs, picks it and accepts its shape. */
  predicate StyleRead(st: ElementState, scheme: ColourScheme) {
    var c := TagIndex(st.tagName);
    c < |Tags| && PassSets(scheme)[c].Some? && ReadsStyle(st.tagName, st.typeAttr, Tags[c], PassSets(scheme)[c].value)
  }

  /** The style text parses wherever the walk reads it. */
  predicate Readable(st: ElementState, scheme: ColourScheme) {
    StyleRead(st, scheme) ==> WellFormed(st.style)
  }

  /** What the whole walk does to one element: its own pass's conversion, if that pass runs and picks it. */
  function ElementOutcome(st: ElementState, scheme: ColourScheme): Result<ElementState, ConvertError>
    requires Readable(st, scheme)
  {
    var c := TagIndex(st.tagName);
    if c < |Tags| && PassSets(scheme)[c].Some? && Picked(st.tagName, st.typeAttr, Tags[c]) then
      LiveConvert(st, PassSets(scheme)[c].value)
    else Ok(st)
  }

  // ---------------------------------------------------------------------------
  // The summary.

  /** The counters after the pass loop: one per pass that ran, the input pass counting as a button. */
  function SlotCounts(scheme: ColourScheme): (r: seq<nat>)
    ensures |r| == 4
    ensures forall s :: 0 <= s < 3 ==> r[s] <= 1
    ensures r[3] == 0 || r[3] == 2
  {
    [if scheme.headingColour.Some? then 1 else 0,
     if scheme.subheadingColour.Some? then 1 else 0,
     if scheme.linkColours.Some? then 1 else 0,
     if scheme.buttonColours.Some? then 2 else 0]
  }

  /** The message of one slot. */
  function SlotMessage(n: nat, tag: string): string {
    NatToString(n) + " x " + ToUpper(tag) + " converted"
  }

  /** The messages of the non-zero slots from `s` on, in slot order. */
  function SlotMessages(counts: seq<nat>, s: nat): seq<string>
    requires |counts| == 4 && s <= 4
    decreases 4 - s
  {
    if s == 4 then []
    else (if counts[s] > 0 then [SlotMessage(counts[s], Tags[s])] else []) + SlotMessages(counts, s + 1)
  }

  function Summary(counts: seq<nat>): string
    requires |counts| == 4
  {
    var ms := SlotMessages(counts, 0);
    if |ms| > 0 then Join(ms, ", ") else "Nothing converted"
  }

  // ---------------------------------------------------------------------------
  // The walker object.

  class HTMLConverter {
    const parent: Container
    const scheme: ColourScheme

    constructor (parent: Container, scheme: ColourScheme)
      ensures this.parent == parent && this.scheme == scheme
    {
      this.parent := parent;
      this.scheme := scheme;
    }

    /**
     * `convert`: the five passes, then the summary. When a pass throws, the walk stops:
     * elements converted so far stay converted, the rest are untouched.
     */
    method Convert() returns (r: Result<string, ConvertError>)
      requires parent.Distinct()
      requires forall e :: e in parent.descendants ==> Readable(e.State(), scheme)
      modifies parent.Elements()
      ensures r.Ok? <==> forall e :: e in parent.descendants ==> ElementOutcome(old(e.State()), scheme).Ok?
      ensures r.Ok? ==> r.value == Summary(SlotCounts(scheme))
      ensures r.Ok? ==> forall e :: e in parent.descendants ==> e.State() == ElementOutcome(old(e.State()), scheme).value
      ensures r.Err? ==> exists e :: e in parent.descendants && ElementOutcome(old(e.State()), scheme) == Err(r.error)
      ensures r.Err? ==> forall e :: e in parent.descendants ==> e.State() == old(e.State()) || Applied(old(e.State()), e.State())
    {
      var o, counts := RunPasses();
      if o.Fail? {
        return Err(o.error);
      }
      forall e | e in parent.descendants
        ensures ElementOutcome(old(e.State()), scheme).Ok? && e.State() == ElementOutcome(old(e.State()), scheme).value
      {
        PassesDone(old(e.State()), e.State());
      }
      var messages := BuildMessages(counts);
      r := Ok(if |messages| > 0 then Join(messages, ", ") else "Nothing converted");
    }

    /** The pass loop of `convert`: the five tag passes in order, counting the ones that ran. */
    method RunPasses() returns (r: Outcome<ConvertError>, counts: seq<nat>)
      requires parent.Distinct()
      requires forall e :: e in parent.descendants ==> Readable(e.State(), scheme)
      modifies parent.Elements()
      ensures r.Pass? ==> counts == SlotCounts(scheme)
      ensures r.Pass? ==> forall e :: e in parent.descendants ==> Progress(old(e.State()), e.State(), |Tags|)
      ensures r.Fail? ==>
        exists e :: e in parent.descendants && Readable(old(e.State()), scheme) && ElementOutcome(old(e.State()), scheme) == Err(r.error)
      ensures r.Fail? ==> forall e :: e in parent.descendants ==> e.State() == old(e.State()) || Applied(old(e.State()), e.State())
    {
      var sets := PassSets(scheme);
      counts := [0, 0, 0, 0];
      var c := 0;
      while c < |sets|
        invariant 0 <= c <= |Tags|
        invariant counts == PartialCounts(sets, c)
        invariant forall e :: e in parent.descendants ==> Progress(old(e.State()), e.State(), c)
      {
        forall e | e in parent.descendants && TagIndex(e.tagName) == c
          ensures Readable(e.State(), scheme)
        {
          assert Progress(old(e.State()), e.State(), c);
        }
        label Pass:
        var o := RunPass(c);
        if o.Fail? {
          ghost var e :| e in parent.descendants && TagIndex(e.tagName) == c && Readable(old@Pass(e.State()), scheme)
            && ElementOutcome(old@Pass(e.State()), scheme) == Err(o.error);
          assert Progress(old(e.State()), old@Pass(e.State()), c);
          forall e | e in parent.descendants
            ensures e.State() == old(e.State()) || Applied(old(e.State()), e.State())
          {
            FailStep(old(e.State()), old@Pass(e.State()), e.State(), c);
          }
          return Fail(o.error), counts;
        }
        forall e | e in parent.descendants
          ensures Progress(old(e.State()), e.State(), c + 1)
        {
          PassStep(old(e.State()), old@Pass(e.State()), e.State(), c);
        }
        counts := CountPass(counts, sets, c);
        c := c + 1;
      }
      r := Pass;
    }

    /** The counter update after pass `c`: the input pass counts as a button. */
    static method CountPass(counts: seq<nat>, sets: seq<Option<ColourSet>>, c: nat) returns (r: seq<nat>)
      requires |sets| == |Tags| && c < |Tags| && counts == PartialCounts(sets, c)
      ensures r == PartialCounts(sets, c + 1)
    {
      r := counts;
      if sets[c].Some? {
        if c <= 3 {
          r := r[c := r[c] + 1];
        } else {
          r := r[c - 1 := r[c - 1] + 1];
        }
      }
    }

    /** After all five passes every element holds the walk's result for it. */
    lemma PassesDone(o: ElementState, n: ElementState)
      requires Readable(o, scheme) && Progress(o, n, |Tags|)
      ensures ElementOutcome(o, scheme).Ok? && n == ElementOutcome(o, scheme).value
    { }

    /** After the first `c` passes: an element of one of them is converted, any other untouched. */
    ghost predicate Progress(before: ElementState, after: ElementState, c: nat) {
      if TagIndex(before.tagName) < c then Applied(before, after) else after == before
    }

    /** A pass that ran carries every element one pass further. */
    lemma PassStep(o: ElementState, m: ElementState, n: ElementState, c: nat)
      requires o.tagName == m.tagName && Progress(o, m, c)
      requires TagIndex(o.tagName) != c ==> n == m
      requires TagIndex(o.tagName) == c ==> Applied(m, n)
      ensures Progress(o, n, c + 1)
    { }

    /** A pass that threw leaves every element untouched or converted. */
    lemma FailStep(o: ElementState, m: ElementState, n: ElementState, c: nat)
      requires o.tagName == m.tagName && Progress(o, m, c)
      requires TagIndex(o.tagName) != c ==> n == m
      requires TagIndex(o.tagName) == c ==> n == m || Applied(m, n)
      ensures n == o || Applied(o, n)
    { }

    /** The walk's result for one element has been written back. */
    ghost predicate Applied(before: ElementState, after: ElementState) {
      Readable(before, scheme) && ElementOutcome(before, scheme).Ok? && after == ElementOutcome(before, scheme).value
    }

    /** Pass `c` of `convert`: only the elements of that pass's tag are touched. */
    method RunPass(c: nat) returns (r: Outcome<ConvertError>)
      requires c < |Tags|
      requires parent.Distinct()
      requires forall e :: e in parent.descendants && TagIndex(e.tagName) == c ==> Readable(e.State(), scheme)
      modifies parent.Elements()
      ensures forall e :: e in parent.descendants && TagIndex(e.tagName) != c ==> e.State() == old(e.State())
      ensures r.Pass? ==> forall e :: e in parent.descendants && TagIndex(e.tagName) == c ==> Applied(old(e.State()), e.State())
      ensures r.Fail? ==> PassSets(scheme)[c].Some?
      ensures r.Fail? ==>
        exists e :: e in parent.descendants && TagIndex(e.tagName) == c && Readable(old(e.State()), scheme)
          && ElementOutcome(old(e.State()), scheme) == Err(r.error)
      ensures r.Fail? ==> forall e :: e in parent.descendants && TagIndex(e.tagName) == c ==>
        e.State() == old(e.State()) || Applied(old(e.State()), e.State())
    {
      var sets := PassSets(scheme);
      if sets[c].None? {
        return Pass;
      }
      r := ConvertTag(Tags[c], sets[c].value);
    }

    /** `convertTag`: every picked descendant in document order, until one throws. */
    method ConvertTag(tag: string, cs: ColourSet) returns (r: Outcome<ConvertError>)
      requires parent.Distinct()
      requires forall e :: e in parent.descendants ==> Parses(e.State(), tag, cs)
      modifies parent.Elements()
      ensures forall e :: e in parent.descendants && !Picked(e.tagName, e.typeAttr, tag) ==> e.State() == old(e.State())
      ensures r.Pass? ==> forall e :: e in parent.descendants ==> Handled(old(e.State()), e.State(), tag, cs)
      ensures r.Fail? ==> exists e :: e in parent.descendants && Threw(old(e.State()), tag, cs, r.error)
      ensures r.Fail? ==> forall e :: e in parent.descendants ==>
        e.State() == old(e.State()) || Handled(old(e.State()), e.State(), tag, cs)
    {
      var nodes := parent.QuerySelectorAll(tag);
      assert forall e :: e in parent.descendants && ToLower(e.tagName) == tag ==> e in nodes by {
        forall e | e in parent.descendants && ToLower(e.tagName) == tag
          ensures e in nodes
        {
          var i :| 0 <= i < |parent.descendants| && parent.descendants[i] == e;
        }
      }
      r := VisitAll(nodes, tag, cs);
    }
  }

  /** The loop of `convertTag` over the node list, stopping at the first node that throws. */
  method VisitAll(nodes: seq<LiveElement>, tag: string, cs: ColourSet) returns (r: Outcome<ConvertError>)
    requires forall i, j :: 0 <= i < j < |nodes| ==> nodes[i] != nodes[j]
    requires forall e :: e in nodes ==> ToLower(e.tagName) == tag && Parses(e.State(), tag, cs)
    modifies set e | e in nodes
    ensures r.Pass? ==> forall e :: e in nodes ==> Handled(old(e.State()), e.State(), tag, cs)
    ensures r.Fail? ==> exists e :: e in nodes && Threw(old(e.State()), tag, cs, r.error)
    ensures r.Fail? ==> forall e :: e in nodes ==>
      e.State() == old(e.State()) || Handled(old(e.State()), e.State(), tag, cs)
  {
    var n := 0;
    while n < |nodes|
      invariant 0 <= n <= |nodes|
      invariant forall e :: e in nodes && e !in nodes[..n] ==> e.State() == old(e.State())
      invariant forall e :: e in nodes[..n] ==> Handled(old(e.State()), e.State(), tag, cs)
    {
      var el := nodes[n];
      assert el !in nodes[..n];
      assert nodes[..n + 1] == nodes[..n] + [el];
      var o := Visit(el, tag, cs);
      if o.Fail? {
        return Fail(o.error);
      }
      n := n + 1;
    }
    assert nodes[..n] == nodes;
    r := Pass;
  }

  /** One node of `convertTag`'s list: converted when picked, skipped otherwise. */
  method Visit(el: LiveElement, tag: string, cs: ColourSet) returns (o: Outcome<ConvertError>)
    requires Parses(el.State(), tag, cs)
    requires ToLower(el.tagName) == tag
    modifies el
    ensures o.Pass? ==> Handled(old(el.State()), el.State(), tag, cs)
    ensures o.Fail? ==> Threw(old(el.State()), tag, cs, o.error)
    ensures o.Fail? ==> el.State() == old(el.State())
  {
    if tag == "input" && !IsButtonType(el.typeAttr) {
      return Pass;
    }
    o := ElementConverter.ConvertLive(el, cs);
  }

  /** What a pass that got past a node did to it. */
  ghost predicate Handled(before: ElementState, after: ElementState, tag: string, cs: ColourSet)
    requires Parses(before, tag, cs)
  {
    if Picked(before.tagName, before.typeAttr, tag) then Converted(before, after, cs) else after == before
  }

  /** The pass for `tag` picked the element and its conversion threw `err`. */
  ghost predicate Threw(before: ElementState, tag: string, cs: ColourSet, err: ConvertError)
    requires Parses(before, tag, cs)
  {
    Picked(before.tagName, before.typeAttr, tag) && LiveConvert(before, cs) == Err(err)
  }

  /** The conversion of one element, with this colour set, succeeded and was written back. */
  ghost predicate Converted(before: ElementState, after: ElementState, cs: ColourSet)
    requires Validate(before.tagName, before.typeAttr, cs).Pass? ==> WellFormed(before.style)
  {
    LiveConvert(before, cs).Ok? && after == LiveConvert(before, cs).value
  }

  /** The counters after the first `c` passes. */
  function PartialCounts(sets: seq<Option<ColourSet>>, c: nat): seq<nat>
    requires |sets| == |Tags|
  {
    [if c > 0 && sets[0].Some? then 1 else 0,
     if c > 1 && sets[1].Some? then 1 else 0,
     if c > 2 && sets[2].Some? then 1 else 0,
     (if c > 3 && sets[3].Some? then 1 else 0) + (if c > 4 && sets[4].Some? then 1 else 0)]
  }

  /** The message loop: one message per non-zero counter, in slot order. */
  method BuildMessages(counts: seq<nat>) returns (messages: seq<string>)
    requires |counts| == 4
    ensures messages == SlotMessages(counts, 0)
  {
    messages := [];
    var c := 0;
    while c < |counts|
      invariant 0 <= c <= 4
      invariant messages + SlotMessages(counts, c) == SlotMessages(counts, 0)
    {
      var m := SlotMessage(counts[c], Tags[c]);
      SlotMessagesStep(counts, c, m, messages);
      if counts[c] > 0 {
        messages := messages + [m];
      }
      c := c + 1;
    }
  }

  lemma SlotMessagesStep(counts: seq<nat>, c: nat, m: string, prefix: seq<string>)
    requires |counts| == 4 && c < 4
    requires m == SlotMessage(counts[c], Tags[c])
    ensures counts[c] > 0 ==> prefix + SlotMessages(counts, c) == (prefix + [m]) + SlotMessages(counts, c + 1)
    ensures counts[c] == 0 ==> SlotMessages(counts, c) == SlotMessages(counts, c + 1)
  {
  }

  // ---------------------------------------------------------------------------
  // What the walk promises.

  /** The first character of a join is that of its first part. */
  lemma JoinFirstChar(parts: seq<string>, sep: string)
    requires |parts| > 0 && |parts[0]| > 0
    ensures |Join(parts, sep)| > 0 && Join(parts, sep)[0] == parts[0][0]
  {
    if |parts| > 1 {
      assert Join(parts, sep) == parts[0] + sep + Join(parts[1..], sep);
    }
  }

  /** One message per pass that ran, the two button passes sharing one. */
  lemma SummaryLength(scheme: ColourScheme)
    ensures |SlotMessages(SlotCounts(scheme), 0)| ==
      (if scheme.headingColour.Some? then 1 else 0) + (if scheme.subheadingColour.Some? then 1 else 0)
      + (if scheme.linkColours.Some? then 1 else 0) + (if scheme.buttonColours.Some? then 1 else 0)
  {
    var counts := SlotCounts(scheme);
    assert SlotMessages(counts, 3) == (if counts[3] > 0 then [SlotMessage(counts[3], Tags[3])] else []) + SlotMessages(counts, 4);
  }

  /** "Nothing converted" is reported exactly when the scheme has no optional set. */
  lemma NothingConvertedIffEmpty(scheme: ColourScheme)
    ensures Summary(SlotCounts(scheme)) == "Nothing converted" <==> IsEmptyScheme(scheme)
  {
    var counts := SlotCounts(scheme);
    var ms := SlotMessages(counts, 0);
    SummaryLength(scheme);
    if !IsEmptyScheme(scheme) {
      assert |ms| > 0;
      var first := ms[0];
      assert exists s :: 0 <= s < 4 && counts[s] > 0 && first == SlotMessage(counts[s], Tags[s]) by {
        FirstMessage(counts, 0);
      }
      var s :| 0 <= s < 4 && counts[s] > 0 && first == SlotMessage(counts[s], Tags[s]);
      assert first[0] == NatToString(counts[s])[0];
      JoinFirstChar(ms, ", ");
      assert IsDigit(Summary(counts)[0]);
    }
  }

  /** The first message from slot `c` on is that of some non-zero slot. */
  lemma {:induction false} FirstMessage(counts: seq<nat>, c: nat)
    requires |counts| == 4 && c <= 4
    requires |SlotMessages(counts, c)| > 0
    ensures exists s :: c <= s < 4 && counts[s] > 0 && SlotMessages(counts, c)[0] == SlotMessage(counts[s], Tags[s])
    decreases 4 - c
  {
    if counts[c] == 0 {
      FirstMessage(counts, c + 1);
      var s :| c + 1 <= s < 4 && counts[s] > 0 && SlotMessages(counts, c + 1)[0] == SlotMessage(counts[s], Tags[s]);
      assert SlotMessages(counts, c)[0] == SlotMessage(counts[s], Tags[s]);
    } else {
      assert SlotMessages(counts, c)[0] == SlotMessage(counts[c], Tags[c]);
    }
  }

  /** The four messages a full scheme produces. */
  lemma FullSchemeMessages(counts: seq<nat>)
    requires counts == [1, 1, 1, 2]
    ensures SlotMessages(counts, 0) ==
      ["1 x H2 converted", "1 x H3 converted", "1 x A converted", "2 x BUTTON converted"]
  {
    FullSchemeSlots(counts);
    HeadingTexts();
    ButtonTexts();
  }

  lemma HeadingTexts()
    ensures SlotMessage(1, Tags[0]) == "1 x H2 converted" && SlotMessage(1, Tags[1]) == "1 x H3 converted"
  {
    Digits();
    assert ToUpper(Tags[0]) == "H2";
    SlotMessageIs(1, 0, "1", "H2", "1 x H2 converted");
    assert ToUpper(Tags[1]) == "H3";
    SlotMessageIs(1, 1, "1", "H3", "1 x H3 converted");
  }

  lemma ButtonTexts()
    ensures SlotMessage(1, Tags[2]) == "1 x A converted" && SlotMessage(2, Tags[3]) == "2 x BUTTON converted"
  {
    LinkText();
    ButtonText();
  }

  lemma LinkText()
    ensures SlotMessage(1, Tags[2]) == "1 x A converted"
  {
    Digits();
    assert ToUpper(Tags[2]) == "A";
    SlotMessageIs(1, 2, "1", "A", "1 x A converted");
  }

  lemma ButtonText()
    ensures SlotMessage(2, Tags[3]) == "2 x BUTTON converted"
  {
    Digits();
    ButtonUpper();
    SlotMessageIs(2, 3, "2", "BUTTON", "2 x BUTTON converted");
  }

  lemma ButtonUpper()
    ensures ToUpper(Tags[3]) == "BUTTON"
  {
    var u := ToUpper(Tags[3]);
    assert u[0] == 'B' && u[1] == 'U' && u[2] == 'T' && u[3] == 'T' && u[4] == 'O' && u[5] == 'N';
  }

  lemma Digits()
    ensures NatToString(1) == "1" && NatToString(2) == "2"
  { }

  lemma SlotMessageIs(n: nat, s: nat, digits: string, upper: string, m: string)
    requires s < |Tags| && NatToString(n) == digits && ToUpper(Tags[s]) == upper
    requires m == digits + " x " + upper + " converted"
    ensures SlotMessage(n, Tags[s]) == m
  { }

  /** Every slot of a full scheme has a message, in slot order. */
  lemma FullSchemeSlots(counts: seq<nat>)
    requires counts == [1, 1, 1, 2]
    ensures SlotMessages(counts, 0) ==
      [SlotMessage(1, Tags[0]), SlotMessage(1, Tags[1]), SlotMessage(1, Tags[2]), SlotMessage(2, Tags[3])]
  {
    assert SlotMessages(counts, 3) == [SlotMessage(2, Tags[3])];
    assert SlotMessages(counts, 2) == [SlotMessage(1, Tags[2])] + SlotMessages(counts, 3);
  }

  lemma JoinFour(a: string, b: string, c: string, d: string, sep: string)
    ensures Join([a, b, c, d], sep) == a + sep + b + sep + c + sep + d
  {
    var ms := [a, b, c, d];
    assert Join(ms[3..], sep) == d;
    assert Join(ms[2..], sep) == c + sep + d;
    assert Join(ms[1..], sep) == b + sep + c + sep + d;
  }

  /** With every set present the summary names all four slots, buttons counted twice. */
  lemma FullSchemeSummary(scheme: ColourScheme)
    requires scheme.headingColour.Some? && scheme.subheadingColour.Some?
    requires scheme.linkColours.Some? && scheme.buttonColours.Some?
    ensures Summary(SlotCounts(scheme)) ==
      "1 x H2 converted" + ", " + "1 x H3 converted" + ", " + "1 x A converted" + ", " + "2 x BUTTON converted"
  {
    var counts := SlotCounts(scheme);
    assert counts == [1, 1, 1, 2];
    FullSchemeMessages(counts);
    assert Summary(counts) == Join(SlotMessages(counts, 0), ", ");
    JoinFour("1 x H2 converted", "1 x H3 converted", "1 x A converted", "2 x BUTTON converted", ", ");
  }

  /** A scheme with no optional set leaves every element as it was. */
  lemma EmptySchemeUntouched(st: ElementState, scheme: ColourScheme)
    requires IsEmptyScheme(scheme)
    ensures !StyleRead(st, scheme)
    ensures ElementOutcome(st, scheme) == Ok(st)
  {
    EmptySchemeNoPass(scheme);
  }

  /** An element none of the passes names, or an input that is not a button, is never touched. */
  lemma UnpickedUntouched(st: ElementState, scheme: ColourScheme)
    requires TagIndex(st.tagName) == |Tags| || (ToLower(st.tagName) == "input" && !IsButtonType(st.typeAttr))
    ensures !StyleRead(st, scheme)
    ensures ElementOutcome(st, scheme) == Ok(st)
  {
  }

  /**
   * An element its pass picks but that is already coloured keeps its colours: only its
   * style text is normalised, its class list gains the separator and a button set adds
   * its observer.
   */
  lemma ColouredElementKept(st: ElementState, scheme: ColourScheme)
    requires WellFormed(st.style)
    requires TagIndex(st.tagName) < |Tags| && PassSets(scheme)[TagIndex(st.tagName)].Some?
    requires Picked(st.tagName, st.typeAttr, Tags[TagIndex(st.tagName)])
    requires Validate(st.tagName, st.typeAttr, PassSets(scheme)[TagIndex(st.tagName)].value).Pass?
    requires LiveSuppressed(Snapshot(st.style), st.className)
    ensures ElementOutcome(st, scheme) ==
      Ok(st.(style := Terminated(st.style), className := st.className + " ",
             observers := st.observers + ObserversFor(PassSets(scheme)[TagIndex(st.tagName)].value)))
    ensures Snapshot(ElementOutcome(st, scheme).value.style) == Snapshot(st.style)
  {
    ConversionFacts.LiveConvertSuppressed(st, PassSets(scheme)[TagIndex(st.tagName)].value);
  }
}
