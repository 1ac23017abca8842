/**
 * The scroller's layout decisions: which sections are primary and active, the colour
 * scheme, priority and edge flags of each section, the url checks, the readiness
 * counter and whether the scroller scrolls to the active section once ready.
 *
 * The screen width is a parameter; a section's ref is identified by its position.
 */
module ItemsLayout {
  import opened Wrappers
  import opened Strings
  import opened Theme
  import opened SectionLayout
  import Resolver

  /** Rendering throws on a child without a url and on a url used twice. */
  datatype ItemsError = MissingUrl | DuplicateUrl(url: string)

  /** The width from which the desktop layout applies. */
  const Desktop: int := 1024

  /** A url is usable when it is a non-empty string. */
  predicate Present(url: Option<string>) {
    url.Some? && url.value != ""
  }

  /** `names[i]`, which is undefined past the end. */
  function At(names: seq<Option<string>>, i: nat): Option<string> {
    if i < |names| then names[i] else None
  }

  // ---------------------------------------------------------------------------
  // Names and refs.

  /** The `names` loop: each child's url, in order. */
  method CollectNames(children: seq<ChildProps>) returns (names: seq<Option<string>>)
    ensures |names| == |children|
    ensures forall s :: 0 <= s < |children| ==> names[s] == children[s].url
  {
    names := [];
    var s := 0;
    while s < |children|
      invariant 0 <= s <= |children|
      invariant |names| == s
      invariant forall t :: 0 <= t < s ==> names[t] == children[t].url
    {
      names := names + [children[s].url];
      s := s + 1;
    }
  }

  /** The refs map after checking the children in order: each url mapped to its position. */
  function CheckUrls(children: seq<ChildProps>): Result<map<string, nat>, ItemsError>
    decreases |children|
  {
    if |children| == 0 then Ok(map[])
    else
      var refs :- CheckUrls(children[..|children| - 1]);
      var url := children[|children| - 1].url;
      if !Present(url) then Err(MissingUrl)
      else if url.value in refs then Err(DuplicateUrl(url.value))
      else Ok(refs[url.value := |children| - 1])
  }

  /** The `refs` loop, which throws at the first child without a url or with a repeated one. */
  method BuildRefs(children: seq<ChildProps>) returns (r: Result<map<string, nat>, ItemsError>)
    ensures r == CheckUrls(children)
  {
    var refs: map<string, nat> := map[];
    var s := 0;
    while s < |children|
      invariant 0 <= s <= |children|
      invariant CheckUrls(children[..s]) == Ok(refs)
    {
      assert children[..s + 1][..s] == children[..s];
      var url := children[s].url;
      if !Present(url) {
        ErrorStays(children, s + 1, MissingUrl);
        return Err(MissingUrl);
      }
      if url.value in refs {
        ErrorStays(children, s + 1, DuplicateUrl(url.value));
        return Err(DuplicateUrl(url.value));
      }
      refs := refs[url.value := s];
      s := s + 1;
    }
    assert children[..s] == children;
    r := Ok(refs);
  }

  /** Once a prefix fails, the whole list fails with the same error. */
  lemma {:induction false} ErrorStays(children: seq<ChildProps>, n: nat, e: ItemsError)
    requires n <= |children|
    requires CheckUrls(children[..n]) == Err(e)
    ensures CheckUrls(children) == Err(e)
    decreases |children| - n
  {
    if n < |children| {
      var next := children[..n + 1];
      assert next[..n] == children[..n];
      ErrorStays(children, n + 1, e);
    } else {
      assert children[..n] == children;
    }
  }

  /** Every child has a url, and no two share one. */
  ghost predicate UrlsValid(children: seq<ChildProps>) {
    (forall s :: 0 <= s < |children| ==> Present(children[s].url))
    && (forall s, t :: 0 <= s < t < |children| ==> children[s].url != children[t].url)
  }

  /** The checks pass exactly for valid urls, and then each url maps to its own position. */
  lemma {:induction false} CheckUrlsOk(children: seq<ChildProps>)
    ensures CheckUrls(children).Ok? <==> UrlsValid(children)
    ensures CheckUrls(children).Ok? ==>
      (forall s :: 0 <= s < |children| ==>
        (children[s].url.value in CheckUrls(children).value && CheckUrls(children).value[children[s].url.value] == s))
      && (forall u :: u in CheckUrls(children).value ==> exists s :: 0 <= s < |children| && children[s].url == Some(u))
    decreases |children|
  {
    if |children| > 0 {
      var n := |children| - 1;
      CheckUrlsOk(children[..n]);
      CheckUrlsStep(children);
    }
  }

  /** Each url of the children maps to its position, and every key is some child's url. */
  ghost predicate Indexes(children: seq<ChildProps>, refs: map<string, nat>) {
    (forall s :: 0 <= s < |children| ==>
      (children[s].url.Some? && children[s].url.value in refs && refs[children[s].url.value] == s))
    && (forall u :: u in refs ==> exists s :: 0 <= s < |children| && children[s].url == Some(u))
  }

  /** One more child: the check of the longer list, given that of the shorter. */
  lemma CheckUrlsStep(children: seq<ChildProps>)
    requires |children| > 0
    requires var init := children[..|children| - 1];
      (CheckUrls(init).Ok? <==> UrlsValid(init)) && (CheckUrls(init).Ok? ==> Indexes(init, CheckUrls(init).value))
    ensures CheckUrls(children).Ok? <==> UrlsValid(children)
    ensures CheckUrls(children).Ok? ==> Indexes(children, CheckUrls(children).value)
  {
    var n := |children| - 1;
    var init := children[..n];
    assert forall s :: 0 <= s < n ==> init[s] == children[s];
    var url := children[n].url;
    if CheckUrls(init).Err? {
      assert !UrlsValid(init);
    } else if !Present(url) {
    } else if url.value in CheckUrls(init).value {
      var s :| 0 <= s < |init| && init[s].url == url;
      assert children[s].url == children[n].url;
    } else {
      CheckUrlsAdd(children, CheckUrls(init).value);
    }
  }

  /** A new, present url extends a valid list and its index. */
  lemma CheckUrlsAdd(children: seq<ChildProps>, refs: map<string, nat>)
    requires |children| > 0
    requires var init := children[..|children| - 1]; UrlsValid(init) && Indexes(init, refs)
    requires Present(children[|children| - 1].url) && children[|children| - 1].url.value !in refs
    ensures UrlsValid(children)
    ensures Indexes(children, refs[children[|children| - 1].url.value := |children| - 1])
  {
    var n := |children| - 1;
    var init := children[..n];
    var u := children[n].url.value;
    assert forall s :: 0 <= s < n ==> init[s] == children[s];
    assert forall s :: 0 <= s < n ==> children[s].url.value in refs;
    var refs' := refs[u := n];
    assert forall s :: 0 <= s < n ==> children[s].url != children[n].url;
    forall s | 0 <= s < |children|
      ensures children[s].url.value in refs' && refs'[children[s].url.value] == s
    {
      if s < n {
        assert children[s].url.value != u;
      }
    }
    forall v | v in refs'
      ensures exists s :: 0 <= s < |children| && children[s].url == Some(v)
    {
      if v != u {
        var s :| 0 <= s < |init| && init[s].url == Some(v);
        assert children[s].url == Some(v);
      } else {
        assert children[n].url == Some(v);
      }
    }
  }

  /** A missing url is reported only when some child lacks one; a duplicate only for a url used twice. */
  lemma {:induction false} CheckUrlsErr(children: seq<ChildProps>)
    ensures CheckUrls(children) == Err(MissingUrl) ==> exists s :: 0 <= s < |children| && !Present(children[s].url)
    ensures CheckUrls(children).Err? && CheckUrls(children).error.DuplicateUrl? ==>
      exists s, t :: 0 <= s < t < |children| && children[s].url == children[t].url == Some(CheckUrls(children).error.url)
    decreases |children|
  {
    if |children| > 0 {
      var n := |children| - 1;
      var init := children[..n];
      CheckUrlsErr(init);
      CheckUrlsOk(init);
      assert forall s :: 0 <= s < n ==> init[s] == children[s];
      if CheckUrls(init).Err? {
        if CheckUrls(init) == Err(MissingUrl) {
          var s :| 0 <= s < |init| && !Present(init[s].url);
          assert !Present(children[s].url);
        } else {
          var s, t :| 0 <= s < t < |init| && init[s].url == init[t].url == Some(CheckUrls(init).error.url);
          assert children[s].url == children[t].url;
        }
      } else if Present(children[n].url) && children[n].url.value in CheckUrls(init).value {
        var u := children[n].url.value;
        var s :| 0 <= s < |init| && init[s].url == Some(u);
        assert children[s].url == children[n].url == Some(u);
      }
    }
  }

  // ---------------------------------------------------------------------------
  // Primary and active.

  /** An unset primary is the first section, or the second when the first is the active one. */
  function DefaultPrimary(names: seq<Option<string>>, primary: Option<string>, active: Option<string>): Option<string> {
    if primary.Some? then primary
    else if active.Some? && active == At(names, 0) then At(names, 1)
    else At(names, 0)
  }

  /** An unset active is the first section, or on the desktop the second when the first is primary. */
  function DefaultActive(names: seq<Option<string>>, primary: Option<string>, active: Option<string>, width: int): Option<string> {
    if active.Some? then active
    else if width >= Desktop && primary == At(names, 0) then At(names, 1)
    else At(names, 0)
  }

  /** The reassignment of the two props, primary first. */
  method ChooseSections(names: seq<Option<string>>, primary0: Option<string>, active0: Option<string>, width: int)
    returns (primary: Option<string>, active: Option<string>)
    ensures primary == DefaultPrimary(names, primary0, active0)
    ensures active == DefaultActive(names, primary, active0, width)
  {
    primary, active := primary0, active0;
    if primary.None? {
      var name := At(names, 0);
      if active.Some? {
        if active == name {
          name := At(names, 1);
        }
      }
      primary := name;
    }
    if active.None? {
      var name := At(names, 0);
      if width >= Desktop {
        if primary == name {
          name := At(names, 1);
        }
      }
      active := name;
    }
  }

  /** A prop that is set is kept. */
  lemma DefaultsKeepSetProps(names: seq<Option<string>>, primary: Option<string>, active: Option<string>, width: int)
    ensures primary.Some? ==> DefaultPrimary(names, primary, active) == primary
    ensures active.Some? ==> DefaultActive(names, DefaultPrimary(names, primary, active), active, width) == active
  {
  }

  /**
   * On the desktop, with two distinct first urls and at most one of the props set, the
   * primary and the active section are different sections.
   */
  lemma DesktopDefaultsDiffer(names: seq<Option<string>>, primary: Option<string>, active: Option<string>, width: int)
    requires width >= Desktop
    requires |names| >= 2 && names[0].Some? && names[1].Some? && names[0] != names[1]
    requires primary.None? || active.None?
    ensures var p := DefaultPrimary(names, primary, active);
      p != DefaultActive(names, p, active, width)
  {
  }

  /** On a narrow screen with neither prop set, the first section is both primary and active. */
  lemma NarrowDefaultsCoincide(names: seq<Option<string>>, width: int)
    requires width < Desktop
    ensures var p := DefaultPrimary(names, None, None);
      p == At(names, 0) && DefaultActive(names, p, None, width) == At(names, 0)
  {
  }

  // ---------------------------------------------------------------------------
  // Per-section values.

  /**
   * `getColourScheme`'s index: the position modulo the number of schemes, or on the
   * desktop 0 for the primary section and 1 for the rest. With no scheme the modulo
   * is not a number, modelled as `None`.
   */
  function SchemeIndex(position: nat, url: Option<string>, primary: Option<string>, width: int, count: nat): Option<nat> {
    if width >= Desktop then Some(if primary == url then 0 else 1)
    else if count == 0 then None
    else Some(position % count)
  }

  /**
   * The scheme itself: on a narrow screen the scheme at the position modulo the scheme
   * count; on the desktop the first scheme for the primary section and the second for
   * every other. An index past the end yields `undefined`, modelled as `None`.
   */
  function GetColourScheme(theme: Theme, position: nat, url: Option<string>, primary: Option<string>, width: int): (r: Option<ColourScheme>)
    ensures width < Desktop ==>
      r == if |theme.schemes| > 0 then Some(theme.schemes[position % |theme.schemes|]) else None
    ensures width >= Desktop && primary == url ==>
      r == if |theme.schemes| >= 1 then Some(theme.schemes[0]) else None
    ensures width >= Desktop && primary != url ==>
      r == if |theme.schemes| >= 2 then Some(theme.schemes[1]) else None
  {
    var s := SchemeIndex(position, url, primary, width, |theme.schemes|);
    if s.Some? && s.value < |theme.schemes| then Some(theme.schemes[s.value]) else None
  }

  /** On a narrow screen with at least two schemes, neighbouring sections get different scheme indices. */
  lemma NeighboursAlternate(position: nat, url: Option<string>, url': Option<string>, primary: Option<string>, width: int, count: nat)
    requires width < Desktop && count >= 2
    ensures SchemeIndex(position, url, primary, width, count) != SchemeIndex(position + 1, url', primary, width, count)
  {
    ModNext(position, count);
  }

  /** On a narrow screen with two or more distinct schemes, neighbouring sections are painted with different schemes. */
  lemma NeighbourSchemesDiffer(theme: Theme, position: nat, url: Option<string>, url': Option<string>, primary: Option<string>, width: int)
    requires width < Desktop && |theme.schemes| >= 2
    requires forall i, j :: 0 <= i < j < |theme.schemes| ==> theme.schemes[i] != theme.schemes[j]
    ensures GetColourScheme(theme, position, url, primary, width).Some?
    ensures GetColourScheme(theme, position, url, primary, width) != GetColourScheme(theme, position + 1, url', primary, width)
  {
    var n := |theme.schemes|;
    NeighboursAlternate(position, url, url', primary, width, n);
    var i, j := position % n, (position + 1) % n;
    assert i != j;
    if i < j {
      assert theme.schemes[i] != theme.schemes[j];
    } else {
      assert theme.schemes[j] != theme.schemes[i];
    }
  }

  lemma {:induction false} MulAtLeast(d: int, c: int)
    requires d >= 1 && c > 0
    ensures d * c >= c
  {
    if d > 1 {
      MulAtLeast(d - 1, c);
      assert d * c == (d - 1) * c + c;
    }
  }

  lemma ModUnique(x: int, c: int, q: int, r: int)
    requires c > 0 && x == q * c + r && 0 <= r < c
    ensures x % c == r
  {
    var q' := x / c;
    var r' := x % c;
    assert x == q' * c + r';
    var d := q - q';
    assert d * c == q * c - q' * c;
    assert d * c == r' - r;
    if d >= 1 {
      MulAtLeast(d, c);
    }
  }

  lemma ModNext(p: nat, c: nat)
    requires c >= 2
    ensures (p + 1) % c == if p % c + 1 < c then p % c + 1 else 0
  {
    var q := p / c;
    var a := p % c;
    if a + 1 < c {
      ModUnique(p + 1, c, q, a + 1);
    } else {
      assert p + 1 == q * c + c;
      assert q * c + c == (q + 1) * c;
      ModUnique(p + 1, c, q + 1, 0);
    }
  }

  /** The stacking order: later sections lower, the desktop primary above all. */
  function Priority(s: nat, count: nat, url: Option<string>, primary: Option<string>, width: int): int {
    if width >= Desktop && primary == url then count + 1 else count - s
  }

  /** Earlier sections stack above later ones, except the desktop primary, which stacks above every section. */
  lemma PriorityOrder(s: nat, t: nat, count: nat, urls: seq<Option<string>>, primary: Option<string>, width: int)
    requires |urls| == count && s < count && t < count && s != t
    requires urls[s] != urls[t]
    ensures width >= Desktop && primary == urls[s] ==>
      Priority(s, count, urls[s], primary, width) > Priority(t, count, urls[t], primary, width)
    ensures !(width >= Desktop && (primary == urls[s] || primary == urls[t])) ==>
      (Priority(s, count, urls[s], primary, width) > Priority(t, count, urls[t], primary, width) <==> s < t)
  {
  }

  /** The sections stack in distinct layers when the urls are distinct. */
  lemma PrioritiesDistinct(s: nat, t: nat, count: nat, urls: seq<Option<string>>, primary: Option<string>, width: int)
    requires |urls| == count && s < count && t < count && s != t
    requires urls[s] != urls[t]
    ensures Priority(s, count, urls[s], primary, width) != Priority(t, count, urls[t], primary, width)
  {
  }

  /** Every section but the first has a header; every section but the last a footer. */
  function Edges(s: nat, count: nat): (bool, bool) {
    (s > 0, s < count - 1)
  }

  // ---------------------------------------------------------------------------
  // The rendered list.

  /** The theme's padding, applied to every section when it is non-zero. */
  function SectionStyles(theme: Theme): (r: Style)
    ensures "zIndex" !in r && "color" !in r && "backgroundColor" !in r && "backgroundImage" !in r
    ensures theme.padding.Some? && theme.padding.value != 0 <==> "padding" in r
    ensures "padding" in r ==> r["padding"] == Text(IntToString(theme.padding.value) + "px")
  {
    if theme.padding.Some? && theme.padding.value != 0 then map["padding" := Text(IntToString(theme.padding.value) + "px")]
    else map[]
  }

  /** What the scroller hands one section. */
  datatype Slot = Slot(
    url: Option<string>,
    scheme: Option<ColourScheme>,
    priority: int,
    active: bool,
    primary: bool,
    header: bool,
    footer: bool)

  function SlotFor(theme: Theme, names: seq<Option<string>>, s: nat, primary: Option<string>, active: Option<string>, width: int): Slot
    requires s < |names|
  {
    var url := names[s];
    var edges := Edges(s, |names|);
    Slot(url, GetColourScheme(theme, s, url, primary, width), Priority(s, |names|, url, primary, width),
      active == url, primary == url, edges.0, edges.1)
  }

  datatype ItemsView = ItemsView(
    primary: Option<string>,
    active: Option<string>,
    refs: map<string, nat>,
    sectionStyle: Style,
    slots: seq<Slot>)

  /** The whole render: names, defaults, url checks, then one slot per child. */
  function Layout(theme: Theme, primary: Option<string>, active: Option<string>, width: int, children: seq<ChildProps>): Result<ItemsView, ItemsError> {
    var names := seq(|children|, s requires 0 <= s < |children| => children[s].url);
    var p := DefaultPrimary(names, primary, active);
    var a := DefaultActive(names, p, active, width);
    var refs :- CheckUrls(children);
    Ok(ItemsView(p, a, refs, SectionStyles(theme), seq(|children|, s requires 0 <= s < |children| => SlotFor(theme, names, s, p, a, width))))
  }

  /** The render, in the order the component runs its steps. */
  method Render(theme: Theme, primary0: Option<string>, active0: Option<string>, width: int, children: seq<ChildProps>)
    returns (r: Result<ItemsView, ItemsError>)
    ensures r == Layout(theme, primary0, active0, width, children)
  {
    var names := CollectNames(children);
    ghost var spec := seq(|children|, s requires 0 <= s < |children| => children[s].url);
    assert names == spec;
    var styles := SectionStyles(theme);
    var primary, active := ChooseSections(names, primary0, active0, width);
    var refs := BuildRefs(children);
    if refs.Err? {
      return Err(refs.error);
    }
    var slots := seq(|children|, s requires 0 <= s < |children| => SlotFor(theme, names, s, primary, active, width));
    r := Ok(ItemsView(primary, active, refs.value, styles, slots));
  }

  /** With valid urls, at most one section is primary and at most one active; a known primary marks exactly one. */
  lemma OnePrimaryOneActive(theme: Theme, primary: Option<string>, active: Option<string>, width: int, children: seq<ChildProps>)
    requires Layout(theme, primary, active, width, children).Ok?
    ensures var v := Layout(theme, primary, active, width, children).value;
      |v.slots| == |children|
      && (forall s, t :: 0 <= s < t < |v.slots| && v.slots[s].primary ==> !v.slots[t].primary)
      && (forall s, t :: 0 <= s < t < |v.slots| && v.slots[s].active ==> !v.slots[t].active)
      && (forall s :: 0 <= s < |v.slots| ==> (v.slots[s].primary <==> v.primary == children[s].url))
  {
    CheckUrlsOk(children);
  }

  /**
   * The scheme of each slot: on a narrow screen schemes cycle with the position; on the
   * desktop the primary section gets the first scheme and every other section the second.
   */
  lemma SlotSchemes(theme: Theme, primary: Option<string>, active: Option<string>, width: int, children: seq<ChildProps>)
    requires Layout(theme, primary, active, width, children).Ok?
    ensures var v := Layout(theme, primary, active, width, children).value;
      |v.slots| == |children|
      && (width < Desktop && |theme.schemes| > 0 ==>
            forall s :: 0 <= s < |v.slots| ==> v.slots[s].scheme == Some(theme.schemes[s % |theme.schemes|]))
      && (width >= Desktop && |theme.schemes| >= 2 ==>
            forall s :: 0 <= s < |v.slots| ==>
              v.slots[s].scheme == Some(if v.slots[s].primary then theme.schemes[0] else theme.schemes[1]))
  {
  }

  /** Only the first section lacks a header, and only the last lacks a footer. */
  lemma EdgeSlots(theme: Theme, primary: Option<string>, active: Option<string>, width: int, children: seq<ChildProps>)
    requires Layout(theme, primary, active, width, children).Ok?
    ensures var v := Layout(theme, primary, active, width, children).value;
      |v.slots| == |children|
      && (forall s :: 0 <= s < |v.slots| ==> (!v.slots[s].header <==> s == 0))
      && (forall s :: 0 <= s < |v.slots| ==> (!v.slots[s].footer <==> s == |v.slots| - 1))
  {
  }

  /** The props every section is rendered from; a missing scheme makes the section throw, modelled as `None`. */
  function PropsFor(theme: Theme, sectionStyle: Style, slot: Slot, child: ChildProps): Option<SectionProps> {
    if slot.scheme.None? then None
    else Some(SectionProps(slot.scheme.value, theme.stretch, sectionStyle, slot.priority, slot.active, slot.primary,
      slot.header, slot.footer, child))
  }

  /** Each section's z-index is its priority and its padding is the theme's. */
  lemma SectionGetsPriority(theme: Theme, v: ItemsView, s: nat, child: ChildProps)
    requires s < |v.slots| && v.sectionStyle == SectionStyles(theme)
    requires PropsFor(theme, v.sectionStyle, v.slots[s], child).Some?
    requires Assemble(PropsFor(theme, v.sectionStyle, v.slots[s], child).value).Ok?
    ensures var box := Assemble(PropsFor(theme, v.sectionStyle, v.slots[s], child).value).value.section;
      "zIndex" in box.style && box.style["zIndex"] == Num(v.slots[s].priority)
      && ("padding" in box.style <==> theme.padding.Some? && theme.padding.value != 0)
      && ("padding" in box.style ==> box.style["padding"] == Text(IntToString(theme.padding.value) + "px"))
  {
    var props := PropsFor(theme, v.sectionStyle, v.slots[s], child).value;
    assert |"padding"| == 7 && |"zIndex"| == 6;
    ZIndexIsPriority(props);
    StyleKeyKept(props, "padding");
  }

  // ---------------------------------------------------------------------------
  // Readiness and scrolling.

  /** The counter of sections that reported ready. */
  class ReadyTracker {
    const sectionCount: nat
    var loaded: nat
    var ready: bool

    /** Ready exactly once every section has reported (never, with no section at all). */
    ghost predicate Valid()
      reads this
    {
      ready <==> 1 <= sectionCount <= loaded
    }

    constructor (sectionCount: nat)
      ensures Valid()
      ensures this.sectionCount == sectionCount && loaded == 0 && !ready
    {
      this.sectionCount := sectionCount;
      loaded := 0;
      ready := false;
    }

    /** `handleChildReady`: count one more, and become ready when the count reaches the number of sections. */
    method ChildReady()
      requires Valid()
      modifies this
      ensures Valid()
      ensures loaded == old(loaded) + 1
      ensures ready <==> old(ready) || loaded == sectionCount
    {
      loaded := loaded + 1;
      if loaded == sectionCount {
        ready := true;
      }
    }
  }

  /**
   * The number of sections that report ready as soon as they are mounted, given what
   * each section's mount-time conversion returned.
   */
  function ReadyOnMount(children: seq<ChildProps>, converted: seq<Result<string, Resolver.ConvertError>>): (r: nat)
    requires |converted| == |children|
    ensures r <= |children|
    ensures r == |children| <==>
      forall s :: 0 <= s < |children| ==> converted[s].Ok? && !IsAsynchronous(children[s])
    decreases |children|
  {
    if |children| == 0 then 0
    else
      var n := |children| - 1;
      ReadyOnMount(children[..n], converted[..n]) + (if Mount(true, children[n], converted[n]).readyNow then 1 else 0)
  }

  /**
   * Every section is mounted once, converts its content (with the outcome in
   * `converted`) and then reports ready to the tracker unless it is asynchronous or its
   * conversion threw: the scroller is then ready exactly when there is a section, every
   * conversion succeeded and none of the sections is asynchronous.
   */
  method MountSections(tracker: ReadyTracker, children: seq<ChildProps>, converted: seq<Result<string, Resolver.ConvertError>>)
    requires tracker.Valid() && tracker.loaded == 0 && tracker.sectionCount == |children|
    requires |converted| == |children|
    modifies tracker
    ensures tracker.Valid() && tracker.loaded == ReadyOnMount(children, converted)
    ensures tracker.ready <==>
      |children| > 0 && forall s :: 0 <= s < |children| ==> converted[s].Ok? && !IsAsynchronous(children[s])
  {
    var s := 0;
    while s < |children|
      invariant 0 <= s <= |children|
      invariant tracker.Valid() && tracker.sectionCount == |children|
      invariant tracker.loaded == ReadyOnMount(children[..s], converted[..s])
    {
      assert children[..s + 1][..s] == children[..s];
      assert converted[..s + 1][..s] == converted[..s];
      var m := Mount(true, children[s], converted[s]);
      if m.readyNow {
        tracker.ChildReady();
      }
      s := s + 1;
    }
    assert children[..s] == children && converted[..s] == converted;
  }

  /** The section the ready effect scrolls to, if any. */
  function ScrollTarget(ready: bool, width: int, active: Option<string>, names: seq<Option<string>>, refs: map<string, nat>): Option<nat> {
    if ready && Present(active) && width < Desktop then
      if active == At(names, 0) then None
      else if active.value in refs then Some(refs[active.value])
      else None
    else None
  }

  /** A scroll happens exactly when ready, narrow, with a set active that is not the first url and has a ref. */
  lemma ScrollIff(ready: bool, width: int, active: Option<string>, names: seq<Option<string>>, refs: map<string, nat>)
    ensures ScrollTarget(ready, width, active, names, refs).Some? <==>
      ready && width < Desktop && Present(active) && active != At(names, 0) && active.value in refs
  {
  }

  /** With the checked refs, the scroll goes to the active section, never to the first, and an unknown url never scrolls. */
  lemma ScrollGoesToActive(ready: bool, width: int, active: Option<string>, children: seq<ChildProps>)
    requires CheckUrls(children).Ok?
    ensures var names := seq(|children|, s requires 0 <= s < |children| => children[s].url);
      var r := ScrollTarget(ready, width, active, names, CheckUrls(children).value);
      (r.Some? ==> 0 < r.value < |children| && children[r.value].url == active)
      && ((forall s :: 0 <= s < |children| ==> children[s].url != active) ==> r.None?)
  {
    CheckUrlsOk(children);
    var names := seq(|children|, s requires 0 <= s < |children| => children[s].url);
    var refs := CheckUrls(children).value;
    var r := ScrollTarget(ready, width, active, names, refs);
    if r.Some? {
      var u := active.value;
      assert u in refs;
      var s :| 0 <= s < |children| && children[s].url == Some(u);
      assert refs[u] == s;
      assert s != 0;
    }
  }

  /** The container starts hidden; the ready effect removes the `hidden` class. */
  const ContainerClasses: seq<string> :=
    ["hidden", "lg:flex", "lg:flex-row", "lg:max-h-screen", "lg:overflow-x-hidden", "lg:overflow-y-hidden"]

  /** `classList.remove`: every occurrence of the token goes, the rest keep their order. */
  function RemoveClass(classes: seq<string>, c: string): (r: seq<string>)
    ensures c !in r
    ensures forall x :: x in classes && x != c ==> x in r
    ensures forall x :: x in r ==> x in classes
    decreases |classes|
  {
    if |classes| == 0 then []
    else (if classes[0] == c then [] else [classes[0]]) + RemoveClass(classes[1..], c)
  }

  function Revealed(ready: bool, classes: seq<string>): (r: seq<string>)
    ensures ready ==> "hidden" !in r && forall x :: x in classes && x != "hidden" ==> x in r
    ensures forall x :: x in r ==> x in classes
    ensures !ready ==> r == classes
  {
    if ready && "hidden" in classes then RemoveClass(classes, "hidden") else classes
  }
}
