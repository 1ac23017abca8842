/**
 * The converter's "already coloured" test: a channel counts as coloured when the
 * element's existing styles set it, or its class list holds a colour utility class.
 */
module ExistingColour {
  import opened Wrappers
  import opened Strings

  datatype Channel = Foreground | Background

  /** The class prefix of a channel's utilities. */
  function Prefix(ch: Channel): string {
    match ch
    case Foreground => "text-"
    case Background => "bg-"
  }

  /** The camelCase style key of a channel. */
  function StyleKey(ch: Channel): string {
    match ch
    case Foreground => "color"
    case Background => "backgroundColor"
  }

  /** The five fixed colour words that count for either prefix. */
  function SpecialClasses(ch: Channel): seq<string> {
    var p := Prefix(ch);
    [p + "inherit", p + "current", p + "transparent", p + "black", p + "white"]
  }

  predicate HasSpecialClass(className: string, ch: Channel) {
    exists k :: 0 <= k < |SpecialClasses(ch)| && Contains(className, SpecialClasses(ch)[k])
  }

  /** The first position at or after k that does not hold a lower-case letter. */
  function LowerRunEnd(s: string, k: nat): (j: nat)
    requires k <= |s|
    ensures k <= j <= |s|
    ensures forall m :: k <= m < j ==> IsLower(s[m])
    ensures j < |s| ==> !IsLower(s[j])
    decreases |s| - k
  {
    if k < |s| && IsLower(s[k]) then LowerRunEnd(s, k + 1) else k
  }

  /**
   * A match of `<prefix>[a-z]*-[0-9]{2,3}` starting at i. The letter run cannot
   * stop before a lower-case letter, so the '-' can only sit where the run ends.
   */
  predicate ShadeAt(s: string, p: string, i: nat) {
    i + |p| <= |s| && s[i..i + |p|] == p
      && var j := LowerRunEnd(s, i + |p|);
         j + 2 < |s| && s[j] == '-' && IsDigit(s[j + 1]) && IsDigit(s[j + 2])
  }

  /** Scan for an unanchored match starting at i or later. */
  predicate ShadeFrom(s: string, p: string, i: nat)
    decreases |s| - i
  {
    i <= |s| && (ShadeAt(s, p, i) || ShadeFrom(s, p, i + 1))
  }

  /** `RegExp.test` of the shade pattern against the whole class list. */
  predicate HasShadeClass(className: string, ch: Channel) {
    ShadeFrom(className, Prefix(ch), 0)
  }

  /** The pattern read literally: prefix at i, lower-case letters up to j, '-', two digits. */
  ghost predicate RegexMatch(s: string, p: string, i: int, j: int) {
    0 <= i && i + |p| <= j && j + 2 < |s| && s[i..i + |p|] == p
      && (forall m :: i + |p| <= m < j ==> IsLower(s[m]))
      && s[j] == '-' && IsDigit(s[j + 1]) && IsDigit(s[j + 2])
  }

  lemma ShadeAtIffMatch(s: string, p: string, i: nat)
    ensures ShadeAt(s, p, i) <==> exists j :: RegexMatch(s, p, i, j)
  {
    if ShadeAt(s, p, i) {
      assert RegexMatch(s, p, i, LowerRunEnd(s, i + |p|));
    }
    if exists j :: RegexMatch(s, p, i, j) {
      var j :| RegexMatch(s, p, i, j);
      var e := LowerRunEnd(s, i + |p|);
      assert e == j;
    }
  }

  /** The scanner finds a match exactly when the pattern matches at some later position. */
  lemma {:induction false} ShadeFromIffMatch(s: string, p: string, i: nat)
    requires i <= |s|
    ensures ShadeFrom(s, p, i) <==> exists k, j :: i <= k && RegexMatch(s, p, k, j)
    decreases |s| - i
  {
    ShadeAtIffMatch(s, p, i);
    if i < |s| {
      ShadeFromIffMatch(s, p, i + 1);
    } else {
      assert !ShadeFrom(s, p, i + 1);
      forall k, j | i < k
        ensures !RegexMatch(s, p, k, j)
      {
      }
    }
    if exists k, j :: i <= k && RegexMatch(s, p, k, j) {
      var k, j :| i <= k && RegexMatch(s, p, k, j);
      if k == i {
        assert ShadeAt(s, p, i);
      } else {
        assert exists k', j' :: i + 1 <= k' && RegexMatch(s, p, k', j');
      }
    }
  }

  /** `hasExisting`: the channel is coloured by existing style or by a colour class. */
  function HasExisting(existing: map<string, string>, className: Option<string>, ch: Channel): (r: bool)
    ensures StyleKey(ch) in existing ==> r
    ensures className.None? ==> (r <==> StyleKey(ch) in existing)
  {
    StyleKey(ch) in existing
      || (className.Some? && (HasSpecialClass(className.value, ch) || HasShadeClass(className.value, ch)))
  }

  /** The three ways a channel counts as coloured, with the regex in its literal reading. */
  lemma HasExistingIff(existing: map<string, string>, className: Option<string>, ch: Channel)
    ensures HasExisting(existing, className, ch) <==>
      StyleKey(ch) in existing
      || (className.Some? && (exists k :: 0 <= k < 5 && Contains(className.value, SpecialClasses(ch)[k])))
      || (className.Some? && exists i, j :: RegexMatch(className.value, Prefix(ch), i, j))
  {
    if className.Some? {
      ShadeFromIffMatch(className.value, Prefix(ch), 0);
    }
  }

  /** A utility class on its own, checked against the channel's pattern and word list. */
  lemma KnownShadeClass()
    ensures HasShadeClass("p-2 text-purple-200", Foreground)
    ensures HasShadeClass("bg-pink-400", Background)
  {
    TextShadeMatch();
    ShadeFromIffMatch("p-2 text-purple-200", "text-", 0);
    BackgroundShadeMatch();
    ShadeFromIffMatch("bg-pink-400", "bg-", 0);
  }

  lemma TextShadeMatch()
    ensures RegexMatch("p-2 text-purple-200", "text-", 4, 15)
  {
    var s := "p-2 text-purple-200";
    assert s[4..9] == "text-";
    assert forall m :: 9 <= m < 15 ==> IsLower(s[m]);
  }

  lemma BackgroundShadeMatch()
    ensures RegexMatch("bg-pink-400", "bg-", 0, 7)
  {
    var s := "bg-pink-400";
    assert s[0..3] == "bg-";
    assert forall m :: 3 <= m < 7 ==> IsLower(s[m]);
  }

  /** Layout utilities that share a prefix with colour classes do not make an element count as coloured. */
  lemma LayoutClassesDoNotCount()
    ensures !HasShadeClass("text-center", Foreground)
    ensures !HasShadeClass("text-2xl", Foreground)
    ensures !HasShadeClass("bg-bottom", Background)
    ensures !HasShadeClass("bg-wrap", Background)
    ensures !HasExisting(map[], Some("text-center"), Foreground)
    ensures !HasExisting(map[], Some("text-2xl"), Foreground)
    ensures !HasExisting(map[], Some("bg-bottom"), Background)
    ensures !HasExisting(map[], Some("bg-wrap"), Background)
  {
    TextCenterPlain();
    TextSizePlain();
    BackgroundPositionPlain();
    BackgroundWrapPlain();
  }

  lemma TextCenterPlain()
    ensures !HasShadeClass("text-center", Foreground) && !HasExisting(map[], Some("text-center"), Foreground)
  {
    NotColoured("text-center", Foreground, "hupbw");
  }

  lemma TextSizePlain()
    ensures !HasShadeClass("text-2xl", Foreground) && !HasExisting(map[], Some("text-2xl"), Foreground)
  {
    NotColoured("text-2xl", Foreground, "hcrbw");
  }

  lemma BackgroundPositionPlain()
    ensures !HasShadeClass("bg-bottom", Background) && !HasExisting(map[], Some("bg-bottom"), Background)
  {
    NotColoured("bg-bottom", Background, "hcrlw");
  }

  lemma BackgroundWrapPlain()
    ensures !HasShadeClass("bg-wrap", Background) && !HasExisting(map[], Some("bg-wrap"), Background)
  {
    NotColoured("bg-wrap", Background, "hcnlh");
  }

  /**
   * A class list with no '-' past the channel prefix and, for each special word,
   * a character that word has and the list lacks, does not colour the channel.
   */
  lemma NotColoured(s: string, ch: Channel, missing: string)
    requires forall k :: 0 <= k < |s| && s[k] == '-' ==> k == |Prefix(ch)| - 1
    requires |missing| == 5
    requires forall k :: 0 <= k < 5 ==> missing[k] in SpecialClasses(ch)[k] && missing[k] !in s
    ensures !HasShadeClass(s, ch)
    ensures !HasExisting(map[], Some(s), ch)
  {
    NoShade(s, Prefix(ch));
    forall k | 0 <= k < 5
      ensures !Contains(s, SpecialClasses(ch)[k])
    {
      ContainsChars(s, SpecialClasses(ch)[k], missing[k]);
    }
  }

  /** A string whose only '-' ends its leading prefix holds no shade class. */
  lemma NoShade(s: string, p: string)
    requires |p| > 0 && p[|p| - 1] == '-'
    requires forall k :: 0 <= k < |s| && s[k] == '-' ==> k == |p| - 1
    ensures !ShadeFrom(s, p, 0)
  {
    ShadeFromIffMatch(s, p, 0);
    assert forall j :: |p| <= j < |s| ==> s[j] != '-';
  }
}
