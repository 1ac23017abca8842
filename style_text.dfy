/**
 * Inline style text as the element converter reads and writes it: the snapshot of a
 * live element's `style` attribute (kebab-case keys turned into camelCase), the
 * camelCase-to-kebab-case conversion used when writing styles back, and the styles
 * object the converter accumulates.
 */
module StyleText {
  import opened Strings

  /** One accumulated inline style, with its camelCase key (`backgroundColor`). */
  datatype Decl = Decl(key: string, value: string)

  /** The style text after the constructor's normalisation: empty, or ending in ';'. */
  function Terminated(css: string): (r: string)
    ensures css == "" ==> r == ""
    ensures css != "" ==> EndsWith(r, ";")
    ensures r == css || r == css + ";"
  {
    if css != "" && !EndsWith(css, ";") then css + ";" else css
  }

  lemma TerminatedIdempotent(css: string)
    ensures Terminated(Terminated(css)) == Terminated(css)
  {
  }

  /** Text that already ends in ';' is kept as it is. */
  lemma TerminatedKeeps(css: string)
    ensures EndsWith(css, ";") ==> Terminated(css) == css
  {
  }

  /**
   * The key conversion of the constructor scans left to right and replaces each '-'
   * by the upper-cased character after it; a '-' in last place has no character
   * after it, and the source fails there.
   */
  predicate CamelDefined(key: string)
    decreases |key|
  {
    |key| == 0 || (if key[0] == '-' then |key| >= 2 && CamelDefined(key[2..]) else CamelDefined(key[1..]))
  }

  function KebabToCamel(key: string): string
    requires CamelDefined(key)
    decreases |key|
  {
    if |key| == 0 then ""
    else if key[0] == '-' then [UpperChar(key[1])] + KebabToCamel(key[2..])
    else [key[0]] + KebabToCamel(key[1..])
  }

  /**
   * The key conversion of `convert`: every character that upper-casing leaves alone
   * (an upper-case letter, but also a digit or a '-') gets a '-' and is lower-cased.
   */
  function CamelToKebab(key: string): string
    decreases |key|
  {
    if |key| == 0 then ""
    else (if UpperChar(key[0]) == key[0] then ['-', LowerChar(key[0])] else [key[0]]) + CamelToKebab(key[1..])
  }

  lemma {:induction false} KebabAppend(a: string, b: string)
    ensures CamelToKebab(a + b) == CamelToKebab(a) + CamelToKebab(b)
    decreases |a|
  {
    if |a| > 0 {
      assert (a + b)[1..] == a[1..] + b;
      KebabAppend(a[1..], b);
    } else {
      assert a + b == b;
    }
  }

  lemma {:induction false} KebabOfLower(s: string)
    requires forall k :: 0 <= k < |s| ==> IsLower(s[k])
    ensures CamelToKebab(s) == s
    decreases |s|
  {
    if |s| > 0 {
      KebabOfLower(s[1..]);
      assert [s[0]] + s[1..] == s;
    }
  }

  predicate AllLetters(s: string) {
    forall k :: 0 <= k < |s| ==> IsLetter(s[k])
  }

  /** Writing a style key back and reading it again gives the key (for keys made of letters). */
  lemma {:induction false} KebabCamelRoundTrip(key: string)
    requires AllLetters(key)
    ensures CamelDefined(CamelToKebab(key)) && KebabToCamel(CamelToKebab(key)) == key
    ensures ':' !in CamelToKebab(key) && ';' !in CamelToKebab(key)
    decreases |key|
  {
    if |key| > 0 {
      assert AllLetters(key[1..]);
      KebabCamelRoundTrip(key[1..]);
      var rest := CamelToKebab(key[1..]);
      var c := key[0];
      if IsUpper(c) {
        var k := ['-', LowerChar(c)] + rest;
        assert CamelToKebab(key) == k;
        assert k[2..] == rest;
        assert KebabToCamel(k) == [UpperChar(LowerChar(c))] + KebabToCamel(rest);
      } else {
        var k := [c] + rest;
        assert CamelToKebab(key) == k;
        assert k[1..] == rest;
        assert KebabToCamel(k) == [c] + KebabToCamel(rest);
      }
      assert [c] + key[1..] == key;
    }
  }

  /** A ';'-segment the constructor can read: empty, or a `key:value` with a readable key. */
  predicate SegmentOk(seg: string) {
    seg == "" || (':' in seg && CamelDefined(Split(seg, ':')[0]))
  }

  predicate SegmentsOk(segs: seq<string>) {
    forall k :: 0 <= k < |segs| ==> SegmentOk(segs[k])
  }

  /** Style text the constructor reads without failing. */
  predicate WellFormed(css: string) {
    SegmentsOk(Split(Terminated(css), ';'))
  }

  /** The snapshot entry one segment contributes: camelCase key, and the field after the first ':'. */
  function AddSegment(m: map<string, string>, seg: string): map<string, string>
    requires SegmentOk(seg)
  {
    if seg == "" then m
    else
      var fields := Split(seg, ':');
      m[Trim(KebabToCamel(fields[0])) := Trim(fields[1])]
  }

  function AddSegments(m: map<string, string>, segs: seq<string>): map<string, string>
    requires SegmentsOk(segs)
    decreases |segs|
  {
    if |segs| == 0 then m else AddSegments(AddSegment(m, segs[0]), segs[1..])
  }

  /** The `existing` map the constructor builds from a live element's style text; later keys win. */
  function Snapshot(css: string): map<string, string>
    requires WellFormed(css)
  {
    AddSegments(map[], Split(Terminated(css), ';'))
  }

  /** The snapshot of the first i + 1 segments, from that of the first i. */
  lemma AddSegmentsStep(segs: seq<string>, i: nat)
    requires SegmentsOk(segs) && i < |segs|
    ensures SegmentOk(segs[i]) && SegmentsOk(segs[..i]) && SegmentsOk(segs[..i + 1])
    ensures AddSegments(map[], segs[..i + 1]) == AddSegment(AddSegments(map[], segs[..i]), segs[i])
  {
    var seg := segs[i];
    assert SegmentsOk([seg]);
    AddSegmentsAppend(map[], segs[..i], [seg]);
    assert segs[..i + 1] == segs[..i] + [seg];
    assert AddSegments(AddSegments(map[], segs[..i]), [seg]) == AddSegment(AddSegments(map[], segs[..i]), seg);
  }

  lemma {:induction false} AddSegmentsAppend(m: map<string, string>, a: seq<string>, b: seq<string>)
    requires SegmentsOk(a) && SegmentsOk(b)
    ensures SegmentsOk(a + b)
    ensures AddSegments(m, a + b) == AddSegments(AddSegments(m, a), b)
    decreases |a|
  {
    assert forall k :: 0 <= k < |a + b| ==> (a + b)[k] == if k < |a| then a[k] else b[k - |a|];
    if |a| == 0 {
      assert a + b == b;
    } else {
      assert (a + b)[0] == a[0];
      assert (a + b)[1..] == a[1..] + b;
      assert SegmentsOk(a[1..]) by {
        assert forall k :: 0 <= k < |a[1..]| ==> a[1..][k] == a[k + 1];
      }
      var m1 := AddSegment(m, a[0]);
      AddSegmentsAppend(m1, a[1..], b);
      assert AddSegments(m, a + b) == AddSegments(m1, a[1..] + b);
      assert AddSegments(m, a) == AddSegments(m1, a[1..]);
    }
  }

  /** The declaration text `convert` writes for one style, and the style handlers write. */
  function DeclText(kebabKey: string, value: string): string {
    kebabKey + ":" + value + ";"
  }

  /** `el.style.<key> = value`, with the declaration added after the existing text. */
  function WriteProperty(css: string, kebabKey: string, value: string): string {
    Terminated(css) + DeclText(kebabKey, value)
  }

  /** A write keeps the terminated text it wrote after as a prefix, also once terminated itself. */
  lemma WritePropertyPrefix(css: string, kebabKey: string, value: string)
    ensures StartsWith(WriteProperty(css, kebabKey, value), Terminated(css))
    ensures Terminated(WriteProperty(css, kebabKey, value)) == WriteProperty(css, kebabKey, value)
  {
    var w := WriteProperty(css, kebabKey, value);
    assert w[..|Terminated(css)|] == Terminated(css);
    assert w[|w| - 1] == ';';
    assert w[|w| - 1..] == ";";
  }

  /** A value that survives the snapshot unchanged. */
  predicate PlainValue(v: string) {
    ':' !in v && ';' !in v && IsTrimmed(v)
  }

  /** The segments of normalised style text before its final, empty one. */
  function Leading(css: string): seq<string> {
    var t := Terminated(css);
    if t == "" then [] else Split(t[..|t| - 1], ';')
  }

  lemma LeadingSplit(css: string, d: string)
    ensures Split(Terminated(css), ';') == Leading(css) + [""]
    ensures Split(Terminated(css) + d, ';') == Leading(css) + Split(d, ';')
  {
    LeadingSplitThen(css, "");
    assert Terminated(css) + "" == Terminated(css);
    assert Split("", ';') == [""];
    LeadingSplitThen(css, d);
  }

  lemma LeadingSplitThen(css: string, d: string)
    ensures Split(Terminated(css) + d, ';') == Leading(css) + Split(d, ';')
  {
    var t := Terminated(css);
    if t == "" {
      assert t + d == d;
    } else {
      var init := t[..|t| - 1];
      assert t[|t| - 1] == ';';
      assert init + [';'] == t;
      assert Leading(css) == Split(init, ';');
      SplitAround(init, ';', d);
      assert init + [';'] + d == t + d;
    }
  }

  lemma DeclSplit(kebabKey: string, value: string)
    requires ':' !in kebabKey && ';' !in kebabKey
    requires ':' !in value && ';' !in value
    ensures Split(DeclText(kebabKey, value), ';') == [kebabKey + ":" + value, ""]
    ensures Split(kebabKey + ":" + value, ':') == [kebabKey, value]
  {
    var seg := kebabKey + ":" + value;
    assert DeclText(kebabKey, value) == seg + [';'] + "";
    SplitAround(seg, ';', "");
    SplitNoSeparator(seg, ';');
    assert seg == kebabKey + [':'] + value;
    SplitAround(kebabKey, ':', value);
    SplitNoSeparator(kebabKey, ':');
    SplitNoSeparator(value, ':');
  }

  lemma SnapshotLeading(css: string)
    requires WellFormed(css)
    ensures SegmentsOk(Leading(css))
    ensures Snapshot(css) == AddSegments(map[], Leading(css))
  {
    var lead := Leading(css);
    LeadingSplit(css, "");
    assert SegmentsOk(lead) by {
      assert forall k :: 0 <= k < |lead| ==> lead[k] == (lead + [""])[k];
    }
    AddSegmentsAppend(map[], lead, [""]);
    var m := AddSegments(map[], lead);
    assert AddSegments(m, [""]) == m;
  }

  lemma WriteSegments(css: string, kebabKey: string, value: string)
    requires ':' !in kebabKey && ';' !in kebabKey
    requires ':' !in value && ';' !in value
    ensures Split(Terminated(WriteProperty(css, kebabKey, value)), ';') == Leading(css) + [kebabKey + ":" + value, ""]
  {
    var w := WriteProperty(css, kebabKey, value);
    DeclSplit(kebabKey, value);
    LeadingSplit(css, DeclText(kebabKey, value));
    assert EndsWith(w, ";");
    assert Terminated(w) == w;
  }

  lemma DeclSegments(m: map<string, string>, kebabKey: string, value: string)
    requires ':' !in kebabKey && ';' !in kebabKey && CamelDefined(kebabKey)
    requires ':' !in value && ';' !in value
    ensures SegmentsOk([kebabKey + ":" + value, ""])
    ensures AddSegments(m, [kebabKey + ":" + value, ""]) == m[Trim(KebabToCamel(kebabKey)) := Trim(value)]
  {
    var seg := kebabKey + ":" + value;
    DeclSplit(kebabKey, value);
    assert seg[|kebabKey|] == ':';
    assert SegmentOk(seg);
    var m1 := AddSegment(m, seg);
    assert [seg, ""][1..] == [""];
    assert AddSegments(m1, [""]) == m1;
  }

  /**
   * Appending one declaration to well-formed style text keeps it well formed, and the
   * snapshot of the new text is the old snapshot with that one key (re)set.
   */
  lemma SnapshotWrite(css: string, kebabKey: string, value: string)
    requires WellFormed(css)
    requires ':' !in kebabKey && ';' !in kebabKey && CamelDefined(kebabKey)
    requires ':' !in value && ';' !in value
    ensures WellFormed(WriteProperty(css, kebabKey, value))
    ensures Snapshot(WriteProperty(css, kebabKey, value))
         == Snapshot(css)[Trim(KebabToCamel(kebabKey)) := Trim(value)]
  {
    var lead := Leading(css);
    var tail := [kebabKey + ":" + value, ""];
    WriteSegments(css, kebabKey, value);
    SnapshotLeading(css);
    DeclSegments(AddSegments(map[], lead), kebabKey, value);
    AddSegmentsAppend(map[], lead, tail);
  }

  /** Writing a camelCase style under its kebab-case name sets exactly that key in the snapshot. */
  lemma SnapshotWriteCamel(css: string, camel: string, value: string)
    requires WellFormed(css) && AllLetters(camel) && PlainValue(value)
    ensures WellFormed(WriteProperty(css, CamelToKebab(camel), value))
    ensures Snapshot(WriteProperty(css, CamelToKebab(camel), value)) == Snapshot(css)[camel := value]
  {
    KebabCamelRoundTrip(camel);
    SnapshotWrite(css, CamelToKebab(camel), value);
    TrimOfTrimmed(value);
    TrimLetters(camel);
  }

  /** The text `convert` appends for its accumulated styles, in their insertion order. */
  function DeclsText(decls: seq<Decl>): string
    decreases |decls|
  {
    if |decls| == 0 then ""
    else DeclsText(decls[..|decls| - 1]) + DeclText(CamelToKebab(decls[|decls| - 1].key), decls[|decls| - 1].value)
  }

  /** One more declaration appends its text. */
  lemma DeclsTextStep(decls: seq<Decl>, i: nat)
    requires i < |decls|
    ensures DeclsText(decls[..i + 1]) == DeclsText(decls[..i]) + DeclText(CamelToKebab(decls[i].key), decls[i].value)
  {
    assert decls[..i + 1][..i] == decls[..i];
  }

  /** The styles object read as a map. */
  function DeclsMap(decls: seq<Decl>): map<string, string>
    decreases |decls|
  {
    if |decls| == 0 then map[]
    else DeclsMap(decls[..|decls| - 1])[decls[|decls| - 1].key := decls[|decls| - 1].value]
  }

  /** Style entries the snapshot reads back exactly: letter keys, values free of ':' ';' and edge blanks. */
  predicate PlainDecls(decls: seq<Decl>) {
    forall k :: 0 <= k < |decls| ==> AllLetters(decls[k].key) && PlainValue(decls[k].value)
  }

  /**
   * Writing the accumulated styles after the original text and snapshotting the result
   * gives the original snapshot overlaid with the styles: what a second conversion of
   * the same live element reads as its existing styles.
   */
  lemma {:induction false} SnapshotAfterDecls(css: string, decls: seq<Decl>)
    requires WellFormed(css)
    requires PlainDecls(decls)
    ensures WellFormed(Terminated(css) + DeclsText(decls))
    ensures Snapshot(Terminated(css) + DeclsText(decls)) == Snapshot(css) + DeclsMap(decls)
    decreases |decls|
  {
    if |decls| == 0 {
      assert Terminated(css) + DeclsText(decls) == Terminated(css);
      TerminatedIdempotent(css);
    } else {
      var init := decls[..|decls| - 1];
      var last := decls[|decls| - 1];
      assert PlainDecls(init) by {
        assert forall k :: 0 <= k < |init| ==> init[k] == decls[k];
      }
      SnapshotAfterDecls(css, init);
      var before := Terminated(css) + DeclsText(init);
      var kebab := CamelToKebab(last.key);
      KebabCamelRoundTrip(last.key);
      SnapshotWrite(before, kebab, last.value);
      TerminatedDeclsText(css, init);
      var d := DeclText(kebab, last.value);
      assert DeclsText(decls) == DeclsText(init) + d;
      assert WriteProperty(before, kebab, last.value) == before + d;
      ConcatAssoc(Terminated(css), DeclsText(init), d);
      TrimOfTrimmed(last.value);
      TrimLetters(last.key);
      assert DeclsMap(decls) == DeclsMap(init)[last.key := last.value];
      MergeUpdate(Snapshot(css), DeclsMap(init), last.key, last.value);
    }
  }

  lemma ConcatAssoc(a: string, b: string, c: string)
    ensures (a + b) + c == a + (b + c)
  {
  }

  lemma MergeUpdate(a: map<string, string>, b: map<string, string>, k: string, v: string)
    ensures (a + b)[k := v] == a + b[k := v]
  {
  }

  lemma TrimLetters(s: string)
    requires AllLetters(s)
    ensures Trim(s) == s
  {
    if |s| > 0 {
      assert IsLetter(s[0]) && IsLetter(s[|s| - 1]);
    }
    TrimOfTrimmed(s);
  }

  lemma TerminatedDeclsText(css: string, decls: seq<Decl>)
    ensures Terminated(Terminated(css) + DeclsText(decls)) == Terminated(css) + DeclsText(decls)
  {
    var t := Terminated(css) + DeclsText(decls);
    if |decls| > 0 {
      var last := decls[|decls| - 1];
      var d := DeclText(CamelToKebab(last.key), last.value);
      assert t == Terminated(css) + DeclsText(decls[..|decls| - 1]) + d;
      assert t[|t| - 1] == ';';
    } else {
      assert t == Terminated(css);
      TerminatedIdempotent(css);
    }
  }

  predicate DistinctKeys(decls: seq<Decl>) {
    forall i, j :: 0 <= i < j < |decls| ==> decls[i].key != decls[j].key
  }

  /** The position of `key` in the styles object, or its length when the key is absent. */
  function FindKey(decls: seq<Decl>, key: string): (i: nat)
    ensures i <= |decls|
    ensures i < |decls| ==> decls[i].key == key
    ensures forall j :: 0 <= j < i ==> decls[j].key != key
    decreases |decls|
  {
    if |decls| == 0 then 0
    else if decls[0].key == key then 0
    else 1 + FindKey(decls[1..], key)
  }

  lemma {:induction false} DeclsMapReplace(decls: seq<Decl>, i: nat, value: string)
    requires DistinctKeys(decls) && i < |decls|
    ensures DistinctKeys(decls[i := Decl(decls[i].key, value)])
    ensures DeclsMap(decls[i := Decl(decls[i].key, value)]) == DeclsMap(decls)[decls[i].key := value]
    decreases |decls|
  {
    var r := decls[i := Decl(decls[i].key, value)];
    var n := |decls| - 1;
    assert r[..n] == if i == n then decls[..n] else decls[..n][i := Decl(decls[i].key, value)];
    if i < n {
      DeclsMapReplace(decls[..n], i, value);
    }
  }

  lemma DeclsMapReplaceIfDistinct(decls: seq<Decl>, i: nat, value: string)
    requires i < |decls|
    ensures DistinctKeys(decls) ==> DistinctKeys(decls[i := Decl(decls[i].key, value)])
    ensures DistinctKeys(decls) ==> DeclsMap(decls[i := Decl(decls[i].key, value)]) == DeclsMap(decls)[decls[i].key := value]
  {
    if DistinctKeys(decls) {
      DeclsMapReplace(decls, i, value);
    }
  }

  /** JavaScript property assignment on the styles object: an existing key keeps its place. */
  function Assign(decls: seq<Decl>, key: string, value: string): (r: seq<Decl>)
    ensures DistinctKeys(decls) ==> DistinctKeys(r) && DeclsMap(r) == DeclsMap(decls)[key := value]
  {
    var i := FindKey(decls, key);
    if i < |decls| then
      DeclsMapReplaceIfDistinct(decls, i, value);
      decls[i := Decl(key, value)]
    else
      var r := decls + [Decl(key, value)];
      assert r[..|r| - 1] == decls;
      r
  }
}
