/**
 * The virtual-tree walker: one post-order rebuild of the children per tag pass. Every
 * element's own non-string children are converted first, then the element itself is
 * converted if its tag is the pass's tag.
 */
module DomConversion {
  import opened Wrappers
  import opened Theme
  import opened Resolver
  import opened VirtualDom
  import opened ElementConversion
  import opened TagSlots
  import Strings
  import ConversionFacts

  // ---------------------------------------------------------------------------
  // Sizes, for termination of the walk.

  function NodeSize(n: Node): (r: nat)
    ensures r >= 1
    decreases n, 2
  {
    1 + ChildrenSize(n.children)
  }

  function ChildrenSize(c: Children): nat
    decreases c, 1
  {
    match c
    case One(m) => 1 + NodeSize(m)
    case Many(items) => ItemsSize(items)
    case _ => 0
  }

  function ItemsSize(items: seq<Item>): nat
    decreases items, 0
  {
    if |items| == 0 then 0 else ItemsSize(items[..|items| - 1]) + ItemSize(items[|items| - 1])
  }

  function ItemSize(it: Item): (r: nat)
    ensures r >= 1
    decreases it, 3
  {
    match it
    case TextItem(_) => 1
    case ElementItem(n) => 1 + NodeSize(n)
  }

  lemma ChildItemsSize(c: Children)
    requires Descends(c)
    ensures ItemsSize(ChildItems(c)) == ChildrenSize(c)
  {
    if c.One? {
      assert ChildItems(c)[..0] == [];
    }
  }

  // ---------------------------------------------------------------------------
  // One pass, as functions.

  /** The pass converts an element whose type is the tag exactly; an input only with a button type. */
  predicate Selected(n: Node, tag: string) {
    n.tag == tag && (tag == "input" ==> IsButtonType(n.typeAttr))
  }

  /** One entry of a children list: strings pass through, elements are rebuilt then matched. */
  function ConvertItem(tag: string, cs: ColourSet, it: Item): Result<Item, ConvertError>
    decreases ItemSize(it), 0
  {
    match it
    case TextItem(_) => Ok(it)
    case ElementItem(n) =>
      var n1 :- DescendNode(tag, cs, n);
      if Selected(n1, tag) then
        var n2 :- VirtualConvert(n1, cs);
        Ok(ElementItem(n2))
      else Ok(ElementItem(n1))
  }

  /** An element's children converted first, collapsed to one child when the list has one entry. */
  function DescendNode(tag: string, cs: ColourSet, n: Node): Result<Node, ConvertError>
    decreases NodeSize(n), 0
  {
    if Descends(n.children) then
      ChildItemsSize(n.children);
      var c :- ConvertItems(tag, cs, ChildItems(n.children));
      Ok(n.(children := Collapse(c)))
    else Ok(n)
  }

  /** A children list, entry by entry in order; the first failing entry throws. */
  function ConvertItems(tag: string, cs: ColourSet, items: seq<Item>): Result<seq<Item>, ConvertError>
    decreases ItemsSize(items), 1
  {
    if |items| == 0 then Ok([])
    else
      var init :- ConvertItems(tag, cs, items[..|items| - 1]);
      var last :- ConvertItem(tag, cs, items[|items| - 1]);
      Ok(init + [last])
  }

  /** The passes from `c` on, each one over the result of the one before. */
  function ConvertPasses(items: seq<Item>, sets: seq<Option<ColourSet>>, c: nat): Result<seq<Item>, ConvertError>
    requires |sets| == |Tags| && c <= |Tags|
    decreases |Tags| - c
  {
    if c == |Tags| then Ok(items)
    else if sets[c].None? then ConvertPasses(items, sets, c + 1)
    else
      var next :- ConvertItems(Tags[c], sets[c].value, items);
      ConvertPasses(next, sets, c + 1)
  }

  /** The children after the passes before `c`, or the first of their errors. */
  function PassesBefore(items: seq<Item>, sets: seq<Option<ColourSet>>, c: nat): Result<seq<Item>, ConvertError>
    requires |sets| == |Tags| && c <= |Tags|
  {
    if c == 0 then Ok(items)
    else
      var done :- PassesBefore(items, sets, c - 1);
      if sets[c - 1].None? then Ok(done) else ConvertItems(Tags[c - 1], sets[c - 1].value, done)
  }

  /** `convert`: all five passes over the top-level children. */
  function ConvertScheme(items: seq<Item>, scheme: ColourScheme): Result<seq<Item>, ConvertError> {
    ConvertPasses(items, PassSets(scheme), 0)
  }

  // ---------------------------------------------------------------------------
  // The walker object.

  class DOMConverter {
    var children: seq<Item>
    const scheme: ColourScheme

    constructor (children: seq<Item>, scheme: ColourScheme)
      ensures this.children == children && this.scheme == scheme
    {
      this.children := children;
      this.scheme := scheme;
    }

    /**
     * The pass loop: each pass whose set exists replaces the children with its result.
     * A throwing pass leaves the children as the passes before it made them.
     */
    method Convert() returns (r: Result<seq<Item>, ConvertError>)
      modifies this
      ensures r == ConvertScheme(old(children), scheme)
      ensures r.Ok? ==> children == r.value
      ensures r.Err? ==> exists c :: (0 <= c < |Tags| && PassesBefore(old(children), PassSets(scheme), c) == Ok(children)
        && PassSets(scheme)[c].Some? && ConvertItems(Tags[c], PassSets(scheme)[c].value, children) == Err(r.error))
    {
      var sets := PassSets(scheme);
      var c := 0;
      while c < |sets|
        invariant 0 <= c <= |Tags|
        invariant ConvertPasses(old(children), sets, 0) == ConvertPasses(children, sets, c)
        invariant PassesBefore(old(children), sets, c) == Ok(children)
      {
        if sets[c].Some? {
          var next := ConvertTag(Tags[c], sets[c].value, children);
          if next.Err? {
            return Err(next.error);
          }
          children := next.value;
        }
        c := c + 1;
      }
      r := Ok(children);
    }

    /**
     * `convertTag`: each entry in turn; an element's element children are converted by a
     * recursive call before the element itself is matched and converted.
     */
    method ConvertTag(tag: string, cs: ColourSet, parent: seq<Item>) returns (r: Result<seq<Item>, ConvertError>)
      ensures r == ConvertItems(tag, cs, parent)
      decreases ItemsSize(parent), 1
    {
      var children := parent;
      var e := 0;
      while e < |children|
        invariant 0 <= e <= |children| == |parent|
        invariant ConvertItems(tag, cs, parent[..e]) == Ok(children[..e])
        invariant children[e..] == parent[e..]
      {
        assert children[e] == parent[e];
        ItemsPrefixSize(parent, e);
        var item := ConvertEntry(tag, cs, children[e]);
        if item.Err? {
          EntryFails(tag, cs, parent, e, item.error);
          return Err(item.error);
        }
        EntryConverted(tag, cs, parent, e, children[..e], item.value);
        children := children[e := item.value];
        assert children[..e + 1] == children[..e] + [item.value];
        e := e + 1;
      }
      assert parent[..|parent|] == parent;
      assert children[..e] == children;
      r := Ok(children);
    }

    /** The body of `convertTag`'s loop for one entry: its children first, then the entry itself. */
    method ConvertEntry(tag: string, cs: ColourSet, child: Item) returns (r: Result<Item, ConvertError>)
      ensures r == ConvertItem(tag, cs, child)
      decreases ItemSize(child), 0
    {
      var entry := child;
      if child.ElementItem? && Descends(child.node.children) {
        ChildItemsSize(child.node.children);
        assert ItemSize(child) == 2 + ChildrenSize(child.node.children);
        var c := ConvertTag(tag, cs, ChildItems(child.node.children));
        if c.Err? {
          return Err(c.error);
        }
        entry := ElementItem(child.node.(children := Collapse(c.value)));
      }
      assert child.ElementItem? ==> DescendNode(tag, cs, child.node) == Ok(entry.node);
      if entry.ElementItem? && Selected(entry.node, tag) {
        var converted := ElementConverter.ConvertVirtual(entry.node, cs);
        if converted.Err? {
          return Err(converted.error);
        }
        entry := ElementItem(converted.value);
      }
      r := Ok(entry);
    }
  }

  /** A failing entry after a converted prefix makes the whole list fail with its error. */
  lemma EntryFails(tag: string, cs: ColourSet, parent: seq<Item>, e: nat, err: ConvertError)
    requires e < |parent| && ConvertItems(tag, cs, parent[..e]).Ok? && ConvertItem(tag, cs, parent[e]) == Err(err)
    ensures ConvertItems(tag, cs, parent) == Err(err)
  {
    assert parent[..e + 1][..e] == parent[..e];
    assert ConvertItems(tag, cs, parent[..e + 1]) == Err(err);
    ItemsErrorPrefix(tag, cs, parent, e + 1);
  }

  /** A converted entry after a converted prefix extends it. */
  lemma EntryConverted(tag: string, cs: ColourSet, parent: seq<Item>, e: nat, done: seq<Item>, item: Item)
    requires e < |parent| && ConvertItems(tag, cs, parent[..e]) == Ok(done) && ConvertItem(tag, cs, parent[e]) == Ok(item)
    ensures ConvertItems(tag, cs, parent[..e + 1]) == Ok(done + [item])
  {
    assert parent[..e + 1][..e] == parent[..e];
  }

  lemma {:induction false} ItemsPrefixSize(items: seq<Item>, e: nat)
    requires e < |items|
    ensures ItemSize(items[e]) <= ItemsSize(items)
    decreases |items|
  {
    var n := |items| - 1;
    if e < n {
      ItemsPrefixSize(items[..n], e);
    }
  }

  /** A failing prefix makes the whole list fail with its error. */
  lemma {:induction false} ItemsErrorPrefix(tag: string, cs: ColourSet, items: seq<Item>, k: nat)
    requires k <= |items|
    requires ConvertItems(tag, cs, items[..k]).Err?
    ensures ConvertItems(tag, cs, items) == Err(ConvertItems(tag, cs, items[..k]).error)
    decreases |items|
  {
    if k < |items| {
      var n := |items| - 1;
      assert items[..n][..k] == items[..k];
      ItemsErrorPrefix(tag, cs, items[..n], k);
    } else {
      assert items[..k] == items;
    }
  }

  // ---------------------------------------------------------------------------
  // Properties of a pass and of the scheme.

  /** A scheme without optional sets gives the children back unchanged. */
  lemma EmptySchemeIdentity(items: seq<Item>, scheme: ColourScheme)
    requires IsEmptyScheme(scheme)
    ensures ConvertScheme(items, scheme) == Ok(items)
  {
    var sets := PassSets(scheme);
    assert ConvertPasses(items, sets, 5) == Ok(items);
    assert ConvertPasses(items, sets, 4) == Ok(items);
    assert ConvertPasses(items, sets, 3) == Ok(items);
    assert ConvertPasses(items, sets, 2) == Ok(items);
    assert ConvertPasses(items, sets, 1) == Ok(items);
  }

  /** A pass keeps the list's length, every string entry, every element's tag, and every prop but the children of an element it does not select. */
  lemma {:induction false} ConvertItemsShape(tag: string, cs: ColourSet, items: seq<Item>)
    requires ConvertItems(tag, cs, items).Ok?
    ensures var r := ConvertItems(tag, cs, items).value;
      |r| == |items|
      && (forall k :: 0 <= k < |items| && items[k].TextItem? ==> r[k] == items[k])
      && (forall k :: 0 <= k < |items| && items[k].ElementItem? ==>
            r[k].ElementItem? && r[k].node.tag == items[k].node.tag)
      && (forall k :: 0 <= k < |items| && items[k].ElementItem? && !Selected(items[k].node, tag) ==>
            r[k].node == items[k].node.(children := r[k].node.children))
    decreases |items|
  {
    if |items| > 0 {
      var n := |items| - 1;
      ConvertItemsShape(tag, cs, items[..n]);
      var init := ConvertItems(tag, cs, items[..n]).value;
      var last := ConvertItem(tag, cs, items[n]).value;
      ConvertItemShape(tag, cs, items[n]);
      var r := ConvertItems(tag, cs, items).value;
      assert r == init + [last];
      forall k | 0 <= k < n
        ensures r[k] == init[k] && items[k] == items[..n][k]
      {
      }
    }
  }

  lemma ConvertItemShape(tag: string, cs: ColourSet, it: Item)
    requires ConvertItem(tag, cs, it).Ok?
    ensures it.TextItem? ==> ConvertItem(tag, cs, it).value == it
    ensures it.ElementItem? ==>
      ConvertItem(tag, cs, it).value.ElementItem? && ConvertItem(tag, cs, it).value.node.tag == it.node.tag
    ensures it.ElementItem? && !Selected(it.node, tag) ==>
      ConvertItem(tag, cs, it).value.node == it.node.(children := ConvertItem(tag, cs, it).value.node.children)
  {
    if it.ElementItem? {
      var n1 := DescendNode(tag, cs, it.node).value;
      assert n1.tag == it.node.tag;
    }
  }

  /**
   * A tree the pass leaves alone: no element is selected, and no children list has a
   * single entry (such a list would collapse to that entry).
   */
  predicate NodeQuiet(tag: string, n: Node)
    decreases NodeSize(n), 1
  {
    !Selected(n, tag) && ChildrenQuiet(tag, n.children)
  }

  predicate ChildrenQuiet(tag: string, c: Children)
    decreases ChildrenSize(c), 3
  {
    match c
    case One(m) => NodeQuiet(tag, m)
    case Many(items) => |items| != 1 && ItemsQuiet(tag, items)
    case _ => true
  }

  predicate ItemsQuiet(tag: string, items: seq<Item>)
    decreases ItemsSize(items), 2
  {
    |items| == 0 || (ItemsQuiet(tag, items[..|items| - 1]) && ItemQuiet(tag, items[|items| - 1]))
  }

  predicate ItemQuiet(tag: string, it: Item)
    decreases ItemSize(it), 1
  {
    it.ElementItem? ==> NodeQuiet(tag, it.node)
  }

  /** A pass over a quiet list returns it unchanged. */
  lemma {:induction false} QuietItems(tag: string, cs: ColourSet, items: seq<Item>)
    requires ItemsQuiet(tag, items)
    ensures ConvertItems(tag, cs, items) == Ok(items)
    decreases ItemsSize(items), 1
  {
    if |items| > 0 {
      var n := |items| - 1;
      var init, last := items[..n], items[n];
      assert ItemsQuiet(tag, init) && ItemQuiet(tag, last);
      QuietItems(tag, cs, init);
      if last.ElementItem? {
        ItemsPrefixSize(items, n);
        QuietNode(tag, cs, last.node);
      }
      assert ConvertItem(tag, cs, last) == Ok(last);
      assert init + [last] == items;
    }
  }

  lemma {:induction false} QuietNode(tag: string, cs: ColourSet, n: Node)
    requires NodeQuiet(tag, n)
    ensures DescendNode(tag, cs, n) == Ok(n)
    ensures ConvertItem(tag, cs, ElementItem(n)) == Ok(ElementItem(n))
    decreases NodeSize(n), 0
  {
    if Descends(n.children) {
      ChildItemsSize(n.children);
      match n.children
      case One(m) =>
        assert [ElementItem(m)][..0] == [];
        QuietNode(tag, cs, m);
        assert ConvertItems(tag, cs, []) == Ok([]);
        assert [] + [ElementItem(m)] == [ElementItem(m)];
        assert ConvertItems(tag, cs, [ElementItem(m)]) == Ok([ElementItem(m)]);
      case Many(items) =>
        QuietItems(tag, cs, items);
    }
  }

  /** A pass throws exactly when one of the entries throws, and then with the first such error. */
  lemma {:induction false} ConvertItemsFails(tag: string, cs: ColourSet, items: seq<Item>)
    ensures ConvertItems(tag, cs, items).Err? <==> exists k :: 0 <= k < |items| && ConvertItem(tag, cs, items[k]).Err?
    ensures ConvertItems(tag, cs, items).Err? ==>
      exists k :: 0 <= k < |items| && ConvertItem(tag, cs, items[k]).Err?
        && ConvertItems(tag, cs, items).error == ConvertItem(tag, cs, items[k]).error && forall j :: 0 <= j < k ==> ConvertItem(tag, cs, items[j]).Ok?
    decreases |items|
  {
    if |items| > 0 {
      var n := |items| - 1;
      ConvertItemsFails(tag, cs, items[..n]);
      FailsStep(tag, cs, items);
    }
  }

  /** The first failing entry of a list is the first failing entry of its prefix, or else its last entry. */
  lemma FailsStep(tag: string, cs: ColourSet, items: seq<Item>)
    requires |items| > 0
    requires var init := items[..|items| - 1];
      (ConvertItems(tag, cs, init).Err? <==> exists k :: 0 <= k < |init| && ConvertItem(tag, cs, init[k]).Err?)
      && (ConvertItems(tag, cs, init).Err? ==>
        exists k :: 0 <= k < |init| && ConvertItem(tag, cs, init[k]).Err?
          && ConvertItems(tag, cs, init).error == ConvertItem(tag, cs, init[k]).error && forall j :: 0 <= j < k ==> ConvertItem(tag, cs, init[j]).Ok?)
    ensures ConvertItems(tag, cs, items).Err? <==> exists k :: 0 <= k < |items| && ConvertItem(tag, cs, items[k]).Err?
    ensures ConvertItems(tag, cs, items).Err? ==>
      exists k :: 0 <= k < |items| && ConvertItem(tag, cs, items[k]).Err?
        && ConvertItems(tag, cs, items).error == ConvertItem(tag, cs, items[k]).error && forall j :: 0 <= j < k ==> ConvertItem(tag, cs, items[j]).Ok?
  {
    var n := |items| - 1;
    var init := items[..n];
    assert forall j :: 0 <= j < n ==> init[j] == items[j];
    if ConvertItems(tag, cs, init).Err? {
      var k :| 0 <= k < n && ConvertItem(tag, cs, init[k]).Err?
        && ConvertItems(tag, cs, init).error == ConvertItem(tag, cs, init[k]).error && forall j :: 0 <= j < k ==> ConvertItem(tag, cs, init[j]).Ok?;
      assert init[k] == items[k];
    } else if ConvertItem(tag, cs, items[n]).Err? {
      assert forall j :: 0 <= j < n ==> ConvertItem(tag, cs, items[j]).Ok?;
    } else {
      assert forall j :: 0 <= j < n ==> ConvertItem(tag, cs, items[j]).Ok?;
    }
  }

  /**
   * An element the pass does not select keeps its tag, type, class list, style, disabled
   * flag and handlers; its children become the converted list, collapsed.
   */
  lemma UnselectedNodeKept(tag: string, cs: ColourSet, n: Node)
    requires !Selected(n, tag) && ConvertItem(tag, cs, ElementItem(n)).Ok?
    ensures var r := ConvertItem(tag, cs, ElementItem(n)).value;
      r.ElementItem? && r.node.tag == n.tag && r.node.typeAttr == n.typeAttr
      && r.node.className == n.className && r.node.style == n.style
      && r.node.disabled == n.disabled && r.node.handlers == n.handlers
    ensures !Descends(n.children) ==> ConvertItem(tag, cs, ElementItem(n)) == Ok(ElementItem(n))
    ensures Descends(n.children) ==>
      ConvertItems(tag, cs, ChildItems(n.children)).Ok?
      && ConvertItem(tag, cs, ElementItem(n)).value.node.children == Collapse(ConvertItems(tag, cs, ChildItems(n.children)).value)
  {
  }

  /**
   * Post-order: an element whose only child is a selected leaf gets that child's
   * conversion as its child first; it is then converted itself only if selected too.
   */
  lemma NestedLeafConverted(tag: string, cs: ColourSet, p: Node, leaf: Node)
    requires p.children == One(leaf) && Selected(leaf, tag) && !Descends(leaf.children)
    requires VirtualConvert(leaf, cs).Ok?
    ensures var p1 := p.(children := One(VirtualConvert(leaf, cs).value));
      DescendNode(tag, cs, p) == Ok(p1)
      && (!Selected(p, tag) ==> ConvertItem(tag, cs, ElementItem(p)) == Ok(ElementItem(p1)))
      && (Selected(p, tag) && VirtualConvert(p1, cs).Ok? ==>
            ConvertItem(tag, cs, ElementItem(p)) == Ok(ElementItem(VirtualConvert(p1, cs).value)))
      && (Selected(p, tag) && VirtualConvert(p1, cs).Err? ==>
            ConvertItem(tag, cs, ElementItem(p)) == Err(VirtualConvert(p1, cs).error))
  {
    var lc := VirtualConvert(leaf, cs).value;
    var p1 := p.(children := One(lc));
    LeafListConverted(tag, cs, leaf);
    assert ChildItems(p.children) == [ElementItem(leaf)];
    assert Collapse([ElementItem(lc)]) == One(lc);
    assert DescendNode(tag, cs, p) == Ok(p1);
  }

  /** A one-entry list holding a selected leaf becomes the list of its conversion. */
  lemma LeafListConverted(tag: string, cs: ColourSet, leaf: Node)
    requires Selected(leaf, tag) && !Descends(leaf.children)
    requires VirtualConvert(leaf, cs).Ok?
    ensures ConvertItems(tag, cs, [ElementItem(leaf)]) == Ok([ElementItem(VirtualConvert(leaf, cs).value)])
  {
    LeafItemConverted(tag, cs, leaf);
    SingleItem(tag, cs, ElementItem(leaf));
  }

  /** A selected leaf entry is converted to exactly its virtual conversion. */
  lemma LeafItemConverted(tag: string, cs: ColourSet, leaf: Node)
    requires Selected(leaf, tag) && !Descends(leaf.children)
    requires VirtualConvert(leaf, cs).Ok?
    ensures ConvertItem(tag, cs, ElementItem(leaf)) == Ok(ElementItem(VirtualConvert(leaf, cs).value))
  {
    assert DescendNode(tag, cs, leaf) == Ok(leaf);
  }

  /** A one-entry list converts as its entry does. */
  lemma SingleItem(tag: string, cs: ColourSet, it: Item)
    requires ConvertItem(tag, cs, it).Ok?
    ensures ConvertItems(tag, cs, [it]) == Ok([ConvertItem(tag, cs, it).value])
  {
    var items := [it];
    var x := ConvertItem(tag, cs, it).value;
    assert items[..0] == [] && items[..1] == items && items[0] == it;
    assert ConvertItems(tag, cs, []) == Ok([]);
    EntryConverted(tag, cs, items, 0, [], x);
    assert [] + [x] == [x];
  }

  /** A password input is not converted, even by the input pass. */
  lemma PasswordInputUntouched(cs: ColourSet, n: Node)
    requires n.tag == "input" && n.typeAttr == Some("password") && !Descends(n.children)
    ensures ConvertItem("input", cs, ElementItem(n)) == Ok(ElementItem(n))
  {
  }

  /**
   * A selected leaf that is not yet coloured gets the set's class members before its own
   * class list, and keeps its tag and children.
   */
  lemma SelectedLeafConverted(tag: string, cs: ColourSet, n: Node)
    requires Selected(n, tag) && !Descends(n.children)
    requires Validate(n.tag, n.typeAttr, cs).Pass?
    requires !VirtualSuppressed(n.style, n.className) && !HasMixedMember(cs)
    ensures ConvertItem(tag, cs, ElementItem(n)).Ok?
    ensures var r := ConvertItem(tag, cs, ElementItem(n)).value;
      r.ElementItem? && r.node.tag == n.tag && r.node.children == n.children
      && r.node.className == Strings.Join(ExpectedClasses(cs) + OwnClass(n), " ")
  {
    ConversionFacts.VirtualConvertContents(n, cs);
  }
}
