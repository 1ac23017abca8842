/**
 * Virtual (React) elements as values: a tag, the props the converter reads and writes,
 * and children that are absent, a single string, a single element or a list.
 */
module VirtualDom {
  import opened Wrappers
  import opened Theme
  import opened Resolver

  /** A mouse-handler prop: one installed by a conversion, or the caller's own. */
  datatype Handler = ColourHandler(value: ColourValue) | OwnHandler(name: string)

  datatype Node = Node(
    tag: string,
    typeAttr: Option<string>,
    className: string,
    style: map<string, string>,
    disabled: bool,
    handlers: map<Action, Handler>,
    children: Children)

  /** The `children` prop. */
  datatype Children = NoChildren | Text(text: string) | One(node: Node) | Many(items: seq<Item>)

  /** An entry of a children list. */
  datatype Item = TextItem(text: string) | ElementItem(node: Node)

  /** Children the walker descends into: present and not a string. */
  predicate Descends(c: Children) {
    c.One? || c.Many?
  }

  /** `React.Children.toArray` of element children. */
  function ChildItems(c: Children): seq<Item>
    requires Descends(c)
  {
    if c.One? then [ElementItem(c.node)] else c.items
  }

  /** A converted list put back as children: a one-entry list becomes that entry alone. */
  function Collapse(items: seq<Item>): Children {
    if |items| == 1 then
      match items[0]
      case TextItem(s) => Text(s)
      case ElementItem(n) => One(n)
    else Many(items)
  }

  /** Collapsing a converted list and reading it back as a list gives the list again, unless it is a lone string. */
  lemma CollapseRoundTrip(items: seq<Item>)
    requires !(|items| == 1 && items[0].TextItem?)
    ensures Descends(Collapse(items)) && ChildItems(Collapse(items)) == items
  {
  }

  /** Reading children as a list and collapsing it gives the children back, except a one-entry list, which becomes its entry. */
  lemma ChildItemsRoundTrip(c: Children)
    requires Descends(c)
    ensures !(c.Many? && |c.items| == 1) ==> Collapse(ChildItems(c)) == c
    ensures c.Many? && |c.items| == 1 ==>
      Collapse(ChildItems(c)) == if c.items[0].TextItem? then Text(c.items[0].text) else One(c.items[0].node)
  {
  }

  /** The handler props a conversion installs: each of the four is replaced, present or not. */
  function HandlerProps(actions: map<Action, ColourValue>): map<Action, Handler> {
    map a | a in actions :: ColourHandler(actions[a])
  }
}
