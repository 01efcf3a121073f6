/** The highlighter's node tree: a leaf carries literal text, a branch carries
    ordered children; both are tagged with a type name that becomes a CSS
    class. The source's `wrap` builds one or the other depending on whether
    it is given a string or an array; here those are the two constructors. */
module MdNodes {

  datatype Node =
    | Leaf(kind: string, text: string)
    | Branch(kind: string, children: seq<Node>)

  predicate IsTextLeaf(n: Node) {
    n.Leaf? && n.kind == "text"
  }

  /** The literal text of a node: its leaves' contents, in order. */
  function Flat(n: Node): string
    decreases n
  {
    match n
    case Leaf(_, t) => t
    case Branch(_, cs) => FlatAll(cs)
  }

  /** The literal text of a sequence of nodes. */
  function FlatAll(ns: seq<Node>): string
    decreases ns
  {
    if ns == [] then "" else Flat(ns[0]) + FlatAll(ns[1..])
  }

  lemma {:induction false} FlatAllAppend(a: seq<Node>, b: seq<Node>)
    ensures FlatAll(a + b) == FlatAll(a) + FlatAll(b)
  {
    if a == [] {
      assert a + b == b;
    } else {
      assert (a + b)[1..] == a[1..] + b;
      FlatAllAppend(a[1..], b);
    }
  }

  lemma FlatAllOne(n: Node)
    ensures FlatAll([n]) == Flat(n)
  {
    assert [n][1..] == [];
  }

  /** Append a text leaf unless its text is empty (`if (currentText)
      children.push(wrap("text", currentText))`). */
  function PushText(acc: seq<Node>, t: string): seq<Node> {
    if t != "" then acc + [Leaf("text", t)] else acc
  }

  /** Appending a text leaf only when its text is non-empty adds that text. */
  lemma FlatPushText(acc: seq<Node>, kind: string, t: string)
    ensures FlatAll(if t != "" then acc + [Leaf(kind, t)] else acc) == FlatAll(acc) + t
  {
    FlatAllAppend(acc, [Leaf(kind, t)]);
    FlatAllOne(Leaf(kind, t));
  }

  lemma FlatPush(acc: seq<Node>, t: string)
    ensures FlatAll(PushText(acc, t)) == FlatAll(acc) + t
  {
    FlatPushText(acc, "text", t);
  }

  /** Appending a branch wrapping one leaf adds that leaf's text. */
  lemma FlatPushWrapped(acc: seq<Node>, kind: string, t: string)
    ensures FlatAll(acc + [Branch(kind, [Leaf("text", t)])]) == FlatAll(acc) + t
  {
    FlatAllAppend(acc, [Branch(kind, [Leaf("text", t)])]);
    FlatAllOne(Branch(kind, [Leaf("text", t)]));
    FlatAllOne(Leaf("text", t));
  }
}
