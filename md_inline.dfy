/** The inline pipeline of a line's body (`parseInline`, `parseTextNode`):
    links first, then code spans, then reference tags, then bold/italic.
    Each later stage rescans only the plain `text` leaves of the stage before
    it; every other node passes through as it is. */
module Inline {
  import opened MdNodes
  import DelimitedSpans
  import EmphasisScanner
  import LinkScanner

  /** `nodes.flatMap(n => n.type === "text" ? f(n.content) : [n])` */
  function ExpandText(ns: seq<Node>, f: string -> seq<Node>): seq<Node> {
    if ns == [] then []
    else (if IsTextLeaf(ns[0]) then f(ns[0].text) else [ns[0]]) + ExpandText(ns[1..], f)
  }

  /** What `parseTextNode` returns for a text leaf with content `text`. */
  function ParseTextNode(text: string): seq<Node> {
    var code := DelimitedSpans.CodeScan(text);
    var refs := ExpandText(code, DelimitedSpans.RefScan);
    ExpandText(refs, EmphasisScanner.EmphasisScan)
  }

  /** The nodes `parseInline(text, meta)` returns. */
  function InlineNodes(text: string): seq<Node> {
    ExpandText(LinkScanner.LinkScan(text), ParseTextNode)
  }

  /** A stage works piece by piece: expanding a concatenation expands each
      part. */
  lemma {:induction false} ExpandAppend(a: seq<Node>, b: seq<Node>, f: string -> seq<Node>)
    ensures ExpandText(a + b, f) == ExpandText(a, f) + ExpandText(b, f)
  {
    if a != [] {
      assert (a + b)[0] == a[0] && (a + b)[1..] == a[1..] + b;
      ExpandAppend(a[1..], b, f);
    } else {
      assert a + b == b;
    }
  }

  /** A stage never touches a node that is not a text leaf. */
  lemma {:induction false} ExpandKeeps(ns: seq<Node>, f: string -> seq<Node>)
    requires forall k :: 0 <= k < |ns| ==> !IsTextLeaf(ns[k])
    ensures ExpandText(ns, f) == ns
  {
    if ns != [] {
      ExpandKeeps(ns[1..], f);
      assert [ns[0]] + ns[1..] == ns;
    }
  }

  /** A stage keeps the text of the line when it keeps the text of every
      leaf it rescans. */
  lemma {:induction false} ExpandFlat(ns: seq<Node>, f: string -> seq<Node>)
    requires forall k :: 0 <= k < |ns| && IsTextLeaf(ns[k]) ==> FlatAll(f(ns[k].text)) == ns[k].text
    ensures FlatAll(ExpandText(ns, f)) == FlatAll(ns)
  {
    if ns != [] {
      var head := if IsTextLeaf(ns[0]) then f(ns[0].text) else [ns[0]];
      assert forall k :: 0 <= k < |ns[1..]| && IsTextLeaf(ns[1..][k]) ==>
               FlatAll(f(ns[1..][k].text)) == ns[1..][k].text by {
        forall k | 0 <= k < |ns[1..]| ensures ns[1..][k] == ns[k + 1] {
        }
      }
      ExpandFlat(ns[1..], f);
      FlatAllAppend(head, ExpandText(ns[1..], f));
      FlatAllOne(ns[0]);
    }
  }

  /** What a stage loses over a sequence: the sum of `g` over the text
      leaves it rescans. */
  function LossOf(ns: seq<Node>, g: string -> nat): nat {
    if ns == [] then 0
    else (if IsTextLeaf(ns[0]) then g(ns[0].text) else 0) + LossOf(ns[1..], g)
  }

  /** A sequence loses nothing exactly when none of its text leaves does. */
  lemma {:induction false} NoLossAnywhere(ns: seq<Node>, g: string -> nat)
    ensures LossOf(ns, g) == 0 <==> forall k :: 0 <= k < |ns| && IsTextLeaf(ns[k]) ==> g(ns[k].text) == 0
  {
    if ns != [] {
      NoLossAnywhere(ns[1..], g);
      assert forall k :: 0 <= k < |ns[1..]| ==> ns[1..][k] == ns[k + 1];
      if LossOf(ns, g) == 0 {
        forall k | 0 <= k < |ns| && IsTextLeaf(ns[k]) ensures g(ns[k].text) == 0 {
          if k > 0 {
            assert ns[k] == ns[1..][k - 1];
          }
        }
      }
    }
  }

  /** A stage shortens the text by exactly what it loses on each leaf it
      rescans. */
  lemma {:induction false} ExpandLength(ns: seq<Node>, f: string -> seq<Node>, g: string -> nat)
    requires forall k :: 0 <= k < |ns| && IsTextLeaf(ns[k]) ==>
               |FlatAll(f(ns[k].text))| + g(ns[k].text) == |ns[k].text|
    ensures |FlatAll(ExpandText(ns, f))| + LossOf(ns, g) == |FlatAll(ns)|
  {
    if ns != [] {
      var head := if IsTextLeaf(ns[0]) then f(ns[0].text) else [ns[0]];
      assert forall k :: 0 <= k < |ns[1..]| && IsTextLeaf(ns[1..][k]) ==>
               |FlatAll(f(ns[1..][k].text))| + g(ns[1..][k].text) == |ns[1..][k].text| by {
        forall k | 0 <= k < |ns[1..]| ensures ns[1..][k] == ns[k + 1] {
        }
      }
      ExpandLength(ns[1..], f, g);
      FlatAllAppend(head, ExpandText(ns[1..], f));
      FlatAllOne(ns[0]);
    }
  }

  /** A stage keeps the text exactly when it loses nothing, given that it
      keeps every leaf that loses nothing. */
  lemma ExpandExact(ns: seq<Node>, f: string -> seq<Node>, g: string -> nat)
    requires forall k :: 0 <= k < |ns| && IsTextLeaf(ns[k]) ==>
               |FlatAll(f(ns[k].text))| + g(ns[k].text) == |ns[k].text|
    requires forall k :: 0 <= k < |ns| && IsTextLeaf(ns[k]) && g(ns[k].text) == 0 ==>
               FlatAll(f(ns[k].text)) == ns[k].text
    ensures |FlatAll(ExpandText(ns, f))| + LossOf(ns, g) == |FlatAll(ns)|
    ensures FlatAll(ExpandText(ns, f)) == FlatAll(ns) <==> LossOf(ns, g) == 0
  {
    ExpandLength(ns, f, g);
    if LossOf(ns, g) == 0 {
      NoLossAnywhere(ns, g);
      ExpandFlat(ns, f);
    }
  }

  /** A character missing from the text of a sequence is missing from each
      of its leaves. */
  lemma {:induction false} NotInLeaf(ns: seq<Node>, k: nat, c: char)
    requires k < |ns| && ns[k].Leaf? && c !in FlatAll(ns)
    ensures c !in ns[k].text
  {
    FlatAllOne(ns[0]);
    assert FlatAll(ns) == Flat(ns[0]) + FlatAll(ns[1..]);
    if k == 0 {
      assert forall j :: 0 <= j < |ns[0].text| ==> ns[0].text[j] == FlatAll(ns)[j];
    } else {
      assert forall j :: 0 <= j < |FlatAll(ns[1..])| ==>
               FlatAll(ns[1..])[j] == FlatAll(ns)[|Flat(ns[0])| + j];
      NotInLeaf(ns[1..], k - 1, c);
    }
  }

  /** A sequence whose text has no `*` hands the bold/italic stage only
      leaves it loses nothing on. */
  lemma NoStarNoDrop(ns: seq<Node>)
    requires '*' !in FlatAll(ns)
    ensures LossOf(ns, EmphasisScanner.Dropped) == 0
  {
    forall k | 0 <= k < |ns| && IsTextLeaf(ns[k]) ensures EmphasisScanner.Dropped(ns[k].text) == 0 {
      NotInLeaf(ns, k, '*');
      EmphasisScanner.NoStarNoLoss(ns[k].text, 0, "", false, false);
    }
    NoLossAnywhere(ns, EmphasisScanner.Dropped);
  }

  /** The leaves `parseTextNode` hands to the bold/italic stage: the text
      leaves left by the code and reference stages. */
  function EmphasisLeaves(text: string): seq<Node> {
    ExpandText(DelimitedSpans.CodeScan(text), DelimitedSpans.RefScan)
  }

  /** The code and reference stages keep every character. */
  lemma EmphasisLeavesSpell(text: string)
    ensures FlatAll(EmphasisLeaves(text)) == text
  {
    var code := DelimitedSpans.CodeScan(text);
    DelimitedSpans.CodeScanProperties(text);
    forall k | 0 <= k < |code| && IsTextLeaf(code[k])
      ensures FlatAll(DelimitedSpans.RefScan(code[k].text)) == code[k].text
    {
      DelimitedSpans.RefScanProperties(code[k].text);
    }
    ExpandFlat(code, DelimitedSpans.RefScan);
  }

  /** The characters `parseTextNode` loses: those the bold/italic scanner
      drops from the leaves it is handed. */
  function TextLoss(text: string): nat {
    LossOf(EmphasisLeaves(text), EmphasisScanner.Dropped)
  }

  /** `parseTextNode` shortens its text by exactly the characters the
      bold/italic scanner drops, and keeps the text exactly when it drops
      none. */
  lemma TextNodeRoundTrip(text: string)
    ensures |FlatAll(ParseTextNode(text))| + TextLoss(text) == |text|
    ensures FlatAll(ParseTextNode(text)) == text <==> TextLoss(text) == 0
  {
    var refs := EmphasisLeaves(text);
    EmphasisLeavesSpell(text);
    forall k | 0 <= k < |refs| && IsTextLeaf(refs[k])
      ensures |FlatAll(EmphasisScanner.EmphasisScan(refs[k].text))| + EmphasisScanner.Dropped(refs[k].text) == |refs[k].text|
      ensures EmphasisScanner.Dropped(refs[k].text) == 0 ==>
                FlatAll(EmphasisScanner.EmphasisScan(refs[k].text)) == refs[k].text
    {
      EmphasisScanner.EmphasisRoundTrip(refs[k].text);
    }
    ExpandExact(refs, EmphasisScanner.EmphasisScan, EmphasisScanner.Dropped);
  }

  /** A text without `*` loses nothing in `parseTextNode`. */
  lemma TextNoStarNoLoss(text: string)
    requires '*' !in text
    ensures TextLoss(text) == 0
  {
    EmphasisLeavesSpell(text);
    NoStarNoDrop(EmphasisLeaves(text));
  }

  /** A text without backticks or braces goes straight to bold/italic. */
  lemma PlainTextNode(text: string)
    requires text != "" && '`' !in text && '{' !in text
    ensures ParseTextNode(text) == EmphasisScanner.EmphasisScan(text)
  {
    DelimitedSpans.NoBacktickIsText(text);
    DelimitedSpans.NoBraceIsText(text);
    var leaf := [Leaf("text", text)];
    assert DelimitedSpans.CodeScan(text) == leaf;
    assert DelimitedSpans.RefScan(text) == leaf;
    assert ExpandText(leaf, DelimitedSpans.RefScan) == leaf + ExpandText([], DelimitedSpans.RefScan);
    assert ExpandText(leaf, DelimitedSpans.RefScan) == leaf;
    assert ExpandText(leaf, EmphasisScanner.EmphasisScan) ==
           EmphasisScanner.EmphasisScan(text) + ExpandText([], EmphasisScanner.EmphasisScan);
    assert ExpandText(leaf, EmphasisScanner.EmphasisScan) == EmphasisScanner.EmphasisScan(text);
  }

  /** The overlap the bold/italic scanner mishandles reaches the line:
      `parseTextNode` on `"** *x***"` loses one `*`. */
  lemma TextNodeDropsStar()
    ensures FlatAll(ParseTextNode("** *x***")) == "** *x**"
  {
    var t := "** *x***";
    assert t == ['*', '*', ' ', '*', 'x', '*', '*', '*'];
    PlainTextNode(t);
    EmphasisScanner.OverlapDropsStar();
  }

  /** The characters `parseInline` loses: those `parseTextNode` loses on the
      text leaves the link scan leaves behind. */
  function InlineLoss(text: string): nat {
    LossOf(LinkScanner.LinkScan(text), TextLoss)
  }

  /** The whole inline pipeline shortens its text by exactly the characters
      the bold/italic scanner drops, and keeps the text exactly when it
      drops none. */
  lemma InlineRoundTrip(text: string)
    ensures |FlatAll(InlineNodes(text))| + InlineLoss(text) == |text|
    ensures FlatAll(InlineNodes(text)) == text <==> InlineLoss(text) == 0
  {
    var links := LinkScanner.LinkScan(text);
    LinkScanner.LinkScanProperties(text);
    forall k | 0 <= k < |links| && IsTextLeaf(links[k])
      ensures |FlatAll(ParseTextNode(links[k].text))| + TextLoss(links[k].text) == |links[k].text|
      ensures TextLoss(links[k].text) == 0 ==> FlatAll(ParseTextNode(links[k].text)) == links[k].text
    {
      TextNodeRoundTrip(links[k].text);
    }
    ExpandExact(links, ParseTextNode, TextLoss);
  }

  /** A text without `*` loses nothing in the inline pipeline. */
  lemma InlineNoStarNoLoss(text: string)
    requires '*' !in text
    ensures InlineLoss(text) == 0
  {
    var links := LinkScanner.LinkScan(text);
    LinkScanner.LinkScanProperties(text);
    forall k | 0 <= k < |links| && IsTextLeaf(links[k]) ensures TextLoss(links[k].text) == 0 {
      NotInLeaf(links, k, '*');
      TextNoStarNoLoss(links[k].text);
    }
    NoLossAnywhere(links, TextLoss);
  }

  /** A link's two leaves are never rescanned: in `a[b](c)d` the link text
      and url come through whole, whatever they hold (backticks, braces,
      stars), between the parse of `a` and the parse of `d`. */
  lemma LinkLeavesUntouched(a: string, b: string, c: string, d: string)
    requires '[' !in a && ']' !in b && ')' !in c && '[' !in d
    ensures InlineNodes(a + "[" + b + "](" + c + ")" + d) ==
            ExpandText(LinkScanner.Lead(a), ParseTextNode) +
            [Leaf("link-text", "[" + b + "]"), Leaf("link-url", "(" + c + ")")] +
            (if d == "" then [] else ParseTextNode(d))
  {
    var pair := [Leaf("link-text", "[" + b + "]"), Leaf("link-url", "(" + c + ")")];
    LinkScanner.WellFormedLink(a, b, c, d);
    ExpandAppend(LinkScanner.Lead(a), pair, ParseTextNode);
    ExpandKeeps(pair, ParseTextNode);
    if d != "" {
      ExpandAppend(LinkScanner.Lead(a) + pair, [Leaf("text", d)], ParseTextNode);
      assert ExpandText([Leaf("text", d)], ParseTextNode) == ParseTextNode(d) + ExpandText([], ParseTextNode);
    }
  }

  /** `parseInline`: the link scan, which records links in `meta`, then
      `parseTextNode` on each of its text leaves. */
  method ParseInline(text: string, meta: LinkScanner.Meta) returns (nodes: seq<Node>)
    modifies meta
    ensures nodes == InlineNodes(text)
    ensures meta.links == LinkScanner.LinksOf(LinkScanner.LinkScan(text), old(meta.links))
  {
    var links := LinkScanner.ParseLinks(text, meta);
    nodes := ExpandText(links, ParseTextNode);
  }
}
