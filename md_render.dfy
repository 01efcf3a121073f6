/** The rendering half of the highlighter (`renderNode`, `highlight`): every
    node becomes a `span` whose class is the node's type, holding either the
    leaf's text or the rendered children; each line becomes one `line` span.
    The DOM is modelled by a tree of display boxes. */
module Render {
  import opened MdNodes
  import LineSplitter
  import LineParser
  import LinkScanner
  import opened JsStrings

  /** A `span` with a class: either its `innerText`, or its child spans. */
  datatype Display =
    | TextBox(cls: string, text: string)
    | Box(cls: string, children: seq<Display>)

  /** `renderNode(node)`: a leaf's text goes into its span, a branch's
      children are rendered in order into its span. */
  function RenderNode(n: Node): Display
    decreases n
  {
    match n
    case Leaf(kind, t) => TextBox(kind, t)
    case Branch(kind, cs) => Box(kind, RenderAll(cs))
  }

  /** `nodes.map(renderNode)` */
  function RenderAll(ns: seq<Node>): (r: seq<Display>)
    decreases ns
    ensures |r| == |ns|
  {
    if ns == [] then [] else [RenderNode(ns[0])] + RenderAll(ns[1..])
  }

  /** Reads a node back out of its span: the class names the type, the
      innerText is a leaf's content, child spans are a branch's children. */
  function Unrender(d: Display): Node
    decreases d
  {
    match d
    case TextBox(cls, t) => Leaf(cls, t)
    case Box(cls, ds) => Branch(cls, UnrenderAll(ds))
  }

  function UnrenderAll(ds: seq<Display>): seq<Node>
    decreases ds
  {
    if ds == [] then [] else [Unrender(ds[0])] + UnrenderAll(ds[1..])
  }

  /** Rendering loses nothing: the spans hold every node's type, text and
      children, so the node tree can be read back from them. */
  lemma {:induction false} RenderRoundTrip(n: Node)
    ensures Unrender(RenderNode(n)) == n
    decreases n
  {
    match n
    case Leaf(_, _) =>
    case Branch(kind, cs) => RenderAllRoundTrip(cs);
  }

  lemma {:induction false} RenderAllRoundTrip(ns: seq<Node>)
    ensures UnrenderAll(RenderAll(ns)) == ns
    decreases ns
  {
    if ns != [] {
      RenderRoundTrip(ns[0]);
      RenderAllRoundTrip(ns[1..]);
      assert RenderAll(ns)[1..] == RenderAll(ns[1..]);
      assert [ns[0]] + ns[1..] == ns;
    }
  }

  /** The text a span shows on screen. */
  function Shown(d: Display): string
    decreases d
  {
    match d
    case TextBox(_, t) => t
    case Box(_, ds) => ShownAll(ds)
  }

  function ShownAll(ds: seq<Display>): string
    decreases ds
  {
    if ds == [] then "" else Shown(ds[0]) + ShownAll(ds[1..])
  }

  /** A rendered node shows exactly the node's text. */
  lemma {:induction false} RenderShowsText(n: Node)
    ensures Shown(RenderNode(n)) == Flat(n)
    decreases n
  {
    match n
    case Leaf(_, _) =>
    case Branch(kind, cs) => RenderAllShowsText(cs);
  }

  lemma {:induction false} RenderAllShowsText(ns: seq<Node>)
    ensures ShownAll(RenderAll(ns)) == FlatAll(ns)
    decreases ns
  {
    if ns != [] {
      RenderShowsText(ns[0]);
      RenderAllShowsText(ns[1..]);
      assert RenderAll(ns)[1..] == RenderAll(ns[1..]);
    }
  }

  /** The `line` span for a parsed line: an empty line shows one space (so
      that it keeps its height), any other holds the rendered node. */
  function LineDisplay(n: Node): Display {
    if n.kind == "empty" then TextBox("line", " ") else Box("line", [RenderNode(n)])
  }

  /** The `line` spans of parsed lines, in order. */
  function LineDisplays(lines: seq<LineSplitter.Line>): (r: seq<Display>)
    ensures |r| == |lines|
  {
    seq(|lines|, k requires 0 <= k < |lines| => LineDisplay(LineParser.LineNode(lines[k].content)))
  }

  /** What `highlight(source, meta)` returns: one `line` span per line. */
  function Highlighted(source: string): seq<Display> {
    LineDisplays(LineSplitter.SplitLines(source))
  }

  /** The links map after `highlight` has parsed `lines` in order. */
  function LinesLinks(lines: seq<LineSplitter.Line>, m: map<string, string>): map<string, string>
    decreases |lines|
  {
    if lines == [] then m
    else LineParser.LineLinks(lines[|lines| - 1].content, LinesLinks(lines[..|lines| - 1], m))
  }

  /** The text a `line` span shows: a space for an empty line, otherwise the
      text of the line's node. */
  lemma LineShows(n: Node)
    ensures Shown(LineDisplay(n)) == (if n.kind == "empty" then " " else Flat(n))
  {
    if n.kind != "empty" {
      RenderShowsText(n);
      assert ShownAll([RenderNode(n)]) == Shown(RenderNode(n)) + ShownAll([]);
    }
  }

  /** Every line the splitter produces is a slice of the source. */
  lemma LineIsSlice(source: string, lines: seq<LineSplitter.Line>, k: nat)
    requires LineSplitter.Tiles(source, lines) && k < |lines|
    ensures LineSplitter.WellCut(source, lines[k])
  {
  }

  /** A non-empty line is shown exactly as written when it loses no
      character and its block marker, if any, is followed by a plain space,
      and only then; an empty line is shown as one space. */
  lemma LineShowsContent(c: string)
    ensures c == "" ==> Shown(LineDisplay(LineParser.LineNode(c))) == " "
    ensures c != "" ==>
              (Shown(LineDisplay(LineParser.LineNode(c))) == c <==>
               LineParser.SpaceAfterBlock(c) && LineParser.LineLoss(c) == 0)
  {
    LineShows(LineParser.LineNode(c));
    if c != "" {
      LineParser.LineKindNotEmpty(c);
      LineParser.LineRoundTrip(c);
    }
  }

  /** In the highlighted text, the k-th line span shows the k-th line
      exactly when that line loses no character and its block marker, if
      any, is followed by a plain space; an empty line is shown as one
      space. Nothing is asked of the other lines. */
  lemma HighlightShowsLine(source: string, k: nat)
    requires k < |LineSplitter.SplitLines(source)|
    ensures var c := LineSplitter.SplitLines(source)[k].content;
            (c == "" ==> Shown(Highlighted(source)[k]) == " ") &&
            (c != "" ==> (Shown(Highlighted(source)[k]) == c <==>
                          LineParser.SpaceAfterBlock(c) && LineParser.LineLoss(c) == 0))
  {
    var lines := LineSplitter.SplitLines(source);
    LineShowsContent(lines[k].content);
    assert Highlighted(source)[k] == LineDisplay(LineParser.LineNode(lines[k].content));
  }

  /** An empty line is one span showing a single space. */
  lemma EmptyLineShowsSpace(source: string, k: nat)
    requires k < |LineSplitter.SplitLines(source)| && LineSplitter.SplitLines(source)[k].content == ""
    ensures Highlighted(source)[k] == TextBox("line", " ")
  {
  }

  /** Parsing one more line records its links after those of the lines
      before it. */
  lemma LinesLinksStep(lines: seq<LineSplitter.Line>, i: nat, m: map<string, string>)
    requires i < |lines|
    ensures LinesLinks(lines[..i + 1], m) == LineParser.LineLinks(lines[i].content, LinesLinks(lines[..i], m))
  {
    var next := lines[..i + 1];
    assert next[..|next| - 1] == lines[..i] && next[|next| - 1] == lines[i];
  }

  /** One more parsed line extends the nodes of the lines before it. */
  lemma NodesStep(lines: seq<LineSplitter.Line>, i: nat, nodes: seq<Node>, node: Node)
    requires i < |lines| && |nodes| == i && node == LineParser.LineNode(lines[i].content)
    requires forall k :: 0 <= k < i ==> nodes[k] == LineParser.LineNode(lines[k].content)
    ensures forall k :: 0 <= k < i + 1 ==> (nodes + [node])[k] == LineParser.LineNode(lines[k].content)
  {
  }

  /** `lines.map(l => parseLine(l, meta))`: the lines are parsed in order,
      each recording its links in `meta`. */
  method ParseLines(lines: seq<LineSplitter.Line>, meta: LinkScanner.Meta) returns (nodes: seq<Node>)
    modifies meta
    ensures |nodes| == |lines|
    ensures forall k :: 0 <= k < |lines| ==> nodes[k] == LineParser.LineNode(lines[k].content)
    ensures meta.links == LinesLinks(lines, old(meta.links))
  {
    nodes := [];
    ghost var start := meta.links;
    for i := 0 to |lines|
      invariant |nodes| == i
      invariant forall k :: 0 <= k < i ==> nodes[k] == LineParser.LineNode(lines[k].content)
      invariant meta.links == LinesLinks(lines[..i], start)
    {
      var node := LineParser.ParseLine(lines[i], meta);
      LinesLinksStep(lines, i, start);
      NodesStep(lines, i, nodes, node);
      nodes := nodes + [node];
    }
    assert lines[..|lines|] == lines;
  }

  /** The `line` span of every parsed line, in order. */
  method DisplayNodes(nodes: seq<Node>) returns (spans: seq<Display>)
    ensures |spans| == |nodes|
    ensures forall k :: 0 <= k < |nodes| ==> spans[k] == LineDisplay(nodes[k])
  {
    spans := [];
    for i := 0 to |nodes|
      invariant |spans| == i
      invariant forall k :: 0 <= k < i ==> spans[k] == LineDisplay(nodes[k])
    {
      var span;
      if nodes[i].kind == "empty" {
        span := TextBox("line", " ");
      } else {
        span := Box("line", [RenderNode(nodes[i])]);
      }
      spans := spans + [span];
    }
  }

  /** The body of `highlight` after the split: parse every line in order
      (recording links in `meta`), then give each line its span. */
  method HighlightLines(lines: seq<LineSplitter.Line>, meta: LinkScanner.Meta) returns (highlighted: seq<Display>)
    modifies meta
    ensures highlighted == LineDisplays(lines)
    ensures meta.links == LinesLinks(lines, old(meta.links))
  {
    var nodes := ParseLines(lines, meta);
    highlighted := DisplayNodes(nodes);
    assert forall k :: 0 <= k < |lines| ==> highlighted[k] == LineDisplays(lines)[k];
  }

  /** `highlight`: split the text into lines, then parse and render them. */
  method Highlight(source: string, meta: LinkScanner.Meta) returns (highlighted: seq<Display>)
    modifies meta
    ensures highlighted == Highlighted(source)
    ensures meta.links == LinesLinks(LineSplitter.SplitLines(source), old(meta.links))
  {
    var lines := LineSplitter.ParseText(source);
    highlighted := HighlightLines(lines, meta);
  }
}
