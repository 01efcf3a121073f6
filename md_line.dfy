/** One line of the highlighter (`parseLine`, `spaceNode`): leading spaces,
    an optional block marker, an optional todo marker, then the inline body,
    all under one node named by the block type or `paragraph`. */
module LineParser {
  import opened MdNodes
  import opened JsStrings
  import opened LineClassifier
  import opened Wrappers
  import Inline
  import LinkScanner
  import LineSplitter

  /** `nextNonSpaceChar(s, 0)[0]`, taken to be the number of leading `' '`
      characters (the helper's own file is not part of this model). */
  function LeadingSpaces(s: string): (n: nat)
    ensures n <= |s|
  {
    if s != [] && s[0] == ' ' then 1 + LeadingSpaces(s[1..]) else 0
  }

  /** The leading spaces are all spaces, and the character after them is
      not one. */
  lemma {:induction false} LeadingSpacesSound(s: string)
    ensures s[..LeadingSpaces(s)] == Repeat(LeadingSpaces(s), ' ')
    ensures LeadingSpaces(s) < |s| ==> s[LeadingSpaces(s)] != ' '
  {
    if s != [] && s[0] == ' ' {
      LeadingSpacesSound(s[1..]);
      var n := LeadingSpaces(s[1..]);
      assert s[..n + 1] == [' '] + s[1..][..n];
      assert Repeat(n + 1, ' ') == [' '] + Repeat(n, ' ');
    }
  }

  /** `n` spaces followed by a non-space (or nothing) are `n` leading
      spaces. */
  lemma {:induction false} LeadingSpacesOf(n: nat, text: string)
    requires text == [] || text[0] != ' '
    ensures LeadingSpaces(Repeat(n, ' ') + text) == n
  {
    if n > 0 {
      LeadingSpacesOf(n - 1, text);
      assert (Repeat(n, ' ') + text)[1..] == Repeat(n - 1, ' ') + text;
    } else {
      assert Repeat(n, ' ') + text == text;
    }
  }

  /** `spaceNode(amt)`: a `space` leaf of `amt` spaces (`fillString(amt, " ")`,
      taken to repeat the space). */
  function SpaceNode(amt: nat): (r: Node)
    ensures r.Leaf? && r.kind == "space" && |Flat(r)| == amt
    ensures forall k :: 0 <= k < amt ==> Flat(r)[k] == ' '
  {
    Leaf("space", Repeat(amt, ' '))
  }

  /** How a non-empty line is cut: the number of leading spaces, the block
      type and marker if any, the todo subtype and marker if any, and the
      text left for the inline parser. */
  datatype Head = Head(lead: nat, block: Option<(string, string)>, todo: Option<(string, string)>, body: string)

  /** No block type is `empty`, so only an empty line gets an `empty` node. */
  lemma LineKindNotEmpty(content: string)
    requires |content| > 0
    ensures LineNode(content).kind != "empty"
  {
    var rest := AfterLead(content);
    if LineType(rest).Some? {
      LineTypeSound(rest);
      assert forall j :: 0 <= j < |LineTypes| ==> LineTypes[j].1 != "empty";
    }
  }

  /** A block marker always fits inside its line. */
  lemma TypeMarkerFits(s: string)
    ensures LineType(s).Some? ==> |LineType(s).value.1| < |s|
  {
    if LineType(s).Some? {
      LineTypeSound(s);
    }
  }

  /** A todo marker always fits inside its line. */
  lemma SubtypeMarkerFits(s: string)
    ensures LineSubtype(s).Some? ==> |LineSubtype(s).value.1| < |s|
  {
    if LineSubtype(s).Some? {
      LineSubtypeSound(s);
    }
  }

  /** `marker ? rest.slice(marker.length + 1) : rest` */
  function AfterMarker(s: string, found: Option<(string, string)>): string
    requires found.Some? ==> |found.value.1| < |s|
  {
    if found.Some? then s[|found.value.1| + 1..] else s
  }

  /** The line after its leading spaces. */
  function AfterLead(content: string): string {
    content[LeadingSpaces(content)..]
  }

  /** The line after its leading spaces and its block marker. */
  function AfterBlock(content: string): string {
    var rest := AfterLead(content);
    TypeMarkerFits(rest);
    AfterMarker(rest, LineType(rest))
  }

  /** The text handed to the inline parser. */
  function BodyText(content: string): string {
    var rest := AfterBlock(content);
    SubtypeMarkerFits(rest);
    AfterMarker(rest, LineSubtype(rest))
  }

  /** The cuts `parseLine` makes: after the leading spaces, a block marker
      and the character after it are sliced off, then a todo marker and the
      character after it. */
  function CutHead(content: string): Head {
    Head(LeadingSpaces(content), LineType(AfterLead(content)), LineSubtype(AfterBlock(content)), BodyText(content))
  }

  /** The leading `space` leaf, if there are leading spaces. */
  function LeadNodes(h: Head): seq<Node> {
    if h.lead > 0 then [SpaceNode(h.lead)] else []
  }

  /** The block marker and the one space written after it. */
  function MarkerNodes(h: Head): seq<Node> {
    if h.block.Some? then [Leaf("marker", h.block.value.1), SpaceNode(1)] else []
  }

  /** The body, wrapped with its todo marker when there is one. */
  function InnerNodes(h: Head, body: seq<Node>): seq<Node> {
    if h.todo.Some? then [Branch(h.todo.value.0, [Leaf("marker", h.todo.value.1), SpaceNode(1)] + body)]
    else body
  }

  /** The node built from a cut line and the nodes of its body. */
  function Assemble(h: Head, body: seq<Node>): Node {
    Branch(if h.block.Some? then h.block.value.0 else "paragraph", LeadNodes(h) + MarkerNodes(h) + InnerNodes(h, body))
  }

  /** What `parseLine` returns for a line with content `content`. */
  function LineNode(content: string): Node {
    if |content| == 0 then Branch("empty", [])
    else
      var h := CutHead(content);
      Assemble(h, Inline.InlineNodes(h.body))
  }

  /** The links map after `parseLine` has recorded the links of `content`. */
  function LineLinks(content: string, m: map<string, string>): map<string, string> {
    if |content| == 0 then m else LinkScanner.LinksOf(LinkScanner.LinkScan(BodyText(content)), m)
  }

  /** The text of a block marker with the space written after it. */
  function BlockText(h: Head): string {
    if h.block.Some? then h.block.value.1 + " " else ""
  }

  /** The text of a todo marker with the space after it. */
  function TodoText(h: Head): string {
    if h.todo.Some? then h.todo.value.1 + " " else ""
  }

  lemma FlatLead(h: Head)
    ensures FlatAll(LeadNodes(h)) == Repeat(h.lead, ' ')
  {
    if h.lead > 0 {
      FlatAllOne(SpaceNode(h.lead));
    }
  }

  lemma FlatMarker(h: Head)
    ensures FlatAll(MarkerNodes(h)) == BlockText(h)
  {
    if h.block.Some? {
      assert Repeat(1, ' ') == " ";
      FlatAllAppend([Leaf("marker", h.block.value.1)], [SpaceNode(1)]);
      FlatAllOne(Leaf("marker", h.block.value.1));
      FlatAllOne(SpaceNode(1));
    }
  }

  lemma FlatInner(h: Head, body: seq<Node>)
    ensures FlatAll(InnerNodes(h, body)) == TodoText(h) + FlatAll(body)
  {
    if h.todo.Some? {
      var pre := [Leaf("marker", h.todo.value.1), SpaceNode(1)];
      assert Repeat(1, ' ') == " ";
      FlatAllOne(Branch(h.todo.value.0, pre + body));
      FlatAllAppend(pre, body);
      FlatAllAppend([Leaf("marker", h.todo.value.1)], [SpaceNode(1)]);
      FlatAllOne(Leaf("marker", h.todo.value.1));
      FlatAllOne(SpaceNode(1));
    }
  }

  /** The text of an assembled line: its leading spaces, each marker with one
      space after it, then the text of its body. */
  lemma FlatAssemble(h: Head, body: seq<Node>)
    ensures Flat(Assemble(h, body)) == Repeat(h.lead, ' ') + (BlockText(h) + (TodoText(h) + FlatAll(body)))
  {
    FlatAllAppend(LeadNodes(h) + MarkerNodes(h), InnerNodes(h, body));
    FlatAllAppend(LeadNodes(h), MarkerNodes(h));
    FlatLead(h);
    FlatMarker(h);
    FlatInner(h, body);
  }

  /** The leading spaces and the rest of the line make up the line. */
  lemma LeadParts(content: string)
    ensures content == Repeat(LeadingSpaces(content), ' ') + AfterLead(content)
  {
    var n := LeadingSpaces(content);
    LeadingSpacesSound(content);
    assert content == content[..n] + content[n..];
  }

  /** A block marker, the whitespace character after it and what follows
      make up the line after its leading spaces. */
  lemma BlockParts(content: string)
    ensures var rest := AfterLead(content);
            var block := LineType(rest);
            (block.None? ==> AfterBlock(content) == rest) &&
            (block.Some? ==> |block.value.1| < |rest| && IsWhitespace(rest[|block.value.1|]) &&
                             rest == block.value.1 + [rest[|block.value.1|]] + AfterBlock(content))
  {
    var rest := AfterLead(content);
    if LineType(rest).Some? {
      var m := LineType(rest).value.1;
      LineTypeSound(rest);
      assert rest == rest[..|m|] + [rest[|m|]] + rest[|m| + 1..];
    }
  }

  /** A todo marker with the space after it, then the body, make up the line
      after its block marker. */
  lemma TodoParts(content: string)
    ensures AfterBlock(content) == TodoText(CutHead(content)) + BodyText(content)
  {
    var after := AfterBlock(content);
    if LineSubtype(after).Some? {
      var m := LineSubtype(after).value.1;
      LineSubtypeSound(after);
      assert after == after[..|m| + 1] + after[|m| + 1..];
    }
  }

  /** How the cut reads the line back: the leading spaces, the block marker
      with the whitespace character after it, the todo marker with the space
      after it, then the body. */
  lemma CutHeadParts(content: string)
    ensures var h := CutHead(content);
            content == Repeat(h.lead, ' ') + AfterLead(content) &&
            (h.block.None? ==> AfterBlock(content) == AfterLead(content)) &&
            (h.block.Some? ==> |h.block.value.1| < |AfterLead(content)| &&
                               IsWhitespace(AfterLead(content)[|h.block.value.1|]) &&
                               AfterLead(content) == h.block.value.1 + [AfterLead(content)[|h.block.value.1|]] + AfterBlock(content)) &&
            AfterBlock(content) == TodoText(h) + h.body
  {
    LeadParts(content);
    BlockParts(content);
    TodoParts(content);
  }

  /** The block marker is followed by a plain space (or there is none). */
  predicate SpaceAfterBlock(content: string) {
    var rest := AfterLead(content);
    LineType(rest).None? || StartsWith(rest, LineType(rest).value.1 + " ")
  }

  /** The text of a parsed line: its leading spaces, each marker with one
      space written after it, then the text of its body's inline nodes. */
  lemma LineFlat(content: string)
    requires |content| > 0
    ensures var h := CutHead(content);
            Flat(LineNode(content)) == Repeat(h.lead, ' ') + (BlockText(h) + (TodoText(h) + FlatAll(Inline.InlineNodes(h.body))))
  {
    var h := CutHead(content);
    FlatAssemble(h, Inline.InlineNodes(h.body));
    assert LineNode(content) == Assemble(h, Inline.InlineNodes(h.body));
  }

  /** The characters `parseLine` loses from a line: those the inline
      pipeline loses from its body. */
  function LineLoss(content: string): nat {
    Inline.InlineLoss(BodyText(content))
  }

  /** The body is the end of the line, so it has no `*` when the line has
      none. */
  lemma BodyWithoutStar(content: string)
    requires '*' !in content
    ensures '*' !in CutHead(content).body
  {
    var rest := AfterLead(content);
    assert '*' !in rest;
    var after := AfterBlock(content);
    TypeMarkerFits(rest);
    assert '*' !in after;
    SubtypeMarkerFits(after);
    assert '*' !in BodyText(content);
  }

  /** A line without `*` loses nothing in `parseLine`. */
  lemma LineNoStarNoLoss(content: string)
    requires '*' !in content
    ensures LineLoss(content) == 0
  {
    BodyWithoutStar(content);
    Inline.InlineNoStarNoLoss(BodyText(content));
  }

  /** Writing a space where a line had `c` gives the line back exactly when
      `c` is a space. */
  lemma SpaceInPlace(p: string, c: char, q: string)
    ensures p + [' '] + q == p + [c] + q <==> c == ' '
  {
    if c != ' ' {
      assert (p + [c] + q)[|p|] == c;
    }
  }

  /** The rejoined line of the cut `h` of `content`. */
  function Rejoined(h: Head): string {
    Repeat(h.lead, ' ') + (BlockText(h) + (TodoText(h) + h.body))
  }

  /** With a marker `m` followed by `ws`, writing `m + " "` instead gives
      the line back exactly when the line has `m + " "` there. */
  lemma RejoinMarker(content: string, spaces: string, rest: string, m: string, ws: char, tail: string)
    requires content == spaces + rest && rest == m + [ws] + tail
    ensures spaces + ((m + " ") + tail) == content <==> StartsWith(rest, m + " ")
  {
    assert content == (spaces + m) + [ws] + tail;
    assert spaces + ((m + " ") + tail) == (spaces + m) + [' '] + tail;
    SpaceInPlace(spaces + m, ws, tail);
    assert rest[..|m| + 1] == m + [ws];
  }

  /** With a block marker `m` of type `t`, the cut line rejoined matches
      exactly when `m` is followed by a plain space. */
  lemma RejoinedWithBlock(content: string, t: string, m: string)
    requires LineType(AfterLead(content)) == Some((t, m))
    ensures Rejoined(CutHead(content)) == content <==> StartsWith(AfterLead(content), m + " ")
  {
    var h := CutHead(content);
    var spaces := Repeat(h.lead, ' ');
    var rest := AfterLead(content);
    var tail := TodoText(h) + h.body;
    LeadParts(content);
    TodoParts(content);
    BlockParts(content);
    RejoinMarker(content, spaces, rest, m, rest[|m|], tail);
    assert Rejoined(h) == spaces + ((m + " ") + tail);
  }

  /** Without a block marker nothing is cut after the leading spaces. */
  lemma UntypedRest(content: string)
    requires LineType(AfterLead(content)).None?
    ensures AfterBlock(content) == AfterLead(content)
  {
  }

  /** Without a block marker, the cut line rejoined is the line. */
  lemma RejoinedWithoutBlock(content: string)
    requires LineType(AfterLead(content)).None?
    ensures Rejoined(CutHead(content)) == content
  {
    LeadParts(content);
    UntypedTail(content);
    UntypedRejoined(content);
  }

  /** Without a block marker, the line after its leading spaces is the
      todo marker and its space, then the body. */
  lemma UntypedTail(content: string)
    requires LineType(AfterLead(content)).None?
    ensures AfterLead(content) == TodoText(CutHead(content)) + BodyText(content)
  {
    UntypedRest(content);
    TodoParts(content);
  }

  /** Without a block marker, the rejoined line has no block text. */
  lemma UntypedRejoined(content: string)
    requires LineType(AfterLead(content)).None?
    ensures Rejoined(CutHead(content)) == Repeat(LeadingSpaces(content), ' ') + (TodoText(CutHead(content)) + BodyText(content))
  {
    var h := CutHead(content);
    assert BlockText(h) == "";
  }

  /** Putting the cut line back together with one space after each marker
      gives the line exactly when its block marker, if any, was followed by
      a plain space. */
  lemma RejoinedHead(content: string)
    ensures Rejoined(CutHead(content)) == content <==> SpaceAfterBlock(content)
  {
    var block := LineType(AfterLead(content));
    if block.Some? {
      RejoinedWithBlock(content, block.value.0, block.value.1);
    } else {
      RejoinedWithoutBlock(content);
    }
  }

  /** Rejoining the cut line with one space after each marker keeps its
      length: each marker is followed by exactly one character. */
  lemma RejoinedLength(content: string)
    ensures |Rejoined(CutHead(content))| == |content|
  {
    CutHeadParts(content);
  }

  /** `parseLine` shortens a line by exactly the characters the inline
      pipeline loses, and keeps it exactly when it loses none and its block
      marker, if any, is followed by a plain space: it always writes back
      one `" "`, so a tab after `"1."` comes back as a space. */
  lemma LineRoundTrip(content: string)
    requires |content| > 0
    ensures |Flat(LineNode(content))| + LineLoss(content) == |content|
    ensures Flat(LineNode(content)) == content <==> SpaceAfterBlock(content) && LineLoss(content) == 0
  {
    var h := CutHead(content);
    LineFlat(content);
    Inline.InlineRoundTrip(h.body);
    RejoinedLength(content);
    RejoinedHead(content);
    assert |Flat(LineNode(content))| + LineLoss(content) == |Rejoined(h)|;
    if LineLoss(content) == 0 {
      assert Flat(LineNode(content)) == Rejoined(h);
    }
  }

  /** A numbered item whose dot is followed by a tab does not come back as
      written: the tab becomes the single space `parseLine` writes. */
  lemma TabAfterNumber(digits: string, rest: string)
    requires 0 < |digits| && AllDigits(digits)
    ensures Flat(LineNode(digits + ".\t" + rest)) != digits + ".\t" + rest
  {
    var content := digits + ".\t" + rest;
    var m := digits + ".";
    assert content == digits + "." + ['\t'] + rest;
    NumberedItem(digits, '\t', rest);
    assert IsDigit(content[0]);
    assert AfterLead(content) == content;
    assert content[|m|] == '\t';
    assert !SpaceAfterBlock(content) by {
      assert !StartsWith(content, m + " ") by {
        assert (m + " ")[|m|] == ' ';
      }
    }
    LineRoundTrip(content);
  }

  /** `parseLine` never adds characters to a line. */
  lemma LineNoLonger(content: string)
    ensures |Flat(LineNode(content))| <= |content|
  {
    if |content| > 0 {
      LineRoundTrip(content);
    }
  }

  /** A heading: `n` hashes, a space and text give an `h<n>` node holding the
      marker, one space, then the text's inline nodes (when the text does
      not itself open with a todo marker). */
  lemma HeadingLine(n: nat, text: string)
    requires 1 <= n <= 6 && LineSubtype(text).None?
    ensures LineNode(Repeat(n, '#') + " " + text) ==
            Branch(LineTypes[n - 1].1, [Leaf("marker", Repeat(n, '#')), SpaceNode(1)] + Inline.InlineNodes(text))
  {
    var h := Head(0, Some((LineTypes[n - 1].1, Repeat(n, '#'))), None, text);
    HeadingCut(n, text);
    var body := Inline.InlineNodes(text);
    assert LeadNodes(h) + MarkerNodes(h) + InnerNodes(h, body) == [Leaf("marker", Repeat(n, '#')), SpaceNode(1)] + body;
  }

  /** How a heading line is cut. */
  lemma HeadingCut(n: nat, text: string)
    requires 1 <= n <= 6 && LineSubtype(text).None?
    ensures CutHead(Repeat(n, '#') + " " + text) == Head(0, Some((LineTypes[n - 1].1, Repeat(n, '#'))), None, text)
  {
    var hashes := Repeat(n, '#');
    var content := hashes + " " + text;
    assert content[0] == '#';
    assert AfterLead(content) == content by {
      assert LeadingSpaces(content) == 0;
    }
    assert StartsWith(content, hashes + " ");
    HeadingLevel(n, content);
    assert AfterBlock(content) == text by {
      assert content[|hashes| + 1..] == text;
    }
  }

  /** A todo without a block marker: `"[x] a"` is a `paragraph` wrapping a
      `todo-done` node whose children are the marker, one space, then the
      inline nodes of the rest. */
  lemma TodoParagraph(text: string)
    ensures LineNode("[x] " + text) ==
            Branch("paragraph", [Branch("todo-done", [Leaf("marker", "[x]"), SpaceNode(1)] + Inline.InlineNodes(text))])
  {
    var h := Head(0, None, Some(("todo-done", "[x]")), text);
    TodoCut(text);
    var body := Inline.InlineNodes(text);
    assert LeadNodes(h) + MarkerNodes(h) + InnerNodes(h, body) == [Branch("todo-done", [Leaf("marker", "[x]"), SpaceNode(1)] + body)];
  }

  /** How a done todo line without a block marker is cut. */
  lemma TodoCut(text: string)
    ensures CutHead("[x] " + text) == Head(0, None, Some(("todo-done", "[x]")), text)
  {
    var content := "[x] " + text;
    assert AfterLead(content) == content by {
      assert content[0] == '[' && LeadingSpaces(content) == 0;
    }
    assert LineType(content).None? by {
      UntypedLine(content);
      forall j | 0 <= j < |LineTypes| ensures !StartsWith(content, LineTypes[j].0 + " ") {
        assert (LineTypes[j].0 + " ")[0] != '[';
      }
      assert LeadingDigits(content) == 0;
      assert NumberMarker(content).None?;
    }
    assert AfterBlock(content) == content;
    assert StartsWith(content, "[x] ");
    SubtypeMarkers(content);
    assert content[4..] == text;
  }

  /** Leading spaces become one `space` leaf ahead of everything else. */
  lemma IndentedLine(n: nat, text: string)
    requires 0 < n && text != [] && text[0] != ' '
    ensures var node := LineNode(Repeat(n, ' ') + text);
            node.Branch? && |node.children| > 0 && node.children[0] == SpaceNode(n)
  {
    var content := Repeat(n, ' ') + text;
    LeadingSpacesOf(n, text);
  }

  /** A non-empty line's node is its cut assembled around its body's inline
      nodes. */
  lemma LineNodeOfCut(content: string, h: Head)
    requires |content| > 0 && h == CutHead(content)
    ensures LineNode(content) == Assemble(h, Inline.InlineNodes(h.body))
  {
  }

  /** The first half of `parseLine`: the leading spaces, then the block and
      todo lookups, each slicing its marker and the character after it off
      the rest of the line. */
  method CutLine(content: string) returns (h: Head)
    ensures h == CutHead(content)
  {
    var leadingSpace := LeadingSpaces(content);
    var rest := content[leadingSpace..];
    var block := GetLineType(rest);
    TypeMarkerFits(rest);
    rest := if block.Some? then rest[|block.value.1| + 1..] else rest;
    var todo := GetLineSubtype(rest);
    SubtypeMarkerFits(rest);
    rest := if todo.Some? then rest[|todo.value.1| + 1..] else rest;
    h := Head(leadingSpace, block, todo, rest);
  }

  /** `parseLine`: the cut, the inline parse of what is left (which records
      links in `meta`), then the assembly. */
  method ParseLine(line: LineSplitter.Line, meta: LinkScanner.Meta) returns (node: Node)
    modifies meta
    ensures node == LineNode(line.content)
    ensures meta.links == LineLinks(line.content, old(meta.links))
  {
    if |line.content| == 0 {
      return Branch("empty", []);
    }
    var h := CutLine(line.content);
    var children: seq<Node> := [];
    if h.lead > 0 {
      children := children + [SpaceNode(h.lead)];
    }
    var body := Inline.ParseInline(h.body, meta);
    if h.todo.Some? {
      body := [Branch(h.todo.value.0, [Leaf("marker", h.todo.value.1), SpaceNode(1)] + body)];
    }
    assert body == InnerNodes(h, Inline.InlineNodes(h.body));
    if h.block.Some? {
      children := children + [Leaf("marker", h.block.value.1), SpaceNode(1)];
    }
    assert children == LeadNodes(h) + MarkerNodes(h);
    children := children + body;
    node := Branch(if h.block.Some? then h.block.value.0 else "paragraph", children);
    LineNodeOfCut(line.content, h);
  }
}
