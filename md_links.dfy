/** The link scanner of the inline tokenizer (`parseLinks`): one pass over
    the text that cuts out `[text](url)` links as a `link-text` leaf and a
    `link-url` leaf, records each link in the editor's metadata, and leaves
    everything else as `text` or `space` leaves. */
module LinkScanner {
  import opened MdNodes

  /** The editor metadata the highlighter threads through: the links found
      so far, keyed by their url (parentheses included). */
  class Meta {
    var links: map<string, string>

    constructor (links: map<string, string>)
      ensures this.links == links
    {
      this.links := links;
    }
  }

  /** The scanner's buffers and flags: the pending plain text, the link text
      and url being read, where the scan is, and whether the pending plain
      text holds only spaces. */
  datatype LinkState = LinkState(cur: string, linkText: string, linkUrl: string,
                                 inText: bool, inUrl: bool, spaceOnly: bool)

  const Start := LinkState("", "", "", false, false, true)

  /** One step of the scan: where it goes next, the new state and the nodes
      it emits. */
  datatype LinkMove = LinkMove(next: nat, st: LinkState, emit: seq<Node>)

  /** The body of the source's loop at index `i`. A `]` that closes a link
      text looks one character ahead: a `(` there starts the url and is
      consumed too; otherwise the bracketed text falls back into the plain
      text without touching the space-only flag. */
  function LinkStep(text: string, i: nat, s: LinkState): (m: LinkMove)
    requires i < |text|
    ensures i < m.next <= |text|
  {
    var c := text[i];
    if c == '[' && !s.inText && !s.inUrl then
      if s.cur != "" then
        LinkMove(i + 1, s.(cur := "", spaceOnly := true, inText := true, linkText := s.linkText + [c]),
                 [Leaf(if s.spaceOnly then "space" else "text", s.cur)])
      else LinkMove(i + 1, s.(inText := true, linkText := s.linkText + [c]), [])
    else if c == ']' && s.inText then
      if i + 1 < |text| && text[i + 1] == '(' then
        LinkMove(i + 2, s.(inText := false, inUrl := true, linkText := s.linkText + [c], linkUrl := s.linkUrl + "("), [])
      else
        LinkMove(i + 1, s.(inText := false, cur := s.cur + s.linkText + [c], linkText := ""), [])
    else if c == ')' && s.inUrl then
      LinkMove(i + 1, s.(inUrl := false, linkText := "", linkUrl := ""),
               [Leaf("link-text", s.linkText), Leaf("link-url", s.linkUrl + [c])])
    else if s.inText then LinkMove(i + 1, s.(linkText := s.linkText + [c]), [])
    else if s.inUrl then LinkMove(i + 1, s.(linkUrl := s.linkUrl + [c]), [])
    else LinkMove(i + 1, s.(cur := s.cur + [c], spaceOnly := s.spaceOnly && c == ' '), [])
  }

  /** What is left in the buffers at the end becomes plain text after
      `acc`: the pending text, then an unclosed link text, then an unclosed
      url. */
  function Leftover(s: LinkState, acc: seq<Node>): seq<Node> {
    PushText(PushText(PushText(acc, s.cur), s.linkText), s.linkUrl)
  }

  /** The remaining work of the scan from index `i`. */
  function LinkRun(text: string, i: nat, s: LinkState, acc: seq<Node>): seq<Node>
    requires i <= |text|
    decreases |text| - i
  {
    if i == |text| then Leftover(s, acc)
    else
      var m := LinkStep(text, i, s);
      LinkRun(text, m.next, m.st, acc + m.emit)
  }

  /** The nodes `parseLinks(text, meta)` returns. */
  function LinkScan(text: string): seq<Node> {
    LinkRun(text, 0, Start, [])
  }

  /** The links map after recording the `link-text`/`link-url` pairs of
      `ns` into `m` in order: a later link with the same url overwrites an
      earlier one. */
  function LinksOf(ns: seq<Node>, m: map<string, string>): map<string, string>
    decreases |ns|
  {
    if |ns| < 2 then m
    else if ns[0].Leaf? && ns[0].kind == "link-text" && ns[1].Leaf? && ns[1].kind == "link-url" then
      LinksOf(ns[2..], m[ns[1].text := ns[0].text])
    else LinksOf(ns[1..], m)
  }

  /** A link text as the scanner cuts it: `[`, no `]`, then `]`. */
  predicate IsLinkText(t: string) {
    |t| >= 2 && t[0] == '[' && t[|t| - 1] == ']' && ']' !in t[1..|t| - 1]
  }

  /** A link url as the scanner cuts it: `(`, no `)`, then `)`. */
  predicate IsLinkUrl(u: string) {
    |u| >= 2 && u[0] == '(' && u[|u| - 1] == ')' && ')' !in u[1..|u| - 1]
  }

  /** The scan's output: non-empty leaves of four kinds, where every link
      text is immediately followed by its url and every url immediately
      preceded by its link text. */
  predicate LinkShaped(ns: seq<Node>) {
    (forall k :: 0 <= k < |ns| ==>
       ns[k].Leaf? && ns[k].text != "" && ns[k].kind in {"text", "space", "link-text", "link-url"}) &&
    (forall k :: 0 <= k < |ns| && ns[k].kind == "link-text" ==>
       k + 1 < |ns| && ns[k + 1].kind == "link-url" && IsLinkText(ns[k].text)) &&
    (forall k :: 0 <= k < |ns| && ns[k].kind == "link-url" ==>
       0 < k && ns[k - 1].kind == "link-text" && IsLinkUrl(ns[k].text))
  }

  /** The state the loop keeps: at most one of the two link flags is set;
      while reading a link text the plain text and url are empty and the
      link text is an open `[...`; while reading a url the plain text is
      empty, the link text is complete and the url is an open `(...`;
      outside a link both link buffers are empty. */
  predicate Consistent(s: LinkState) {
    !(s.inText && s.inUrl) &&
    (s.inText ==> s.cur == "" && s.linkUrl == "" && |s.linkText| >= 1 &&
                  s.linkText[0] == '[' && ']' !in s.linkText[1..]) &&
    (s.inUrl ==> s.cur == "" && IsLinkText(s.linkText) && |s.linkUrl| >= 1 &&
                 s.linkUrl[0] == '(' && ')' !in s.linkUrl[1..]) &&
    (!s.inText && !s.inUrl ==> s.linkText == "" && s.linkUrl == "")
  }

  /** The characters the state holds back, in text order. */
  function Pending(s: LinkState): string {
    s.cur + s.linkText + s.linkUrl
  }

  lemma FlatLeftover(s: LinkState, acc: seq<Node>)
    ensures FlatAll(Leftover(s, acc)) == FlatAll(acc) + Pending(s)
  {
    var a1 := PushText(acc, s.cur);
    var a2 := PushText(a1, s.linkText);
    FlatPush(acc, s.cur);
    FlatPush(a1, s.linkText);
    FlatPush(a2, s.linkUrl);
    assert FlatAll(acc) + s.cur + s.linkText + s.linkUrl == FlatAll(acc) + Pending(s);
  }

  lemma FlatPair(a: string, b: string)
    ensures FlatAll([Leaf("link-text", a), Leaf("link-url", b)]) == a + b
  {
    assert [Leaf("link-text", a), Leaf("link-url", b)][1..] == [Leaf("link-url", b)];
    FlatAllOne(Leaf("link-url", b));
  }

  /** Opening a link text keeps the state consistent. */
  lemma ConsistentOpen(s: LinkState)
    requires Consistent(s) && !s.inText && !s.inUrl
    ensures Consistent(s.(cur := "", spaceOnly := true, inText := true, linkText := s.linkText + "["))
    ensures s.cur == "" ==> Consistent(s.(inText := true, linkText := s.linkText + "["))
  {
    assert (s.linkText + "[")[1..] == [];
  }

  lemma ConsistentClose(s: LinkState)
    requires Consistent(s) && s.inText
    ensures Consistent(s.(inText := false, inUrl := true, linkText := s.linkText + "]", linkUrl := s.linkUrl + "("))
    ensures Consistent(s.(inText := false, cur := s.cur + s.linkText + "]", linkText := ""))
  {
    assert (s.linkText + "]")[1..|s.linkText + "]"| - 1] == s.linkText[1..];
    assert (s.linkUrl + "(")[1..] == [];
  }

  lemma ConsistentGrow(s: LinkState, c: char)
    requires Consistent(s)
    ensures s.inText && c != ']' ==> Consistent(s.(linkText := s.linkText + [c]))
    ensures s.inUrl && c != ')' ==> Consistent(s.(linkUrl := s.linkUrl + [c]))
  {
    if s.inText {
      assert (s.linkText + [c])[1..] == s.linkText[1..] + [c];
    }
    if s.inUrl {
      assert (s.linkUrl + [c])[1..] == s.linkUrl[1..] + [c];
    }
  }

  /** One step keeps the state consistent. */
  lemma LinkStepConsistent(text: string, i: nat, s: LinkState)
    requires i < |text| && Consistent(s)
    ensures Consistent(LinkStep(text, i, s).st)
  {
    var c := text[i];
    if c == '[' && !s.inText && !s.inUrl {
      ConsistentOpen(s);
    } else if c == ']' && s.inText {
      ConsistentClose(s);
    } else if c == ')' && s.inUrl {
    } else {
      ConsistentGrow(s, c);
    }
  }

  lemma FlatOpenLink(s: LinkState, c: char)
    requires Consistent(s) && !s.inText && !s.inUrl && c == '['
    ensures FlatAll(if s.cur != "" then [Leaf(if s.spaceOnly then "space" else "text", s.cur)] else [])
            + Pending(s.(cur := "", spaceOnly := true, inText := true, linkText := s.linkText + [c]))
            == Pending(s) + [c]
  {
    if s.cur != "" {
      FlatAllOne(Leaf(if s.spaceOnly then "space" else "text", s.cur));
    }
  }

  lemma FlatCloseLink(s: LinkState, c: char)
    requires Consistent(s) && s.inUrl
    ensures FlatAll([Leaf("link-text", s.linkText), Leaf("link-url", s.linkUrl + [c])])
            + Pending(s.(inUrl := false, linkText := "", linkUrl := ""))
            == Pending(s) + [c]
  {
    FlatPair(s.linkText, s.linkUrl + [c]);
  }

  lemma FlatCloseText(s: LinkState, c: char)
    requires Consistent(s) && s.inText
    ensures Pending(s.(inText := false, inUrl := true, linkText := s.linkText + [c], linkUrl := s.linkUrl + "("))
            == Pending(s) + [c, '(']
    ensures Pending(s.(inText := false, cur := s.cur + s.linkText + [c], linkText := "")) == Pending(s) + [c]
  {
  }

  lemma FlatAppendChar(s: LinkState, c: char)
    requires Consistent(s)
    ensures s.inText ==> Pending(s.(linkText := s.linkText + [c])) == Pending(s) + [c]
    ensures !s.inText && s.inUrl ==> Pending(s.(linkUrl := s.linkUrl + [c])) == Pending(s) + [c]
    ensures !s.inText && !s.inUrl ==>
              Pending(s.(cur := s.cur + [c], spaceOnly := s.spaceOnly && c == ' ')) == Pending(s) + [c]
  {
  }

  /** One step loses no character: what it emits and what it holds back
      are what was held back and what it consumed. */
  lemma LinkStepFlat(text: string, i: nat, s: LinkState)
    requires i < |text| && Consistent(s)
    ensures var m := LinkStep(text, i, s);
            FlatAll(m.emit) + Pending(m.st) == Pending(s) + text[i..m.next]
  {
    var c := text[i];
    var m := LinkStep(text, i, s);
    if c == '[' && !s.inText && !s.inUrl {
      FlatOpenLink(s, c);
      assert text[i..m.next] == [c];
    } else if c == ']' && s.inText {
      FlatCloseText(s, c);
      assert m.emit == [];
      if i + 1 < |text| && text[i + 1] == '(' {
        assert text[i..m.next] == [c, '('];
      } else {
        assert text[i..m.next] == [c];
      }
    } else if c == ')' && s.inUrl {
      FlatCloseLink(s, c);
      assert text[i..m.next] == [c];
    } else {
      FlatAppendChar(s, c);
      assert m.emit == [];
      assert text[i..m.next] == [c];
    }
  }

  lemma Regroup(f: string, e: string, p2: string, p: string, t1: string, t2: string)
    requires e + p2 == p + t1
    ensures f + e + p2 + t2 == f + p + (t1 + t2)
  {
    calc {
      f + e + p2 + t2;
      f + (e + p2) + t2;
      f + (p + t1) + t2;
    }
  }

  /** Every character of the text ends up in exactly one leaf, in order. */
  lemma {:induction false} LinkRunFlat(text: string, i: nat, s: LinkState, acc: seq<Node>)
    requires i <= |text| && Consistent(s)
    ensures FlatAll(LinkRun(text, i, s, acc)) == FlatAll(acc) + Pending(s) + text[i..]
    decreases |text| - i
  {
    if i == |text| {
      FlatLeftover(s, acc);
    } else {
      var m := LinkStep(text, i, s);
      assert LinkRun(text, i, s, acc) == LinkRun(text, m.next, m.st, acc + m.emit);
      LinkStepConsistent(text, i, s);
      LinkStepFlat(text, i, s);
      FlatAllAppend(acc, m.emit);
      LinkRunFlat(text, m.next, m.st, acc + m.emit);
      var step, later := text[i..m.next], text[m.next..];
      assert text[i..] == step + later;
      Regroup(FlatAll(acc), FlatAll(m.emit), Pending(m.st), Pending(s), step, later);
    }
  }

  /** Shaped sequences are closed under concatenation: a shaped sequence
      never ends in a link text nor starts with a url. */
  lemma LinkShapedAppend(a: seq<Node>, b: seq<Node>)
    requires LinkShaped(a) && LinkShaped(b)
    ensures LinkShaped(a + b)
  {
    var ab := a + b;
    forall k | 0 <= k < |ab|
      ensures ab[k] == if k < |a| then a[k] else b[k - |a|]
    {
    }
  }

  lemma LinkShapedPush(acc: seq<Node>, t: string)
    requires LinkShaped(acc)
    ensures LinkShaped(PushText(acc, t))
  {
    if t != "" {
      LinkShapedAppend(acc, [Leaf("text", t)]);
    }
  }

  lemma PairShaped(t: string, u: string)
    requires IsLinkText(t) && IsLinkUrl(u)
    ensures LinkShaped([Leaf("link-text", t), Leaf("link-url", u)])
  {
  }

  lemma PlainShaped(kind: string, t: string)
    requires t != "" && (kind == "text" || kind == "space")
    ensures LinkShaped([Leaf(kind, t)])
  {
  }

  /** The emitted nodes of a step are shaped. */
  lemma LinkStepShaped(text: string, i: nat, s: LinkState)
    requires i < |text| && Consistent(s)
    ensures LinkShaped(LinkStep(text, i, s).emit)
  {
    var c := text[i];
    if c == ')' && s.inUrl {
      var u := s.linkUrl + [c];
      assert IsLinkUrl(u) by {
        assert u[1..|u| - 1] == s.linkUrl[1..];
      }
      assert IsLinkText(s.linkText);
      PairShaped(s.linkText, u);
      assert LinkStep(text, i, s).emit == [Leaf("link-text", s.linkText), Leaf("link-url", u)];
    } else if c == '[' && !s.inText && !s.inUrl && s.cur != "" {
      PlainShaped(if s.spaceOnly then "space" else "text", s.cur);
      assert LinkStep(text, i, s).emit == [Leaf(if s.spaceOnly then "space" else "text", s.cur)];
    } else {
      assert LinkStep(text, i, s).emit == [];
    }
  }

  /** The scan's output is shaped. */
  lemma {:induction false} LinkRunShaped(text: string, i: nat, s: LinkState, acc: seq<Node>)
    requires i <= |text| && Consistent(s) && LinkShaped(acc)
    ensures LinkShaped(LinkRun(text, i, s, acc))
    decreases |text| - i
  {
    if i == |text| {
      LinkShapedPush(acc, s.cur);
      LinkShapedPush(PushText(acc, s.cur), s.linkText);
      LinkShapedPush(PushText(PushText(acc, s.cur), s.linkText), s.linkUrl);
    } else {
      var m := LinkStep(text, i, s);
      LinkStepConsistent(text, i, s);
      LinkStepShaped(text, i, s);
      LinkShapedAppend(acc, m.emit);
      LinkRunShaped(text, m.next, m.st, acc + m.emit);
    }
  }

  /** `parseLinks` gives back its input, and its output is shaped. */
  lemma LinkScanProperties(text: string)
    ensures FlatAll(LinkScan(text)) == text
    ensures LinkShaped(LinkScan(text))
  {
    LinkRunFlat(text, 0, Start, []);
    LinkRunShaped(text, 0, Start, []);
  }

  /** A suffix of a shaped sequence that does not start with a url is
      shaped. */
  lemma LinkShapedSuffix(a: seq<Node>, j: nat)
    requires LinkShaped(a) && j <= |a|
    requires j < |a| ==> a[j].kind != "link-url"
    ensures LinkShaped(a[j..])
  {
    forall k | 0 <= k < |a| - j ensures a[j..][k] == a[j + k] {
    }
  }

  /** `ns` does not end in a link text that a following url could pair
      with. */
  predicate EndsClosed(ns: seq<Node>) {
    ns == [] || !(ns[|ns| - 1].Leaf? && ns[|ns| - 1].kind == "link-text")
  }

  /** Recording the links of `a + b` is recording those of `a`, then those
      of `b`, as long as `a` leaves no link text open. */
  lemma {:induction false} LinksOfAppend(a: seq<Node>, b: seq<Node>, m: map<string, string>)
    requires EndsClosed(a)
    ensures LinksOf(a + b, m) == LinksOf(b, LinksOf(a, m))
    decreases |a|
  {
    if a == [] {
      assert a + b == b;
    } else if |a| == 1 {
      assert (a + b)[1..] == b;
      if |b| >= 1 {
        assert (a + b)[0] == a[0];
      }
    } else if a[0].Leaf? && a[0].kind == "link-text" && a[1].Leaf? && a[1].kind == "link-url" {
      assert (a + b)[2..] == a[2..] + b;
      assert (a + b)[0] == a[0] && (a + b)[1] == a[1];
      LinksOfAppend(a[2..], b, m[a[1].text := a[0].text]);
    } else {
      assert (a + b)[1..] == a[1..] + b;
      assert (a + b)[0] == a[0] && (a + b)[1] == a[1];
      LinksOfAppend(a[1..], b, m);
    }
  }

  lemma LinksOfPair(t: string, u: string, m: map<string, string>)
    ensures LinksOf([Leaf("link-text", t), Leaf("link-url", u)], m) == m[u := t]
  {
    assert [Leaf("link-text", t), Leaf("link-url", u)][2..] == [];
  }

  /** Nodes without a link text record nothing. */
  lemma {:induction false} LinksOfPlain(ns: seq<Node>, m: map<string, string>)
    requires forall k :: 0 <= k < |ns| ==> ns[k].kind != "link-text"
    ensures LinksOf(ns, m) == m
    decreases |ns|
  {
    if |ns| >= 2 {
      assert ns[0].kind != "link-text";
      LinksOfPlain(ns[1..], m);
    }
  }

  /** A plain text leaf after a closed sequence records nothing and leaves
      the sequence closed. */
  lemma LinksOfPush(acc: seq<Node>, t: string, m: map<string, string>)
    requires EndsClosed(acc)
    ensures EndsClosed(PushText(acc, t))
    ensures LinksOf(PushText(acc, t), m) == LinksOf(acc, m)
  {
    if t != "" {
      LinksOfAppend(acc, [Leaf("text", t)], m);
    }
  }

  /** Flushing the buffers records nothing. */
  lemma LinksOfLeftover(s: LinkState, acc: seq<Node>, m: map<string, string>)
    requires EndsClosed(acc)
    ensures LinksOf(Leftover(s, acc), m) == LinksOf(acc, m)
  {
    LinksOfPush(acc, s.cur, m);
    LinksOfPush(PushText(acc, s.cur), s.linkText, m);
    LinksOfPush(PushText(PushText(acc, s.cur), s.linkText), s.linkUrl, m);
  }

  /** A url that no `link-url` leaf carries keeps its entry, or its
      absence. */
  lemma {:induction false} LinksOfUntouched(ns: seq<Node>, m: map<string, string>, u: string)
    requires forall j :: 0 <= j < |ns| ==> ns[j] != Leaf("link-url", u)
    ensures (u in LinksOf(ns, m)) == (u in m)
    ensures u in m ==> LinksOf(ns, m)[u] == m[u]
    decreases |ns|
  {
    if |ns| >= 2 {
      if ns[0].Leaf? && ns[0].kind == "link-text" && ns[1].Leaf? && ns[1].kind == "link-url" {
        assert ns[1] != Leaf("link-url", u);
        LinksOfUntouched(ns[2..], m[ns[1].text := ns[0].text], u);
      } else {
        LinksOfUntouched(ns[1..], m, u);
      }
    }
  }

  /** The last link with a given url wins: its link text is what the map
      holds for that url. */
  lemma {:induction false} LinksOfLastWins(ns: seq<Node>, m: map<string, string>, k: nat, u: string)
    requires LinkShaped(ns) && k < |ns| && ns[k] == Leaf("link-url", u)
    requires forall j :: k < j < |ns| ==> ns[j] != Leaf("link-url", u)
    ensures 0 < k && u in LinksOf(ns, m) && LinksOf(ns, m)[u] == ns[k - 1].text
    decreases |ns|
  {
    assert ns[k].kind == "link-url";
    if ns[0].kind == "link-text" {
      if k == 1 {
        forall j | 0 <= j < |ns[2..]| ensures ns[2..][j] != Leaf("link-url", u) {
          assert ns[2..][j] == ns[j + 2];
        }
        LinksOfUntouched(ns[2..], m[u := ns[0].text], u);
      } else {
        assert k >= 3 by {
          assert ns[1].kind == "link-url";
          assert ns[k - 1].kind == "link-text";
        }
        assert ns[2].kind != "link-url" by {
          assert ns[1].kind == "link-url";
        }
        LinkShapedSuffix(ns, 2);
        assert ns[2..][k - 2] == ns[k] && ns[2..][k - 3] == ns[k - 1];
        LinksOfLastWins(ns[2..], m[ns[1].text := ns[0].text], k - 2, u);
      }
    } else {
      assert k >= 2 by {
        assert ns[k - 1].kind == "link-text";
      }
      LinkShapedSuffix(ns, 1);
      assert ns[1..][k - 1] == ns[k] && ns[1..][k - 2] == ns[k - 1];
      LinksOfLastWins(ns[1..], m, k - 1, u);
    }
  }

  /** Plain text holds no link leaf state: with no `[` at all, the whole
      text stays pending. */
  lemma {:induction false} NoBracketRun(text: string, i: nat, s: LinkState, acc: seq<Node>)
    requires i <= |text| && '[' !in text[i..]
    requires !s.inText && !s.inUrl && s.linkText == "" && s.linkUrl == ""
    ensures LinkRun(text, i, s, acc) == PushText(acc, s.cur + text[i..])
    decreases |text| - i
  {
    if i == |text| {
      assert s.cur + text[i..] == s.cur;
    } else {
      assert text[i] == text[i..][0];
      var m := LinkStep(text, i, s);
      assert m.next == i + 1 && m.emit == [] && m.st.cur == s.cur + [text[i]];
      assert acc + m.emit == acc;
      assert text[i + 1..] == text[i..][1..];
      NoBracketRun(text, i + 1, m.st, acc);
      assert s.cur + text[i..] == s.cur + [text[i]] + text[i + 1..];
    }
  }

  /** A text with no `[` comes back as one `text` leaf (none when empty),
      even when it holds only spaces, and records no link. */
  lemma NoBracketNoLink(text: string, m: map<string, string>)
    requires '[' !in text
    ensures LinkScan(text) == (if text == "" then [] else [Leaf("text", text)])
    ensures LinksOf(LinkScan(text), m) == m
  {
    NoBracketRun(text, 0, Start, []);
    assert "" + text[0..] == text;
    assert [] + [Leaf("text", text)] == [Leaf("text", text)];
    LinksOfPlain(LinkScan(text), m);
  }

  /** `x` does not contain `c`. */
  predicate Free(x: string, c: char) {
    forall k :: 0 <= k < |x| ==> x[k] != c
  }

  lemma FreeOf(x: string, c: char)
    requires c !in x
    ensures Free(x, c)
  {
  }

  /** A slice of `t` equal to a string free of `c` holds no `c`. */
  lemma SliceFree(t: string, lo: nat, hi: nat, x: string, c: char)
    requires lo <= hi <= |t| && t[lo..hi] == x && Free(x, c)
    ensures forall k :: lo <= k < hi ==> t[k] != c
  {
    forall k | lo <= k < hi ensures t[k] != c {
      assert t[k] == x[k - lo];
    }
  }

  predicate AllSpaces(t: string) {
    forall k :: 0 <= k < |t| ==> t[k] == ' '
  }

  lemma AllSpacesCons(c: char, t: string)
    ensures AllSpaces([c] + t) == (c == ' ' && AllSpaces(t))
  {
    if AllSpaces([c] + t) {
      assert ([c] + t)[0] == c;
      forall k | 0 <= k < |t| ensures t[k] == ' ' {
        assert ([c] + t)[k + 1] == t[k];
      }
    }
  }

  /** Outside a link, characters other than `[` join the pending text. */
  lemma {:induction false} PlainRun(text: string, i: nat, j: nat, s: LinkState, acc: seq<Node>)
    requires i <= j <= |text| && !s.inText && !s.inUrl
    requires forall k :: i <= k < j ==> text[k] != '['
    ensures LinkRun(text, i, s, acc) ==
            LinkRun(text, j, s.(cur := s.cur + text[i..j], spaceOnly := s.spaceOnly && AllSpaces(text[i..j])), acc)
    decreases j - i
  {
    if i < j {
      var m := LinkStep(text, i, s);
      var s1 := s.(cur := s.cur + [text[i]], spaceOnly := s.spaceOnly && text[i] == ' ');
      assert m.next == i + 1 && m.st == s1 && acc + m.emit == acc;
      PlainRun(text, i + 1, j, s1, acc);
      assert text[i..j] == [text[i]] + text[i + 1..j];
      assert s1.cur + text[i + 1..j] == s.cur + text[i..j];
      AllSpacesCons(text[i], text[i + 1..j]);
    } else {
      assert s.cur + text[i..j] == s.cur;
    }
  }

  /** Inside a link text, characters other than `]` join the link text. */
  lemma {:induction false} TextRun(text: string, i: nat, j: nat, s: LinkState, acc: seq<Node>)
    requires i <= j <= |text| && s.inText && !s.inUrl
    requires forall k :: i <= k < j ==> text[k] != ']'
    ensures LinkRun(text, i, s, acc) == LinkRun(text, j, s.(linkText := s.linkText + text[i..j]), acc)
    decreases j - i
  {
    if i < j {
      var m := LinkStep(text, i, s);
      var s1 := s.(linkText := s.linkText + [text[i]]);
      assert m.next == i + 1 && m.st == s1 && acc + m.emit == acc;
      TextRun(text, i + 1, j, s1, acc);
      assert s1.linkText + text[i + 1..j] == s.linkText + text[i..j];
    } else {
      assert s.linkText + text[i..j] == s.linkText;
    }
  }

  /** Inside a url, characters other than `)` join the url. */
  lemma {:induction false} UrlRun(text: string, i: nat, j: nat, s: LinkState, acc: seq<Node>)
    requires i <= j <= |text| && s.inUrl && !s.inText
    requires forall k :: i <= k < j ==> text[k] != ')'
    ensures LinkRun(text, i, s, acc) == LinkRun(text, j, s.(linkUrl := s.linkUrl + text[i..j]), acc)
    decreases j - i
  {
    if i < j {
      var m := LinkStep(text, i, s);
      var s1 := s.(linkUrl := s.linkUrl + [text[i]]);
      assert m.next == i + 1 && m.st == s1 && acc + m.emit == acc;
      UrlRun(text, i + 1, j, s1, acc);
      assert s1.linkUrl + text[i + 1..j] == s.linkUrl + text[i..j];
    } else {
      assert s.linkUrl + text[i..j] == s.linkUrl;
    }
  }

  /** The leaf a plain text before a `[` becomes: `space` when it holds only
      spaces, `text` otherwise, and nothing when it is empty. */
  function Lead(a: string): seq<Node> {
    if a == "" then [] else [Leaf(if AllSpaces(a) then "space" else "text", a)]
  }

  /** A `[` after plain text `a` flushes `a` as its lead leaf and opens a
      link text. */
  lemma OpenStep(t: string, i: nat, a: string)
    requires i < |t| && t[i] == '['
    ensures LinkRun(t, i, LinkState(a, "", "", false, false, AllSpaces(a)), []) ==
            LinkRun(t, i + 1, LinkState("", "[", "", true, false, true), Lead(a))
  {
    var m := LinkStep(t, i, LinkState(a, "", "", false, false, AllSpaces(a)));
    assert m.next == i + 1 && m.st == LinkState("", "[", "", true, false, true) && m.emit == Lead(a);
    assert [] + m.emit == Lead(a);
  }

  /** The scan up to the end of a link's text: the plain text before it
      becomes its lead leaf and the link text is pending. */
  lemma ScanToLinkText(t: string, a: string, b: string, i: nat)
    requires i == |a| + 1 + |b| < |t| && t[..|a|] == a && t[|a|] == '[' && t[|a| + 1..i] == b
    requires Free(a, '[') && Free(b, ']')
    ensures LinkScan(t) == LinkRun(t, i, LinkState("", "[" + b, "", true, false, true), Lead(a))
  {
    SliceFree(t, 0, |a|, a, '[');
    PlainRun(t, 0, |a|, Start, []);
    assert t[0..|a|] == a;
    var p := LinkState(a, "", "", false, false, AllSpaces(a));
    assert Start.(cur := Start.cur + t[0..|a|], spaceOnly := Start.spaceOnly && AllSpaces(t[0..|a|])) == p;
    assert LinkScan(t) == LinkRun(t, |a|, p, []);
    OpenStep(t, |a|, a);
    var s1 := LinkState("", "[", "", true, false, true);
    assert LinkScan(t) == LinkRun(t, |a| + 1, s1, Lead(a));
    SliceFree(t, |a| + 1, i, b, ']');
    TextRun(t, |a| + 1, i, s1, Lead(a));
    var s2 := s1.(linkText := s1.linkText + t[|a| + 1..i]);
    assert s2 == LinkState("", "[" + b, "", true, false, true);
  }

  /** A `]` followed by `(` turns the link text into a url. */
  lemma UrlOpenStep(t: string, i: nat, b: string, acc: seq<Node>)
    requires i + 1 < |t| && t[i] == ']' && t[i + 1] == '('
    ensures LinkRun(t, i, LinkState("", "[" + b, "", true, false, true), acc) ==
            LinkRun(t, i + 2, LinkState("", "[" + b + "]", "(", false, true, true), acc)
  {
    var m := LinkStep(t, i, LinkState("", "[" + b, "", true, false, true));
    assert "[" + b + [']'] == "[" + b + "]" && "" + "(" == "(";
    assert m.next == i + 2 && m.st == LinkState("", "[" + b + "]", "(", false, true, true) && m.emit == [];
    assert acc + m.emit == acc;
  }

  /** A `)` closes the url and emits the link's two leaves. */
  lemma CloseStep(t: string, i: nat, lt: string, lu: string, acc: seq<Node>)
    requires i < |t| && t[i] == ')'
    ensures LinkRun(t, i, LinkState("", lt, lu, false, true, true), acc) ==
            LinkRun(t, i + 1, LinkState("", "", "", false, false, true),
                    acc + [Leaf("link-text", lt), Leaf("link-url", lu + ")")])
  {
    var m := LinkStep(t, i, LinkState("", lt, lu, false, true, true));
    assert lu + [')'] == lu + ")";
    assert m.next == i + 1 && m.st == LinkState("", "", "", false, false, true);
    assert m.emit == [Leaf("link-text", lt), Leaf("link-url", lu + ")")];
  }

  /** The scan through a whole link `[b](c)` after plain text `a`: the
      link's two leaves follow the lead leaf and every buffer is empty. */
  lemma ScanThroughLink(t: string, a: string, b: string, c: string, i: nat)
    requires i == |a| + 1 + |b| && i + 3 + |c| <= |t|
    requires t[..|a|] == a && t[|a|] == '[' && t[|a| + 1..i] == b
    requires t[i] == ']' && t[i + 1] == '(' && t[i + 2..i + 2 + |c|] == c && t[i + 2 + |c|] == ')'
    requires Free(a, '[') && Free(b, ']') && Free(c, ')')
    ensures LinkScan(t) == LinkRun(t, i + 3 + |c|, Start,
                                   Lead(a) + [Leaf("link-text", "[" + b + "]"), Leaf("link-url", "(" + c + ")")])
  {
    LinkTail(t, i, b, c, Lead(a));
    ScanToLinkText(t, a, b, i);
  }

  /** From the `]` of a link text to the `)` of its url. */
  lemma LinkTail(t: string, i: nat, b: string, c: string, acc: seq<Node>)
    requires i + 3 + |c| <= |t| && t[i] == ']' && t[i + 1] == '('
    requires t[i + 2..i + 2 + |c|] == c && t[i + 2 + |c|] == ')' && Free(c, ')')
    ensures LinkRun(t, i, LinkState("", "[" + b, "", true, false, true), acc) ==
            LinkRun(t, i + 3 + |c|, Start, acc + [Leaf("link-text", "[" + b + "]"), Leaf("link-url", "(" + c + ")")])
  {
    SliceFree(t, i + 2, i + 2 + |c|, c, ')');
    UrlOpenStep(t, i, b, acc);
    var s2 := LinkState("", "[" + b + "]", "(", false, true, true);
    UrlRun(t, i + 2, i + 2 + |c|, s2, acc);
    var s3 := s2.(linkUrl := s2.linkUrl + t[i + 2..i + 2 + |c|]);
    assert s3 == LinkState("", "[" + b + "]", "(" + c, false, true, true);
    CloseStep(t, i + 2 + |c|, "[" + b + "]", "(" + c, acc);
  }

  /** Where the parts of `a[b](c)d` sit. */
  lemma LinkLayout(t: string, a: string, b: string, c: string, d: string, i: nat)
    requires t == a + "[" + b + "](" + c + ")" + d && i == |a| + 1 + |b|
    ensures i + 3 + |c| <= |t| && t[..|a|] == a && t[|a|] == '[' && t[|a| + 1..i] == b
    ensures t[i] == ']' && t[i + 1] == '(' && t[i + 2..i + 2 + |c|] == c && t[i + 2 + |c|] == ')'
    ensures t[i + 3 + |c|..|t|] == d
  {
  }

  /** Plain text free of `[` at the end of the input becomes one `text`
      leaf. */
  lemma ScanRest(t: string, e: nat, d: string, acc: seq<Node>)
    requires e <= |t| && t[e..|t|] == d && Free(d, '[')
    ensures LinkRun(t, e, Start, acc) == PushText(acc, d)
  {
    SliceFree(t, e, |t|, d, '[');
    PlainRun(t, e, |t|, Start, acc);
    var s4 := Start.(cur := Start.cur + t[e..|t|], spaceOnly := Start.spaceOnly && AllSpaces(t[e..|t|]));
    assert s4.cur == d && s4.linkText == "" && s4.linkUrl == "";
  }

  lemma ScanWithLink(t: string, a: string, b: string, c: string, d: string, i: nat)
    requires i == |a| + 1 + |b| && i + 3 + |c| <= |t|
    requires t[..|a|] == a && t[|a|] == '[' && t[|a| + 1..i] == b
    requires t[i] == ']' && t[i + 1] == '(' && t[i + 2..i + 2 + |c|] == c && t[i + 2 + |c|] == ')'
    requires t[i + 3 + |c|..|t|] == d
    requires Free(a, '[') && Free(b, ']') && Free(c, ')') && Free(d, '[')
    ensures LinkScan(t) == PushText(Lead(a) + [Leaf("link-text", "[" + b + "]"), Leaf("link-url", "(" + c + ")")], d)
  {
    var acc := Lead(a) + [Leaf("link-text", "[" + b + "]"), Leaf("link-url", "(" + c + ")")];
    ScanThroughLink(t, a, b, c, i);
    ScanRest(t, i + 3 + |c|, d, acc);
  }

  /** A well-formed link `[b](c)` between plain texts `a` and `d` becomes
      the lead leaf of `a`, a `link-text` leaf `[b]`, a `link-url` leaf `(c)`
      and a `text` leaf `d`. */
  lemma WellFormedLink(a: string, b: string, c: string, d: string)
    requires '[' !in a && ']' !in b && ')' !in c && '[' !in d
    ensures LinkScan(a + "[" + b + "](" + c + ")" + d) ==
            PushText(Lead(a) + [Leaf("link-text", "[" + b + "]"), Leaf("link-url", "(" + c + ")")], d)
  {
    var t := a + "[" + b + "](" + c + ")" + d;
    var i := |a| + 1 + |b|;
    LinkLayout(t, a, b, c, d, i);
    FreeOf(a, '[');
    FreeOf(b, ']');
    FreeOf(c, ')');
    FreeOf(d, '[');
    ScanWithLink(t, a, b, c, d, i);
  }

  /** ... and the link is recorded in the links map under its url `(c)`. */
  lemma WellFormedLinkRecorded(a: string, b: string, c: string, d: string, m: map<string, string>)
    requires '[' !in a && ']' !in b && ')' !in c && '[' !in d
    ensures LinksOf(LinkScan(a + "[" + b + "](" + c + ")" + d), m) == LinksOf(Lead(a), m)["(" + c + ")" := "[" + b + "]"]
  {
    WellFormedLink(a, b, c, d);
    var pair := [Leaf("link-text", "[" + b + "]"), Leaf("link-url", "(" + c + ")")];
    LinksOfAppend(Lead(a), pair, m);
    LinksOfPair("[" + b + "]", "(" + c + ")", LinksOf(Lead(a), m));
    LinksOfPush(Lead(a) + pair, d, m);
  }

  /** The scan's output starts with what it was given. */
  lemma {:induction false} LinkRunExtends(text: string, i: nat, s: LinkState, acc: seq<Node>)
    requires i <= |text|
    ensures |acc| <= |LinkRun(text, i, s, acc)| && LinkRun(text, i, s, acc)[..|acc|] == acc
    decreases |text| - i
  {
    if i < |text| {
      var m := LinkStep(text, i, s);
      LinkRunExtends(text, m.next, m.st, acc + m.emit);
      assert (acc + m.emit)[..|acc|] == acc;
    }
  }

  /** A `]` not followed by `(` gives the link text back to the plain
      text. */
  lemma FallbackStep(t: string, i: nat, lt: string, acc: seq<Node>)
    requires i < |t| && t[i] == ']' && !(i + 1 < |t| && t[i + 1] == '(')
    ensures LinkRun(t, i, LinkState("", lt, "", true, false, true), acc) ==
            LinkRun(t, i + 1, LinkState(lt + "]", "", "", false, false, true), acc)
  {
    var m := LinkStep(t, i, LinkState("", lt, "", true, false, true));
    assert "" + lt + [']'] == lt + "]";
    assert m.next == i + 1 && m.st == LinkState(lt + "]", "", "", false, false, true);
    assert acc + m.emit == acc;
  }

  /** A `[` after space-only pending text flushes it as a `space` leaf. */
  lemma FlushStep(t: string, i: nat, x: string, acc: seq<Node>)
    requires i < |t| && t[i] == '[' && x != ""
    ensures LinkRun(t, i, LinkState(x, "", "", false, false, true), acc) ==
            LinkRun(t, i + 1, LinkState("", "[", "", true, false, true), acc + [Leaf("space", x)])
  {
    var m := LinkStep(t, i, LinkState(x, "", "", false, false, true));
    assert m.next == i + 1 && m.st == LinkState("", "[", "", true, false, true) && m.emit == [Leaf("space", x)];
  }

  /** Where the parts of `[b]` + spaces + `[` sit. */
  lemma BracketLayout(t: string, b: string, sp: string, rest: string, i: nat)
    requires t == "[" + b + "]" + sp + "[" + rest && i == 1 + |b| && AllSpaces(sp)
    ensures i + 1 + |sp| < |t| && t[..0] == "" && t[0] == '[' && t[1..i] == b
    ensures t[i] == ']' && !(i + 1 < |t| && t[i + 1] == '(')
    ensures t[i + 1..i + 1 + |sp|] == sp && t[i + 1 + |sp|] == '['
  {
    if |sp| > 0 {
      assert t[i + 1] == sp[0];
    }
  }

  /** The scan of `[b]` and spaces: all of it is pending, space-only
      text. */
  lemma ScanUnlinked(t: string, b: string, sp: string, i: nat, j: nat)
    requires i == 1 + |b| && j == i + 1 + |sp| < |t| && t[..0] == "" && t[0] == '[' && t[1..i] == b
    requires t[i] == ']' && !(i + 1 < |t| && t[i + 1] == '(') && t[i + 1..j] == sp
    requires Free(b, ']') && AllSpaces(sp)
    ensures LinkScan(t) == LinkRun(t, j, LinkState("[" + b + "]" + sp, "", "", false, false, true), [])
  {
    assert Free("", '[') && Free(sp, '[');
    SliceFree(t, i + 1, j, sp, '[');
    var s2 := LinkState("[" + b + "]", "", "", false, false, true);
    PlainRun(t, i + 1, j, s2, []);
    var s3 := s2.(cur := s2.cur + t[i + 1..j], spaceOnly := s2.spaceOnly && AllSpaces(t[i + 1..j]));
    assert s3 == LinkState("[" + b + "]" + sp, "", "", false, false, true);
    FallbackStep(t, i, "[" + b, []);
    assert "[" + b + "]" == ("[" + b) + "]";
    ScanToLinkText(t, "", b, i);
    assert Lead("") == [];
  }

  /** A bracketed text with no url falls back into the plain text without
      resetting the space-only flag, so in `"[b]"` followed by spaces and
      another `[`, the whole `"[b]   "` becomes a `space` leaf. */
  lemma UnlinkedBracketIsSpace(b: string, sp: string, rest: string)
    requires ']' !in b && AllSpaces(sp)
    ensures var t := "[" + b + "]" + sp + "[" + rest;
            |LinkScan(t)| > 0 && LinkScan(t)[0] == Leaf("space", "[" + b + "]" + sp)
  {
    var t := "[" + b + "]" + sp + "[" + rest;
    var i := 1 + |b|;
    var j := i + 1 + |sp|;
    BracketLayout(t, b, sp, rest, i);
    FreeOf(b, ']');
    var flushed := [Leaf("space", "[" + b + "]" + sp)];
    FlushStep(t, j, "[" + b + "]" + sp, []);
    assert [] + flushed == flushed;
    ScanUnlinked(t, b, sp, i, j);
    LinkRunExtends(t, j + 1, LinkState("", "[", "", true, false, true), flushed);
  }

  /** `parseLinks`: a loop over the characters that may skip the `(` after
      a link text with an extra increment, recording each finished link in
      `meta.links`. */
  method ParseLinks(text: string, meta: Meta) returns (children: seq<Node>)
    modifies meta
    ensures children == LinkScan(text)
    ensures meta.links == LinksOf(children, old(meta.links))
  {
    ghost var goal := LinkScan(text);
    children := [];
    var currentText := "";
    var linkText := "";
    var linkUrl := "";
    var inLinkText := false;
    var inLinkUrl := false;
    var spaceOnly := true;
    var i := 0;
    while i < |text|
      invariant i <= |text|
      invariant EndsClosed(children)
      invariant LinkRun(text, i, LinkState(currentText, linkText, linkUrl, inLinkText, inLinkUrl, spaceOnly), children)
                == goal
      invariant meta.links == LinksOf(children, old(meta.links))
    {
      ghost var before := children;
      ghost var s := LinkState(currentText, linkText, linkUrl, inLinkText, inLinkUrl, spaceOnly);
      ghost var links0 := meta.links;
      ghost var m := LinkStep(text, i, s);
      var c := text[i];
      if c == '[' && !inLinkText && !inLinkUrl {
        if currentText != "" {
          if spaceOnly {
            children := children + [Leaf("space", currentText)];
          } else {
            children := children + [Leaf("text", currentText)];
          }
          assert meta.links == LinksOf(children, old(meta.links)) by {
            LinksOfAppend(before, children[|before|..], old(meta.links));
            assert children == before + children[|before|..];
          }
          currentText := "";
          spaceOnly := true;
        }
        inLinkText := true;
        linkText := linkText + [c];
      } else if c == ']' && inLinkText {
        inLinkText := false;
        linkText := linkText + [c];
        if i + 1 < |text| && text[i + 1] == '(' {
          inLinkUrl := true;
          i := i + 1;
          linkUrl := linkUrl + "(";
        } else {
          currentText := currentText + linkText;
          linkText := "";
        }
      } else if c == ')' && inLinkUrl {
        linkUrl := linkUrl + [c];
        inLinkUrl := false;
        children := children + [Leaf("link-text", linkText), Leaf("link-url", linkUrl)];
        meta.links := meta.links[linkUrl := linkText];
        assert meta.links == LinksOf(children, old(meta.links)) by {
          LinksOfPair(linkText, linkUrl, links0);
          LinksOfAppend(before, [Leaf("link-text", linkText), Leaf("link-url", linkUrl)], old(meta.links));
        }
        linkText := "";
        linkUrl := "";
      } else if inLinkText {
        linkText := linkText + [c];
      } else if inLinkUrl {
        linkUrl := linkUrl + [c];
      } else {
        currentText := currentText + [c];
        if c != ' ' {
          spaceOnly := false;
        }
      }
      i := i + 1;
      assert i == m.next;
      assert LinkState(currentText, linkText, linkUrl, inLinkText, inLinkUrl, spaceOnly) == m.st;
      assert children == before + m.emit;
    }
    ghost var done := children;
    ghost var s := LinkState(currentText, linkText, linkUrl, inLinkText, inLinkUrl, spaceOnly);
    if currentText != "" {
      children := children + [Leaf("text", currentText)];
    }
    if linkText != "" {
      children := children + [Leaf("text", linkText)];
    }
    if linkUrl != "" {
      children := children + [Leaf("text", linkUrl)];
    }
    LinksOfLeftover(s, done, old(meta.links));
  }
}
