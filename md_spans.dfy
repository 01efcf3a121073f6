/** The two toggle scanners of the inline tokenizer: `parseCode` (backtick
    spans) and `parseRefs` (`{...}` reference tags). Both are one pass over
    the text with a current-text buffer and an in-span flag; an opening
    delimiter starts the buffer, a closing one is appended to it and the
    buffer is wrapped. They differ only in their delimiters, so one
    specification serves both. */
module DelimitedSpans {
  import opened MdNodes

  /** The remaining work of the scan at index `i`, with buffer `cur`, the
      in-span flag, and the nodes `acc` produced so far. */
  function ToggleRun(open: char, close: char, kind: string, text: string,
                     i: nat, cur: string, inSpan: bool, acc: seq<Node>): seq<Node>
    requires i <= |text|
    decreases |text| - i
  {
    if i == |text| then PushText(acc, cur)
    else if text[i] == open && !inSpan then
      ToggleRun(open, close, kind, text, i + 1, [open], true, PushText(acc, cur))
    else if text[i] == close && inSpan then
      ToggleRun(open, close, kind, text, i + 1, "", false,
                if cur != "" then acc + [Branch(kind, [Leaf("text", cur + [close])])] else acc)
    else
      ToggleRun(open, close, kind, text, i + 1, cur + [text[i]], inSpan, acc)
  }

  /** What `parseCode(text)` returns. */
  function CodeScan(text: string): seq<Node> {
    ToggleRun('`', '`', "code", text, 0, "", false, [])
  }

  /** What `parseRefs(text)` returns. */
  function RefScan(text: string): seq<Node> {
    ToggleRun('{', '}', "ref", text, 0, "", false, [])
  }

  /** The scan state the loop keeps: inside a span the buffer holds the
      opening delimiter and no closing one. */
  predicate SpanBuffer(open: char, close: char, cur: string, inSpan: bool) {
    inSpan ==> |cur| > 0 && cur[0] == open && close !in cur[1..]
  }

  /** Every node is a non-empty text leaf, or a `kind` node wrapping one text
      leaf that starts with the opening delimiter, ends with the closing one
      and holds no other closing delimiter. */
  predicate WellShaped(ns: seq<Node>, open: char, close: char, kind: string) {
    forall k :: 0 <= k < |ns| ==>
      (ns[k].Leaf? && ns[k].kind == "text" && ns[k].text != "") ||
      (ns[k].Branch? && ns[k].kind == kind && |ns[k].children| == 1 &&
       ns[k].children[0].Leaf? && ns[k].children[0].kind == "text" &&
       var c := ns[k].children[0].text;
       |c| >= 2 && c[0] == open && c[|c| - 1] == close && close !in c[1..|c| - 1])
  }

  predicate HasKind(ns: seq<Node>, kind: string) {
    exists k :: 0 <= k < |ns| && ns[k].Branch? && ns[k].kind == kind
  }

  /** A closing delimiter is still ahead: inside a span, any closing
      delimiter; outside, an opening delimiter followed later by a closing
      one. */
  predicate ClosesAhead(open: char, close: char, text: string, i: nat, inSpan: bool) {
    if inSpan then exists j :: i <= j < |text| && text[j] == close
    else exists a, b :: i <= a < b < |text| && text[a] == open && text[b] == close
  }

  /** Every character ends up in exactly one leaf, in order. */
  lemma {:induction false} ToggleRunFlat(open: char, close: char, kind: string, text: string,
                                         i: nat, cur: string, inSpan: bool, acc: seq<Node>)
    requires i <= |text|
    requires inSpan ==> cur != ""
    ensures FlatAll(ToggleRun(open, close, kind, text, i, cur, inSpan, acc)) == FlatAll(acc) + cur + text[i..]
    decreases |text| - i
  {
    if i == |text| {
      FlatPushText(acc, "text", cur);
      assert text[i..] == [];
    } else if text[i] == open && !inSpan {
      var acc' := PushText(acc, cur);
      assert FlatAll(acc') == FlatAll(acc) + cur by {
        FlatPushText(acc, "text", cur);
      }
      ToggleRunFlat(open, close, kind, text, i + 1, [open], true, acc');
      assert text[i..] == [open] + text[i + 1..];
    } else if text[i] == close && inSpan {
      var acc' := acc + [Branch(kind, [Leaf("text", cur + [close])])];
      assert FlatAll(acc') == FlatAll(acc) + (cur + [close]) by {
        FlatPushWrapped(acc, kind, cur + [close]);
      }
      ToggleRunFlat(open, close, kind, text, i + 1, "", false, acc');
      assert text[i..] == [close] + text[i + 1..];
    } else {
      ToggleRunFlat(open, close, kind, text, i + 1, cur + [text[i]], inSpan, acc);
      assert text[i..] == [text[i]] + text[i + 1..];
    }
  }

  lemma WellShapedPush(ns: seq<Node>, x: Node, open: char, close: char, kind: string)
    requires WellShaped(ns, open, close, kind) && WellShaped([x], open, close, kind)
    ensures WellShaped(ns + [x], open, close, kind)
  {
    forall k | 0 <= k < |ns| + 1 ensures (ns + [x])[k] == if k < |ns| then ns[k] else [x][0] {
    }
  }

  lemma WellShapedPushText(acc: seq<Node>, cur: string, open: char, close: char, kind: string)
    requires WellShaped(acc, open, close, kind)
    ensures WellShaped(PushText(acc, cur), open, close, kind)
  {
    if cur != "" {
      WellShapedPush(acc, Leaf("text", cur), open, close, kind);
    }
  }

  /** Closing a span pushes a well-shaped `kind` node. */
  lemma WellShapedPushSpan(acc: seq<Node>, cur: string, open: char, close: char, kind: string)
    requires WellShaped(acc, open, close, kind)
    requires SpanBuffer(open, close, cur, true)
    ensures WellShaped(acc + [Branch(kind, [Leaf("text", cur + [close])])], open, close, kind)
  {
    var c := cur + [close];
    assert c[1..|c| - 1] == cur[1..];
    WellShapedPush(acc, Branch(kind, [Leaf("text", c)]), open, close, kind);
  }

  /** The nodes have the shapes `WellShaped` describes. */
  lemma {:induction false} ToggleRunShaped(open: char, close: char, kind: string, text: string,
                                           i: nat, cur: string, inSpan: bool, acc: seq<Node>)
    requires i <= |text| && kind != "text"
    requires SpanBuffer(open, close, cur, inSpan)
    requires WellShaped(acc, open, close, kind)
    ensures WellShaped(ToggleRun(open, close, kind, text, i, cur, inSpan, acc), open, close, kind)
    decreases |text| - i
  {
    if i == |text| {
      WellShapedPushText(acc, cur, open, close, kind);
    } else if text[i] == open && !inSpan {
      WellShapedPushText(acc, cur, open, close, kind);
      ToggleRunShaped(open, close, kind, text, i + 1, [open], true, PushText(acc, cur));
    } else if text[i] == close && inSpan {
      WellShapedPushSpan(acc, cur, open, close, kind);
      ToggleRunShaped(open, close, kind, text, i + 1, "", false, acc + [Branch(kind, [Leaf("text", cur + [close])])]);
    } else {
      assert SpanBuffer(open, close, cur + [text[i]], inSpan) by {
        if inSpan {
          assert (cur + [text[i]])[1..] == cur[1..] + [text[i]];
        }
      }
      ToggleRunShaped(open, close, kind, text, i + 1, cur + [text[i]], inSpan, acc);
    }
  }

  lemma HasKindPush(ns: seq<Node>, x: Node, kind: string)
    ensures HasKind(ns + [x], kind) <==> HasKind(ns, kind) || (x.Branch? && x.kind == kind)
  {
    if HasKind(ns, kind) {
      var k :| 0 <= k < |ns| && ns[k].Branch? && ns[k].kind == kind;
      assert (ns + [x])[k] == ns[k];
    }
    if HasKind(ns + [x], kind) && !(x.Branch? && x.kind == kind) {
      var k :| 0 <= k < |ns| + 1 && (ns + [x])[k].Branch? && (ns + [x])[k].kind == kind;
      assert k < |ns| && (ns + [x])[k] == ns[k];
    }
    if x.Branch? && x.kind == kind {
      assert (ns + [x])[|ns|] == x;
    }
  }

  /** A `kind` node appears exactly when an opening delimiter is later
      followed by a closing one. */
  lemma {:induction false} ToggleRunSpans(open: char, close: char, kind: string, text: string,
                                          i: nat, cur: string, inSpan: bool, acc: seq<Node>)
    requires i <= |text| && kind != "text"
    requires inSpan ==> cur != ""
    ensures HasKind(ToggleRun(open, close, kind, text, i, cur, inSpan, acc), kind) <==>
              HasKind(acc, kind) || ClosesAhead(open, close, text, i, inSpan)
    decreases |text| - i
  {
    HasKindPush(acc, Leaf("text", cur), kind);
    if i == |text| {
    } else if text[i] == open && !inSpan {
      ToggleRunSpans(open, close, kind, text, i + 1, [open], true, PushText(acc, cur));
      if ClosesAhead(open, close, text, i, false) {
        var a, b :| i <= a < b < |text| && text[a] == open && text[b] == close;
        assert i + 1 <= b;
      }
      if ClosesAhead(open, close, text, i + 1, true) {
        var j :| i + 1 <= j < |text| && text[j] == close;
        assert i <= i < j < |text|;
      }
    } else if text[i] == close && inSpan {
      var x := Branch(kind, [Leaf("text", cur + [close])]);
      HasKindPush(acc, x, kind);
      ToggleRunSpans(open, close, kind, text, i + 1, "", false, acc + [x]);
    } else {
      ToggleRunSpans(open, close, kind, text, i + 1, cur + [text[i]], inSpan, acc);
      if inSpan {
        if ClosesAhead(open, close, text, i, true) {
          var j :| i <= j < |text| && text[j] == close;
          assert j != i;
        }
      } else {
        if ClosesAhead(open, close, text, i, false) {
          var a, b :| i <= a < b < |text| && text[a] == open && text[b] == close;
          assert a != i;
        }
      }
    }
  }

  /** Without an opening delimiter ahead, the rest of the text joins the
      buffer and ends up in one text leaf. */
  lemma {:induction false} NoOpenerRun(open: char, close: char, kind: string, text: string,
                                       i: nat, cur: string, acc: seq<Node>)
    requires i <= |text| && forall k :: i <= k < |text| ==> text[k] != open
    ensures ToggleRun(open, close, kind, text, i, cur, false, acc) == PushText(acc, cur + text[i..])
    decreases |text| - i
  {
    if i < |text| {
      NoOpenerRun(open, close, kind, text, i + 1, cur + [text[i]], acc);
      assert cur + [text[i]] + text[i + 1..] == cur + text[i..];
    } else {
      assert cur + text[i..] == cur;
    }
  }

  /** A text without a backtick is one text leaf (none when empty). */
  lemma NoBacktickIsText(text: string)
    requires '`' !in text
    ensures CodeScan(text) == PushText([], text)
  {
    NoOpenerRun('`', '`', "code", text, 0, "", []);
    assert "" + text[0..] == text;
  }

  /** A text without a `{` is one text leaf (none when empty). */
  lemma NoBraceIsText(text: string)
    requires '{' !in text
    ensures RefScan(text) == PushText([], text)
  {
    NoOpenerRun('{', '}', "ref", text, 0, "", []);
    assert "" + text[0..] == text;
  }

  /** `parseCode` keeps every character, and produces a `code` node exactly
      when the text holds two backticks; each `code` node wraps one text leaf
      that keeps both of its backticks and holds no other. */
  lemma CodeScanProperties(text: string)
    ensures FlatAll(CodeScan(text)) == text
    ensures WellShaped(CodeScan(text), '`', '`', "code")
    ensures HasKind(CodeScan(text), "code") <==>
              exists a, b :: 0 <= a < b < |text| && text[a] == '`' && text[b] == '`'
  {
    ToggleRunFlat('`', '`', "code", text, 0, "", false, []);
    ToggleRunShaped('`', '`', "code", text, 0, "", false, []);
    ToggleRunSpans('`', '`', "code", text, 0, "", false, []);
  }

  /** An unclosed backtick and its tail stay plain text: `` "`abc" `` gives
      one text leaf and no `code` node. */
  lemma UnclosedCode()
    ensures CodeScan("`abc") == [Leaf("text", "`abc")]
  {
    var t := "`abc";
    assert t[1] == 'a' && t[2] == 'b' && t[3] == 'c';
    assert "`" + ['a'] == "`a" && "`a" + ['b'] == "`ab" && "`ab" + ['c'] == "`abc";
    assert ToggleRun('`', '`', "code", t, 4, "`abc", true, []) == [Leaf("text", "`abc")];
    assert ToggleRun('`', '`', "code", t, 3, "`ab", true, []) == [Leaf("text", "`abc")];
    assert ToggleRun('`', '`', "code", t, 2, "`a", true, []) == [Leaf("text", "`abc")];
    assert ToggleRun('`', '`', "code", t, 1, "`", true, []) == [Leaf("text", "`abc")];
  }

  /** `parseRefs` keeps every character, and produces a `ref` node exactly
      when a `{` is later followed by a `}`; each `ref` node wraps one text
      leaf that keeps both braces and holds no other `}`. */
  lemma RefScanProperties(text: string)
    ensures FlatAll(RefScan(text)) == text
    ensures WellShaped(RefScan(text), '{', '}', "ref")
    ensures HasKind(RefScan(text), "ref") <==>
              exists a, b :: 0 <= a < b < |text| && text[a] == '{' && text[b] == '}'
  {
    ToggleRunFlat('{', '}', "ref", text, 0, "", false, []);
    ToggleRunShaped('{', '}', "ref", text, 0, "", false, []);
    ToggleRunSpans('{', '}', "ref", text, 0, "", false, []);
  }

  /** `parseCode`: a loop over the characters that toggles on each backtick. */
  method ParseCode(text: string) returns (children: seq<Node>)
    ensures children == CodeScan(text)
    ensures FlatAll(children) == text
  {
    CodeScanProperties(text);
    children := [];
    var currentText := "";
    var inCode := false;
    for i := 0 to |text|
      invariant ToggleRun('`', '`', "code", text, i, currentText, inCode, children) == CodeScan(text)
    {
      var c := text[i];
      if c == '`' {
        if inCode {
          if currentText != "" {
            children := children + [Branch("code", [Leaf("text", currentText + "`")])];
          }
          inCode := false;
          currentText := "";
        } else {
          if currentText != "" {
            children := children + [Leaf("text", currentText)];
          }
          inCode := true;
          currentText := "`";
        }
      } else {
        currentText := currentText + [c];
      }
    }
    if |currentText| > 0 {
      children := children + [Leaf("text", currentText)];
    }
  }

  /** `parseRefs`: a loop over the characters; `{` opens outside a tag and
      `}` closes inside one, every other character is buffered. */
  method ParseRefs(text: string) returns (children: seq<Node>)
    ensures children == RefScan(text)
    ensures FlatAll(children) == text
  {
    RefScanProperties(text);
    children := [];
    var currentText := "";
    var inRef := false;
    for i := 0 to |text|
      invariant ToggleRun('{', '}', "ref", text, i, currentText, inRef, children) == RefScan(text)
    {
      var c := text[i];
      if c == '{' && !inRef {
        if currentText != "" {
          children := children + [Leaf("text", currentText)];
        }
        inRef := true;
        currentText := "{";
      } else if c == '}' && inRef {
        if currentText != "" {
          children := children + [Branch("ref", [Leaf("text", currentText + "}")])];
        }
        inRef := false;
        currentText := "";
      } else {
        currentText := currentText + [c];
      }
    }
    if |currentText| > 0 {
      children := children + [Leaf("text", currentText)];
    }
  }
}
