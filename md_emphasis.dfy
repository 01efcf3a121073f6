/** The bold/italic scanner of the inline tokenizer (`parseBoldItalic`): a
    flat toggle on `**` for bold and on a lone `*` for italic. The source
    calls it buggy when bold and italic overlap; this model keeps that
    behaviour and states exactly when characters are lost. */
module EmphasisScanner {
  import opened MdNodes
  import DelimitedSpans

  /** One step of the scan: where it goes next, the new buffer and flags,
      the nodes it emits, and how many marker characters it drops. */
  datatype Move = Move(next: nat, cur: string, bold: bool, italic: bool, emit: seq<Node>, lost: nat)

  /** `if (currentText) push(wrap(kind, [wrap("text", currentText + marker)]))` */
  function WrapIfAny(kind: string, cur: string, marker: string): seq<Node> {
    if cur != "" then [Branch(kind, [Leaf("text", cur + marker)])] else []
  }

  /** `if (currentText) push(wrap("text", currentText))` */
  function TextIfAny(cur: string): seq<Node> {
    if cur != "" then [Leaf("text", cur)] else []
  }

  /** The body of the source's loop at index `i`. A `*` followed by another
      `*` toggles bold and skips the second one; any other `*` toggles
      italic. A closing marker met with an empty buffer emits nothing. */
  function Step(text: string, i: nat, cur: string, bold: bool, italic: bool): (m: Move)
    requires i < |text|
    ensures i < m.next <= |text|
  {
    if text[i] == '*' then
      if i + 1 < |text| && text[i + 1] == '*' then
        if bold then Move(i + 2, "", false, italic, WrapIfAny("bold", cur, "**"), if cur == "" then 2 else 0)
        else Move(i + 2, "**", true, italic, TextIfAny(cur), 0)
      else
        if italic then Move(i + 1, "", bold, false, WrapIfAny("italic", cur, "*"), if cur == "" then 1 else 0)
        else Move(i + 1, "*", bold, true, TextIfAny(cur), 0)
    else Move(i + 1, cur + [text[i]], bold, italic, [], 0)
  }

  /** The remaining work of the scan from index `i`. */
  function EmphasisRun(text: string, i: nat, cur: string, bold: bool, italic: bool, acc: seq<Node>): seq<Node>
    requires i <= |text|
    decreases |text| - i
  {
    if i == |text| then acc + TextIfAny(cur)
    else
      var m := Step(text, i, cur, bold, italic);
      EmphasisRun(text, m.next, m.cur, m.bold, m.italic, acc + m.emit)
  }

  /** What `parseBoldItalic(text)` returns. */
  function EmphasisScan(text: string): seq<Node> {
    EmphasisRun(text, 0, "", false, false, [])
  }

  /** How many marker characters the scan drops from index `i` on. */
  function Loss(text: string, i: nat, cur: string, bold: bool, italic: bool): nat
    requires i <= |text|
    decreases |text| - i
  {
    if i == |text| then 0
    else
      var m := Step(text, i, cur, bold, italic);
      m.lost + Loss(text, m.next, m.cur, m.bold, m.italic)
  }

  /** Whether bold and italic are ever open at the same time from index `i`
      on: the overlap the source's TODO warns about. */
  predicate Overlaps(text: string, i: nat, cur: string, bold: bool, italic: bool)
    requires i <= |text|
    decreases |text| - i
  {
    (bold && italic) ||
    (i < |text| &&
     var m := Step(text, i, cur, bold, italic);
     Overlaps(text, m.next, m.cur, m.bold, m.italic))
  }

  /** The characters `parseBoldItalic(text)` drops. */
  function Dropped(text: string): nat {
    Loss(text, 0, "", false, false)
  }

  lemma FlatWrapIfAny(acc: seq<Node>, kind: string, cur: string, marker: string)
    ensures FlatAll(acc + WrapIfAny(kind, cur, marker)) == if cur != "" then FlatAll(acc) + cur + marker else FlatAll(acc)
  {
    if cur != "" {
      FlatPushWrapped(acc, kind, cur + marker);
    } else {
      assert acc + WrapIfAny(kind, cur, marker) == acc;
    }
  }

  lemma FlatTextIfAny(acc: seq<Node>, cur: string)
    ensures FlatAll(acc + TextIfAny(cur)) == FlatAll(acc) + cur
  {
    FlatPushText(acc, "text", cur);
    if cur == "" {
      assert acc + TextIfAny(cur) == acc;
    }
  }

  /** One step keeps every character it consumes, except those it drops. */
  lemma StepFlat(text: string, i: nat, cur: string, bold: bool, italic: bool, acc: seq<Node>)
    requires i < |text|
    ensures var m := Step(text, i, cur, bold, italic);
            |FlatAll(acc + m.emit)| + |m.cur| + m.lost == |FlatAll(acc)| + |cur| + (m.next - i) &&
            (m.lost == 0 ==> FlatAll(acc + m.emit) + m.cur == FlatAll(acc) + cur + text[i..m.next])
  {
    var m := Step(text, i, cur, bold, italic);
    if text[i] == '*' && i + 1 < |text| && text[i + 1] == '*' {
      assert text[i..m.next] == "**";
      if bold {
        FlatWrapIfAny(acc, "bold", cur, "**");
      } else {
        FlatTextIfAny(acc, cur);
      }
    } else if text[i] == '*' {
      assert text[i..m.next] == "*";
      if italic {
        FlatWrapIfAny(acc, "italic", cur, "*");
      } else {
        FlatTextIfAny(acc, cur);
      }
    } else {
      assert text[i..m.next] == [text[i]];
      assert acc + m.emit == acc;
    }
  }

  /** The scan's output is as long as its input minus what it drops. */
  lemma {:induction false} EmphasisRunLength(text: string, i: nat, cur: string, bold: bool, italic: bool, acc: seq<Node>)
    requires i <= |text|
    ensures |FlatAll(EmphasisRun(text, i, cur, bold, italic, acc))| + Loss(text, i, cur, bold, italic)
            == |FlatAll(acc)| + |cur| + (|text| - i)
    decreases |text| - i
  {
    if i == |text| {
      FlatTextIfAny(acc, cur);
    } else {
      var m := Step(text, i, cur, bold, italic);
      var acc' := acc + m.emit;
      assert EmphasisRun(text, i, cur, bold, italic, acc) == EmphasisRun(text, m.next, m.cur, m.bold, m.italic, acc');
      assert Loss(text, i, cur, bold, italic) == m.lost + Loss(text, m.next, m.cur, m.bold, m.italic);
      StepFlat(text, i, cur, bold, italic, acc);
      EmphasisRunLength(text, m.next, m.cur, m.bold, m.italic, acc');
    }
  }

  /** When nothing is dropped, the scan keeps every character, in order. */
  lemma {:induction false} EmphasisRunFlat(text: string, i: nat, cur: string, bold: bool, italic: bool, acc: seq<Node>)
    requires i <= |text| && Loss(text, i, cur, bold, italic) == 0
    ensures FlatAll(EmphasisRun(text, i, cur, bold, italic, acc)) == FlatAll(acc) + cur + text[i..]
    decreases |text| - i
  {
    if i == |text| {
      FlatTextIfAny(acc, cur);
    } else {
      var m := Step(text, i, cur, bold, italic);
      var acc' := acc + m.emit;
      assert EmphasisRun(text, i, cur, bold, italic, acc) == EmphasisRun(text, m.next, m.cur, m.bold, m.italic, acc');
      assert m.lost == 0 && Loss(text, m.next, m.cur, m.bold, m.italic) == 0;
      StepFlat(text, i, cur, bold, italic, acc);
      EmphasisRunFlat(text, m.next, m.cur, m.bold, m.italic, acc');
      var step, later := text[i..m.next], text[m.next..];
      assert text[i..] == step + later;
      assert FlatAll(acc') + m.cur + later == FlatAll(acc) + cur + (step + later) by {
        assert FlatAll(acc') + m.cur == FlatAll(acc) + cur + step;
      }
    }
  }

  /** `parseBoldItalic` gives back its input exactly when it drops nothing;
      otherwise its output is shorter than its input by what it drops. */
  lemma EmphasisRoundTrip(text: string)
    ensures FlatAll(EmphasisScan(text)) == text <==> Dropped(text) == 0
    ensures |FlatAll(EmphasisScan(text))| + Dropped(text) == |text|
  {
    EmphasisRunLength(text, 0, "", false, false, []);
    if Dropped(text) == 0 {
      EmphasisRunFlat(text, 0, "", false, false, []);
    }
  }

  /** Characters are dropped only where bold and italic overlap: a closing
      marker meets an empty buffer only right after the other kind closed
      while this one was still open. */
  lemma {:induction false} NoOverlapNoLoss(text: string, i: nat, cur: string, bold: bool, italic: bool)
    requires i <= |text|
    requires cur == "" ==> !bold && !italic
    requires !Overlaps(text, i, cur, bold, italic)
    ensures Loss(text, i, cur, bold, italic) == 0
    decreases |text| - i
  {
    if i < |text| {
      var m := Step(text, i, cur, bold, italic);
      NoOverlapNoLoss(text, m.next, m.cur, m.bold, m.italic);
    }
  }

  /** When bold and italic never overlap, `parseBoldItalic` gives back its
      input. */
  lemma NoOverlapRoundTrip(text: string)
    requires !Overlaps(text, 0, "", false, false)
    ensures FlatAll(EmphasisScan(text)) == text
  {
    NoOverlapNoLoss(text, 0, "", false, false);
    EmphasisRoundTrip(text);
  }

  /** A text without `*` is never dropped from. */
  lemma {:induction false} NoStarNoLoss(text: string, i: nat, cur: string, bold: bool, italic: bool)
    requires i <= |text| && '*' !in text
    ensures Loss(text, i, cur, bold, italic) == 0
    decreases |text| - i
  {
    if i < |text| {
      var m := Step(text, i, cur, bold, italic);
      NoStarNoLoss(text, m.next, m.cur, m.bold, m.italic);
    }
  }

  /** The overlap the source's TODO warns about loses a character:
      in `"** *x***"` the bold closes inside the open italic, the italic then
      closes on an empty buffer and its `*` disappears. */
  lemma OverlapDropsStar()
    ensures FlatAll(EmphasisScan("** *x***")) == "** *x**"
    ensures Dropped("** *x***") == 1
  {
    var t := "** *x***";
    assert t[0] == '*' && t[1] == '*' && t[2] == ' ' && t[3] == '*' && t[4] == 'x';
    assert t[5] == '*' && t[6] == '*' && t[7] == '*' && |t| == 8;
    var s0 := Step(t, 0, "", false, false);
    assert s0 == Move(2, "**", true, false, [], 0);
    var s2 := Step(t, 2, "**", true, false);
    assert s2 == Move(3, "** ", true, false, [], 0);
    var s3 := Step(t, 3, "** ", true, false);
    assert s3 == Move(4, "*", true, true, [Leaf("text", "** ")], 0);
    var s4 := Step(t, 4, "*", true, true);
    assert s4 == Move(5, "*x", true, true, [], 0);
    assert "*x" + "**" == "*x**";
    var s5 := Step(t, 5, "*x", true, true);
    assert s5 == Move(7, "", false, true, [Branch("bold", [Leaf("text", "*x**")])], 0);
    var s7 := Step(t, 7, "", false, true);
    assert s7 == Move(8, "", false, false, [], 1);
    var out := [Leaf("text", "** "), Branch("bold", [Leaf("text", "*x**")])];
    assert EmphasisScan(t) == out;
    assert Dropped(t) == 1;
    FlatAllOne(Branch("bold", [Leaf("text", "*x**")]));
    FlatAllOne(Leaf("text", "*x**"));
    FlatAllAppend([Leaf("text", "** ")], [Branch("bold", [Leaf("text", "*x**")])]);
    FlatAllOne(Leaf("text", "** "));
    assert out == [Leaf("text", "** ")] + [Branch("bold", [Leaf("text", "*x**")])];
  }

  /** `parseBoldItalic`: a loop over the characters that skips the second
      `*` of a bold marker with an extra increment. */
  method ParseBoldItalic(text: string) returns (children: seq<Node>)
    ensures children == EmphasisScan(text)
    ensures FlatAll(children) == text <==> Dropped(text) == 0
  {
    EmphasisRoundTrip(text);
    children := [];
    var currentText := "";
    var bold := false;
    var italic := false;
    var i := 0;
    while i < |text|
      invariant i <= |text|
      invariant EmphasisRun(text, i, currentText, bold, italic, children) == EmphasisScan(text)
    {
      ghost var before := children;
      ghost var m := Step(text, i, currentText, bold, italic);
      var c := text[i];
      if c == '*' {
        if i + 1 < |text| && text[i + 1] == '*' {
          if bold {
            if currentText != "" {
              children := children + [Branch("bold", [Leaf("text", currentText + "**")])];
            }
            bold := false;
            currentText := "";
            i := i + 1;
          } else {
            if currentText != "" {
              children := children + [Leaf("text", currentText)];
            }
            bold := true;
            currentText := "**";
            i := i + 1;
          }
        } else {
          if italic {
            if currentText != "" {
              children := children + [Branch("italic", [Leaf("text", currentText + "*")])];
            }
            italic := false;
            currentText := "";
          } else {
            if currentText != "" {
              children := children + [Leaf("text", currentText)];
            }
            italic := true;
            currentText := "*";
          }
        }
      } else {
        currentText := currentText + [c];
      }
      i := i + 1;
      assert i == m.next && currentText == m.cur && bold == m.bold && italic == m.italic;
      assert children == before + m.emit;
    }
    if currentText != "" {
      children := children + [Leaf("text", currentText)];
    }
  }
}
