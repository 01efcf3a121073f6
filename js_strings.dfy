/** String operations of the JavaScript runtime that the highlighter and the
    note format rely on, over UTF-16 code units modelled as `char`. */
module JsStrings {

  /** `s.startsWith(p)` */
  predicate StartsWith(s: string, p: string) {
    |p| <= |s| && s[..|p|] == p
  }

  /** The characters matched by the regular-expression class `\s`, which are
      also the characters `String.prototype.trim` removes: the ECMAScript
      WhiteSpace and LineTerminator sets. */
  predicate IsWhitespace(c: char) {
    c == '\t' || c == '\n' || c == '\U{000B}' || c == '\U{000C}' || c == '\r' || c == ' ' ||
    c == '\U{00A0}' || c == '\U{1680}' || ('\U{2000}' <= c <= '\U{200A}') ||
    c == '\U{2028}' || c == '\U{2029}' || c == '\U{202F}' || c == '\U{205F}' ||
    c == '\U{3000}' || c == '\U{FEFF}'
  }

  /** `\d`: an ASCII decimal digit. */
  predicate IsDigit(c: char) {
    '0' <= c <= '9'
  }

  predicate AllDigits(s: string) {
    forall k :: 0 <= k < |s| ==> IsDigit(s[k])
  }

  /** `n` copies of `c`. */
  function Repeat(n: nat, c: char): (r: string)
    ensures |r| == n
    ensures forall k :: 0 <= k < n ==> r[k] == c
  {
    if n == 0 then "" else [c] + Repeat(n - 1, c)
  }

  /** `s.trimStart()` */
  function TrimStart(s: string): string {
    if s != [] && IsWhitespace(s[0]) then TrimStart(s[1..]) else s
  }

  /** `s.trimEnd()` */
  function TrimEnd(s: string): string {
    if s != [] && IsWhitespace(s[|s| - 1]) then TrimEnd(s[..|s| - 1]) else s
  }

  /** `s.trim()` */
  function Trim(s: string): string {
    TrimEnd(TrimStart(s))
  }

  /** A string with no whitespace at either end is its own trim. */
  predicate Trimmed(s: string) {
    s == [] || (!IsWhitespace(s[0]) && !IsWhitespace(s[|s| - 1]))
  }

  lemma TrimmedIsFixed(s: string)
    requires Trimmed(s)
    ensures Trim(s) == s
  {
  }

  /** `trimStart` removes exactly the leading whitespace. */
  lemma {:induction false} TrimStartSound(s: string)
    ensures var r := TrimStart(s);
            |r| <= |s| && r == s[|s| - |r|..] && (r != [] ==> !IsWhitespace(r[0])) &&
            forall k :: 0 <= k < |s| - |r| ==> IsWhitespace(s[k])
  {
    if s != [] && IsWhitespace(s[0]) {
      var r := TrimStart(s);
      assert r == TrimStart(s[1..]);
      TrimStartSound(s[1..]);
      assert s[1..][|s| - 1 - |r|..] == s[|s| - |r|..];
      forall k | 0 <= k < |s| - |r| ensures IsWhitespace(s[k]) {
        if k > 0 {
          assert s[k] == s[1..][k - 1];
        }
      }
    }
  }

  /** `trimEnd` removes exactly the trailing whitespace. */
  lemma {:induction false} TrimEndSound(s: string)
    ensures var r := TrimEnd(s);
            |r| <= |s| && r == s[..|r|] && (r != [] ==> !IsWhitespace(r[|r| - 1])) &&
            forall k :: |r| <= k < |s| ==> IsWhitespace(s[k])
  {
    if s != [] && IsWhitespace(s[|s| - 1]) {
      var r := TrimEnd(s);
      assert r == TrimEnd(s[..|s| - 1]);
      TrimEndSound(s[..|s| - 1]);
      assert s[..|s| - 1][..|r|] == s[..|r|];
      forall k | |r| <= k < |s| ensures IsWhitespace(s[k]) {
        if k < |s| - 1 {
          assert s[k] == s[..|s| - 1][k];
        }
      }
    }
  }

  /** `trim` yields a trimmed slice of its argument, removing only
      whitespace. */
  lemma TrimSound(s: string)
    ensures var r := Trim(s);
            var a := |s| - |TrimStart(s)|;
            0 <= a && Trimmed(r) && a + |r| <= |s| && r == s[a..a + |r|] &&
            (forall k :: 0 <= k < a ==> IsWhitespace(s[k])) &&
            (forall k :: a + |r| <= k < |s| ==> IsWhitespace(s[k]))
  {
    var t := TrimStart(s);
    TrimStartSound(s);
    TrimEndSound(t);
    var a := |s| - |t|;
    var r := TrimEnd(t);
    assert r == Trim(s);
    assert r == s[a..a + |r|] by {
      assert t == s[a..];
      assert r == t[..|r|];
    }
    assert Trimmed(r) by {
      if r != [] {
        assert r[0] == t[0];
      }
    }
    forall k | a + |r| <= k < |s| ensures IsWhitespace(s[k]) {
      assert s[k] == t[k - a];
    }
  }

  /** `s.split("\n")`: JavaScript's split on a one-character separator,
      which always yields at least one piece. */
  function SplitNewlines(s: string): (r: seq<string>)
    ensures |r| >= 1
  {
    if s == [] then [""]
    else
      var rest := SplitNewlines(s[1..]);
      if s[0] == '\n' then [""] + rest else [[s[0]] + rest[0]] + rest[1..]
  }

  /** `ss.join(sep)` */
  function Join(ss: seq<string>, sep: string): string {
    if |ss| == 0 then ""
    else if |ss| == 1 then ss[0]
    else ss[0] + sep + Join(ss[1..], sep)
  }

  /** No piece of a split contains the separator. */
  lemma {:induction false} SplitPiecesHaveNoNewline(s: string)
    ensures forall k :: 0 <= k < |SplitNewlines(s)| ==> '\n' !in SplitNewlines(s)[k]
  {
    if s != [] {
      SplitPiecesHaveNoNewline(s[1..]);
    }
  }

  /** Joining the pieces of a split gives the string back. */
  lemma {:induction false} JoinSplit(s: string)
    ensures Join(SplitNewlines(s), "\n") == s
  {
    if s != [] {
      var rest := SplitNewlines(s[1..]);
      JoinSplit(s[1..]);
      if s[0] == '\n' {
        assert SplitNewlines(s) == [""] + rest;
        if |rest| == 1 {
          assert Join(SplitNewlines(s), "\n") == "" + "\n" + rest[0];
        } else {
          assert Join(SplitNewlines(s), "\n") == "" + "\n" + Join(rest, "\n");
        }
      } else {
        var r := SplitNewlines(s);
        assert r == [[s[0]] + rest[0]] + rest[1..];
        if |rest| == 1 {
          assert Join(r, "\n") == [s[0]] + rest[0];
        } else {
          assert r[1..] == rest[1..];
          assert Join(rest, "\n") == rest[0] + "\n" + Join(rest[1..], "\n");
          assert Join(r, "\n") == ([s[0]] + rest[0]) + "\n" + Join(rest[1..], "\n");
        }
      }
    }
  }

  /** Splitting `a + "\n" + b` where `a` has no newline yields `a` first. */
  lemma {:induction false} SplitAfterLine(a: string, b: string)
    requires '\n' !in a
    ensures SplitNewlines(a + "\n" + b) == [a] + SplitNewlines(b)
  {
    if a == [] {
      assert a + "\n" + b == "\n" + b;
      assert ("\n" + b)[1..] == b;
    } else {
      assert (a + "\n" + b)[1..] == a[1..] + "\n" + b;
      SplitAfterLine(a[1..], b);
      assert [a[0]] + a[1..] == a;
    }
  }

  /** Joining a non-empty list before a last piece: the first item, the
      separator, then the join of the rest. */
  lemma JoinCons(ls: seq<string>, last: string, sep: string)
    requires ls != []
    ensures Join(ls + [last], sep) == ls[0] + sep + Join(ls[1..] + [last], sep)
  {
    assert (ls + [last])[0] == ls[0] && (ls + [last])[1..] == ls[1..] + [last];
  }

  /** Splitting a join of newline-free lines followed by any last piece gives
      those lines back, then the split of the last piece. */
  lemma {:induction false} SplitJoin(ls: seq<string>, last: string)
    requires forall k :: 0 <= k < |ls| ==> '\n' !in ls[k]
    ensures SplitNewlines(Join(ls + [last], "\n")) == ls + SplitNewlines(last)
  {
    if ls != [] {
      var j := Join(ls[1..] + [last], "\n");
      JoinCons(ls, last, "\n");
      SplitAfterLine(ls[0], j);
      SplitJoin(ls[1..], last);
      assert ls == [ls[0]] + ls[1..];
    }
  }
}
