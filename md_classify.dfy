/** The line classifier of the highlighter (`getLineType`,
    `getLineSubtype`): ordered tables of markers, each of which must be
    followed by a space, and the numbered-list pattern `^\d+\.\s`. */
module LineClassifier {
  import opened JsStrings
  import opened Wrappers

  /** `lineTypes`, as (pattern, type) pairs in declaration order. */
  const LineTypes: seq<(string, string)> := [
    ("#", "h1"), ("##", "h2"), ("###", "h3"), ("####", "h4"), ("#####", "h5"), ("######", "h6"),
    (">", "block-quote"), ("-", "list-item"), ("+", "list-item")
  ]

  /** `lineSubtypes`, as (pattern, type) pairs in declaration order. */
  const LineSubtypes: seq<(string, string)> := [
    ("[ ]", "todo"), ("[x]", "todo-done"), ("[.]", "todo-progress")
  ]

  /** The first table entry whose pattern followed by a space starts `line`,
      as a (type, pattern) pair. */
  function MatchTable(table: seq<(string, string)>, line: string): Option<(string, string)> {
    if table == [] then None
    else if StartsWith(line, table[0].0 + " ") then Some((table[0].1, table[0].0))
    else MatchTable(table[1..], line)
  }

  /** The number of leading ASCII digits of `s`. */
  function LeadingDigits(s: string): (n: nat)
    ensures n <= |s| && AllDigits(s[..n])
    ensures n < |s| ==> !IsDigit(s[n])
  {
    if s != [] && IsDigit(s[0]) then
      var n := 1 + LeadingDigits(s[1..]);
      assert s[..n] == [s[0]] + s[1..][..n - 1];
      n
    else 0
  }

  /** `line.match(/^\d+\.\s/)` with its last character sliced off: the
      digits and the dot. Since `.` is not a digit, the greedy `\d+` can only
      match all the leading digits. */
  function NumberMarker(line: string): Option<string> {
    var d := LeadingDigits(line);
    if 0 < d && d + 1 < |line| && line[d] == '.' && IsWhitespace(line[d + 1])
    then Some(line[..d + 1])
    else None
  }

  /** What `getLineType(line)` returns, as (type, marker). */
  function LineType(line: string): Option<(string, string)> {
    match MatchTable(LineTypes, line)
    case Some(r) => Some(r)
    case None =>
      match NumberMarker(line)
      case Some(m) => Some(("list-item-num", m))
      case None => None
  }

  /** What `getLineSubtype(line)` returns, as (type, marker). */
  function LineSubtype(line: string): Option<(string, string)> {
    MatchTable(LineSubtypes, line)
  }

  /** The table lookup returns the FIRST entry, in declared order, whose
      pattern plus a space starts the line, and nothing when none does. */
  lemma {:induction false} MatchTableIsFirst(table: seq<(string, string)>, line: string)
    ensures MatchTable(table, line).None? <==>
              forall j :: 0 <= j < |table| ==> !StartsWith(line, table[j].0 + " ")
    ensures MatchTable(table, line).Some? ==>
              exists j :: 0 <= j < |table| &&
                MatchTable(table, line).value == (table[j].1, table[j].0) &&
                StartsWith(line, table[j].0 + " ") &&
                forall i :: 0 <= i < j ==> !StartsWith(line, table[i].0 + " ")
  {
    if table != [] {
      MatchTableIsFirst(table[1..], line);
      if !StartsWith(line, table[0].0 + " ") {
        if MatchTable(table, line).Some? {
          var j :| 0 <= j < |table[1..]| &&
                MatchTable(table[1..], line).value == (table[1..][j].1, table[1..][j].0) &&
                StartsWith(line, table[1..][j].0 + " ") &&
                forall i :: 0 <= i < j ==> !StartsWith(line, table[1..][i].0 + " ");
          assert forall i :: 0 <= i < j + 1 ==> !StartsWith(line, table[i].0 + " ") by {
            forall i | 0 <= i < j + 1 ensures !StartsWith(line, table[i].0 + " ") {
              if i > 0 {
                assert table[i] == table[1..][i - 1];
              }
            }
          }
          assert table[j + 1] == table[1..][j];
        } else {
          forall j | 0 <= j < |table| ensures !StartsWith(line, table[j].0 + " ") {
            if j > 0 {
              assert table[j] == table[1..][j - 1];
            }
          }
        }
      } else {
        assert MatchTable(table, line).value == (table[0].1, table[0].0);
      }
    }
  }

  /** A classified line starts with its marker, and the marker is followed by
      a whitespace character, a space for every table marker. The marker is a
      table pattern of that type, or the line's leading digits and a dot. */
  lemma LineTypeSound(line: string)
    requires LineType(line).Some?
    ensures var (t, m) := LineType(line).value;
            |m| < |line| && line[..|m|] == m && IsWhitespace(line[|m|]) &&
            ((exists j :: 0 <= j < |LineTypes| && LineTypes[j] == (m, t) && line[|m|] == ' ') ||
             (t == "list-item-num" && 0 < |m| && m[|m| - 1] == '.' && AllDigits(m[..|m| - 1])))
  {
    MatchTableIsFirst(LineTypes, line);
    var (t, m) := LineType(line).value;
    if MatchTable(LineTypes, line).Some? {
      var j :| 0 <= j < |LineTypes| &&
               MatchTable(LineTypes, line).value == (LineTypes[j].1, LineTypes[j].0) &&
               StartsWith(line, LineTypes[j].0 + " ");
      assert (LineTypes[j].0 + " ")[..|m|] == m;
      assert line[|m|] == (LineTypes[j].0 + " ")[|m|];
    } else {
      var d := LeadingDigits(line);
      assert m == line[..d + 1] && m[..d] == line[..d];
    }
  }

  /** A line that starts with `n` hashes and a space is a level-`n` heading
      with marker `n` hashes: a shorter heading pattern, checked earlier,
      needs a space where the line has a hash. So `"## x"` is `h2`, never
      `h1`. */
  lemma HeadingLevel(n: nat, line: string)
    requires 1 <= n <= 6
    requires StartsWith(line, Repeat(n, '#') + " ")
    ensures LineType(line) == Some((LineTypes[n - 1].1, Repeat(n, '#')))
  {
    HeadingPatterns();
    forall i | 0 <= i < n - 1 ensures !StartsWith(line, LineTypes[i].0 + " ") {
      ShorterHeadingFails(n, line, i);
      assert LineTypes[i].0 == Repeat(i + 1, '#');
    }
    assert StartsWith(line, LineTypes[n - 1].0 + " ");
    MatchTableIsFirst(LineTypes, line);
    var j :| 0 <= j < |LineTypes| &&
             MatchTable(LineTypes, line).value == (LineTypes[j].1, LineTypes[j].0) &&
             StartsWith(line, LineTypes[j].0 + " ") &&
             forall i :: 0 <= i < j ==> !StartsWith(line, LineTypes[i].0 + " ");
    assert j == n - 1;
  }

  /** The first six table entries are the heading patterns. */
  lemma HeadingPatterns()
    ensures forall i :: 0 <= i < 6 ==> LineTypes[i].0 == Repeat(i + 1, '#')
  {
    assert LineTypes[0].0 == Repeat(1, '#');
    assert LineTypes[1].0 == Repeat(2, '#');
    assert LineTypes[2].0 == Repeat(3, '#');
    assert LineTypes[3].0 == Repeat(4, '#');
    assert LineTypes[4].0 == Repeat(5, '#');
    assert LineTypes[5].0 == Repeat(6, '#');
  }

  /** A line starting with `n` hashes and a space does not start with fewer
      hashes and a space. */
  lemma ShorterHeadingFails(n: nat, line: string, i: nat)
    requires i + 1 < n && StartsWith(line, Repeat(n, '#') + " ")
    ensures !StartsWith(line, Repeat(i + 1, '#') + " ")
  {
    var p := Repeat(n, '#') + " ";
    assert line[i + 1] == line[..|p|][i + 1] == p[i + 1] == '#';
    assert (Repeat(i + 1, '#') + " ")[i + 1] == ' ';
  }

  /** A line made of digits, a dot, one whitespace character and anything
      else is a numbered list item whose marker is the digits and the dot. */
  lemma NumberedItem(digits: string, ws: char, rest: string)
    requires 0 < |digits| && AllDigits(digits) && IsWhitespace(ws)
    ensures LineType(digits + "." + [ws] + rest) == Some(("list-item-num", digits + "."))
  {
    var line := digits + "." + [ws] + rest;
    assert line[..|digits|] == digits;
    LeadingDigitsOf(line, |digits|);
    assert line[..|digits| + 1] == digits + ".";
    MatchTableIsFirst(LineTypes, line);
    assert forall j :: 0 <= j < |LineTypes| ==> LineTypes[j].0[0] in "#>-+";
    forall j | 0 <= j < |LineTypes| ensures !StartsWith(line, LineTypes[j].0 + " ") {
      assert IsDigit(line[0]);
      assert (LineTypes[j].0 + " ")[0] == LineTypes[j].0[0];
    }
  }

  lemma {:induction false} LeadingDigitsOf(s: string, n: nat)
    requires n < |s| && AllDigits(s[..n]) && !IsDigit(s[n])
    ensures LeadingDigits(s) == n
  {
    if n > 0 {
      assert IsDigit(s[..n][0]);
      assert s[1..][..n - 1] == s[..n][1..];
      LeadingDigitsOf(s[1..], n - 1);
    }
  }

  /** A line gets no type exactly when no table pattern plus a space starts
      it and it does not start with digits, a dot and a whitespace character. */
  lemma UntypedLine(line: string)
    ensures LineType(line).None? <==>
              (forall j :: 0 <= j < |LineTypes| ==> !StartsWith(line, LineTypes[j].0 + " ")) &&
              !(exists d :: 0 < d && d + 1 < |line| && AllDigits(line[..d]) &&
                            line[d] == '.' && IsWhitespace(line[d + 1]))
  {
    MatchTableIsFirst(LineTypes, line);
    var n := LeadingDigits(line);
    if exists d :: 0 < d && d + 1 < |line| && AllDigits(line[..d]) && line[d] == '.' && IsWhitespace(line[d + 1]) {
      var d :| 0 < d && d + 1 < |line| && AllDigits(line[..d]) && line[d] == '.' && IsWhitespace(line[d + 1]);
      LeadingDigitsOf(line, d);
    }
  }

  /** The todo markers: `"[ ] "`, `"[x] "` and `"[.] "` give `todo`,
      `todo-done` and `todo-progress`; anything else gives no subtype. */
  lemma SubtypeMarkers(line: string)
    ensures StartsWith(line, "[ ] ") ==> LineSubtype(line) == Some(("todo", "[ ]"))
    ensures StartsWith(line, "[x] ") ==> LineSubtype(line) == Some(("todo-done", "[x]"))
    ensures StartsWith(line, "[.] ") ==> LineSubtype(line) == Some(("todo-progress", "[.]"))
    ensures LineSubtype(line).None? <==>
              !StartsWith(line, "[ ] ") && !StartsWith(line, "[x] ") && !StartsWith(line, "[.] ")
  {
    MatchTableIsFirst(LineSubtypes, line);
    if StartsWith(line, "[x] ") {
      assert line[1] == 'x' && !StartsWith(line, "[ ] ");
    }
    if StartsWith(line, "[.] ") {
      assert line[1] == '.' && !StartsWith(line, "[ ] ") && !StartsWith(line, "[x] ");
      assert LineSubtypes[1..][1..] == [("[.]", "todo-progress")];
      assert MatchTable(LineSubtypes, line) == MatchTable(LineSubtypes[1..], line)
          == MatchTable(LineSubtypes[1..][1..], line);
    }
  }

  /** A todo subtype's marker is one of the three three-character patterns
      and, followed by a space, starts the line. */
  lemma LineSubtypeSound(line: string)
    requires LineSubtype(line).Some?
    ensures var (t, m) := LineSubtype(line).value;
            |m| == 3 && |m| < |line| && line[..|m| + 1] == m + " " &&
            (m, t) in LineSubtypes
  {
    SubtypeMarkers(line);
  }

  /** `getLineType`: a loop over the ordered table that returns at the first
      match, then the numbered-list pattern. */
  method GetLineType(line: string) returns (r: Option<(string, string)>)
    ensures r == LineType(line)
  {
    var k := 0;
    while k < |LineTypes|
      invariant k <= |LineTypes|
      invariant MatchTable(LineTypes[k..], line) == MatchTable(LineTypes, line)
    {
      var (pattern, kind) := LineTypes[k];
      if StartsWith(line, pattern + " ") {
        return Some((kind, pattern));
      }
      assert LineTypes[k..][1..] == LineTypes[k + 1..];
      k := k + 1;
    }
    match NumberMarker(line)
    case Some(m) => r := Some(("list-item-num", m));
    case None => r := None;
  }

  /** `getLineSubtype`: a loop over the ordered todo table. */
  method GetLineSubtype(line: string) returns (r: Option<(string, string)>)
    ensures r == LineSubtype(line)
  {
    var k := 0;
    while k < |LineSubtypes|
      invariant k <= |LineSubtypes|
      invariant MatchTable(LineSubtypes[k..], line) == MatchTable(LineSubtypes, line)
    {
      var (pattern, kind) := LineSubtypes[k];
      if StartsWith(line, pattern + " ") {
        return Some((kind, pattern));
      }
      assert LineSubtypes[k..][1..] == LineSubtypes[k + 1..];
      k := k + 1;
    }
    r := None;
  }
}
