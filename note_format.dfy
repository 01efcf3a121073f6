/** The on-disk note format shared by both copies of the note store
    (`noteToString`, `stringToNote`) and the name cleaner `cleanName`.

    A note file is a header of `key: value` lines (`id`, an optional
    `title`, `created_at`, `updated_at`), a line `---`, then the content. */
module NoteFormat {
  import opened JsStrings
  import opened Wrappers

  /** `Note`. The title is optional; `created_at` and `updated_at` are the
      ISO timestamps as text. */
  datatype Note = Note(id: string, title: Option<string>, content: string, createdAt: string, updatedAt: string)

  /** JavaScript truthiness of an optional string: present and not empty. */
  predicate Truthy(o: Option<string>) {
    o.Some? && o.value != ""
  }

  /** The header lines `noteToString` writes: the title only when truthy. */
  function HeaderLines(n: Note): seq<string> {
    ["id: " + n.id] +
    (if Truthy(n.title) then ["title: " + n.title.value] else []) +
    ["created_at: " + n.createdAt, "updated_at: " + n.updatedAt]
  }

  /** Every line `noteToString` joins: the header, `---`, the content. */
  function NoteLines(n: Note): seq<string> {
    HeaderLines(n) + ["---", n.content]
  }

  /** The text of a note file. */
  function NoteText(n: Note): string {
    Join(NoteLines(n), "\n")
  }

  /** `noteToString`: push the header lines, the separator and the content,
      then join them with newlines. */
  method NoteToString(n: Note) returns (s: string)
    ensures s == NoteText(n)
  {
    var lines := ["id: " + n.id];
    if n.title.Some? && n.title.value != "" {
      lines := lines + ["title: " + n.title.value];
    }
    lines := lines + ["created_at: " + n.createdAt, "updated_at: " + n.updatedAt];
    lines := lines + ["---", n.content];
    assert lines == NoteLines(n);
    s := Join(lines, "\n");
  }

  /** `s.split(": ")`: the pieces between the left-to-right, non-overlapping
      occurrences of `": "`; always at least one piece. */
  function SplitField(s: string): (r: seq<string>)
    ensures |r| >= 1
    decreases |s|
  {
    if |s| < 2 then [s]
    else if s[0] == ':' && s[1] == ' ' then [""] + SplitField(s[2..])
    else
      var rest := SplitField(s[1..]);
      [[s[0]] + rest[0]] + rest[1..]
  }

  /** `s` contains no `": "`. */
  predicate NoSep(s: string) {
    forall j :: 0 <= j < |s| - 1 ==> !(s[j] == ':' && s[j + 1] == ' ')
  }

  /** A split yields one piece exactly when there is no separator, and that
      piece is the whole string. */
  lemma {:induction false} SplitFieldOnePiece(s: string)
    ensures |SplitField(s)| == 1 <==> NoSep(s)
    ensures NoSep(s) ==> SplitField(s) == [s]
    decreases |s|
  {
    if |s| >= 2 && !(s[0] == ':' && s[1] == ' ') {
      SplitFieldOnePiece(s[1..]);
      assert forall j :: 0 <= j < |s| - 2 ==> s[1..][j] == s[j + 1];
      if NoSep(s[1..]) {
        assert [s[0]] + s[1..] == s;
      }
    }
  }

  /** Splitting `key + ": " + v` where the key has no separator yields the
      key, then the pieces of `v`. */
  lemma {:induction false} SplitFieldAfterKey(key: string, v: string)
    requires NoSep(key)
    ensures SplitField(key + ": " + v) == [key] + SplitField(v)
    decreases |key|
  {
    var s := key + ": " + v;
    if key == [] {
      assert s[2..] == v;
    } else {
      assert s[1..] == key[1..] + ": " + v;
      assert NoSep(key[1..]) by {
        assert forall j :: 0 <= j < |key| - 2 ==> key[1..][j] == key[j + 1];
      }
      assert !(s[0] == ':' && s[1] == ' ') by {
        if |key| == 1 {
          assert s[1] == ':';
        } else {
          assert s[0] == key[0] && s[1] == key[1];
        }
      }
      SplitFieldAfterKey(key[1..], v);
      assert [key[0]] + key[1..] == key;
    }
  }

  /** `const [k, v] = line.split(": "); meta[k] = v.trim()`: the key and the
      trimmed second piece; `None` when the line has no `": "`, where `v` is
      `undefined` and `v.trim()` throws. Text after a second `": "` is
      dropped. */
  function HeaderEntry(line: string): Option<(string, string)> {
    var pieces := SplitField(line);
    if |pieces| < 2 then None else Some((pieces[0], Trim(pieces[1])))
  }

  /** The message of the `TypeError` a header line without `": "` raises. */
  const BareHeaderLine: string := "header line without \": \""

  /** Where the header loop stops: the fields read so far and the index of
      the first content line (`0` when no line starts with `---`). */
  datatype Header = Header(meta: map<string, string>, contentStart: nat)

  /** The header loop of `stringToNote` from line `i` on: stop after the
      first line that starts with `---`, fail on a line without `": "`,
      otherwise record the field (a later key overwrites an earlier one). */
  function ReadHeader(lines: seq<string>, i: nat, meta: map<string, string>): (r: Result<Header>)
    requires i <= |lines|
    ensures r.Ok? ==> r.value.contentStart <= |lines|
    decreases |lines| - i
  {
    if i == |lines| then Ok(Header(meta, 0))
    else if StartsWith(lines[i], "---") then Ok(Header(meta, i + 1))
    else
      var e := HeaderEntry(lines[i]);
      if e.None? then Failure(BareHeaderLine)
      else ReadHeader(lines, i + 1, meta[e.value.0 := e.value.1])
  }

  /** The loop stops at the first line that starts with `---` and nowhere
      else: content start `0` means that no line from `i` on does. */
  lemma {:induction false} ReadHeaderStops(lines: seq<string>, i: nat, meta: map<string, string>)
    requires i <= |lines| && ReadHeader(lines, i, meta).Ok?
    ensures var c := ReadHeader(lines, i, meta).value.contentStart;
            (c == 0 ==> forall j :: i <= j < |lines| ==> !StartsWith(lines[j], "---")) &&
            (c > 0 ==> i < c && StartsWith(lines[c - 1], "---") &&
                       forall j :: i <= j < c - 1 ==> !StartsWith(lines[j], "---"))
    decreases |lines| - i
  {
    if i < |lines| && !StartsWith(lines[i], "---") {
      var e := HeaderEntry(lines[i]);
      var meta' := meta[e.value.0 := e.value.1];
      assert ReadHeader(lines, i, meta) == ReadHeader(lines, i + 1, meta');
      ReadHeaderStops(lines, i + 1, meta');
    }
  }

  /** One header line that is not the separator is recorded and skipped. */
  lemma ReadHeaderStep(lines: seq<string>, i: nat, meta: map<string, string>, k: string, v: string)
    requires i < |lines| && !StartsWith(lines[i], "---") && HeaderEntry(lines[i]) == Some((k, v))
    ensures ReadHeader(lines, i, meta) == ReadHeader(lines, i + 1, meta[k := v])
  {
  }

  /** `meta[key] ?? fallback` */
  function Lookup(meta: map<string, string>, key: string, fallback: string): string {
    if key in meta then meta[key] else fallback
  }

  /** `stringToNote(str)`, with `now` standing for `new Date().toISOString()`:
      missing fields default to `"unknown"`, `""` and `now`; the content is
      every line after the separator, rejoined. */
  function ReadNote(str: string, now: string): Result<Note> {
    var lines := SplitNewlines(str);
    match ReadHeader(lines, 0, map[])
    case Failure(e) => Failure(e)
    case Ok(h) =>
      Ok(Note(Lookup(h.meta, "id", "unknown"), Some(Lookup(h.meta, "title", "")),
              Join(lines[h.contentStart..], "\n"),
              Lookup(h.meta, "created_at", now), Lookup(h.meta, "updated_at", now)))
  }

  /** `stringToNote`: the loop over the lines, then the defaults. */
  method StringToNote(str: string, now: string) returns (r: Result<Note>)
    ensures r == ReadNote(str, now)
  {
    var lines := SplitNewlines(str);
    var meta: map<string, string> := map[];
    var contentStart := 0;
    var i := 0;
    while i < |lines|
      invariant i <= |lines| && contentStart == 0
      invariant ReadHeader(lines, i, meta) == ReadHeader(lines, 0, map[])
    {
      if StartsWith(lines[i], "---") {
        contentStart := i + 1;
        break;
      }
      var pieces := SplitField(lines[i]);
      if |pieces| < 2 {
        return Failure(BareHeaderLine);
      }
      meta := meta[pieces[0] := Trim(pieces[1])];
      i := i + 1;
    }
    assert ReadHeader(lines, 0, map[]) == Ok(Header(meta, contentStart));
    r := Ok(Note(Lookup(meta, "id", "unknown"), Some(Lookup(meta, "title", "")),
                 Join(lines[contentStart..], "\n"),
                 Lookup(meta, "created_at", now), Lookup(meta, "updated_at", now)));
  }

  /** What a header value written as `key: v` reads back as: the text before
      any further `": "`, trimmed. */
  function HeadValue(v: string): string {
    Trim(SplitField(v)[0])
  }

  /** A header line the writer produces is read back as its key and value. */
  lemma KeyLine(key: string, v: string)
    requires NoSep(key) && key != [] && key[0] != '-'
    ensures HeaderEntry(key + ": " + v) == Some((key, HeadValue(v)))
    ensures !StartsWith(key + ": " + v, "---")
  {
    SplitFieldAfterKey(key, v);
    assert (key + ": " + v)[0] == key[0];
  }

  /** The header values can be written on one line each. */
  predicate LineSafe(n: Note) {
    '\n' !in n.id && (Truthy(n.title) ==> '\n' !in n.title.value) &&
    '\n' !in n.createdAt && '\n' !in n.updatedAt
  }

  /** The lines of a note file whose header values have no newline: the
      header lines, `---`, then the lines of the content. */
  lemma NoteTextLines(n: Note)
    requires LineSafe(n)
    ensures SplitNewlines(NoteText(n)) == HeaderLines(n) + ["---"] + SplitNewlines(n.content)
  {
    var ls := HeaderLines(n) + ["---"];
    assert NoteLines(n) == ls + [n.content];
    SplitJoin(ls, n.content);
  }

  /** The fields the header of a written note records. */
  function NoteMeta(n: Note): map<string, string> {
    var m := map["id" := HeadValue(n.id)];
    var m := if Truthy(n.title) then m["title" := HeadValue(n.title.value)] else m;
    m["created_at" := HeadValue(n.createdAt)]["updated_at" := HeadValue(n.updatedAt)]
  }

  /** One written header line is read as its key and trimmed value. */
  lemma ReadKeyLine(lines: seq<string>, i: nat, meta: map<string, string>, key: string, v: string)
    requires i < |lines| && lines[i] == key + ": " + v
    requires NoSep(key) && key != [] && key[0] != '-'
    ensures ReadHeader(lines, i, meta) == ReadHeader(lines, i + 1, meta[key := HeadValue(v)])
  {
    KeyLine(key, v);
    ReadHeaderStep(lines, i, meta, key, HeadValue(v));
  }

  /** The last two header lines and the separator: both timestamps are
      read, then the loop stops after the separator. */
  lemma ReadHeaderTail(lines: seq<string>, t: nat, meta: map<string, string>, n: Note)
    requires t + 2 < |lines| && lines[t + 2] == "---"
    requires lines[t] == "created_at: " + n.createdAt && lines[t + 1] == "updated_at: " + n.updatedAt
    ensures ReadHeader(lines, t, meta) ==
            Ok(Header(meta["created_at" := HeadValue(n.createdAt)]["updated_at" := HeadValue(n.updatedAt)], t + 3))
  {
    assert "created_at" + ": " == "created_at: " && "updated_at" + ": " == "updated_at: ";
    var m := meta["created_at" := HeadValue(n.createdAt)];
    ReadKeyLine(lines, t, meta, "created_at", n.createdAt);
    ReadKeyLine(lines, t + 1, m, "updated_at", n.updatedAt);
    assert StartsWith(lines[t + 2], "---");
  }

  /** The header loop over a written note's lines reads every header line
      and stops after the separator. */
  lemma ReadHeaderOfNote(lines: seq<string>, n: Note, rest: seq<string>)
    requires lines == HeaderLines(n) + ["---"] + rest
    ensures ReadHeader(lines, 0, map[]) == Ok(Header(NoteMeta(n), |HeaderLines(n)| + 1))
  {
    var hs := HeaderLines(n);
    var t := |hs| - 2;
    assert lines[t] == "created_at: " + n.createdAt && lines[t + 1] == "updated_at: " + n.updatedAt && lines[t + 2] == "---";
    assert lines[0] == "id" + ": " + n.id by {
      assert "id" + ": " == "id: ";
    }
    var m1 := map["id" := HeadValue(n.id)];
    ReadKeyLine(lines, 0, map[], "id", n.id);
    if Truthy(n.title) {
      assert lines[1] == "title" + ": " + n.title.value by {
        assert "title" + ": " == "title: ";
      }
      ReadKeyLine(lines, 1, m1, "title", n.title.value);
      ReadHeaderTail(lines, t, m1["title" := HeadValue(n.title.value)], n);
    } else {
      ReadHeaderTail(lines, t, m1, n);
    }
  }

  /** Reading a written note: the content comes back unchanged whatever it
      holds; each header value comes back as `HeadValue` of it; an absent or
      empty title comes back as `""`. */
  lemma ReadNoteText(n: Note, now: string)
    requires LineSafe(n)
    ensures ReadNote(NoteText(n), now) ==
              Ok(Note(HeadValue(n.id), Some(if Truthy(n.title) then HeadValue(n.title.value) else ""),
                      n.content, HeadValue(n.createdAt), HeadValue(n.updatedAt)))
  {
    var lines := SplitNewlines(NoteText(n));
    var hs := HeaderLines(n);
    NoteTextLines(n);
    ReadHeaderOfNote(lines, n, SplitNewlines(n.content));
    assert lines[|hs| + 1..] == SplitNewlines(n.content);
    JoinSplit(n.content);
  }

  /** A header value that is one trimmed line without `": "` is read back
      as itself. */
  predicate ValueSafe(v: string) {
    '\n' !in v && NoSep(v) && Trimmed(v)
  }

  lemma SafeValueKept(v: string)
    requires ValueSafe(v)
    ensures HeadValue(v) == v
  {
    SplitFieldOnePiece(v);
    TrimmedIsFixed(v);
  }

  /** The round trip: a note whose header values are safe is read back
      unchanged, except that a missing title comes back as `""`. */
  lemma NoteRoundTrip(n: Note, now: string)
    requires ValueSafe(n.id) && ValueSafe(n.createdAt) && ValueSafe(n.updatedAt)
    requires Truthy(n.title) ==> ValueSafe(n.title.value)
    ensures ReadNote(NoteText(n), now) ==
              Ok(Note(n.id, Some(if Truthy(n.title) then n.title.value else ""), n.content, n.createdAt, n.updatedAt))
  {
    ReadNoteText(n, now);
    SafeValueKept(n.id);
    SafeValueKept(n.createdAt);
    SafeValueKept(n.updatedAt);
    if Truthy(n.title) {
      SafeValueKept(n.title.value);
    }
  }

  /** A value holding `": "` loses everything from the separator on. */
  lemma SecondSeparatorCuts(a: string, b: string)
    requires NoSep(a) && Trimmed(a)
    ensures HeadValue(a + ": " + b) == a
  {
    SplitFieldAfterKey(a, b);
    TrimmedIsFixed(a);
  }

  /** A line before the separator without `": "` makes `stringToNote` throw
      (the empty text is one such line). */
  lemma BareLineThrows(line: string, rest: string, now: string)
    requires '\n' !in line && NoSep(line) && !StartsWith(line, "---")
    ensures ReadNote(line, now).Failure?
    ensures ReadNote(line + "\n" + rest, now).Failure?
  {
    SplitFieldOnePiece(line);
    SplitAfterLine(line, rest);
    assert SplitNewlines(line) == [line] by {
      SplitAfterLine(line, "");
      SplitNewlinesOfLine(line);
    }
  }

  /** A text without a newline is one line. */
  lemma {:induction false} SplitNewlinesOfLine(s: string)
    requires '\n' !in s
    ensures SplitNewlines(s) == [s]
  {
    if s != [] {
      SplitNewlinesOfLine(s[1..]);
      assert [s[0]] + s[1..] == s;
    }
  }

  /** Without a `---` line the content is the whole text, header lines
      included. */
  lemma NoSeparatorWholeText(str: string, now: string)
    requires forall j :: 0 <= j < |SplitNewlines(str)| ==> !StartsWith(SplitNewlines(str)[j], "---")
    requires ReadNote(str, now).Ok?
    ensures ReadNote(str, now).value.content == str
  {
    var lines := SplitNewlines(str);
    ReadHeaderStops(lines, 0, map[]);
    assert lines[0..] == lines;
    JoinSplit(str);
  }

  /** A text that starts with the separator gets every default, and all of
      it after the separator is the content. */
  lemma DefaultsWithoutHeader(body: string, now: string)
    ensures ReadNote("---\n" + body, now) == Ok(Note("unknown", Some(""), body, now, now))
  {
    SplitAfterLine("---", body);
    assert "---" + "\n" + body == "---\n" + body;
    var lines := SplitNewlines("---\n" + body);
    assert lines[1..] == SplitNewlines(body);
    JoinSplit(body);
  }

  predicate IsUpper(c: char) {
    'A' <= c <= 'Z'
  }

  predicate IsLower(c: char) {
    'a' <= c <= 'z'
  }

  /** `c.toLowerCase()` for an ASCII capital. */
  function ToLower(c: char): (r: char)
    requires IsUpper(c)
    ensures IsLower(r)
  {
    (c as int + 32) as char
  }

  /** One turn of the `cleanName` loop: a capital is pushed lowercased, a
      lowercase letter as is, a space as `-` unless the output already ends
      with `-` or this is the last character; anything else is dropped. */
  function CleanStep(name: string, i: nat, out: string): string
    requires i < |name|
  {
    var c := name[i];
    var out1 := if IsUpper(c) then out + [ToLower(c)] else out;
    var out2 := if IsLower(c) then out1 + [c] else out1;
    if c == ' ' && (out2 == [] || out2[|out2| - 1] != '-') && i != |name| - 1 then out2 + ['-'] else out2
  }

  /** The output after the first `i` turns. */
  function CleanPrefix(name: string, i: nat): string
    requires i <= |name|
  {
    if i == 0 then [] else CleanStep(name, i - 1, CleanPrefix(name, i - 1))
  }

  function Cleaned(name: string): string {
    CleanPrefix(name, |name|)
  }

  /** `cleanName` */
  method CleanName(name: string) returns (r: string)
    ensures r == Cleaned(name)
  {
    var out := [];
    for i := 0 to |name|
      invariant out == CleanPrefix(name, i)
    {
      var c := name[i];
      if IsUpper(c) {
        out := out + [ToLower(c)];
      }
      if IsLower(c) {
        out := out + [c];
      }
      if c == ' ' && (out == [] || out[|out| - 1] != '-') && i != |name| - 1 {
        out := out + ['-'];
      }
    }
    r := out;
  }

  /** The letters of a text, lowercased, with everything else dropped: an
      independent description of what `cleanName` keeps. */
  function Lowered(s: string): string
    decreases |s|
  {
    if s == [] then []
    else
      var c := s[|s| - 1];
      Lowered(s[..|s| - 1]) + (if IsUpper(c) then [ToLower(c)] else if IsLower(c) then [c] else [])
  }

  /** Only lowercase letters and `-`. */
  predicate Slug(s: string) {
    forall k :: 0 <= k < |s| ==> IsLower(s[k]) || s[k] == '-'
  }

  predicate NoDoubleDash(s: string) {
    forall k :: 0 <= k < |s| - 1 ==> !(s[k] == '-' && s[k + 1] == '-')
  }

  /** What one turn adds: the lowercased letter, a `-` for a space that
      does not follow a `-`, or nothing. */
  lemma CleanStepAdds(name: string, i: nat, out: string)
    requires i < |name|
    ensures var c := name[i];
            var q := CleanStep(name, i, out);
            (IsUpper(c) ==> q == out + [ToLower(c)]) &&
            (IsLower(c) ==> q == out + [c]) &&
            (c == ' ' ==> q == out || (q == out + ['-'] && (out == [] || out[|out| - 1] != '-'))) &&
            (!IsUpper(c) && !IsLower(c) && c != ' ' ==> q == out)
  {
  }

  lemma {:induction false} CleanPrefixSlug(name: string, i: nat)
    requires i <= |name|
    ensures var p := CleanPrefix(name, i);
            Slug(p) && NoDoubleDash(p) && |p| <= i && (' ' !in name[..i] ==> '-' !in p)
  {
    if i > 0 {
      CleanPrefixSlug(name, i - 1);
      CleanStepAdds(name, i - 1, CleanPrefix(name, i - 1));
      assert name[..i] == name[..i - 1] + [name[i - 1]];
    }
  }

  lemma {:induction false} CleanPrefixLetters(name: string, i: nat)
    requires i <= |name|
    ensures Lowered(CleanPrefix(name, i)) == Lowered(name[..i])
  {
    if i > 0 {
      CleanPrefixLetters(name, i - 1);
      var p := CleanPrefix(name, i - 1);
      CleanStepAdds(name, i - 1, p);
      assert name[..i][..i - 1] == name[..i - 1];
      var q := CleanPrefix(name, i);
      if q != p {
        assert q[..|q| - 1] == p;
      }
    }
  }

  /** `cleanName` keeps exactly the letters of the name, lowercased and in
      order, and otherwise only single `-`s; it never lengthens the name. */
  lemma CleanedShape(name: string)
    ensures var r := Cleaned(name);
            Slug(r) && NoDoubleDash(r) && |r| <= |name| && Lowered(r) == Lowered(name)
  {
    CleanPrefixSlug(name, |name|);
    CleanPrefixLetters(name, |name|);
    assert name[..|name|] == name;
  }

  /** A lowercase text is its own `Lowered`. */
  lemma {:induction false} LoweredOfLower(s: string)
    requires forall k :: 0 <= k < |s| ==> IsLower(s[k])
    ensures Lowered(s) == s
    decreases |s|
  {
    if s != [] {
      LoweredOfLower(s[..|s| - 1]);
    }
  }

  /** A dash only ever stands for a space: a name without spaces cleans to
      its letters, lowercased. */
  lemma SpacelessCleaned(name: string)
    requires ' ' !in name
    ensures Cleaned(name) == Lowered(name)
  {
    CleanPrefixSlug(name, |name|);
    CleanPrefixLetters(name, |name|);
    assert name[..|name|] == name;
    LoweredOfLower(Cleaned(name));
  }

  /** A space at the end adds nothing, spaces after a dash add nothing, and
      a space at the start gives a leading dash. */
  lemma CleanSpaces()
    ensures Cleaned("My note ") == "my-note"
    ensures Cleaned("a  b") == "a-b" && Cleaned("a  ") == "a-"
    ensures Cleaned(" a") == "-a"
  {
    assert Cleaned("My note ") == CleanPrefix("My note ", 7);
  }

  /** Cleaning is not idempotent: a dash is not a space, so cleaning a
      cleaned name drops its dashes. */
  lemma CleanNotIdempotent()
    ensures Cleaned("a b") == "a-b" && Cleaned(Cleaned("a b")) == "ab"
  {
    assert CleanPrefix("a b", 2) == "a-";
    assert Cleaned("a b") == "a-b";
    assert CleanPrefix("a-b", 2) == "a";
    assert Cleaned("a-b") == "ab";
  }
}
