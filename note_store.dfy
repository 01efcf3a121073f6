/** The note store of the server (`Files` in `server/files.ts`): where a
    note's file lives, and what `create`, `load`, `getById`, `update`,
    `delete` and `allInDir` read and write. The file system is a map from
    paths to file texts; the clock and `randomId` are parameters. */
module NoteStore {
  import opened Wrappers
  import opened JsStrings
  import opened NoteFormat
  import Dates

  /** `join(dir, file)`. Path normalisation is not modelled. */
  datatype Path = Path(dir: string, file: string)

  /** `DIRS`: the directories of daily and named notes. */
  datatype Dirs = Dirs(daily: string, named: string)

  /** The files on disk. */
  type Disk = map<Path, string>

  /** The file name of the note with this id. */
  function FileName(id: string): string {
    id + ".md"
  }

  /** `idToPath`: a date-shaped id is a daily note, anything else a named
      note. */
  function IdToPath(dirs: Dirs, id: string): Path {
    if Dates.MatchFormattedDate(id) then Path(dirs.daily, FileName(id)) else Path(dirs.named, FileName(id))
  }

  /** The path `getById`, `update` and `delete` use: an id starting with
      `n-` is a named note, anything else a daily note. */
  function IdPath(dirs: Dirs, id: string): Path {
    Path(if StartsWith(id, "n-") then dirs.named else dirs.daily, FileName(id))
  }

  /** The two routings agree exactly on date-shaped ids and on ids that
      start with `n-`; any other id (`"notes"`, say) is listed from the
      named directory but looked up in the daily one. */
  lemma RoutesAgree(dirs: Dirs, id: string)
    requires dirs.daily != dirs.named
    ensures IdToPath(dirs, id) == IdPath(dirs, id) <==> Dates.MatchFormattedDate(id) || StartsWith(id, "n-")
  {
    if Dates.MatchFormattedDate(id) {
      Dates.DateShape(id);
      assert id[..2][0] == id[0];
    }
  }

  /** An instant: its ISO text (`toISOString()`) and its calendar date in
      local time (`getFullYear()`, `getMonth()`, `getDate()`). */
  datatype Clock = Clock(timestamp: string, year: int, monthIndex: int, day: int)

  /** `getFormattedDate(timestamp)`: the id of the clock's daily note. */
  function Today(clock: Clock): string {
    Dates.GetFormattedDate(clock.year, clock.monthIndex, clock.day)
  }

  /** `Partial<Note>`: a field that is `None` is absent. */
  datatype Patch = Patch(id: Option<string>, title: Option<string>, content: Option<string>,
                         createdAt: Option<string>, updatedAt: Option<string>)

  /** `{}` */
  const Empty: Patch := Patch(None, None, None, None, None)

  /** `dailyTemplate` */
  const DailyTemplate: string := "# todo\n\n# links"

  /** The note `create(note)` returns: dated today, its content `note.content
      ?? ""`; a truthy title makes it a named note with a fresh id, and
      otherwise an explicitly empty content is replaced by the template. */
  function Created(patch: Patch, clock: Clock, freshId: string): Note {
    var n := Note(Today(clock), None, patch.content.GetOr(""), clock.timestamp, clock.timestamp);
    if Truthy(patch.title) then n.(title := patch.title, id := freshId)
    else if patch.content == Some("") then n.(content := DailyTemplate)
    else n
  }

  /** The file `create` writes: in the named directory for a titled note,
      the daily one otherwise. */
  function CreatedPath(dirs: Dirs, patch: Patch, n: Note): Path {
    if Truthy(patch.title) then Path(dirs.named, FileName(n.id)) else Path(dirs.daily, FileName(n.id))
  }

  /** `create(note, write)`: the new note and the disk afterwards. */
  function CreateResult(disk: Disk, dirs: Dirs, patch: Patch, clock: Clock, freshId: string, write: bool): (Note, Disk) {
    var n := Created(patch, clock, freshId);
    (n, if write then disk[CreatedPath(dirs, patch, n) := NoteText(n)] else disk)
  }

  /** `load(path)`: `undefined` for a missing file, otherwise the parsed
      file, which may throw. */
  function Load(disk: Disk, path: Path, now: string): Result<Option<Note>> {
    if path !in disk then Ok(None)
    else
      match ReadNote(disk[path], now)
      case Failure(e) => Failure(e)
      case Ok(n) => Ok(Some(n))
  }

  /** `getById(id)` */
  function FoundById(disk: Disk, dirs: Dirs, id: string, now: string): Result<Option<Note>> {
    Load(disk, IdPath(dirs, id), now)
  }

  /** `{...note, ...updates, updated_at: now}`: every field present in the
      update wins, and `updated_at` is always the fresh timestamp. */
  function Merge(note: Note, patch: Patch, now: string): Note {
    Note(patch.id.GetOr(note.id), if patch.title.Some? then patch.title else note.title,
         patch.content.GetOr(note.content), patch.createdAt.GetOr(note.createdAt), now)
  }

  /** `update(id, updates)`: `undefined` when there is no such note,
      otherwise the merged note, written back at the id's path. */
  function UpdateResult(disk: Disk, dirs: Dirs, id: string, patch: Patch, now: string): Result<(Option<Note>, Disk)> {
    match FoundById(disk, dirs, id, now)
    case Failure(e) => Failure(e)
    case Ok(None) => Ok((None, disk))
    case Ok(Some(note)) =>
      var u := Merge(note, patch, now);
      Ok((Some(u), disk[IdPath(dirs, id) := NoteText(u)]))
  }

  /** `delete(id)`: `false` when there is no such note, otherwise the file
      is removed and the answer is `true`. */
  function DeleteResult(disk: Disk, dirs: Dirs, id: string, now: string): Result<(bool, Disk)> {
    match FoundById(disk, dirs, id, now)
    case Failure(e) => Failure(e)
    case Ok(None) => Ok((false, disk))
    case Ok(Some(_)) => Ok((true, disk - {IdPath(dirs, id)}))
  }

  /** A daily note's id is never taken for a named one. */
  lemma TodayIsDaily(clock: Clock)
    ensures !StartsWith(Today(clock), "n-")
  {
    var y := Dates.IntString(clock.year);
    var t := Today(clock);
    assert t[0] == y[0];
    if clock.year >= 0 {
      assert IsDigit(y[0]);
    }
    assert t[..2][0] == t[0];
  }

  /** Only digits and `-`. */
  predicate DateChars(s: string) {
    forall k :: 0 <= k < |s| ==> IsDigit(s[k]) || s[k] == '-'
  }

  lemma DateCharsJoin(a: string, b: string)
    requires DateChars(a) && DateChars(b)
    ensures DateChars(a + b)
  {
    assert forall k :: |a| <= k < |a + b| ==> (a + b)[k] == b[k - |a|];
  }

  /** `toString` of an integer is digits with at most a leading `-`, and
      ends with a digit. */
  lemma IntStringChars(n: int)
    ensures var s := Dates.IntString(n);
            s != [] && IsDigit(s[|s| - 1]) && DateChars(s)
  {
    var s := Dates.IntString(n);
    if n < 0 {
      assert forall k :: 1 <= k < |s| ==> s[k] == Dates.NatString(-n)[k - 1];
    }
  }

  /** Padding with `0` keeps digits and dashes, and the last digit. */
  lemma PadChars(s: string)
    requires s != [] && IsDigit(s[|s| - 1]) && DateChars(s)
    ensures var r := Dates.PadStart2(s);
            r != [] && IsDigit(r[|r| - 1]) && DateChars(r)
  {
    var r := Dates.PadStart2(s);
    if |s| < 2 {
      assert forall k :: 2 - |s| <= k < 2 ==> r[k] == s[k - (2 - |s|)];
    }
  }

  /** Year, month and day joined with `-`. */
  lemma JoinDateParts(y: string, m: string, d: string)
    requires DateChars(y) && DateChars(m) && DateChars(d) && d != [] && IsDigit(d[|d| - 1])
    ensures var t := y + "-" + m + "-" + d;
            DateChars(t) && IsDigit(t[|t| - 1])
  {
    var t := y + "-" + m + "-" + d;
    assert t == y + ("-" + (m + ("-" + d)));
    DateCharsJoin("-", d);
    DateCharsJoin(m, "-" + d);
    DateCharsJoin("-", m + ("-" + d));
    DateCharsJoin(y, "-" + (m + ("-" + d)));
    assert t[|t| - 1] == d[|d| - 1];
  }

  /** A formatted date is digits and dashes ending in a digit. */
  lemma FormattedDateChars(year: int, monthIndex: int, day: int)
    ensures var t := Dates.GetFormattedDate(year, monthIndex, day);
            DateChars(t) && t != [] && IsDigit(t[|t| - 1])
  {
    var y := Dates.IntString(year);
    var m := Dates.PadStart2(Dates.IntString(monthIndex + 1));
    var d := Dates.PadStart2(Dates.IntString(day));
    IntStringChars(year);
    IntStringChars(monthIndex + 1);
    IntStringChars(day);
    PadChars(Dates.IntString(monthIndex + 1));
    PadChars(Dates.IntString(day));
    JoinDateParts(y, m, d);
  }

  /** A daily id is one trimmed line of digits and dashes. */
  lemma TodaySafe(clock: Clock)
    ensures ValueSafe(Today(clock))
  {
    FormattedDateChars(clock.year, clock.monthIndex, clock.day);
    DateCharsSafe(Today(clock));
  }

  lemma DateCharsSafe(s: string)
    requires DateChars(s) && s != [] && IsDigit(s[|s| - 1])
    ensures ValueSafe(s)
  {
  }

  /** Creating a note and looking it up by its id finds it again, as
      written, provided the fresh id of a titled note starts with `n-` (as
      `randomId`'s do) and the header values are one trimmed line each. */
  lemma CreateThenGet(disk: Disk, dirs: Dirs, patch: Patch, clock: Clock, freshId: string, now: string)
    requires Truthy(patch.title) ==> StartsWith(freshId, "n-") && ValueSafe(freshId) && ValueSafe(patch.title.value)
    requires ValueSafe(clock.timestamp)
    ensures var (n, after) := CreateResult(disk, dirs, patch, clock, freshId, true);
            CreatedPath(dirs, patch, n) == IdPath(dirs, n.id) &&
            FoundById(after, dirs, n.id, now) ==
              Ok(Some(n.(title := Some(if Truthy(n.title) then n.title.value else ""))))
  {
    var n := Created(patch, clock, freshId);
    TodayIsDaily(clock);
    TodaySafe(clock);
    NoteRoundTrip(n, now);
  }

  /** What `create` returns: the content is the template exactly when the
      note is untitled and its content was explicitly `""` (or the caller
      passed the template itself); a missing content stays empty; a note
      has a title exactly when a truthy one was given, and an untitled note
      is today's daily note. */
  lemma CreateContent(patch: Patch, clock: Clock, freshId: string)
    ensures var n := Created(patch, clock, freshId);
            (n.content == DailyTemplate <==>
               (!Truthy(patch.title) && patch.content == Some("")) || patch.content == Some(DailyTemplate)) &&
            (patch.content.None? ==> n.content == "") &&
            (n.title.Some? <==> Truthy(patch.title)) &&
            (Truthy(patch.title) ==> n.id == freshId && n.title == patch.title) &&
            (!Truthy(patch.title) ==> n.id == Today(clock)) &&
            n.createdAt == clock.timestamp && n.updatedAt == clock.timestamp
  {
  }

  /** Updating a stored note writes the merged note back at the id's path
      and changes no other file; looking the id up again finds the merged
      note, even when the update changed its `id` field. */
  lemma UpdateThenGet(disk: Disk, dirs: Dirs, id: string, patch: Patch, now: string, later: string)
    requires UpdateResult(disk, dirs, id, patch, now).Ok?
    requires var (u, _) := UpdateResult(disk, dirs, id, patch, now).value;
             u.Some? && ValueSafe(u.value.id) && ValueSafe(u.value.createdAt) && ValueSafe(now) &&
             (Truthy(u.value.title) ==> ValueSafe(u.value.title.value))
    ensures var (u, after) := UpdateResult(disk, dirs, id, patch, now).value;
            after.Keys == disk.Keys &&
            (forall p :: p in disk && p != IdPath(dirs, id) ==> after[p] == disk[p]) &&
            u.value.updatedAt == now &&
            FoundById(after, dirs, id, later) ==
              Ok(Some(u.value.(title := Some(if Truthy(u.value.title) then u.value.title.value else ""))))
  {
    var u := UpdateResult(disk, dirs, id, patch, now).value.0.value;
    NoteRoundTrip(u, later);
  }

  /** An update of an id that has no file changes nothing. */
  lemma UpdateMissing(disk: Disk, dirs: Dirs, id: string, patch: Patch, now: string)
    requires IdPath(dirs, id) !in disk
    ensures UpdateResult(disk, dirs, id, patch, now) == Ok((None, disk))
  {
  }

  /** After a successful delete the id is gone, and the answer says whether
      it was there. */
  lemma DeleteThenGet(disk: Disk, dirs: Dirs, id: string, now: string, later: string)
    requires DeleteResult(disk, dirs, id, now).Ok?
    ensures var (found, after) := DeleteResult(disk, dirs, id, now).value;
            found == (IdPath(dirs, id) in disk) && after == disk - {IdPath(dirs, id)} &&
            FoundById(after, dirs, id, later) == Ok(None)
  {
  }

  /** `s.indexOf(c)`: the first position of `c`, or `-1`. */
  function IndexOf(s: string, c: char): (r: int)
    ensures -1 <= r < |s|
    ensures r == -1 <==> c !in s
    ensures r >= 0 ==> s[r] == c && c !in s[..r]
  {
    if s == [] then -1
    else if s[0] == c then 0
    else
      var r := IndexOf(s[1..], c);
      if r == -1 then -1
      else
        assert s[..r + 1] == [s[0]] + s[1..][..r];
        r + 1
  }

  /** `f.slice(0, f.indexOf("."))`: the name up to its first dot; a name
      without a dot loses its last character (`slice(0, -1)`). */
  function FileId(f: string): string {
    var k := IndexOf(f, '.');
    if k >= 0 then f[..k] else if f == [] then [] else f[..|f| - 1]
  }

  /** The id of a note file is its note's id. */
  lemma FileIdOfNote(id: string)
    requires '.' !in id
    ensures FileId(FileName(id)) == id
  {
    var f := FileName(id);
    assert f[|id|] == '.' && f[..|id|] == id;
    assert IndexOf(f, '.') == |id|;
  }

  /** A file name without a dot yields its name minus the last character. */
  lemma FileIdWithoutDot()
    ensures FileId("README") == "READM"
  {
    assert IndexOf("README", '.') == -1;
  }

  /** The ids `allInDir` looks up, in directory order: names starting with
      `.` are skipped. */
  function ListedIds(names: seq<string>): seq<string> {
    if names == [] then []
    else (if StartsWith(names[0], ".") then [] else [FileId(names[0])]) + ListedIds(names[1..])
  }

  /** Listing keeps directory order: the ids of two runs of names are the
      ids of each in turn. */
  lemma {:induction false} ListedIdsAppend(a: seq<string>, b: seq<string>)
    ensures ListedIds(a + b) == ListedIds(a) + ListedIds(b)
  {
    if a != [] {
      assert (a + b)[0] == a[0] && (a + b)[1..] == a[1..] + b;
      ListedIdsAppend(a[1..], b);
      var head := if StartsWith(a[0], ".") then [] else [FileId(a[0])];
      assert ListedIds(a) == head + ListedIds(a[1..]);
      assert ListedIds(a + b) == head + ListedIds(a[1..] + b);
      assert ListedIds(a + b) == head + (ListedIds(a[1..]) + ListedIds(b));
    } else {
      assert a + b == b;
    }
  }

  /** Two results loaded in turn: the first failure, or both lists one
      after the other. */
  function Both<T>(a: Result<seq<T>>, b: Result<seq<T>>): (r: Result<seq<T>>)
    ensures r.Ok? <==> a.Ok? && b.Ok?
    ensures r.Ok? ==> r.value == a.value + b.value
  {
    match a
    case Failure(e) => Failure(e)
    case Ok(x) =>
      match b
      case Failure(e) => Failure(e)
      case Ok(y) => Ok(x + y)
  }

  /** Loading nothing first changes nothing. */
  lemma BothEmpty<T>(b: Result<seq<T>>)
    ensures Both(Ok([]), b) == b
  {
    if b.Ok? {
      assert [] + b.value == b.value;
    }
  }

  /** Grouping does not matter: the first failure of three runs is the
      same, and so are the lists. */
  lemma BothAssoc<T>(a: Result<seq<T>>, b: Result<seq<T>>, c: Result<seq<T>>)
    ensures Both(Both(a, b), c) == Both(a, Both(b, c))
  {
    if a.Ok? && b.Ok? && c.Ok? {
      assert (a.value + b.value) + c.value == a.value + (b.value + c.value);
    }
  }

  /** `Promise.all(paths.map(load))`: every file loaded, or the first
      failure. */
  function LoadAll(disk: Disk, paths: seq<Path>, now: string): (r: Result<seq<Option<Note>>>)
    ensures r.Ok? ==> |r.value| == |paths|
  {
    if paths == [] then Ok([])
    else
      match Load(disk, paths[0], now)
      case Failure(e) => Failure(e)
      case Ok(n) =>
        match LoadAll(disk, paths[1..], now)
        case Failure(e) => Failure(e)
        case Ok(ns) => Ok([n] + ns)
  }

  /** `notes.filter(note => note !== undefined)` */
  function Present(ns: seq<Option<Note>>): (r: seq<Note>)
    ensures |r| <= |ns|
  {
    if ns == [] then []
    else (if ns[0].Some? then [ns[0].value] else []) + Present(ns[1..])
  }

  /** `NoteSummary` as `allInDir` builds it: the title and the id. */
  datatype Summary = Summary(title: Option<string>, id: string)

  function Summaries(ns: seq<Note>): (r: seq<Summary>)
    ensures |r| == |ns|
  {
    seq(|ns|, k requires 0 <= k < |ns| => Summary(ns[k].title, ns[k].id))
  }

  /** The paths `allInDir` loads: each listed id routed by `idToPath`. */
  function ListedPaths(dirs: Dirs, names: seq<string>): seq<Path> {
    var ids := ListedIds(names);
    seq(|ids|, k requires 0 <= k < |ids| => IdToPath(dirs, ids[k]))
  }

  /** `allInDir(dir)` given the directory's listing, before sorting: the
      summaries of the listed notes that exist, in listing order. */
  function Listing(disk: Disk, dirs: Dirs, names: seq<string>, now: string): Result<seq<Summary>> {
    match LoadAll(disk, ListedPaths(dirs, names), now)
    case Failure(e) => Failure(e)
    case Ok(ns) => Ok(Summaries(Present(ns)))
  }

  /** The paths of two runs of names are the paths of each in turn. */
  lemma ListedPathsAppend(dirs: Dirs, a: seq<string>, b: seq<string>)
    ensures ListedPaths(dirs, a + b) == ListedPaths(dirs, a) + ListedPaths(dirs, b)
  {
    ListedIdsAppend(a, b);
  }

  /** `load` on one path as a list of one note. */
  function LoadOneOf(disk: Disk, path: Path, now: string): Result<seq<Option<Note>>> {
    match Load(disk, path, now)
    case Failure(e) => Failure(e)
    case Ok(n) => Ok([n])
  }

  /** Loading one path is `load` on it. */
  lemma LoadAllOne(disk: Disk, path: Path, now: string)
    ensures LoadAll(disk, [path], now) == LoadOneOf(disk, path, now)
  {
    var ps := [path];
    assert ps[1..] == [];
    assert LoadAll(disk, ps[1..], now) == Ok([]);
    if Load(disk, path, now).Ok? {
      assert [Load(disk, path, now).value] + [] == [Load(disk, path, now).value];
    }
  }

  /** Loading two runs of paths is loading each in turn: the first failure
      in list order, or both lists of notes. */
  lemma {:induction false} LoadAllAppend(disk: Disk, p: seq<Path>, q: seq<Path>, now: string)
    ensures LoadAll(disk, p + q, now) == Both(LoadAll(disk, p, now), LoadAll(disk, q, now))
  {
    if p == [] {
      assert p + q == q;
      BothEmpty(LoadAll(disk, q, now));
    } else {
      assert (p + q)[0] == p[0] && (p + q)[1..] == p[1..] + q;
      LoadAllAppend(disk, p[1..], q, now);
      assert LoadAll(disk, p, now) == Both(LoadOneOf(disk, p[0], now), LoadAll(disk, p[1..], now));
      assert LoadAll(disk, p + q, now) == Both(LoadOneOf(disk, p[0], now), LoadAll(disk, p[1..] + q, now));
      BothAssoc(LoadOneOf(disk, p[0], now), LoadAll(disk, p[1..], now), LoadAll(disk, q, now));
    }
  }

  /** The filter keeps order: the notes present in two runs are those of
      each in turn. */
  lemma {:induction false} PresentAppend(a: seq<Option<Note>>, b: seq<Option<Note>>)
    ensures Present(a + b) == Present(a) + Present(b)
  {
    if a != [] {
      assert (a + b)[0] == a[0] && (a + b)[1..] == a[1..] + b;
      PresentAppend(a[1..], b);
    } else {
      assert a + b == b;
    }
  }

  /** The summaries of two runs of notes are those of each in turn. */
  lemma SummariesAppend(a: seq<Note>, b: seq<Note>)
    ensures Summaries(a + b) == Summaries(a) + Summaries(b)
  {
  }

  /** `allInDir` works name by name, in listing order: the listing of two
      runs of names is the first failure, or the summaries of each run in
      turn. */
  lemma ListingAppend(disk: Disk, dirs: Dirs, a: seq<string>, b: seq<string>, now: string)
    ensures Listing(disk, dirs, a + b, now) == Both(Listing(disk, dirs, a, now), Listing(disk, dirs, b, now))
  {
    ListedPathsAppend(dirs, a, b);
    LoadAllAppend(disk, ListedPaths(dirs, a), ListedPaths(dirs, b), now);
    var ra := LoadAll(disk, ListedPaths(dirs, a), now);
    var rb := LoadAll(disk, ListedPaths(dirs, b), now);
    if ra.Ok? && rb.Ok? {
      PresentAppend(ra.value, rb.value);
      SummariesAppend(Present(ra.value), Present(rb.value));
    }
  }

  /** What one name contributes: nothing for a hidden name or a missing
      file, the failure for a file that does not parse, and otherwise the
      summary of the note it holds. */
  lemma ListingOne(disk: Disk, dirs: Dirs, name: string, now: string)
    ensures Listing(disk, dirs, [name], now) ==
              if StartsWith(name, ".") then Ok([])
              else match Load(disk, IdToPath(dirs, FileId(name)), now)
                   case Failure(e) => Failure(e)
                   case Ok(None) => Ok([])
                   case Ok(Some(n)) => Ok([Summary(n.title, n.id)])
  {
    var names := [name];
    assert names[1..] == [];
    if StartsWith(name, ".") {
      assert ListedIds(names) == [];
      assert ListedPaths(dirs, names) == [];
    } else {
      var p := IdToPath(dirs, FileId(name));
      assert ListedIds(names) == [FileId(name)];
      assert ListedPaths(dirs, names) == [p];
      LoadAllOne(disk, p, now);
      match Load(disk, p, now)
      case Failure(e) =>
      case Ok(None) =>
        assert Present([None]) == [] + Present([]);
        assert Summaries([]) == [];
      case Ok(Some(n)) =>
        assert Present([Some(n)]) == [n] + Present([]);
        assert Present([Some(n)]) == [n];
        assert Summaries([n]) == [Summary(n.title, n.id)];
    }
  }

  /** A successful result of three runs around a single item splits into
      the first run, the item and the last run. */
  lemma BothAround<T>(a: Result<seq<T>>, x: T, c: Result<seq<T>>)
    requires Both(a, Both(Ok([x]), c)).Ok?
    ensures a.Ok? && c.Ok? && Both(a, Both(Ok([x]), c)).value == a.value + [x] + c.value
  {
  }

  /** The listing of the names around the `j`-th. */
  lemma ListingAround(disk: Disk, dirs: Dirs, names: seq<string>, j: nat, now: string)
    requires j < |names|
    ensures Listing(disk, dirs, names, now) ==
              Both(Listing(disk, dirs, names[..j], now),
                   Both(Listing(disk, dirs, [names[j]], now), Listing(disk, dirs, names[j + 1..], now)))
  {
    var before, here, after := names[..j], [names[j]], names[j + 1..];
    assert names == before + (here + after);
    ListingAppend(disk, dirs, before, here + after, now);
    ListingAppend(disk, dirs, here, after, now);
  }

  /** Every readable note among the listed names is listed, in listing
      order: the summary of a note file that is not hidden sits between
      the summaries of the names before it and those of the names after
      it. */
  lemma ListedNoteAppears(disk: Disk, dirs: Dirs, names: seq<string>, j: nat, n: Note, now: string)
    requires j < |names| && !StartsWith(names[j], ".")
    requires Load(disk, IdToPath(dirs, FileId(names[j])), now) == Ok(Some(n))
    requires Listing(disk, dirs, names, now).Ok?
    ensures Listing(disk, dirs, names[..j], now).Ok? && Listing(disk, dirs, names[j + 1..], now).Ok?
    ensures Listing(disk, dirs, names, now).value ==
              Listing(disk, dirs, names[..j], now).value + [Summary(n.title, n.id)] +
              Listing(disk, dirs, names[j + 1..], now).value
  {
    ListingAround(disk, dirs, names, j, now);
    ListingOne(disk, dirs, names[j], now);
    BothAround(Listing(disk, dirs, names[..j], now), Summary(n.title, n.id), Listing(disk, dirs, names[j + 1..], now));
  }

  /** The listing fails exactly when some listed name's file fails to
      parse. */
  lemma {:induction false} ListingFails(disk: Disk, dirs: Dirs, names: seq<string>, now: string)
    ensures Listing(disk, dirs, names, now).Failure? <==>
              exists j :: 0 <= j < |names| && !StartsWith(names[j], ".") &&
                          Load(disk, IdToPath(dirs, FileId(names[j])), now).Failure?
  {
    if names == [] {
      assert ListedPaths(dirs, names) == [];
    } else {
      assert names == [names[0]] + names[1..];
      ListingAppend(disk, dirs, [names[0]], names[1..], now);
      ListingOne(disk, dirs, names[0], now);
      ListingFails(disk, dirs, names[1..], now);
      assert forall j :: 0 < j < |names| ==> names[j] == names[1..][j - 1];
    }
  }

  /** At most one summary per listed name that is not hidden. */
  lemma AllInDirBound(disk: Disk, dirs: Dirs, names: seq<string>, now: string)
    requires Listing(disk, dirs, names, now).Ok?
    ensures |Listing(disk, dirs, names, now).value| <= |ListedIds(names)|
  {
  }

  /** The note a written note file reads back as. */
  function ReadBack(n: Note): Note {
    n.(title := Some(if Truthy(n.title) then n.title.value else ""))
  }

  /** A hidden file is skipped and a note file yields its note's id. */
  lemma ListedHiddenAndNote(hidden: string, id: string)
    requires '.' !in id && id != ""
    ensures ListedIds(["." + hidden, FileName(id)]) == [id]
  {
    FileIdOfNote(id);
    var names := ["." + hidden, FileName(id)];
    assert StartsWith(names[0], ".");
    assert !StartsWith(names[1], ".") by {
      assert names[1][0] == id[0];
    }
    assert names[1..][1..] == [];
    assert ListedIds(names[1..]) == [id] + ListedIds([]);
  }

  /** Loading one written note file. */
  lemma LoadOne(disk: Disk, path: Path, n: Note, now: string)
    requires path in disk && disk[path] == NoteText(n)
    requires ValueSafe(n.id) && ValueSafe(n.createdAt) && ValueSafe(n.updatedAt)
    requires Truthy(n.title) ==> ValueSafe(n.title.value)
    ensures LoadAll(disk, [path], now) == Ok([Some(ReadBack(n))])
  {
    NoteRoundTrip(n, now);
    var ps := [path];
    assert Load(disk, ps[0], now) == Ok(Some(ReadBack(n)));
    assert ps[1..] == [];
    assert LoadAll(disk, ps[1..], now) == Ok([]);
    assert [Some(ReadBack(n))] + [] == [Some(ReadBack(n))];
  }

  /** A stored note is listed under its own id and title, and a hidden file
      is not listed at all. (A note with the empty id is stored as `.md`,
      itself a hidden name.) */
  lemma AllInDirFindsNote(disk: Disk, dirs: Dirs, n: Note, hidden: string, now: string)
    requires '.' !in n.id && n.id != "" && IdToPath(dirs, n.id) in disk && disk[IdToPath(dirs, n.id)] == NoteText(n)
    requires ValueSafe(n.id) && ValueSafe(n.createdAt) && ValueSafe(n.updatedAt)
    requires Truthy(n.title) ==> ValueSafe(n.title.value)
    ensures Listing(disk, dirs, ["." + hidden, FileName(n.id)], now) ==
              Ok([Summary(Some(if Truthy(n.title) then n.title.value else ""), n.id)])
  {
    var names := ["." + hidden, FileName(n.id)];
    ListedHiddenAndNote(hidden, n.id);
    assert ListedPaths(dirs, names) == [IdToPath(dirs, n.id)];
    LoadOne(disk, IdToPath(dirs, n.id), n, now);
    var note := ReadBack(n);
    assert Present([Some(note)]) == [note] + Present([]);
    assert Present([Some(note)]) == [note];
    assert Summaries([note]) == [Summary(note.title, note.id)];
  }

  /** `Files`: the directories `init` sets and the disk the other
      operations read and write. */
  class Files {
    var dirs: Dirs
    var disk: Disk

    constructor (disk: Disk)
      ensures this.disk == disk && dirs == Dirs("", "")
    {
      this.disk := disk;
      dirs := Dirs("", "");
    }

    /** `init(daily, named)`; creating the directories is not modelled. */
    method Init(daily: string, named: string)
      modifies this
      ensures dirs == Dirs(daily, named) && disk == old(disk)
    {
      dirs := Dirs(daily, named);
    }

    method Create(patch: Patch, clock: Clock, freshId: string, write: bool) returns (n: Note)
      modifies this
      ensures (n, disk) == CreateResult(old(disk), dirs, patch, clock, freshId, write)
      ensures dirs == old(dirs)
    {
      var r := CreateResult(disk, dirs, patch, clock, freshId, write);
      n := r.0;
      disk := r.1;
    }

    method GetById(id: string, now: string) returns (r: Result<Option<Note>>)
      ensures r == FoundById(disk, dirs, id, now)
    {
      r := Load(disk, IdPath(dirs, id), now);
    }

    method Update(id: string, patch: Patch, now: string) returns (r: Result<Option<Note>>)
      modifies this
      ensures var u := UpdateResult(old(disk), dirs, id, patch, now);
              dirs == old(dirs) &&
              (u.Failure? ==> r == Failure(u.error) && disk == old(disk)) &&
              (u.Ok? ==> r == Ok(u.value.0) && disk == u.value.1)
    {
      var note := GetById(id, now);
      if note.Failure? {
        return Failure(note.error);
      }
      if note.value.None? {
        return Ok(None);
      }
      var updated := Merge(note.value.value, patch, now);
      disk := disk[IdPath(dirs, id) := NoteText(updated)];
      r := Ok(Some(updated));
    }

    method Delete(id: string, now: string) returns (r: Result<bool>)
      modifies this
      ensures var d := DeleteResult(old(disk), dirs, id, now);
              dirs == old(dirs) &&
              (d.Failure? ==> r == Failure(d.error) && disk == old(disk)) &&
              (d.Ok? ==> r == Ok(d.value.0) && disk == d.value.1)
    {
      var note := GetById(id, now);
      if note.Failure? {
        return Failure(note.error);
      }
      if note.value.None? {
        return Ok(false);
      }
      disk := disk - {IdPath(dirs, id)};
      r := Ok(true);
    }

    method AllInDir(names: seq<string>, now: string) returns (r: Result<seq<Summary>>)
      ensures r == Listing(disk, dirs, names, now)
    {
      r := Listing(disk, dirs, names, now);
    }
  }
}
