/** The other copy of the note store (`Files` in `src/files.ts`). It shares
    the file format, the routing and the merge with the server copy, and
    differs in three places: `init` derives both directories from one root,
    `create` writes the template into its argument instead of the new note,
    and `load` answers a missing file by creating (and writing) today's
    daily note, so `getById`, `update`, `delete` and `allInDir` never see a
    missing note. */
module NoteStoreSrc {
  import opened Wrappers
  import opened JsStrings
  import opened NoteFormat
  import Store = NoteStore

  /** `init(path)`: `join(path, "daily")` and `join(path, "named")`, with
      `/` as the separator. */
  function InitDirs(root: string): (dirs: Store.Dirs)
    ensures dirs.daily != dirs.named
  {
    assert (root + "/daily")[|root| + 1] == 'd' && (root + "/named")[|root| + 1] == 'n';
    Store.Dirs(root + "/daily", root + "/named")
  }

  /** `dailyTemplate`: the trimmed template of this copy. */
  const DailyTemplate: string := "# todo \n\n\n#links"

  /** The `Partial<Note>` object `create` receives; `create` may write its
      `content` field. */
  class PartialNote {
    var id: Option<string>
    var title: Option<string>
    var content: Option<string>
    var createdAt: Option<string>
    var updatedAt: Option<string>

    constructor (p: Store.Patch)
      ensures Fields() == p
    {
      id, title, content, createdAt, updatedAt := p.id, p.title, p.content, p.createdAt, p.updatedAt;
    }

    function Fields(): Store.Patch
      reads this
    {
      Store.Patch(id, title, content, createdAt, updatedAt)
    }
  }

  /** The note this copy's `create` returns: as the server's, but its
      content is always `note.content ?? ""`. */
  function Created(patch: Store.Patch, clock: Store.Clock, freshId: string): Note {
    var n := Note(Store.Today(clock), None, patch.content.GetOr(""), clock.timestamp, clock.timestamp);
    if Truthy(patch.title) then n.(title := patch.title, id := freshId) else n
  }

  /** The argument after `create`: an untitled argument with a falsy content
      gets the template as its content. */
  function Mutated(patch: Store.Patch): Store.Patch {
    if !Truthy(patch.title) && !Truthy(patch.content) then patch.(content := Some(DailyTemplate)) else patch
  }

  /** `create(note, write)`. */
  method Create(note: PartialNote, disk: Store.Disk, dirs: Store.Dirs, clock: Store.Clock, freshId: string, write: bool)
    returns (n: Note, after: Store.Disk)
    modifies note
    ensures n == Created(old(note.Fields()), clock, freshId)
    ensures note.Fields() == Mutated(old(note.Fields()))
    ensures after == if write then disk[Store.CreatedPath(dirs, old(note.Fields()), n) := NoteText(n)] else disk
  {
    var timestamp := clock.timestamp;
    n := Note(Store.Today(clock), None, note.content.GetOr(""), timestamp, timestamp);
    if note.title.Some? && note.title.value != "" {
      n := n.(title := note.title, id := freshId);
    } else {
      if !(note.content.Some? && note.content.value != "") {
        note.content := Some(DailyTemplate);
      }
    }
    var file := if note.title.Some? && note.title.value != "" then Store.Path(dirs.named, Store.FileName(n.id))
                else Store.Path(dirs.daily, Store.FileName(n.id));
    after := if write then disk[file := NoteText(n)] else disk;
  }

  /** The template never reaches the returned note, nor its file: the
      content is whatever the caller passed, or `""`, where the server copy
      returns (and writes) the template for an untitled note with content
      `""`. */
  lemma TemplateNeverReturned(patch: Store.Patch, clock: Store.Clock, freshId: string)
    ensures Created(patch, clock, freshId).content == patch.content.GetOr("")
    ensures !Truthy(patch.title) && patch.content == Some("") ==>
              Created(patch, clock, freshId).content == "" &&
              Store.Created(patch, clock, freshId).content == Store.DailyTemplate &&
              Mutated(patch).content == Some(DailyTemplate)
  {
  }

  /** What `create({})` returns: today's daily note, empty. */
  function EmptyDaily(clock: Store.Clock): Note {
    Created(Store.Empty, clock, "")
  }

  /** Where `create({})` writes. */
  function TodayPath(dirs: Store.Dirs, clock: Store.Clock): Store.Path {
    Store.Path(dirs.daily, Store.FileName(Store.Today(clock)))
  }

  /** `load(path)`: a missing file is answered by `create({})`, which writes
      today's empty daily note; an existing file is parsed. */
  function LoadResult(disk: Store.Disk, dirs: Store.Dirs, path: Store.Path, clock: Store.Clock, now: string)
    : (Result<Note>, Store.Disk)
  {
    if path !in disk then (Ok(EmptyDaily(clock)), disk[TodayPath(dirs, clock) := NoteText(EmptyDaily(clock))])
    else (ReadNote(disk[path], now), disk)
  }

  /** Loading a missing file overwrites today's daily note with an empty
      one, whatever it held. */
  lemma LoadMissingOverwritesToday(disk: Store.Disk, dirs: Store.Dirs, path: Store.Path, clock: Store.Clock, now: string)
    requires path !in disk
    ensures var (r, after) := LoadResult(disk, dirs, path, clock, now);
            r == Ok(Note(Store.Today(clock), None, "", clock.timestamp, clock.timestamp)) &&
            after[TodayPath(dirs, clock)] == NoteText(EmptyDaily(clock)) &&
            (TodayPath(dirs, clock) in disk && disk[TodayPath(dirs, clock)] != NoteText(EmptyDaily(clock)) ==>
               after[TodayPath(dirs, clock)] != disk[TodayPath(dirs, clock)])
  {
  }

  /** `getById(id)` */
  function FoundById(disk: Store.Disk, dirs: Store.Dirs, id: string, clock: Store.Clock, now: string): (Result<Note>, Store.Disk) {
    LoadResult(disk, dirs, Store.IdPath(dirs, id), clock, now)
  }

  /** `update(id, updates)`: the looked-up note (possibly today's new one)
      merged and written at the id's path. */
  function UpdateResult(disk: Store.Disk, dirs: Store.Dirs, id: string, patch: Store.Patch, clock: Store.Clock, now: string)
    : (Result<Note>, Store.Disk)
  {
    var (r, d) := FoundById(disk, dirs, id, clock, now);
    match r
    case Failure(e) => (Failure(e), d)
    case Ok(note) =>
      var u := Store.Merge(note, patch, now);
      (Ok(u), d[Store.IdPath(dirs, id) := NoteText(u)])
  }

  /** Updating an id with no file does not answer `undefined`: it writes
      today's empty note, then a merged copy of it under the requested id. */
  lemma UpdateMissingWrites(disk: Store.Disk, dirs: Store.Dirs, id: string, patch: Store.Patch, clock: Store.Clock, now: string)
    requires Store.IdPath(dirs, id) !in disk
    ensures var (r, after) := UpdateResult(disk, dirs, id, patch, clock, now);
            var u := Store.Merge(EmptyDaily(clock), patch, now);
            r == Ok(u) && Store.IdPath(dirs, id) in after && after[Store.IdPath(dirs, id)] == NoteText(u) &&
            TodayPath(dirs, clock) in after
  {
  }

  /** `delete(id)`: after the lookup the file at the id's path is removed;
      `unlink` of a missing file throws. */
  function DeleteResult(disk: Store.Disk, dirs: Store.Dirs, id: string, clock: Store.Clock, now: string)
    : (Result<bool>, Store.Disk)
  {
    var (r, d) := FoundById(disk, dirs, id, clock, now);
    var p := Store.IdPath(dirs, id);
    if r.Failure? then (Failure(r.error), d)
    else if p !in d then (Failure("ENOENT"), d)
    else (Ok(true), d - {p})
  }

  /** Deleting an id with no file (other than today's) throws, after
      writing today's empty daily note. */
  lemma DeleteMissingThrows(disk: Store.Disk, dirs: Store.Dirs, id: string, clock: Store.Clock, now: string)
    requires Store.IdPath(dirs, id) !in disk && Store.IdPath(dirs, id) != TodayPath(dirs, clock)
    ensures var (r, after) := DeleteResult(disk, dirs, id, clock, now);
            r.Failure? && after == disk[TodayPath(dirs, clock) := NoteText(EmptyDaily(clock))]
  {
  }

  /** A stored note is deleted and the answer is `true`; nothing else
      changes. */
  lemma DeleteStored(disk: Store.Disk, dirs: Store.Dirs, id: string, clock: Store.Clock, now: string)
    requires Store.IdPath(dirs, id) in disk && ReadNote(disk[Store.IdPath(dirs, id)], now).Ok?
    ensures DeleteResult(disk, dirs, id, clock, now) == (Ok(true), disk - {Store.IdPath(dirs, id)})
  {
  }

  /** One load's result as a list of one note. */
  function One(r: Result<Note>): Result<seq<Note>> {
    match r
    case Failure(e) => Failure(e)
    case Ok(n) => Ok([n])
  }

  /** `Promise.all(paths.map(load))`: every load runs, whatever the others
      answer, in list order, each seeing the files the earlier ones wrote;
      the answer is the first failure in list order, or every note. */
  function LoadAll(disk: Store.Disk, dirs: Store.Dirs, paths: seq<Store.Path>, clock: Store.Clock, now: string)
    : (r: (Result<seq<Note>>, Store.Disk))
    ensures r.0.Ok? ==> |r.0.value| == |paths|
    decreases |paths|
  {
    if paths == [] then (Ok([]), disk)
    else
      var (first, d) := LoadResult(disk, dirs, paths[0], clock, now);
      var (rest, d') := LoadAll(d, dirs, paths[1..], clock, now);
      (Store.Both(One(first), rest), d')
  }

  /** Some path has no file on `disk`. */
  predicate AnyMissing(disk: Store.Disk, paths: seq<Store.Path>) {
    exists j :: 0 <= j < |paths| && paths[j] !in disk
  }

  /** The files after `Promise.all(paths.map(load))`: today's empty daily
      note is written exactly when some path had no file, even when another
      load failed; nothing else changes. */
  lemma {:induction false} LoadAllDisk(disk: Store.Disk, dirs: Store.Dirs, paths: seq<Store.Path>, clock: Store.Clock, now: string)
    ensures LoadAll(disk, dirs, paths, clock, now).1 ==
              if AnyMissing(disk, paths) then disk[TodayPath(dirs, clock) := NoteText(EmptyDaily(clock))] else disk
    decreases |paths|
  {
    if paths != [] {
      var d := LoadResult(disk, dirs, paths[0], clock, now).1;
      LoadAllDisk(d, dirs, paths[1..], clock, now);
      assert forall j :: 0 < j < |paths| ==> paths[j] == paths[1..][j - 1];
      if paths[0] !in disk {
        assert AnyMissing(disk, paths);
      } else if AnyMissing(disk, paths[1..]) {
        var j :| 0 <= j < |paths[1..]| && paths[1..][j] !in disk;
        assert paths[j + 1] !in disk;
      }
    }
  }

  /** Loading two runs of paths is loading the first, then the second on
      the files the first left: the first failure in list order, or both
      lists of notes. */
  lemma {:induction false} LoadAllAppend(disk: Store.Disk, dirs: Store.Dirs, p: seq<Store.Path>, q: seq<Store.Path>,
                                         clock: Store.Clock, now: string)
    ensures var (a, d) := LoadAll(disk, dirs, p, clock, now);
            var (b, d') := LoadAll(d, dirs, q, clock, now);
            LoadAll(disk, dirs, p + q, clock, now) == (Store.Both(a, b), d')
    decreases |p|
  {
    if p == [] {
      assert p + q == q;
      Store.BothEmpty(LoadAll(disk, dirs, q, clock, now).0);
    } else {
      assert (p + q)[0] == p[0] && (p + q)[1..] == p[1..] + q;
      var (first, d1) := LoadResult(disk, dirs, p[0], clock, now);
      LoadAllAppend(d1, dirs, p[1..], q, clock, now);
      var (a, d) := LoadAll(d1, dirs, p[1..], clock, now);
      Store.BothAssoc(One(first), a, LoadAll(d, dirs, q, clock, now).0);
    }
  }

  /** The k-th note is what `load` gives for the k-th path on the files the
      loads before it left. */
  lemma LoadAllAt(disk: Store.Disk, dirs: Store.Dirs, paths: seq<Store.Path>, clock: Store.Clock, now: string, k: nat)
    requires k < |paths| && LoadAll(disk, dirs, paths, clock, now).0.Ok?
    ensures var before := LoadAll(disk, dirs, paths[..k], clock, now).1;
            var n := LoadResult(before, dirs, paths[k], clock, now).0;
            n.Ok? && LoadAll(disk, dirs, paths, clock, now).0.value[k] == n.value
  {
    assert paths == paths[..k] + paths[k..];
    LoadAllAppend(disk, dirs, paths[..k], paths[k..], clock, now);
    var (a, before) := LoadAll(disk, dirs, paths[..k], clock, now);
    assert paths[k..][0] == paths[k];
  }

  /** `allInDir(dir)` given the directory's listing: a summary for every
      listed name, in listing order, with no sort. */
  function Listing(disk: Store.Disk, dirs: Store.Dirs, names: seq<string>, clock: Store.Clock, now: string)
    : (Result<seq<Store.Summary>>, Store.Disk)
  {
    var (r, d) := LoadAll(disk, dirs, Store.ListedPaths(dirs, names), clock, now);
    match r
    case Failure(e) => (Failure(e), d)
    case Ok(ns) => (Ok(Store.Summaries(ns)), d)
  }

  /** The k-th summary is the title and id of the note `load` gives for the
      k-th listed path, on the files the loads before it left. */
  lemma ListingAt(disk: Store.Disk, dirs: Store.Dirs, names: seq<string>, clock: Store.Clock, now: string, k: nat)
    requires k < |Store.ListedIds(names)| && Listing(disk, dirs, names, clock, now).0.Ok?
    ensures var paths := Store.ListedPaths(dirs, names);
            var before := LoadAll(disk, dirs, paths[..k], clock, now).1;
            var n := LoadResult(before, dirs, paths[k], clock, now).0;
            n.Ok? && Listing(disk, dirs, names, clock, now).0.value[k] == Store.Summary(n.value.title, n.value.id)
  {
    LoadAllAt(disk, dirs, Store.ListedPaths(dirs, names), clock, now, k);
  }

  /** A stored file other than today's daily note is listed, at its place
      in the listing, by the title and id its header gives, whatever the
      loads before it wrote. */
  lemma ListedStoredNote(disk: Store.Disk, dirs: Store.Dirs, names: seq<string>, clock: Store.Clock, now: string, k: nat)
    requires k < |Store.ListedIds(names)| && Listing(disk, dirs, names, clock, now).0.Ok?
    requires var p := Store.ListedPaths(dirs, names)[k]; p in disk && p != TodayPath(dirs, clock)
    ensures var p := Store.ListedPaths(dirs, names)[k];
            var n := ReadNote(disk[p], now);
            n.Ok? && Listing(disk, dirs, names, clock, now).0.value[k] == Store.Summary(n.value.title, n.value.id)
  {
    var paths := Store.ListedPaths(dirs, names);
    ListingAt(disk, dirs, names, clock, now, k);
    LoadAllDisk(disk, dirs, paths[..k], clock, now);
  }

  /** A listed name with no file (other than today's) is listed as today's
      empty daily note: untitled, under today's id. */
  lemma ListedMissingNote(disk: Store.Disk, dirs: Store.Dirs, names: seq<string>, clock: Store.Clock, now: string, k: nat)
    requires k < |Store.ListedIds(names)| && Listing(disk, dirs, names, clock, now).0.Ok?
    requires var p := Store.ListedPaths(dirs, names)[k]; p !in disk && p != TodayPath(dirs, clock)
    ensures Listing(disk, dirs, names, clock, now).0.value[k] == Store.Summary(None, Store.Today(clock))
  {
    var paths := Store.ListedPaths(dirs, names);
    ListingAt(disk, dirs, names, clock, now, k);
    LoadAllDisk(disk, dirs, paths[..k], clock, now);
  }

  /** Listing a directory writes today's empty daily note exactly when a
      listed name has no file, whether or not the listing fails. */
  lemma ListingDisk(disk: Store.Disk, dirs: Store.Dirs, names: seq<string>, clock: Store.Clock, now: string)
    ensures Listing(disk, dirs, names, clock, now).1 ==
              if AnyMissing(disk, Store.ListedPaths(dirs, names))
              then disk[TodayPath(dirs, clock) := NoteText(EmptyDaily(clock))] else disk
  {
    LoadAllDisk(disk, dirs, Store.ListedPaths(dirs, names), clock, now);
  }

  /** Nothing is filtered out: every name that is not hidden gets a
      summary. */
  lemma ListingKeepsEveryName(disk: Store.Disk, dirs: Store.Dirs, names: seq<string>, clock: Store.Clock, now: string)
    requires Listing(disk, dirs, names, clock, now).0.Ok?
    ensures |Listing(disk, dirs, names, clock, now).0.value| == |Store.ListedIds(names)|
  {
  }
}
