/** The agent's durable queue: a directory of numbered event files. */
module Queue {
  import opened Text

  const MAX_QUEUE_FILES: nat := 100000
  const MAX_FILE_AGE_SECONDS: int := 7 * 24 * 3600
  const UINT64: nat := 0x1_0000_0000_0000_0000

  datatype Event = Event(
    occurredAt: string,
    eventType: string,
    eventCategory: string,
    outcome: string,
    severity: string,
    actorType: string,
    actorId: string,
    originIp: string,
    metadata: string)

  /** What reading a file gives: an event, or bytes that are not one (a torn write, say). */
  datatype Content = Decodable(event: Event) | Undecodable

  datatype File = File(content: Content, modified: int)

  /** What becomes of one file write whose error the queue ignores. */
  datatype WriteResult = Written | Torn | Lost

  /** What the file system does while a batch is handled: whether the directory can be listed, which
      files cannot be read at the moment, and which cannot be removed. */
  datatype IO = IO(listed: bool, unreadable: set<string>, stuck: set<string>)

  /** How many entries a listing shows that misses some of them. */
  function Shown(entries: nat, missed: nat): nat { if missed <= entries then entries - missed else 0 }

  // ------------------------------------------------------------ file names

  /** %020d.json */
  function QueueName(n: nat): string { Padded(n, 20) + ".json" }

  /** filepath.Ext(name) == ".json" */
  predicate IsQueueFile(name: string) { |name| >= 5 && name[|name| - 5..] == ".json" }

  /** counter++ on a uint64. */
  function Incremented(counter: nat): nat { if counter + 1 == UINT64 then 0 else counter + 1 }

  lemma Width20()
    ensures UINT64 <= Power10(20)
  {
    assert Power10(4) == 10000;
    assert Power10(8) == 10000 * Power10(4);
    assert Power10(12) == 10000 * Power10(8);
    assert Power10(16) == 10000 * Power10(12);
    assert Power10(20) == 10000 * Power10(16);
  }

  /** File names sort as strings exactly as their 64-bit numbers sort; in particular they are distinct. */
  lemma NamesSortByNumber(m: nat, n: nat)
    requires m < UINT64 && n < UINT64
    ensures Less(QueueName(m), QueueName(n)) <==> m < n
    ensures QueueName(m) == QueueName(n) <==> m == n
    ensures |QueueName(m)| == 25 && QueueName(m)[20..] == ".json" && IsQueueFile(QueueName(m))
    ensures AllDigits(QueueName(m)[..20]) && NumberOf(QueueName(m)[..20]) == m
  {
    Width20();
    PaddedOrder(m, n, 20);
    LessSuffix(Padded(m, 20), Padded(n, 20), ".json");
    assert QueueName(m)[..20] == Padded(m, 20);
    if QueueName(m) == QueueName(n) {
      assert QueueName(m)[..20] == Padded(m, 20) && QueueName(n)[..20] == Padded(n, 20);
      PaddedInjective(m, n, 20);
    }
  }

  // --------------------------------------------------- sorted directory listing

  predicate Ascending(names: seq<string>) {
    forall i, j | 0 <= i < j < |names| :: Less(names[i], names[j])
  }

  function InsertName(name: string, names: seq<string>): (r: seq<string>)
    ensures forall x :: x in r <==> x == name || x in names
  {
    if names == [] || Less(name, names[0]) then [name] + names
    else [names[0]] + InsertName(name, names[1..])
  }

  lemma {:induction false} InsertNameAscending(name: string, names: seq<string>)
    requires Ascending(names) && name !in names
    ensures Ascending(InsertName(name, names))
  {
    if names != [] {
      if Less(name, names[0]) {
        forall i | 0 < i < |names| ensures Less(name, names[i]) { LessTransitive(name, names[0], names[i]); }
      } else {
        LessTotal(name, names[0]);
        InsertNameAscending(name, names[1..]);
        var r := InsertName(name, names[1..]);
        forall i | 0 <= i < |r| ensures Less(names[0], r[i]) {
          assert r[i] in r;
        }
      }
    }
  }

  /** os.ReadDir followed by the sort by name. */
  ghost function Listing(names: set<string>): (r: seq<string>)
    ensures Ascending(r) && forall x :: x in r <==> x in names
  {
    if names == {} then []
    else
      var x :| x in names;
      var rest := Listing(names - {x});
      InsertNameAscending(x, rest);
      InsertName(x, rest)
  }

  lemma {:induction false} AscendingUnique(a: seq<string>, b: seq<string>)
    requires Ascending(a) && Ascending(b) && forall x :: x in a <==> x in b
    ensures a == b
  {
    assert (a != [] ==> a[0] in b) && (b != [] ==> b[0] in a);
    if a != [] && b != [] {
      if a[0] != b[0] {
        LessAsymmetric(a[0], b[0]);
      }
      forall x ensures x in a[1..] <==> x in b[1..] {
        LessIrreflexive(a[0]);
        assert x in a <==> x == a[0] || x in a[1..];
        assert x in b <==> x == b[0] || x in b[1..];
      }
      AscendingUnique(a[1..], b[1..]);
    }
  }

  function QueueFiles(names: seq<string>): seq<string> {
    if names == [] then []
    else (if IsQueueFile(names[0]) then [names[0]] else []) + QueueFiles(names[1..])
  }

  lemma {:induction false} QueueFilesElements(names: seq<string>)
    ensures forall x :: x in QueueFiles(names) <==> x in names && IsQueueFile(x)
  {
    if names != [] { QueueFilesElements(names[1..]); }
  }

  /** At most n names; n = 0 sets no limit. */
  function Limited(names: seq<string>, n: nat): seq<string> {
    if n == 0 || |names| <= n then names else names[..n]
  }

  /** The names Peek(n) returns for a directory with these names. */
  ghost function Oldest(names: set<string>, n: nat): seq<string> { Limited(QueueFiles(Listing(names)), n) }

  lemma {:induction false} QueueFilesAscending(names: seq<string>)
    requires Ascending(names)
    ensures Ascending(QueueFiles(names))
  {
    if names != [] {
      QueueFilesAscending(names[1..]);
      QueueFilesElements(names[1..]);
      var r := QueueFiles(names[1..]);
      forall i | 0 <= i < |r| ensures Less(names[0], r[i]) { assert r[i] in r; }
    }
  }

  /** Peek returns the first n queue files of the directory in name order: each is there, they ascend,
      and any queue file left out comes after all of them. */
  lemma OldestFirst(names: set<string>, n: nat)
    ensures var r := Oldest(names, n);
            Ascending(r) && (forall x | x in r :: x in names && IsQueueFile(x)) && (n > 0 ==> |r| <= n) &&
            (forall x, y | x in names && IsQueueFile(x) && x !in r && y in r :: Less(y, x)) &&
            ((exists x :: x in names && IsQueueFile(x) && x !in r) ==> |r| == n)
  {
    var all := QueueFiles(Listing(names));
    QueueFilesAscending(Listing(names));
    QueueFilesElements(Listing(names));
    var r := Oldest(names, n);
    forall x | x in r ensures x in all {}
    forall x, y | x in names && IsQueueFile(x) && x !in r && y in r ensures Less(y, x) {
      assert x in all;
      var i :| 0 <= i < |all| && all[i] == x;
      var j :| 0 <= j < |r| && r[j] == y;
      assert forall k | 0 <= k < |r| :: r[k] in r && r[k] == all[k];
    }
  }

  // ------------------------------------------------------------- the queue

  class Queue {
    var files: map<string, File>
    var counter: nat
    var dropped: nat

    ghost predicate Valid()
      reads this
    {
      counter < UINT64
    }

    /** Reopens a directory; `nanos` is the clock, from which the counter is seeded. */
    constructor New(files: map<string, File>, nanos: nat, missed: nat)
      ensures Valid() && this.files == files && dropped == 0
      ensures counter == Seed(Shown(|files|, missed), nanos)
      ensures missed >= |files| ==> counter == 0
      ensures missed < |files| < 1_000_000_000 ==> counter == |files| - missed + nanos % 1_000_000
    {
      this.files := files;
      counter := 0;
      if Shown(|files|, missed) > 0 {
        counter := (Shown(|files|, missed) + nanos % 1000000) % UINT64;
      }
      dropped := 0;
    }

    method Enqueue(e: Event, now: string, clock: int, disk: WriteResult, missed: nat)
      requires Valid()
      modifies this
      ensures Valid()
      ensures Shown(|old(files)|, missed) >= 100_000 ==>
                files == old(files) && counter == old(counter) && dropped == old(dropped) + 1
      ensures Shown(|old(files)|, missed) < 100_000 ==>
                counter == (if old(counter) < 0xFFFF_FFFF_FFFF_FFFF then old(counter) + 1 else 0) &&
                dropped == old(dropped) &&
                files == Stored(old(files), counter, Stamped(e, now), clock, disk)
      ensures Shown(|old(files)|, missed) < 100_000 && disk == Written ==>
                QueueName(counter) in files &&
                files[QueueName(counter)].content ==
                  Decodable(if e.occurredAt != "" then e else e.(occurredAt := now))
    {
      var data := Stamped(e, now);
      if Shown(|files|, missed) >= MAX_QUEUE_FILES {
        dropped := dropped + 1;
        return;
      }
      counter := Incremented(counter);
      var name := QueueName(counter);
      match disk
      case Lost =>
      case Torn => files := files[name := File(Undecodable, clock)];
      case Written => files := files[name := File(Decodable(data), clock)];
    }

    /** Fails if the directory cannot be listed. */
    method Peek(n: nat, listed: bool) returns (names: Option<seq<string>>)
      ensures names == if listed then Some(Oldest(files.Keys, n)) else None
    {
      if !listed {
        return None;
      }
      var entries := SortNames(files.Keys);
      AscendingUnique(entries, Listing(files.Keys));
      var first := FirstQueueFiles(entries, n);
      return Some(first);
    }

    /** Reads up to n events. A file that cannot be read is passed over and stays; one that can be read
        but not decoded is removed, unless the removal fails. */
    method ReadBatch(n: nat, io: IO) returns (ok: bool, events: seq<Event>, kept: seq<string>)
      modifies this`files
      ensures ok == io.listed
      ensures !ok ==> files == old(files) && events == [] && kept == []
      ensures ok ==>
                var paths := Oldest(old(files.Keys), n);
                kept == Readable(old(files), paths, io) && Aligned(files, kept, events) &&
                files == old(files) - RemovedIn(old(files), paths, io)
      ensures ok ==>
                forall p | p in old(files) ::
                  p !in files <==>
                    p in Oldest(old(files.Keys), n) && old(files)[p].content.Undecodable? &&
                    p !in io.unreadable && p !in io.stuck
    {
      events, kept := [], [];
      var peeked := Peek(n, io.listed);
      if peeked.None? {
        return false, [], [];
      }
      ok := true;
      var paths := peeked.value;
      OldestFirst(files.Keys, n);
      ghost var before := files;
      assert paths[..0] == [];
      for i := 0 to |paths|
        invariant BatchRead(before, files, paths[..i], io, events, kept)
      {
        var p := paths[i];
        NextPath(paths, i);
        BatchReadStep(before, files, paths[..i], p, io, events, kept);
        if p !in io.unreadable {
          match files[p].content
          case Undecodable =>
            if p !in io.stuck {
              files := files - {p};
            }
          case Decodable(e) => events, kept := events + [e], kept + [p];
        }
      }
      assert paths[..|paths|] == paths;
    }

    /** Removes the given files, except those whose removal fails. */
    method Ack(paths: seq<string>, stuck: set<string>)
      modifies this`files
      ensures files == old(files) - ((set p | p in paths) - stuck)
    {
      for i := 0 to |paths|
        invariant files == old(files) - ((set p | p in paths[..i]) - stuck)
      {
        if paths[i] !in stuck {
          files := files - {paths[i]};
        }
        assert paths[..i + 1] == paths[..i] + [paths[i]];
      }
      assert paths[..|paths|] == paths;
    }

    /** Removes the files older than seven days, except those that are not listed, whose age cannot be
        told or whose removal fails. */
    method PurgeStale(clock: int, spared: set<string>)
      modifies this`files
      ensures files == Unpurged(old(files), clock, spared)
      ensures forall x | x in old(files) ::
                x in files <==> x in spared || clock - old(files)[x].modified <= 7 * 24 * 60 * 60
    {
      var cutoff := clock - MAX_FILE_AGE_SECONDS;
      var entries := files.Keys;
      while entries != {}
        invariant entries <= files.Keys <= old(files).Keys
        invariant forall x | x in files :: files[x] == old(files)[x]
        invariant forall x | x in old(files) && x !in entries ::
                    x in files <==> x in spared || old(files)[x].modified >= cutoff
        decreases entries
      {
        var e :| e in entries;
        if e !in spared && files[e].modified < cutoff {
          files := files - {e};
        }
        entries := entries - {e};
      }
    }
  }

  predicate Stale(f: File, clock: int) { f.modified < clock - MAX_FILE_AGE_SECONDS }

  function Unpurged(files: map<string, File>, clock: int, spared: set<string>): map<string, File> {
    map x | x in files && (x in spared || !Stale(files[x], clock)) :: files[x]
  }

  /** The directory after the write of file number n. */
  function Stored(files: map<string, File>, n: nat, e: Event, clock: int, disk: WriteResult): map<string, File> {
    match disk
    case Lost => files
    case Torn => files[QueueName(n) := File(Undecodable, clock)]
    case Written => files[QueueName(n) := File(Decodable(e), clock)]
  }

  function Stamped(e: Event, now: string): Event {
    if e.occurredAt == "" then e.(occurredAt := now) else e
  }

  /** The counter a reopened queue starts from: the number of files plus the sub-millisecond clock. */
  function Seed(fileCount: nat, nanos: nat): nat {
    if fileCount > 0 then (fileCount + nanos % 1000000) % UINT64 else 0
  }

  predicate Reads(files: map<string, File>, p: string, io: IO) {
    p in files && p !in io.unreadable && files[p].content.Decodable?
  }

  /** Files removed as corrupt. */
  predicate Removes(files: map<string, File>, p: string, io: IO) {
    p in files && p !in io.unreadable && files[p].content.Undecodable? && p !in io.stuck
  }

  function Readable(files: map<string, File>, paths: seq<string>, io: IO): seq<string> {
    if paths == [] then []
    else (if Reads(files, paths[0], io) then [paths[0]] else []) + Readable(files, paths[1..], io)
  }

  lemma {:induction false} ReadableStep(files: map<string, File>, paths: seq<string>, p: string, io: IO)
    ensures Readable(files, paths + [p], io)
         == Readable(files, paths, io) + (if Reads(files, p, io) then [p] else [])
    decreases |paths|
  {
    if paths == [] {
      assert [p][1..] == [];
    } else {
      assert (paths + [p])[1..] == paths[1..] + [p];
      ReadableStep(files, paths[1..], p, io);
    }
  }

  /** Event i was read from file i, which is still there. */
  predicate Aligned(files: map<string, File>, kept: seq<string>, events: seq<Event>) {
    && |events| == |kept|
    && forall i | 0 <= i < |kept| :: kept[i] in files && files[kept[i]].content == Decodable(events[i])
  }

  /** The batch loop has handled the paths `done`. */
  ghost predicate BatchRead(before: map<string, File>, files: map<string, File>, done: seq<string>, io: IO,
                            events: seq<Event>, kept: seq<string>)
  {
    kept == Readable(before, done, io) && Aligned(files, kept, events) && files == before - RemovedIn(before, done, io)
  }

  lemma BatchReadStep(before: map<string, File>, files: map<string, File>, done: seq<string>, p: string, io: IO,
                      events: seq<Event>, kept: seq<string>)
    requires BatchRead(before, files, done, io, events, kept) && p in before && p !in done
    ensures p in files
    ensures Removes(files, p, io) ==> BatchRead(before, files - {p}, done + [p], io, events, kept)
    ensures Reads(files, p, io) ==>
              BatchRead(before, files, done + [p], io, events + [files[p].content.event], kept + [p])
    ensures !Removes(files, p, io) && !Reads(files, p, io) ==> BatchRead(before, files, done + [p], io, events, kept)
  {
    ReadableStep(before, done, p, io);
    RemovedStep(before, done, p, io);
    ReadableReads(before, done, io);
    if Removes(files, p, io) {
      AlignedAfterRemoval(files, kept, events, p);
      assert files - {p} == before - RemovedIn(before, done + [p], io);
    } else if Reads(files, p, io) {
      AlignedAfterRead(files, kept, events, p);
    }
  }

  lemma AlignedAfterRemoval(files: map<string, File>, kept: seq<string>, events: seq<Event>, p: string)
    requires Aligned(files, kept, events) && p !in kept
    ensures Aligned(files - {p}, kept, events)
  {
    assert forall i | 0 <= i < |kept| :: kept[i] in kept;
  }

  lemma AlignedAfterRead(files: map<string, File>, kept: seq<string>, events: seq<Event>, p: string)
    requires Aligned(files, kept, events) && p in files && files[p].content.Decodable?
    ensures Aligned(files, kept + [p], events + [files[p].content.event])
  {
  }

  ghost function RemovedIn(files: map<string, File>, paths: seq<string>, io: IO): set<string> {
    set x | x in paths && Removes(files, x, io)
  }

  lemma RemovedStep(files: map<string, File>, paths: seq<string>, p: string, io: IO)
    ensures RemovedIn(files, paths + [p], io)
         == RemovedIn(files, paths, io) + (if Removes(files, p, io) then {p} else {})
  {
  }

  lemma NextPath(paths: seq<string>, i: nat)
    requires i < |paths| && Ascending(paths)
    ensures paths[i] in paths && paths[i] !in paths[..i] && paths[..i + 1] == paths[..i] + [paths[i]]
  {
    LessIrreflexive(paths[i]);
  }

  lemma {:induction false} ReadableReads(files: map<string, File>, paths: seq<string>, io: IO)
    ensures forall x :: x in Readable(files, paths, io) <==> x in paths && Reads(files, x, io)
  {
    if paths != [] { ReadableReads(files, paths[1..], io); }
  }

  lemma QueueFilesStep(entries: seq<string>, i: nat, names: seq<string>)
    requires i < |entries|
    ensures names + QueueFiles(entries[i..])
         == (if IsQueueFile(entries[i]) then names + [entries[i]] else names) + QueueFiles(entries[i + 1..])
  {
    assert entries[i..][0] == entries[i] && entries[i..][1..] == entries[i + 1..];
  }

  /** Peek's loop over the sorted entries. */
  method FirstQueueFiles(entries: seq<string>, n: nat) returns (names: seq<string>)
    ensures names == Limited(QueueFiles(entries), n)
  {
    ghost var all := QueueFiles(entries);
    names := [];
    assert entries[0..] == entries;
    for i := 0 to |entries|
      invariant names + QueueFiles(entries[i..]) == all
      invariant n > 0 ==> |names| < n
    {
      QueueFilesStep(entries, i, names);
      if IsQueueFile(entries[i]) {
        names := names + [entries[i]];
        if |names| == n {
          assert names == all[..n];
          return;
        }
      }
    }
  }

  /** The library sort behind the directory listing. */
  method SortNames(names: set<string>) returns (r: seq<string>)
    ensures Ascending(r) && forall x :: x in r <==> x in names
  {
    r := [];
    var todo := names;
    while todo != {}
      invariant todo <= names && Ascending(r)
      invariant forall x :: x in r <==> x in names - todo
      decreases todo
    {
      var x :| x in todo;
      InsertNameAscending(x, r);
      r := InsertName(x, r);
      todo := todo - {x};
    }
  }
}
