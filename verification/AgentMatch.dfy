/** The step system of the agent and the operations of the queue and the shipper do the same to a
    directory: every operation, run without interruption, is a run of steps. The names of the files are a
    parameter of all but the last section, where they are those of the queue. */
module AgentMatch {
  import opened Text
  import opened Queue
  import opened Shipper
  import opened AgentRun

  type Naming = nat -> string

  ghost predicate Distinct(N: Naming) {
    forall m: nat, n: nat | m < UINT64 && n < UINT64 && N(m) == N(n) :: m == n
  }

  /** The directory holds, under the name of each number, that number's file, and nothing else. */
  ghost predicate Mirrors(N: Naming, files: map<string, File>, dir: map<nat, Entry>) {
    && (forall n | n in dir :: n < UINT64)
    && files.Keys == (set n | n in dir :: N(n))
    && (forall n | n in dir :: N(n) in files && files[N(n)] == dir[n].file)
  }

  lemma Named(N: Naming, files: map<string, File>, dir: map<nat, Entry>, n: nat)
    requires Distinct(N) && Mirrors(N, files, dir) && n < UINT64
    ensures N(n) in files <==> n in dir
    ensures n in dir ==> files[N(n)] == dir[n].file
  {
    if N(n) in files.Keys {
      var m :| m in dir && N(m) == N(n);
      assert m == n;
    }
  }

  lemma MirrorsWithout(N: Naming, files: map<string, File>, dir: map<nat, Entry>, n: nat)
    requires Distinct(N) && Mirrors(N, files, dir) && n < UINT64
    ensures Mirrors(N, files - {N(n)}, dir - {n})
  {
    var rest := files - {N(n)};
    assert rest.Keys == (set m | m in dir - {n} :: N(m)) by {
      forall x | x in rest.Keys ensures x in set m | m in dir - {n} :: N(m) {
        var m :| m in dir && N(m) == x;
      }
    }
  }

  lemma MirrorsWith(N: Naming, files: map<string, File>, dir: map<nat, Entry>, n: nat, e: Entry)
    requires Distinct(N) && Mirrors(N, files, dir) && n < UINT64
    ensures Mirrors(N, files[N(n) := e.file], dir[n := e])
  {
    var more, after := files[N(n) := e.file], dir[n := e];
    assert after.Keys == dir.Keys + {n};
    assert more.Keys == files.Keys + {N(n)};
    NamesWith(N, dir.Keys, n);
    assert (set m | m in after :: N(m)) == NamesOf(N, after.Keys) && (set m | m in dir :: N(m)) == NamesOf(N, dir.Keys);
  }

  ghost function NamesOf(N: Naming, numbers: set<nat>): set<string> { set n | n in numbers :: N(n) }

  lemma NamesWith(N: Naming, numbers: set<nat>, n: nat)
    ensures NamesOf(N, numbers + {n}) == NamesOf(N, numbers) + {N(n)}
  {
  }

  lemma {:induction false} MirrorsSize(N: Naming, files: map<string, File>, dir: map<nat, Entry>)
    requires Distinct(N) && Mirrors(N, files, dir)
    ensures |files| == |dir|
    decreases |dir|
  {
    if dir.Keys == {} {
      assert files.Keys == {};
    } else {
      var n :| n in dir.Keys;
      MirrorsWithout(N, files, dir, n);
      OneLess(dir, n);
      OneLess(files, N(n));
      MirrorsSize(N, files - {N(n)}, dir - {n});
    }
  }

  lemma OneLess<K, V>(m: map<K, V>, k: K)
    requires k in m
    ensures |m - {k}| == |m| - 1
  {
    assert m.Keys == (m - {k}).Keys + {k};
    assert |m.Keys| == |(m - {k}).Keys| + 1;
  }

  // ------------------------------------------------------------------ purge

  /** One purge step for each number that is not spared. */
  function PurgeSteps(N: Naming, numbers: seq<nat>, clock: int, spared: set<string>): seq<Step> {
    if numbers == [] then []
    else
      var n := |numbers| - 1;
      PurgeSteps(N, numbers[..n], clock, spared) +
      if N(numbers[n]) in spared then [] else [PurgeFile(numbers[n], clock)]
  }

  predicate Stays(N: Naming, n: nat, f: File, numbers: seq<nat>, clock: int, spared: set<string>) {
    n !in numbers || N(n) in spared || !Stale(f, clock)
  }

  ghost predicate Purged(N: Naming, d: map<nat, Entry>, t: map<nat, Entry>, numbers: seq<nat>, clock: int,
                         spared: set<string>)
  {
    && (forall n :: n in t <==> n in d && Stays(N, n, d[n].file, numbers, clock, spared))
    && (forall n | n in t :: t[n] == d[n])
  }

  lemma PurgedOne(N: Naming, d: map<nat, Entry>, s: Agent, numbers: seq<nat>, n: nat, clock: int, spared: set<string>)
    requires Purged(N, d, s.store.dir, numbers, clock, spared)
    ensures N(n) in spared ==> Purged(N, d, s.store.dir, numbers + [n], clock, spared)
    ensures N(n) !in spared ==> Purged(N, d, DoPurge(s, n, clock).store.dir, numbers + [n], clock, spared)
  {
    assert forall m :: m in numbers + [n] <==> m in numbers || m == n;
  }

  lemma {:induction false} PurgedAll(N: Naming, s: Agent, numbers: seq<nat>, clock: int, spared: set<string>)
    ensures Purged(N, s.store.dir, Run(s, PurgeSteps(N, numbers, clock, spared)).store.dir, numbers, clock, spared)
    decreases |numbers|
  {
    if numbers != [] {
      var k := |numbers| - 1;
      var before := PurgeSteps(N, numbers[..k], clock, spared);
      PurgedAll(N, s, numbers[..k], clock, spared);
      PurgedOne(N, s.store.dir, Run(s, before), numbers[..k], numbers[k], clock, spared);
      assert numbers[..k] + [numbers[k]] == numbers;
      if N(numbers[k]) in spared {
        assert PurgeSteps(N, numbers, clock, spared) == before;
      } else {
        RunLast(s, before, PurgeFile(numbers[k], clock));
      }
    }
  }

  lemma UnpurgedMirrors(N: Naming, files: map<string, File>, d: map<nat, Entry>, t: map<nat, Entry>, numbers: seq<nat>,
                        clock: int, spared: set<string>)
    requires Distinct(N) && Mirrors(N, files, d) && Purged(N, d, t, numbers, clock, spared)
    requires forall n | n in d :: n in numbers
    ensures Mirrors(N, Unpurged(files, clock, spared), t)
  {
    var left := Unpurged(files, clock, spared);
    forall n | n in d ensures N(n) in left <==> n in t {
      Named(N, files, d, n);
    }
    assert left.Keys == (set n | n in t :: N(n)) by {
      forall x | x in left.Keys ensures x in set n | n in t :: N(n) {
        var n :| n in d && N(n) == x;
      }
    }
  }

  // ------------------------------------------------------------- one round

  function NamesBy(N: Naming, s: seq<nat>): (r: seq<string>)
    ensures |r| == |s| && forall i | 0 <= i < |r| :: r[i] == N(s[i])
  {
    if s == [] then [] else NamesBy(N, s[..|s| - 1]) + [N(s[|s| - 1])]
  }

  predicate ReadsNumber(N: Naming, dir: map<nat, Entry>, n: nat, io: IO) {
    n in dir && N(n) !in io.unreadable && dir[n].file.content.Decodable?
  }

  /** The numbers of the files that the batch keeps. */
  function Kept(N: Naming, dir: map<nat, Entry>, paths: seq<nat>, io: IO): seq<nat> {
    if paths == [] then []
    else
      var k := |paths| - 1;
      Kept(N, dir, paths[..k], io) + if ReadsNumber(N, dir, paths[k], io) then [paths[k]] else []
  }

  function ReadStep(N: Naming, n: nat, io: IO): Step { ReadNext(N(n) !in io.unreadable, N(n) !in io.stuck) }

  function ReadSteps(N: Naming, paths: seq<nat>, io: IO): seq<Step> {
    if paths == [] then [] else ReadSteps(N, paths[..|paths| - 1], io) + [ReadStep(N, paths[|paths| - 1], io)]
  }

  function AckStep(N: Naming, n: nat, io: IO): Step { AckNext(N(n) !in io.stuck) }

  function AckSteps(N: Naming, kept: seq<nat>, io: IO): seq<Step> {
    if kept == [] then [] else AckSteps(N, kept[..|kept| - 1], io) + [AckStep(N, kept[|kept| - 1], io)]
  }

  /** The steps of an uninterrupted round; those that the round does not get to change nothing. */
  ghost function RoundSteps(N: Naming, dir: map<nat, Entry>, io: IO, reply: Reply): seq<Step> {
    if !io.listed then [StartBatch(false)]
    else
      var paths := Lowest(dir.Keys, BATCH_SIZE);
      ([StartBatch(true)] + ReadSteps(N, paths, io) + [ReadNext(true, true)]) +
      ([Send(reply)] + AckSteps(N, Kept(N, dir, paths, io), io) + [AckNext(true)])
  }

  lemma {:induction false} KeptIsReadable(N: Naming, files: map<string, File>, dir: map<nat, Entry>, paths: seq<nat>,
                                          io: IO)
    requires Distinct(N) && Mirrors(N, files, dir) && forall n | n in paths :: n in dir
    ensures NamesBy(N, Kept(N, dir, paths, io)) == Readable(files, NamesBy(N, paths), io)
    decreases |paths|
  {
    if paths != [] {
      var k := |paths| - 1;
      var before := Kept(N, dir, paths[..k], io);
      KeptIsReadable(N, files, dir, paths[..k], io);
      ReadableStep(files, NamesBy(N, paths[..k]), N(paths[k]), io);
      Named(N, files, dir, paths[k]);
      assert paths[k] in paths;
      assert (before + [paths[k]])[..|before|] == before;
    }
  }

  lemma {:induction false} KeptRises(N: Naming, dir: map<nat, Entry>, paths: seq<nat>, io: IO)
    requires Rising(paths)
    ensures Rising(Kept(N, dir, paths, io)) && forall n | n in Kept(N, dir, paths, io) :: n in paths && n in dir
    decreases |paths|
  {
    if paths != [] {
      var k := |paths| - 1;
      KeptRises(N, dir, paths[..k], io);
      var kept := Kept(N, dir, paths[..k], io);
      assert forall i | 0 <= i < |kept| :: kept[i] in kept;
    }
  }

  /** The shipper has handled these paths, the first of all of them. */
  ghost predicate ReadAt(N: Naming, dir: map<nat, Entry>, t: Agent, all: seq<nat>, done: seq<nat>, io: IO) {
    && t.phase.Reading? && t.phase.paths == all && t.phase.next == |done| <= |all| && done == all[..|done|]
    && t.phase.kept == Kept(N, dir, done, io) && |t.phase.ids| == |t.phase.kept|
  }

  /** These paths have been read, in the state t. */
  ghost predicate ReadSoFar(N: Naming, files: map<string, File>, dir: map<nat, Entry>, t: Agent, all: seq<nat>,
                            done: seq<nat>, io: IO)
  {
    ReadAt(N, dir, t, all, done, io) && Mirrors(N, files - RemovedIn(files, NamesBy(N, done), io), t.store.dir)
  }

  lemma NotAmong(N: Naming, done: seq<nat>, k: nat)
    requires Distinct(N) && k < UINT64 && forall n | n in done :: n < UINT64 && n != k
    ensures N(k) !in NamesBy(N, done)
  {
    assert forall j | 0 <= j < |done| :: done[j] in done;
  }

  /** The directory after one more file was read: it is removed or stays. */
  lemma ReadDir(N: Naming, files: map<string, File>, dir: map<nat, Entry>, d: map<nat, Entry>, done: seq<nat>, k: nat,
                io: IO)
    returns (after: map<nat, Entry>)
    requires Distinct(N) && Mirrors(N, files, dir) && k in dir && forall n | n in done :: n in dir && n != k
    requires Mirrors(N, files - RemovedIn(files, NamesBy(N, done), io), d)
    ensures k in d && d[k].file == dir[k].file == files[N(k)]
    ensures NamesBy(N, done + [k]) == NamesBy(N, done) + [N(k)]
    ensures after ==
              if N(k) !in io.unreadable && d[k].file.content.Undecodable? && N(k) !in io.stuck then d - {k} else d
    ensures Mirrors(N, files - RemovedIn(files, NamesBy(N, done + [k]), io), after)
  {
    var left := files - RemovedIn(files, NamesBy(N, done), io);
    assert (done + [k])[..|done|] == done;
    NotAmong(N, done, k);
    RemovedStep(files, NamesBy(N, done), N(k), io);
    Named(N, files, dir, k);
    Named(N, left, d, k);
    MirrorsWithout(N, left, d, k);
    OneMoreGone(files, RemovedIn(files, NamesBy(N, done), io), N(k));
    after := if Removes(files, N(k), io) then d - {k} else d;
  }

  lemma OneMoreGone<K, V>(m: map<K, V>, gone: set<K>, k: K)
    ensures m - (gone + {k}) == (m - gone) - {k} && m - (gone + {}) == m - gone
  {
    assert gone + {} == gone;
  }

  lemma KeptStep(N: Naming, dir: map<nat, Entry>, d: map<nat, Entry>, done: seq<nat>, k: nat, io: IO)
    requires k in dir && k in d && d[k].file == dir[k].file
    ensures Kept(N, dir, done + [k], io) == Kept(N, dir, done, io) + if ReadsNumber(N, d, k, io) then [k] else []
  {
    assert (done + [k])[..|done|] == done;
  }

  /** What a read step does to the phase and the directory. */
  lemma ReadEffect(N: Naming, t: Agent, k: nat, io: IO) returns (u: Agent)
    requires t.phase.Reading? && t.phase.next < |t.phase.paths| && t.phase.paths[t.phase.next] == k && k in t.store.dir
    ensures u == Next(t, ReadStep(N, k, io)) && u.requests == t.requests
    ensures u.phase.Reading? && u.phase.paths == t.phase.paths && u.phase.next == t.phase.next + 1
    ensures var read := ReadsNumber(N, t.store.dir, k, io);
            && u.phase.kept == t.phase.kept + (if read then [k] else [])
            && |u.phase.ids| == |t.phase.ids| + (if read then 1 else 0)
    ensures u.store.dir == if N(k) !in io.unreadable && t.store.dir[k].file.content.Undecodable? && N(k) !in io.stuck
                           then t.store.dir - {k} else t.store.dir
  {
    u := Next(t, ReadStep(N, k, io));
  }

  lemma ReadPhase(N: Naming, dir: map<nat, Entry>, t: Agent, all: seq<nat>, done: seq<nat>, k: nat, io: IO)
    returns (u: Agent)
    requires ReadAt(N, dir, t, all, done, io) && |done| < |all| && all[|done|] == k
    requires k in dir && k in t.store.dir && t.store.dir[k].file == dir[k].file
    ensures u == Next(t, ReadStep(N, k, io)) && u.requests == t.requests && ReadAt(N, dir, u, all, done + [k], io)
    ensures u.store.dir == if N(k) !in io.unreadable && t.store.dir[k].file.content.Undecodable? && N(k) !in io.stuck
                           then t.store.dir - {k} else t.store.dir
  {
    u := ReadEffect(N, t, k, io);
    KeptStep(N, dir, t.store.dir, done, k, io);
    assert done + [k] == all[..|done| + 1];
  }

  /** One more file is read: removed, kept or passed over. */
  lemma ReadOne(N: Naming, files: map<string, File>, dir: map<nat, Entry>, s: Agent, steps: seq<Step>, all: seq<nat>,
                done: seq<nat>, k: nat, io: IO) returns (u: Agent)
    requires Distinct(N) && Mirrors(N, files, dir) && ReadSoFar(N, files, dir, Run(s, steps), all, done, io)
    requires |done| < |all| && all[|done|] == k && k in dir && forall n | n in done :: n in dir && n != k
    ensures u == Run(s, steps + [ReadStep(N, k, io)]) && u.requests == Run(s, steps).requests
    ensures ReadSoFar(N, files, dir, u, all, done + [k], io)
  {
    var t := Run(s, steps);
    RunLast(s, steps, ReadStep(N, k, io));
    var after := ReadDir(N, files, dir, t.store.dir, done, k, io);
    u := ReadPhase(N, dir, t, all, done, k, io);
    assert u.store.dir == after;
  }

  lemma {:induction false} ReadAll(N: Naming, files: map<string, File>, dir: map<nat, Entry>, s: Agent, all: seq<nat>,
                                   done: seq<nat>, io: IO) returns (t: Agent)
    requires Distinct(N) && Mirrors(N, files, dir) && Rising(all) && (forall n | n in all :: n in dir)
    requires |done| <= |all| && done == all[..|done|] && ReadSoFar(N, files, dir, s, all, [], io)
    ensures t == Run(s, ReadSteps(N, done, io)) && t.requests == s.requests
    ensures ReadSoFar(N, files, dir, t, all, done, io)
    decreases |done|
  {
    if done == [] {
      t := s;
    } else {
      var before := done[..|done| - 1];
      var k := all[|before|];
      LastDone(all, done, before, k);
      var u := ReadAll(N, files, dir, s, all, before, io);
      t := ReadOne(N, files, dir, s, ReadSteps(N, before, io), all, before, k, io);
    }
  }

  lemma LastDone(all: seq<nat>, done: seq<nat>, before: seq<nat>, k: nat)
    requires Rising(all) && done != [] && |done| <= |all| && done == all[..|done|]
    requires before == done[..|done| - 1] && k == all[|done| - 1]
    ensures before == all[..|before|] && done == before + [k] && k in all
    ensures forall n | n in before :: n in all && n != k
  {
  }

  /** The names that acking these files frees. */
  ghost function Freed(N: Naming, kept: seq<nat>, io: IO): set<string> { AllOf(NamesBy(N, kept)) - io.stuck }

  ghost function AllOf(names: seq<string>): set<string> { set p | p in names }

  /** These files, the first of all of them, have been acked, in the state t. */
  ghost predicate AckedSoFar(N: Naming, files: map<string, File>, t: Agent, all: seq<nat>, done: seq<nat>, io: IO) {
    && CanAck(t) && t.phase.kept == all && t.phase.next == |done| <= |all| && done == all[..|done|]
    && Mirrors(N, files - Freed(N, done, io), t.store.dir)
  }

  /** The directory after one more file was acked. */
  lemma AckDir(N: Naming, files: map<string, File>, d: map<nat, Entry>, done: seq<nat>, k: nat, io: IO)
    requires Distinct(N) && k < UINT64 && Mirrors(N, files - Freed(N, done, io), d)
    ensures Mirrors(N, files - Freed(N, done + [k], io), if N(k) in io.stuck then d else d - {k})
  {
    var left, after := files - Freed(N, done, io), files - Freed(N, done + [k], io);
    assert (done + [k])[..|done|] == done;
    assert AllOf(NamesBy(N, done) + [N(k)]) == AllOf(NamesBy(N, done)) + {N(k)};
    assert Freed(N, done + [k], io) == Freed(N, done, io) + if N(k) in io.stuck then {} else {N(k)};
    OneMoreGone(files, Freed(N, done, io), N(k));
    MirrorsWithout(N, left, d, k);
  }

  lemma AckEffect(N: Naming, t: Agent, k: nat, io: IO) returns (u: Agent)
    requires CanAck(t) && t.phase.next < |t.phase.kept| && t.phase.kept[t.phase.next] == k
    ensures u == Next(t, AckStep(N, k, io)) && u.requests == t.requests
    ensures CanAck(u) && u.phase.kept == t.phase.kept && u.phase.next == t.phase.next + 1
    ensures u.store.dir == if N(k) in io.stuck then t.store.dir else t.store.dir - {k}
  {
    u := Next(t, AckStep(N, k, io));
    if k !in t.store.dir { assert t.store.dir - {k} == t.store.dir; }
  }

  lemma AckOne(N: Naming, files: map<string, File>, s: Agent, steps: seq<Step>, all: seq<nat>, done: seq<nat>, k: nat,
               io: IO) returns (u: Agent)
    requires Distinct(N) && AckedSoFar(N, files, Run(s, steps), all, done, io)
    requires |done| < |all| && all[|done|] == k < UINT64
    ensures u == Run(s, steps + [AckStep(N, k, io)]) && u.requests == Run(s, steps).requests
    ensures AckedSoFar(N, files, u, all, done + [k], io)
  {
    var t := Run(s, steps);
    AckDir(N, files, t.store.dir, done, k, io);
    u := AckEffect(N, t, k, io);
    RunLast(s, steps, AckStep(N, k, io));
  }

  lemma {:induction false} AckAll(N: Naming, files: map<string, File>, s: Agent, all: seq<nat>, done: seq<nat>, io: IO)
    returns (t: Agent)
    requires Distinct(N) && Rising(all) && (forall n | n in all :: n < UINT64)
    requires |done| <= |all| && done == all[..|done|] && AckedSoFar(N, files, s, all, [], io)
    ensures t == Run(s, AckSteps(N, done, io)) && t.requests == s.requests
    ensures AckedSoFar(N, files, t, all, done, io)
    decreases |done|
  {
    if done == [] {
      t := s;
    } else {
      var before := done[..|done| - 1];
      var k := all[|before|];
      LastDone(all, done, before, k);
      var u := AckAll(N, files, s, all, before, io);
      t := AckOne(N, files, s, AckSteps(N, before, io), all, before, k, io);
    }
  }

  lemma IdleAck(s: Agent, steps: seq<Step>, removable: bool)
    requires s.phase.Waiting? && Run(s, steps) == s
    ensures Run(s, steps + [AckNext(removable)]) == s
  {
    RunLast(s, steps, AckNext(removable));
  }

  lemma {:induction false} IdleAcks(N: Naming, s: Agent, kept: seq<nat>, io: IO)
    requires s.phase.Waiting?
    ensures Run(s, AckSteps(N, kept, io)) == s
    decreases |kept|
  {
    if kept != [] {
      var k := |kept| - 1;
      IdleAcks(N, s, kept[..k], io);
      IdleAck(s, AckSteps(N, kept[..k], io), N(kept[k]) !in io.stuck);
    }
  }

  lemma NothingRemoved(N: Naming, files: map<string, File>, io: IO)
    ensures files - RemovedIn(files, NamesBy(N, []), io) == files
  {
    assert RemovedIn(files, [], io) == {};
  }

  lemma StartPhase(s: Agent, paths: seq<nat>) returns (u: Agent)
    requires s.phase.Waiting? && paths == Lowest(s.store.dir.Keys, BATCH_SIZE)
    ensures u == Run(s, [StartBatch(true)]) && u == s.(phase := Reading(paths, 0, [], [], {}))
  {
    OneStep(s, StartBatch(true));
    u := Next(s, StartBatch(true));
  }

  lemma StartEffect(N: Naming, files: map<string, File>, s: Agent, paths: seq<nat>, io: IO) returns (u: Agent)
    requires Mirrors(N, files, s.store.dir) && s.phase.Waiting? && paths == Lowest(s.store.dir.Keys, BATCH_SIZE)
    ensures u == Run(s, [StartBatch(true)]) && u.requests == s.requests
    ensures ReadSoFar(N, files, s.store.dir, u, paths, [], io)
  {
    u := StartPhase(s, paths);
    NothingRemoved(N, files, io);
  }

  lemma OneStep(s: Agent, x: Step)
    ensures Run(s, [x]) == Next(s, x)
  {
    RunLast(s, [], x);
    assert [] + [x] == [x];
  }

  lemma EndEffect(s: Agent, steps: seq<Step>) returns (u: Agent)
    requires var t := Run(s, steps);
             t.phase.Reading? && t.phase.next == |t.phase.paths| && |t.phase.ids| == |t.phase.kept|
    ensures var t := Run(s, steps);
            && u == Run(s, steps + [ReadNext(true, true)]) && u.requests == t.requests && u.store == t.store
            && if t.phase.kept == [] then u.phase.Waiting?
               else u.phase.Sending? && u.phase.kept == t.phase.kept && |u.phase.ids| == |t.phase.kept|
  {
    RunLast(s, steps, ReadNext(true, true));
    u := Next(Run(s, steps), ReadNext(true, true));
  }

  /** Reading all files of the batch. */
  lemma ReadFiles(N: Naming, files: map<string, File>, dir: map<nat, Entry>, s: Agent, first: seq<Step>,
                  paths: seq<nat>, io: IO)
    returns (v: Agent)
    requires Distinct(N) && Mirrors(N, files, dir) && Rising(paths) && forall n | n in paths :: n in dir
    requires ReadSoFar(N, files, dir, Run(s, first), paths, [], io)
    ensures v == Run(s, first + ReadSteps(N, paths, io)) && v.requests == Run(s, first).requests
    ensures ReadSoFar(N, files, dir, v, paths, paths, io)
  {
    v := ReadAll(N, files, dir, Run(s, first), paths, paths, io);
    RunConcat(s, first, ReadSteps(N, paths, io));
  }

  /** Reading, to the end of the batch. */
  lemma ReadPart(N: Naming, files: map<string, File>, dir: map<nat, Entry>, s: Agent, first: seq<Step>, paths: seq<nat>,
                 io: IO) returns (t: Agent)
    requires Distinct(N) && Mirrors(N, files, dir) && Rising(paths) && forall n | n in paths :: n in dir
    requires ReadSoFar(N, files, dir, Run(s, first), paths, [], io)
    ensures t == Run(s, first + ReadSteps(N, paths, io) + [ReadNext(true, true)])
    ensures Mirrors(N, files - RemovedIn(files, NamesBy(N, paths), io), t.store.dir)
    ensures t.requests == Run(s, first).requests
    ensures var kept := Kept(N, dir, paths, io);
            if kept == [] then t.phase.Waiting?
            else t.phase.Sending? && t.phase.kept == kept && |t.phase.ids| == |kept|
  {
    var v := ReadFiles(N, files, dir, s, first, paths, io);
    t := EndEffect(s, first + ReadSteps(N, paths, io));
  }

  lemma SendEffect(N: Naming, files: map<string, File>, s: Agent, kept: seq<nat>, io: IO, reply: Reply)
    returns (u: Agent)
    requires s.phase.Sending? && s.phase.kept == kept && |s.phase.ids| == |kept| && Mirrors(N, files, s.store.dir)
    ensures u == Run(s, [Send(reply)]) && u.requests == s.requests + [Request(s.phase.ids, reply)] && u.store == s.store
    ensures if Dispose(reply) == Keep then u.phase.Waiting? else AckedSoFar(N, files, u, kept, [], io)
  {
    OneStep(s, Send(reply));
    u := Next(s, Send(reply));
    assert Freed(N, [], io) == {} && files - {} == files;
  }

  lemma AckEnd(s: Agent, steps: seq<Step>) returns (u: Agent)
    requires var t := Run(s, steps); t.phase.Waiting? || (CanAck(t) && t.phase.next == |t.phase.kept|)
    ensures u == Run(s, steps + [AckNext(true)]) && u.phase.Waiting?
    ensures u.store == Run(s, steps).store && u.requests == Run(s, steps).requests
  {
    RunLast(s, steps, AckNext(true));
    u := Next(Run(s, steps), AckNext(true));
  }

  /** After the batch was read: the request, and the acks if it was accepted. */
  lemma SendPart(N: Naming, files: map<string, File>, s: Agent, kept: seq<nat>, io: IO, reply: Reply) returns (t: Agent)
    requires Distinct(N) && Rising(kept) && (forall n | n in kept :: n < UINT64) && Mirrors(N, files, s.store.dir)
    requires s.phase.Sending? && s.phase.kept == kept && |s.phase.ids| == |kept|
    ensures t == Run(s, [Send(reply)] + AckSteps(N, kept, io) + [AckNext(true)]) && t.phase.Waiting?
    ensures t.requests == s.requests + [Request(s.phase.ids, reply)]
    ensures Mirrors(N, if Dispose(reply) == Keep then files else files - Freed(N, kept, io), t.store.dir)
  {
    var u := SendEffect(N, files, s, kept, io, reply);
    RunConcat(s, [Send(reply)], AckSteps(N, kept, io));
    if Dispose(reply) == Keep {
      IdleAcks(N, u, kept, io);
    } else {
      var v := AckAll(N, files, u, kept, kept, io);
    }
    t := AckEnd(s, [Send(reply)] + AckSteps(N, kept, io));
  }

  /** What a whole round does to the directory, given the names it peeks. */
  ghost function AfterBatch(files: map<string, File>, paths: seq<string>, io: IO, reply: Reply): map<string, File> {
    var left := files - RemovedIn(files, paths, io);
    if Dispose(reply) == Keep then left else left - (AllOf(Readable(files, paths, io)) - io.stuck)
  }

  /** How the round ended: waiting again, with one more request if there was a batch. */
  ghost predicate RoundDone(s: Agent, t: Agent, batch: seq<string>, reply: Reply) {
    && t.phase.Waiting?
    && if batch == [] then t.requests == s.requests
       else exists ids :: |ids| == |batch| && t.requests == s.requests + [Request(ids, reply)]
  }

  lemma EmptyPart(N: Naming, s: Agent, reply: Reply, acks: seq<Step>)
    requires s.phase.Waiting? && acks == []
    ensures Run(s, [Send(reply)] + acks + [AckNext(true)]) == s
  {
    OneStep(s, Send(reply));
    IdleAck(s, [Send(reply)], true);
    assert [Send(reply)] + acks == [Send(reply)];
  }

  /** The second half of a round, in the terms of what it does to the directory. */
  lemma SecondHalf(N: Naming, files: map<string, File>, names: seq<string>, u: Agent, kept: seq<nat>, io: IO,
                   reply: Reply)
    returns (t: Agent)
    requires Distinct(N) && Rising(kept) && (forall n | n in kept :: n < UINT64)
    requires NamesBy(N, kept) == Readable(files, names, io) &&
             Mirrors(N, files - RemovedIn(files, names, io), u.store.dir)
    requires if kept == [] then u.phase.Waiting?
             else u.phase.Sending? && u.phase.kept == kept && |u.phase.ids| == |kept|
    ensures t == Run(u, [Send(reply)] + AckSteps(N, kept, io) + [AckNext(true)])
    ensures Mirrors(N, AfterBatch(files, names, io, reply), t.store.dir)
    ensures RoundDone(u, t, Readable(files, names, io), reply)
  {
    var left := files - RemovedIn(files, names, io);
    if kept == [] {
      EmptyPart(N, u, reply, AckSteps(N, kept, io));
      t := u;
      assert AllOf([]) - io.stuck == {} && left - {} == left;
    } else {
      t := SendPart(N, left, u, kept, io, reply);
      assert |u.phase.ids| == |kept|;
    }
  }

  lemma ListedRound(N: Naming, files: map<string, File>, s: Agent, io: IO, reply: Reply) returns (t: Agent)
    requires Distinct(N) && Mirrors(N, files, s.store.dir) && s.phase.Waiting? && io.listed
    ensures t == Run(s, RoundSteps(N, s.store.dir, io, reply))
    ensures var names := NamesBy(N, Lowest(s.store.dir.Keys, BATCH_SIZE));
            && Mirrors(N, AfterBatch(files, names, io, reply), t.store.dir)
            && RoundDone(s, t, Readable(files, names, io), reply)
  {
    var dir := s.store.dir;
    var paths := Lowest(dir.Keys, BATCH_SIZE);
    var kept := Kept(N, dir, paths, io);
    KeptRises(N, dir, paths, io);
    KeptIsReadable(N, files, dir, paths, io);
    var start := StartEffect(N, files, s, paths, io);
    var u := ReadPart(N, files, dir, s, [StartBatch(true)], paths, io);
    t := SecondHalf(N, files, NamesBy(N, paths), u, kept, io, reply);
    RunConcat(s, [StartBatch(true)] + ReadSteps(N, paths, io) + [ReadNext(true, true)],
              [Send(reply)] + AckSteps(N, kept, io) + [AckNext(true)]);
  }

  // ------------------------------------------------------ the queue's names

  lemma QueueNamesDistinct()
    ensures Distinct(QueueName)
  {
    forall m: nat, n: nat | m < UINT64 && n < UINT64 && QueueName(m) == QueueName(n) ensures m == n {
      NamesSortByNumber(m, n);
    }
  }

  lemma {:induction false} NamesAreQueueNames(s: seq<nat>)
    ensures NamesBy(QueueName, s) == Names(s)
    decreases |s|
  {
  }

  lemma KeysBy(N: Naming, files: map<string, File>, dir: map<nat, Entry>)
    requires Mirrors(N, files, dir)
    ensures files.Keys == set n | n in dir.Keys :: N(n)
  {
  }

  lemma SameSets(numbers: set<nat>)
    ensures (set n | n in numbers :: QueueName(n)) == NamesOf(QueueName, numbers)
  {
  }

  lemma OldestIsLowest(files: map<string, File>, dir: map<nat, Entry>)
    requires Mirrors(QueueName, files, dir)
    ensures Oldest(files.Keys, BATCH_SIZE) == NamesBy(QueueName, Lowest(dir.Keys, BATCH_SIZE))
  {
    KeysBy(QueueName, files, dir);
    SameSets(dir.Keys);
    PeekByNumber(dir.Keys, BATCH_SIZE);
    NamesAreQueueNames(Lowest(dir.Keys, BATCH_SIZE));
  }

  /** An enqueue step does what Enqueue does. */
  lemma EnqueueMatches(files: map<string, File>, s: Agent, event: Event, disk: WriteResult, clock: int, missed: nat)
    requires Mirrors(QueueName, files, s.store.dir) && s.counter < UINT64
    ensures var t := Next(s, Step.Enqueue(event, disk, clock, missed));
            if Shown(|files|, missed) >= MAX_QUEUE_FILES then t == s
            else
              t.counter == Incremented(s.counter) &&
              Mirrors(QueueName, Stored(files, t.counter, event, clock, disk), t.store.dir)
  {
    var n := Incremented(s.counter);
    QueueNamesDistinct();
    MirrorsSize(QueueName, files, s.store.dir);
    MirrorsWith(QueueName, files, s.store.dir, n, Entry(|s.store.log|, FileOf(event, disk, clock)));
  }

  /** A restart step is New over the directory that is left. */
  lemma RestartMatches(files: map<string, File>, s: Agent, nanos: nat, missed: nat)
    requires Mirrors(QueueName, files, s.store.dir)
    ensures var t := Next(s, Restart(nanos, missed));
            t.counter == Seed(Shown(|files|, missed), nanos) && Mirrors(QueueName, files, t.store.dir) &&
            t.phase.Waiting?
  {
    QueueNamesDistinct();
    MirrorsSize(QueueName, files, s.store.dir);
  }

  /** Purge steps over all files do what PurgeStale does. */
  lemma PurgeMatches(files: map<string, File>, s: Agent, clock: int, spared: set<string>)
    requires Mirrors(QueueName, files, s.store.dir)
    ensures Mirrors(QueueName, Unpurged(files, clock, spared),
                    Run(s, PurgeSteps(QueueName, Numbers(s.store.dir.Keys), clock, spared)).store.dir)
  {
    var numbers := Numbers(s.store.dir.Keys);
    QueueNamesDistinct();
    PurgedAll(QueueName, s, numbers, clock, spared);
    UnpurgedMirrors(QueueName, files, s.store.dir, Run(s, PurgeSteps(QueueName, numbers, clock, spared)).store.dir,
                    numbers, clock, spared);
  }

  lemma AfterRoundIsBatch(files: map<string, File>, io: IO, reply: Reply)
    requires io.listed
    ensures AfterRound(true, files, io, reply) == AfterBatch(files, Oldest(files.Keys, BATCH_SIZE), io, reply)
  {
    assert AllOf(Batch(files, io)) == (set p | p in Batch(files, io));
  }

  /** A round of steps without interruption does to the directory what ShipOne does, leaves the shipper
      waiting, and sends one request, for as many events as the batch has, if there is a batch. */
  lemma RoundMatches(files: map<string, File>, s: Agent, io: IO, reply: Reply)
    requires Mirrors(QueueName, files, s.store.dir) && s.phase.Waiting?
    ensures var t := Run(s, RoundSteps(QueueName, s.store.dir, io, reply));
            && Mirrors(QueueName, AfterRound(true, files, io, reply), t.store.dir)
            && RoundDone(s, t, if io.listed then Batch(files, io) else [], reply)
  {
    if io.listed {
      QueueNamesDistinct();
      OldestIsLowest(files, s.store.dir);
      AfterRoundIsBatch(files, io, reply);
      var t := ListedRound(QueueName, files, s, io, reply);
    } else {
      RunLast(s, [], StartBatch(false));
      assert [] + [StartBatch(false)] == [StartBatch(false)];
    }
  }
}
