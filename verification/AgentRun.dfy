/** The agent as a whole: the collector enqueues, the shipper peeks, reads, sends and acks one file at a
    time, the purge removes stale files, and the process restarts, in any order; reads and removals may
    fail. A file is known by its number (PeekByNumber relates this to file names), and every written event
    has a serial number, so the model can say where each one went. */
module AgentRun {
  import opened Text
  import opened Queue
  import opened Shipper

  /** A file on disk, and the serial number of the event it was written for. */
  datatype Entry = Entry(id: nat, file: File)

  /** How a written event left the disk; `request` is the position of the HTTP request that decided it.
      Unsent is an event whose file was removed by the ack of another event. */
  datatype Fate =
    | Acked(request: nat)
    | Rejected(request: nat)
    | Corrupt
    | Purged(clock: int)
    | Overwritten
    | Unsent(request: nat)

  /** Where a written event is: in a file, or gone. */
  datatype Place = InFile(file: nat) | Gone(fate: Fate)

  datatype Request = Request(ids: seq<nat>, reply: Reply)

  /** Where the shipper goroutine is. `left` are the files that this round had to leave behind: it could
      not read them, or not remove them. */
  datatype Phase =
    | Waiting
    | Reading(paths: seq<nat>, next: nat, kept: seq<nat>, ids: seq<nat>, left: set<nat>)
    | Sending(kept: seq<nat>, ids: seq<nat>, left: set<nat>)
    | Acking(kept: seq<nat>, ids: seq<nat>, next: nat, request: nat, left: set<nat>)

  /** The directory, what was written for each serial number, and the place recorded for it. */
  datatype Store = Store(dir: map<nat, Entry>, log: seq<File>, place: map<nat, Place>)

  datatype Agent = Agent(store: Store, counter: nat, phase: Phase, requests: seq<Request>)

  /** `missed` counts the entries a listing fails to show; the flags say whether a listing, a read or a
      removal succeeds. */
  datatype Step =
    | Enqueue(event: Event, disk: WriteResult, clock: int, missed: nat)
    | StartBatch(listed: bool)
    | ReadNext(readable: bool, removable: bool)
    | Send(reply: Reply)
    | AckNext(removable: bool)
    | PurgeFile(file: nat, clock: int)
    | Restart(nanos: nat, missed: nat)

  // ------------------------------------------------- listing by number

  predicate Rising(s: seq<nat>) { forall i, j | 0 <= i < j < |s| :: s[i] < s[j] }

  predicate Least(m: nat, files: set<nat>) { m in files && forall x | x in files :: m <= x }

  lemma {:induction false} LeastExists(files: set<nat>) returns (m: nat)
    requires files != {}
    ensures Least(m, files)
  {
    var y :| y in files;
    m := y;
    var others := files - {y};
    assert forall x | x in files :: x == y || x in others;
    if others != {} {
      var n := LeastExists(others);
      if n < y { m := n; }
    }
  }

  /** All file numbers, lowest first. */
  ghost function Numbers(files: set<nat>): (r: seq<nat>)
    ensures Rising(r) && |r| == |files| && forall x :: x in r <==> x in files
  {
    if files == {} then []
    else
      assert exists m :: Least(m, files) by { var m := LeastExists(files); }
      var m :| Least(m, files);
      [m] + Numbers(files - {m})
  }

  /** The n lowest file numbers, lowest first. */
  ghost function Lowest(files: set<nat>, n: nat): (r: seq<nat>)
    ensures Rising(r) && (forall x | x in r :: x in files)
    ensures forall x, y | x in files && x !in r && y in r :: y < x
    ensures |r| == if |files| < n then |files| else n
  {
    var all := Numbers(files);
    if |all| <= n then all
    else
      assert forall i | 0 <= i < |all| :: all[i] in all;
      all[..n]
  }

  function Names(s: seq<nat>): seq<string> { seq(|s|, i requires 0 <= i < |s| => QueueName(s[i])) }

  lemma NamesAscend(s: seq<nat>)
    requires Rising(s) && forall k | k in s :: k < UINT64
    ensures Ascending(Names(s)) && forall x | x in Names(s) :: IsQueueFile(x)
  {
    forall i, j | 0 <= i < j < |s| ensures Less(Names(s)[i], Names(s)[j]) {
      assert s[i] in s && s[j] in s;
      NamesSortByNumber(s[i], s[j]);
    }
    forall x | x in Names(s) ensures IsQueueFile(x) {
      var i :| 0 <= i < |s| && Names(s)[i] == x;
      assert s[i] in s;
      NamesSortByNumber(s[i], s[i]);
    }
  }

  lemma {:induction false} AllQueueFiles(names: seq<string>)
    requires forall x | x in names :: IsQueueFile(x)
    ensures QueueFiles(names) == names
  {
    if names != [] {
      AllQueueFiles(names[1..]);
      assert names == [names[0]] + names[1..];
    }
  }

  lemma NamesElements(files: set<nat>)
    ensures forall x :: x in Names(Numbers(files)) <==> x in set k | k in files :: QueueName(k)
  {
    var all := Numbers(files);
    forall x | x in set k | k in files :: QueueName(k) ensures x in Names(all) {
      var k :| k in files && QueueName(k) == x;
      var i :| 0 <= i < |all| && all[i] == k;
      assert Names(all)[i] == x;
    }
    forall x | x in Names(all) ensures x in set k | k in files :: QueueName(k) {
      var i :| 0 <= i < |all| && Names(all)[i] == x;
      assert all[i] in all;
    }
  }

  lemma ListingByNumber(files: set<nat>)
    requires forall k | k in files :: k < UINT64
    ensures QueueFiles(Listing(set k | k in files :: QueueName(k))) == Names(Numbers(files))
  {
    var all := Names(Numbers(files));
    NamesAscend(Numbers(files));
    NamesElements(files);
    AscendingUnique(all, Listing(set k | k in files :: QueueName(k)));
    AllQueueFiles(all);
  }

  lemma LimitedNames(s: seq<nat>, n: nat)
    requires n > 0
    ensures Limited(Names(s), n) == Names(if |s| <= n then s else s[..n])
  {
  }

  /** Peek's string order is the order of the file numbers: for files numbered by 64-bit counters it
      returns the names of the n lowest numbers, lowest first. */
  lemma PeekByNumber(files: set<nat>, n: nat)
    requires n > 0 && forall k | k in files :: k < UINT64
    ensures Oldest(set k | k in files :: QueueName(k), n) == Names(Lowest(files, n))
  {
    ListingByNumber(files);
    LimitedNames(Numbers(files), n);
  }

  // ---------------------------------------------------------------- steps

  /** A file is removed, its event meeting the given fate. */
  function Removed(d: Store, file: nat, f: Fate): Store {
    if file in d.dir then d.(dir := d.dir - {file}, place := d.place[d.dir[file].id := Gone(f)]) else d
  }

  /** A new event is written, replacing any file of the same name. */
  function Put(d: Store, n: nat, f: File): Store {
    var place := if n in d.dir then d.place[d.dir[n].id := Gone(Overwritten)] else d.place;
    Store(d.dir[n := Entry(|d.log|, f)], d.log + [f], place[|d.log| := InFile(n)])
  }

  function FileOf(event: Event, disk: WriteResult, clock: int): File {
    File(if disk.Written? then Decodable(event) else Undecodable, clock)
  }

  function DoEnqueue(s: Agent, event: Event, disk: WriteResult, clock: int, missed: nat): Agent {
    if Shown(|s.store.dir|, missed) >= MAX_QUEUE_FILES then s
    else
      var n := Incremented(s.counter);
      s.(counter := n, store := if disk.Lost? then s.store else Put(s.store, n, FileOf(event, disk, clock)))
  }

  ghost function DoStart(s: Agent, listed: bool): Agent {
    if listed then s.(phase := Reading(Lowest(s.store.dir.Keys, BATCH_SIZE), 0, [], [], {})) else s
  }

  function DoRead(s: Agent, readable: bool, removable: bool): Agent
    requires s.phase.Reading?
  {
    var Reading(paths, next, kept, ids, left) := s.phase;
    if next >= |paths| then s.(phase := if ids == [] then Waiting else Sending(kept, ids, left))
    else
      var file := paths[next];
      if file !in s.store.dir then s.(phase := Reading(paths, next + 1, kept, ids, left))
      else if !readable then s.(phase := Reading(paths, next + 1, kept, ids, left + {file}))
      else if s.store.dir[file].file.content.Decodable? then
        s.(phase := Reading(paths, next + 1, kept + [file], ids + [s.store.dir[file].id], left))
      else if removable then
        s.(phase := Reading(paths, next + 1, kept, ids, left), store := Removed(s.store, file, Corrupt))
      else s.(phase := Reading(paths, next + 1, kept, ids, left + {file}))
  }

  function DoSend(s: Agent, reply: Reply): Agent
    requires s.phase.Sending?
  {
    s.(requests := s.requests + [Request(s.phase.ids, reply)],
       phase := if Dispose(reply) == Keep then Waiting
                else Acking(s.phase.kept, s.phase.ids, 0, |s.requests|, s.phase.left))
  }

  /** The fate of event `id` when the file acked for event `sent` is removed. */
  function AckFate(id: nat, sent: nat, request: nat, reply: Reply): Fate {
    if id != sent then Unsent(request) else if Dispose(reply) == Ship then Acked(request) else Rejected(request)
  }

  predicate CanAck(s: Agent) {
    s.phase.Acking? && |s.phase.ids| == |s.phase.kept| && s.phase.request < |s.requests|
  }

  function DoAck(s: Agent, removable: bool): Agent
    requires CanAck(s)
  {
    var Acking(kept, ids, next, request, left) := s.phase;
    if next >= |kept| then s.(phase := Waiting)
    else
      var file := kept[next];
      if file !in s.store.dir then s.(phase := Acking(kept, ids, next + 1, request, left))
      else if !removable then s.(phase := Acking(kept, ids, next + 1, request, left + {file}))
      else
        var f := AckFate(s.store.dir[file].id, ids[next], request, s.requests[request].reply);
        s.(phase := Acking(kept, ids, next + 1, request, left), store := Removed(s.store, file, f))
  }

  function DoPurge(s: Agent, file: nat, clock: int): Agent {
    if file in s.store.dir && Stale(s.store.dir[file].file, clock)
    then s.(store := Removed(s.store, file, Purged(clock))) else s
  }

  function DoRestart(s: Agent, nanos: nat, missed: nat): Agent {
    s.(phase := Waiting, counter := Seed(Shown(|s.store.dir|, missed), nanos))
  }

  /** One step; a step that cannot be taken changes nothing. */
  ghost function Next(s: Agent, step: Step): Agent {
    match step
    case Enqueue(event, disk, clock, missed) => DoEnqueue(s, event, disk, clock, missed)
    case StartBatch(listed) => if s.phase.Waiting? then DoStart(s, listed) else s
    case ReadNext(readable, removable) => if s.phase.Reading? then DoRead(s, readable, removable) else s
    case Send(reply) => if s.phase.Sending? then DoSend(s, reply) else s
    case AckNext(removable) => if CanAck(s) then DoAck(s, removable) else s
    case PurgeFile(file, clock) => DoPurge(s, file, clock)
    case Restart(nanos, missed) => DoRestart(s, nanos, missed)
  }

  ghost function Run(s: Agent, steps: seq<Step>): Agent
    decreases |steps|
  {
    if steps == [] then s else Next(Run(s, steps[..|steps| - 1]), steps[|steps| - 1])
  }

  /** A first start: an empty directory. */
  const FRESH: Agent := Agent(Store(map[], [], map[]), 0, Waiting, [])

  lemma {:induction false} RunConcat(s: Agent, a: seq<Step>, b: seq<Step>)
    ensures Run(s, a + b) == Run(Run(s, a), b)
    decreases |b|
  {
    if b == [] {
      assert a + b == a;
    } else {
      var n := |b| - 1;
      RunConcat(s, a, b[..n]);
      assert (a + b)[..|a + b| - 1] == a + b[..n];
    }
  }

  // --------------------------------------------------------- conservation

  /** The directory, the log and the recorded places agree: every written event is in exactly one place,
      and the events in files are exactly those of the directory, as they were written. */
  ghost predicate Conserved(d: Store) {
    && (forall id :: id in d.place <==> 0 <= id < |d.log|)
    && (forall n | n in d.dir ::
          d.dir[n].id < |d.log| && d.log[d.dir[n].id] == d.dir[n].file && d.place[d.dir[n].id] == InFile(n))
    && (forall id | id in d.place && d.place[id].InFile? ::
          d.place[id].file in d.dir && d.dir[d.place[id].file].id == id)
  }

  lemma RemovedConserves(d: Store, file: nat, f: Fate)
    requires Conserved(d)
    ensures Conserved(Removed(d, file, f))
  {
  }

  lemma PutConserves(d: Store, n: nat, f: File)
    requires Conserved(d)
    ensures Conserved(Put(d, n, f))
  {
  }

  /** What a step does to the store: nothing, a removal, or a write. */
  lemma StoreStep(s: Agent, step: Step) returns (file: nat, f: Fate, w: File)
    ensures var t := Next(s, step);
            || t.store == s.store
            || (file in s.store.dir && t.store == Removed(s.store, file, f))
            || t.store == Put(s.store, file, w)
  {
    file, f, w := 0, Corrupt, File(Undecodable, 0);
    match step
    case Enqueue(event, disk, clock, missed) => file, w := Incremented(s.counter), FileOf(event, disk, clock);
    case ReadNext(_, _) =>
      if s.phase.Reading? && s.phase.next < |s.phase.paths| { file := s.phase.paths[s.phase.next]; }
    case AckNext(_) =>
      if CanAck(s) && s.phase.next < |s.phase.kept| {
        file := s.phase.kept[s.phase.next];
        if file in s.store.dir {
          f := AckFate(s.store.dir[file].id, s.phase.ids[s.phase.next], s.phase.request,
                       s.requests[s.phase.request].reply);
        }
      }
    case PurgeFile(n, clock) => file, f := n, Purged(clock);
    case _ =>
  }

  lemma NextConserves(s: Agent, step: Step)
    requires Conserved(s.store)
    ensures Conserved(Next(s, step).store)
  {
    var file, f, w := StoreStep(s, step);
    RemovedConserves(s.store, file, f);
    PutConserves(s.store, file, w);
  }

  /** In every run, restarts and failing reads and removals included, each written event is in exactly
      one place. */
  lemma {:induction false} EventsConserved(s: Agent, steps: seq<Step>)
    requires Conserved(s.store)
    ensures Conserved(Run(s, steps).store)
    decreases |steps|
  {
    if steps != [] {
      EventsConserved(s, steps[..|steps| - 1]);
      NextConserves(Run(s, steps[..|steps| - 1]), steps[|steps| - 1]);
    }
  }

  // ------------------------------------------------ order and delivery

  ghost predicate After(files: seq<nat>, file: nat) { forall x | x in files :: x < file }

  ghost predicate Behind(dir: map<nat, Entry>, counter: nat) { forall n | n in dir :: n <= counter }

  ghost predicate InOrder(dir: map<nat, Entry>) { forall m, n | m in dir && n in dir && m < n :: dir[m].id < dir[n].id }

  /** Numbers on disk are behind the counter and sort as their events were written. */
  ghost predicate StoreInv(d: Store, counter: nat) {
    counter < UINT64 && Conserved(d) && Behind(d.dir, counter) && InOrder(d.dir)
  }

  predicate AnsweredBelow(reply: Reply, code: nat) { reply.Status? && reply.code < code }

  /** What must be true for an event to have met a fate. */
  predicate Backed(id: nat, f: Fate, log: seq<File>, requests: seq<Request>) {
    && id < |log|
    && match f
       case Acked(r) => r < |requests| && id in requests[r].ids && AnsweredBelow(requests[r].reply, 400)
       case Rejected(r) =>
         r < |requests| && id in requests[r].ids && AnsweredBelow(requests[r].reply, 500) &&
         requests[r].reply.code >= 400 && requests[r].reply.code != 401 && requests[r].reply.code != 403
       case Corrupt => log[id].content.Undecodable?
       case Purged(clock) => clock - log[id].modified > 7 * 24 * 60 * 60
       case Overwritten => false
       case Unsent(_) => false
  }

  ghost predicate FateInv(d: Store, requests: seq<Request>) {
    forall id | id in d.place && d.place[id].Gone? :: Backed(id, d.place[id].fate, d.log, requests)
  }

  /** The batch read so far: file i held event i, and every file after it holds a younger event. */
  ghost predicate Tracks(d: Store, kept: seq<nat>, ids: seq<nat>) {
    && |kept| == |ids| && Rising(kept) && Rising(ids)
    && forall i | 0 <= i < |kept| ::
      && ids[i] < |d.log|
      && (kept[i] in d.dir ==> d.dir[kept[i]].id == ids[i])
      && (forall n | n in d.dir && kept[i] < n :: ids[i] < d.dir[n].id)
  }

  ghost predicate ReadingInv(s: Agent, paths: seq<nat>, next: nat, kept: seq<nat>, ids: seq<nat>, left: set<nat>) {
    && next <= |paths| && Rising(paths) && Tracks(s.store, kept, ids)
    && (forall x | x in paths :: x <= s.counter)
    && (forall x | x in kept :: x in paths[..next])
    && (forall n | n in s.store.dir :: n in kept || n in left || n in paths[next..] || After(paths, n))
  }

  /** On disk are the files still to be acked, files left behind, and files with higher numbers. */
  ghost predicate BatchInv(s: Agent, kept: seq<nat>, ids: seq<nat>, next: nat, left: set<nat>) {
    && next <= |kept| && Tracks(s.store, kept, ids)
    && (forall x | x in kept :: x <= s.counter)
    && (forall n | n in s.store.dir :: n in kept[next..] || n in left || After(kept, n))
  }

  ghost predicate PhaseInv(s: Agent) {
    match s.phase
    case Waiting => true
    case Reading(paths, next, kept, ids, left) => ReadingInv(s, paths, next, kept, ids, left)
    case Sending(kept, ids, left) => BatchInv(s, kept, ids, 0, left)
    case Acking(kept, ids, next, request, left) =>
      && BatchInv(s, kept, ids, next, left)
      && request < |s.requests| && s.requests[request].ids == ids && Dispose(s.requests[request].reply) != Keep
  }

  ghost predicate RequestsInv(requests: seq<Request>) { forall r | 0 <= r < |requests| :: Rising(requests[r].ids) }

  ghost predicate Inv(s: Agent) {
    StoreInv(s.store, s.counter) && FateInv(s.store, s.requests) && RequestsInv(s.requests) && PhaseInv(s)
  }

  /** What the counter must do for names never to be reused: not wrap around its 64 bits, and, on
      reopening, not start below the number of a surviving file. */
  ghost predicate SafeStep(s: Agent, step: Step) {
    match step
    case Enqueue(_, _, _, _) => s.counter + 1 < UINT64
    case Restart(nanos, missed) => forall n | n in s.store.dir :: n <= Seed(Shown(|s.store.dir|, missed), nanos)
    case _ => true
  }

  ghost predicate SafeRun(s: Agent, steps: seq<Step>)
    decreases |steps|
  {
    steps == [] || (SafeRun(s, steps[..|steps| - 1]) && SafeStep(Run(s, steps[..|steps| - 1]), steps[|steps| - 1]))
  }

  lemma RemovedKeepsPhase(s: Agent, file: nat, f: Fate)
    requires PhaseInv(s)
    ensures PhaseInv(s.(store := Removed(s.store, file, f)))
  {
  }

  lemma RemovedKeepsStore(d: Store, file: nat, f: Fate, counter: nat)
    requires StoreInv(d, counter)
    ensures StoreInv(Removed(d, file, f), counter)
  {
    RemovedConserves(d, file, f);
  }

  lemma RemovedBacked(d: Store, file: nat, f: Fate, requests: seq<Request>)
    requires FateInv(d, requests) && Conserved(d)
    requires file in d.dir ==> Backed(d.dir[file].id, f, d.log, requests)
    ensures FateInv(Removed(d, file, f), requests)
  {
  }

  /** The store only gained, at most, one file with the next number and the next serial. */
  ghost predicate Gained(d: Store, counter: nat, t: Store) {
    && |t.log| >= |d.log|
    && (forall id | 0 <= id < |d.log| :: t.log[id] == d.log[id])
    && (forall id | id in t.place && t.place[id].Gone? :: id in d.place && id < |d.log| && t.place[id] == d.place[id])
    && (forall n | n in d.dir :: n in t.dir && t.dir[n] == d.dir[n])
    && (forall n | n in t.dir && n !in d.dir :: n == counter + 1 && t.dir[n].id == |d.log|)
  }

  lemma NothingWritten(d: Store, counter: nat)
    requires StoreInv(d, counter) && counter + 1 < UINT64
    ensures StoreInv(d, counter + 1) && Gained(d, counter, d)
  {
  }

  lemma PutGains(d: Store, counter: nat, f: File)
    requires StoreInv(d, counter)
    ensures Gained(d, counter, Put(d, counter + 1, f))
  {
  }

  lemma PutInOrder(dir: map<nat, Entry>, n: nat, e: Entry)
    requires InOrder(dir) && (forall m | m in dir :: m < n && dir[m].id < e.id)
    ensures InOrder(dir[n := e])
  {
  }

  lemma PutKeepsStore(d: Store, counter: nat, f: File)
    requires StoreInv(d, counter) && counter + 1 < UINT64
    ensures StoreInv(Put(d, counter + 1, f), counter + 1)
  {
    PutConserves(d, counter + 1, f);
    PutInOrder(d.dir, counter + 1, Entry(|d.log|, f));
  }

  lemma GainKeepsTracks(d: Store, counter: nat, t: Store, kept: seq<nat>, ids: seq<nat>)
    requires Tracks(d, kept, ids) && Gained(d, counter, t) && forall x | x in kept :: x <= counter
    ensures Tracks(t, kept, ids)
  {
    assert forall i | 0 <= i < |kept| :: kept[i] in kept;
  }

  lemma GainKeepsPhase(s: Agent, t: Store)
    requires PhaseInv(s) && Gained(s.store, s.counter, t)
    ensures PhaseInv(s.(counter := s.counter + 1, store := t))
  {
    match s.phase
    case Waiting =>
    case Reading(paths, next, kept, ids, left) =>
      assert forall x | x in kept :: x in paths;
      GainKeepsTracks(s.store, s.counter, t, kept, ids);
    case Sending(kept, ids, left) => GainKeepsTracks(s.store, s.counter, t, kept, ids);
    case Acking(kept, ids, _, _, left) => GainKeepsTracks(s.store, s.counter, t, kept, ids);
  }

  lemma GainKeepsFates(d: Store, counter: nat, t: Store, requests: seq<Request>)
    requires FateInv(d, requests) && Gained(d, counter, t)
    ensures FateInv(t, requests)
  {
  }

  lemma GainKeepsInv(s: Agent, t: Store, u: Agent)
    requires Inv(s) && StoreInv(t, s.counter + 1) && Gained(s.store, s.counter, t)
    requires u == s.(counter := s.counter + 1, store := t)
    ensures Inv(u)
  {
    GainKeepsPhase(s, t);
    GainKeepsFates(s.store, s.counter, t, s.requests);
  }

  lemma LostKeepsInv(s: Agent)
    requires Inv(s) && s.counter + 1 < UINT64
    ensures Inv(s.(counter := s.counter + 1))
  {
    NothingWritten(s.store, s.counter);
    GainKeepsInv(s, s.store, s.(counter := s.counter + 1));
  }

  lemma PutKeepsInv(s: Agent, f: File)
    requires Inv(s) && s.counter + 1 < UINT64
    ensures Inv(s.(counter := s.counter + 1, store := Put(s.store, s.counter + 1, f)))
  {
    var t := PutStore(s.store, s.counter, f);
    GainKeepsInv(s, t, s.(counter := s.counter + 1, store := t));
  }

  lemma PutStore(d: Store, counter: nat, f: File) returns (t: Store)
    requires StoreInv(d, counter) && counter + 1 < UINT64
    ensures t == Put(d, counter + 1, f) && StoreInv(t, counter + 1) && Gained(d, counter, t)
  {
    t := Put(d, counter + 1, f);
    PutKeepsStore(d, counter, f);
    PutGains(d, counter, f);
  }

  lemma EnqueueKeepsInv(s: Agent, event: Event, disk: WriteResult, clock: int, missed: nat)
    requires Inv(s) && s.counter + 1 < UINT64
    ensures Inv(DoEnqueue(s, event, disk, clock, missed))
  {
    var u, f := DoEnqueue(s, event, disk, clock, missed), FileOf(event, disk, clock);
    if u != s {
      if disk.Lost? {
        assert u == s.(counter := s.counter + 1);
        LostKeepsInv(s);
      } else {
        assert u == s.(counter := s.counter + 1, store := Put(s.store, s.counter + 1, f));
        PutKeepsInv(s, f);
      }
    }
  }

  lemma StartedReading(s: Agent, paths: seq<nat>)
    requires StoreInv(s.store, s.counter) && Rising(paths) && forall x | x in paths :: x in s.store.dir
    requires forall x | x in s.store.dir :: x in paths || After(paths, x)
    ensures ReadingInv(s, paths, 0, [], [], {})
  {
    assert paths[0..] == paths;
  }

  lemma StartKeepsInv(s: Agent, listed: bool)
    requires Inv(s) && s.phase.Waiting?
    ensures Inv(DoStart(s, listed))
  {
    StartedReading(s, Lowest(s.store.dir.Keys, BATCH_SIZE));
  }

  lemma ReadDone(s: Agent, paths: seq<nat>, next: nat, kept: seq<nat>, ids: seq<nat>, left: set<nat>)
    requires ReadingInv(s, paths, next, kept, ids, left) && next >= |paths|
    ensures BatchInv(s, kept, ids, 0, left)
  {
    assert paths[next..] == [] && paths[..next] == paths && kept[0..] == kept;
  }

  lemma ReadKept(s: Agent, paths: seq<nat>, next: nat, kept: seq<nat>, ids: seq<nat>, left: set<nat>)
    requires StoreInv(s.store, s.counter) && ReadingInv(s, paths, next, kept, ids, left)
    requires next < |paths| && paths[next] in s.store.dir
    ensures ReadingInv(s, paths, next + 1, kept + [paths[next]], ids + [s.store.dir[paths[next]].id], left)
  {
    assert paths[next..] == [paths[next]] + paths[next + 1..] && paths[..next + 1] == paths[..next] + [paths[next]];
    ReadKeepsTracks(s, paths, next, kept, ids, left);
  }

  lemma ReadKeepsTracks(s: Agent, paths: seq<nat>, next: nat, kept: seq<nat>, ids: seq<nat>, left: set<nat>)
    requires StoreInv(s.store, s.counter) && ReadingInv(s, paths, next, kept, ids, left)
    requires next < |paths| && paths[next] in s.store.dir
    ensures Tracks(s.store, kept + [paths[next]], ids + [s.store.dir[paths[next]].id])
  {
    forall i | 0 <= i < |kept| ensures kept[i] < paths[next] {
      assert kept[i] in kept && kept[i] in paths[..next];
    }
  }

  /** A file passed over: it is gone, or left behind. */
  lemma ReadPassed(s: Agent, paths: seq<nat>, next: nat, kept: seq<nat>, ids: seq<nat>, left: set<nat>, more: set<nat>)
    requires ReadingInv(s, paths, next, kept, ids, left) && next < |paths|
    requires paths[next] in s.store.dir ==> paths[next] in more
    ensures ReadingInv(s, paths, next + 1, kept, ids, left + more)
  {
    assert paths[next..] == [paths[next]] + paths[next + 1..] && paths[..next + 1] == paths[..next] + [paths[next]];
  }

  lemma ReadRemoved(s: Agent, paths: seq<nat>, next: nat, kept: seq<nat>, ids: seq<nat>, left: set<nat>, d: Store)
    requires ReadingInv(s, paths, next, kept, ids, left) && next < |paths|
    requires d == Removed(s.store, paths[next], Corrupt)
    ensures ReadingInv(s.(store := d), paths, next + 1, kept, ids, left)
  {
    assert paths[next..] == [paths[next]] + paths[next + 1..] && paths[..next + 1] == paths[..next] + [paths[next]];
  }

  lemma ReadKeepsInv(s: Agent, readable: bool, removable: bool)
    requires Inv(s) && s.phase.Reading?
    ensures Inv(DoRead(s, readable, removable))
  {
    var Reading(paths, next, kept, ids, left) := s.phase;
    if next >= |paths| {
      ReadDone(s, paths, next, kept, ids, left);
    } else {
      var file := paths[next];
      if file !in s.store.dir {
        ReadPassed(s, paths, next, kept, ids, left, {});
        assert left + {} == left;
      } else if readable && s.store.dir[file].file.content.Decodable? {
        ReadKept(s, paths, next, kept, ids, left);
      } else if readable && removable {
        RemovedKeepsStore(s.store, file, Corrupt, s.counter);
        RemovedBacked(s.store, file, Corrupt, s.requests);
        ReadRemoved(s, paths, next, kept, ids, left, Removed(s.store, file, Corrupt));
      } else {
        ReadPassed(s, paths, next, kept, ids, left, {file});
      }
    }
  }

  lemma SendKeepsInv(s: Agent, reply: Reply)
    requires Inv(s) && s.phase.Sending?
    ensures Inv(DoSend(s, reply))
  {
  }

  lemma AckPassed(s: Agent, kept: seq<nat>, ids: seq<nat>, next: nat, left: set<nat>, more: set<nat>)
    requires BatchInv(s, kept, ids, next, left) && next < |kept| && (kept[next] in s.store.dir ==> kept[next] in more)
    ensures BatchInv(s, kept, ids, next + 1, left + more)
  {
    assert kept[next..] == [kept[next]] + kept[next + 1..];
  }

  lemma AckedOne(s: Agent, kept: seq<nat>, ids: seq<nat>, next: nat, left: set<nat>, f: Fate)
    requires BatchInv(s, kept, ids, next, left) && next < |kept|
    ensures BatchInv(s.(store := Removed(s.store, kept[next], f)), kept, ids, next + 1, left)
  {
    assert kept[next..] == [kept[next]] + kept[next + 1..];
  }

  lemma AckKeepsInv(s: Agent, removable: bool)
    requires Inv(s) && s.phase.Acking?
    ensures CanAck(s) && Inv(DoAck(s, removable))
  {
    var Acking(kept, ids, next, request, left) := s.phase;
    if next < |kept| {
      var file := kept[next];
      assert ids[next] in ids;
      if file !in s.store.dir {
        AckPassed(s, kept, ids, next, left, {});
        assert left + {} == left;
      } else if removable {
        var f := AckFate(s.store.dir[file].id, ids[next], request, s.requests[request].reply);
        RemovedKeepsStore(s.store, file, f, s.counter);
        RemovedBacked(s.store, file, f, s.requests);
        AckedOne(s, kept, ids, next, left, f);
      } else {
        AckPassed(s, kept, ids, next, left, {file});
      }
    }
  }

  lemma PurgeKeepsInv(s: Agent, file: nat, clock: int)
    requires Inv(s)
    ensures Inv(DoPurge(s, file, clock))
  {
    if file in s.store.dir && Stale(s.store.dir[file].file, clock) {
      RemovedKeepsStore(s.store, file, Purged(clock), s.counter);
      RemovedKeepsPhase(s, file, Purged(clock));
      RemovedBacked(s.store, file, Purged(clock), s.requests);
    }
  }

  lemma NextKeepsInv(s: Agent, step: Step)
    requires Inv(s) && SafeStep(s, step)
    ensures Inv(Next(s, step))
  {
    match step
    case Enqueue(event, disk, clock, missed) => EnqueueKeepsInv(s, event, disk, clock, missed);
    case StartBatch(listed) => if s.phase.Waiting? { StartKeepsInv(s, listed); }
    case ReadNext(readable, removable) => if s.phase.Reading? { ReadKeepsInv(s, readable, removable); }
    case Send(reply) => if s.phase.Sending? { SendKeepsInv(s, reply); }
    case AckNext(removable) => if s.phase.Acking? { AckKeepsInv(s, removable); }
    case PurgeFile(file, clock) => PurgeKeepsInv(s, file, clock);
    case Restart(nanos, missed) =>
  }

  lemma {:induction false} RunKeepsInv(s: Agent, steps: seq<Step>)
    requires Inv(s) && SafeRun(s, steps)
    ensures Inv(Run(s, steps))
    decreases |steps|
  {
    if steps != [] {
      RunKeepsInv(s, steps[..|steps| - 1]);
      NextKeepsInv(Run(s, steps[..|steps| - 1]), steps[|steps| - 1]);
    }
  }

  // --------------------------------------------------------- main results

  /** In every run whose counter never reuses a number, an event that is off the disk was acked after a
      request containing it was answered below 400, or after a 4xx other than 401 and 403, or was written
      undecodable, or was older than seven days when purged; nothing is ever overwritten or acked without
      having been sent, and each request lists its events in the order they were written. */
  lemma Delivery(steps: seq<Step>)
    requires SafeRun(FRESH, steps)
    ensures var s := Run(FRESH, steps);
            Conserved(s.store) && FateInv(s.store, s.requests) && RequestsInv(s.requests)
  {
    RunKeepsInv(FRESH, steps);
  }

  /** In every such run a file leaves the directory, or changes, only by the ack of a batch whose request
      listed its event and was answered below 400 or with a 4xx other than 401 and 403, by being found
      undecodable, or by a purge when older than seven days. No other reply removes anything. */
  lemma RemovedOnlyBy(steps: seq<Step>, step: Step, file: nat)
    requires SafeRun(FRESH, steps + [step]) && file in Run(FRESH, steps).store.dir
    requires var t := Run(FRESH, steps + [step]).store;
             file in t.dir ==> t.dir[file] != Run(FRESH, steps).store.dir[file]
    ensures var s := Run(FRESH, steps);
            var entry := s.store.dir[file];
            match step
            case AckNext(_) =>
              s.phase.Acking? && s.phase.request < |s.requests| && entry.id in s.requests[s.phase.request].ids &&
              AnsweredBelow(s.requests[s.phase.request].reply, 500) &&
              s.requests[s.phase.request].reply.code != 401 && s.requests[s.phase.request].reply.code != 403
            case ReadNext(_, _) => entry.file.content.Undecodable?
            case PurgeFile(n, clock) => n == file && clock - entry.file.modified > 7 * 24 * 60 * 60
            case _ => false
  {
    assert (steps + [step])[..|steps|] == steps;
    RunKeepsInv(FRESH, steps);
    RemovedInStep(Run(FRESH, steps), step, file);
  }

  lemma AckedInStep(s: Agent, file: nat)
    requires PhaseInv(s) && s.phase.Acking? && s.phase.next < |s.phase.kept| && file in s.store.dir
    requires s.phase.kept[s.phase.next] == file
    ensures s.phase.request < |s.requests| && s.store.dir[file].id in s.requests[s.phase.request].ids
    ensures AnsweredBelow(s.requests[s.phase.request].reply, 500)
    ensures s.requests[s.phase.request].reply.code != 401 && s.requests[s.phase.request].reply.code != 403
  {
    assert s.phase.ids[s.phase.next] in s.phase.ids;
  }

  lemma RemovedInStep(s: Agent, step: Step, file: nat)
    requires Inv(s) && SafeStep(s, step) && file in s.store.dir
    requires file in Next(s, step).store.dir ==> Next(s, step).store.dir[file] != s.store.dir[file]
    ensures match step
            case AckNext(_) =>
              s.phase.Acking? && s.phase.request < |s.requests| &&
              s.store.dir[file].id in s.requests[s.phase.request].ids &&
              AnsweredBelow(s.requests[s.phase.request].reply, 500) &&
              s.requests[s.phase.request].reply.code != 401 && s.requests[s.phase.request].reply.code != 403
            case ReadNext(_, _) => s.store.dir[file].file.content.Undecodable?
            case PurgeFile(n, clock) => n == file && clock - s.store.dir[file].file.modified > 7 * 24 * 60 * 60
            case _ => false
  {
    assert forall n | n in s.store.dir :: n != s.counter + 1;
    if step.AckNext? { AckedInStep(s, file); }
  }

  /** The batch to peek next: files on disk, their events in order of writing, no older one left out. */
  ghost predicate FifoBatch(dir: map<nat, Entry>, paths: seq<nat>, n: nat) {
    && (forall p | p in paths :: p in dir)
    && (forall i, j | 0 <= i < j < |paths| :: dir[paths[i]].id < dir[paths[j]].id)
    && (forall x, p | x in dir && x !in paths && p in paths :: dir[p].id < dir[x].id)
    && |paths| == if |dir| < n then |dir| else n
  }

  lemma LowestIsFifo(d: Store, counter: nat, n: nat)
    requires StoreInv(d, counter) && n > 0
    ensures FifoBatch(d.dir, Lowest(d.dir.Keys, n), n)
    ensures Oldest(set k | k in d.dir :: QueueName(k), n) == Names(Lowest(d.dir.Keys, n))
  {
    PeekByNumber(d.dir.Keys, n);
    assert (set k | k in d.dir :: QueueName(k)) == (set k | k in d.dir.Keys :: QueueName(k));
    FifoLowest(d.dir, n);
  }

  lemma FifoLowest(dir: map<nat, Entry>, n: nat)
    requires forall a, b | a in dir && b in dir && a < b :: dir[a].id < dir[b].id
    ensures FifoBatch(dir, Lowest(dir.Keys, n), n)
  {
    var paths := Lowest(dir.Keys, n);
    assert forall i | 0 <= i < |paths| :: paths[i] in paths;
    assert |dir.Keys| == |dir|;
  }

  /** Peek returns the oldest surviving events, oldest first. */
  lemma PeekIsFifo(steps: seq<Step>, n: nat)
    requires SafeRun(FRESH, steps) && n > 0
    ensures var dir := Run(FRESH, steps).store.dir;
            var paths := Lowest(dir.Keys, n);
            Oldest(set k | k in dir :: QueueName(k), n) == Names(paths) && FifoBatch(dir, paths, n)
  {
    RunKeepsInv(FRESH, steps);
    LowestIsFifo(Run(FRESH, steps).store, Run(FRESH, steps).counter, n);
  }

  /** Event `id` goes off the disk while every event still on disk is younger. */
  ghost predicate TakesOldest(d: Store, t: Store) {
    forall id, n | id in d.place && d.place[id].InFile? && id in t.place && t.place[id].Gone? && n in t.dir ::
      id < t.dir[n].id
  }

  /** The file the next ack would remove. */
  predicate AboutToAck(s: Agent, file: nat) {
    CanAck(s) && s.phase.next < |s.phase.kept| && s.phase.kept[s.phase.next] == file && file in s.store.dir
  }

  /** This round left an older file behind, and it is still there. */
  ghost predicate Overtakes(s: Agent, file: nat) {
    s.phase.Acking? && exists n | n in s.phase.left :: n in s.store.dir && n < file
  }

  lemma OvertakingBreaksOrder(s: Agent, file: nat, f: Fate)
    requires Inv(s) && AboutToAck(s, file) && Overtakes(s, file)
    ensures !TakesOldest(s.store, Removed(s.store, file, f))
  {
    var d, t := s.store, Removed(s.store, file, f);
    assert d.place[d.dir[file].id].InFile? && t.place[d.dir[file].id].Gone?;
    var n :| n in s.phase.left && n in d.dir && n < file;
    assert n in t.dir;
  }

  lemma OthersAreYounger(s: Agent, file: nat, n: nat)
    requires Inv(s) && AboutToAck(s, file) && !Overtakes(s, file) && n in s.store.dir && n != file
    ensures s.store.dir[file].id < s.store.dir[n].id
  {
    var kept, k := s.phase.kept, s.phase.next;
    assert file in kept;
    assert n in kept[k..] || n in s.phase.left || After(kept, n);
    if n in kept[k..] { assert kept[k..][0] == file; }
  }

  lemma AckOrder(s: Agent, file: nat, f: Fate)
    requires Inv(s) && AboutToAck(s, file)
    ensures TakesOldest(s.store, Removed(s.store, file, f)) <==> !Overtakes(s, file)
  {
    if Overtakes(s, file) {
      OvertakingBreaksOrder(s, file, f);
    } else {
      forall n | n in s.store.dir && n != file ensures s.store.dir[file].id < s.store.dir[n].id {
        OthersAreYounger(s, file, n);
      }
    }
  }

  lemma AckRemoves(s: Agent, file: nat) returns (f: Fate)
    requires AboutToAck(s, file)
    ensures Next(s, AckNext(true)).store == Removed(s.store, file, f)
  {
    f := AckFate(s.store.dir[file].id, s.phase.ids[s.phase.next], s.phase.request, s.requests[s.phase.request].reply);
  }

  /** Acks come in the order of writing exactly as long as the round leaves no older file behind: when a
      file is acked, every event still on disk is younger, if and only if no file with a lower number
      that this round could not read or not remove is still there. */
  lemma AckedInOrderIff(steps: seq<Step>, file: nat)
    requires SafeRun(FRESH, steps) && AboutToAck(Run(FRESH, steps), file)
    ensures var s := Run(FRESH, steps);
            TakesOldest(s.store, Next(s, AckNext(true)).store) <==> !Overtakes(s, file)
  {
    RunKeepsInv(FRESH, steps);
    var f := AckRemoves(Run(FRESH, steps), file);
    AckOrder(Run(FRESH, steps), file, f);
  }

  predicate FailedIO(step: Step) {
    match step
    case ReadNext(readable, removable) => !readable || !removable
    case AckNext(removable) => !removable
    case _ => false
  }

  predicate NothingLeft(s: Agent) {
    match s.phase
    case Waiting => true
    case Reading(_, _, _, _, left) => left == {}
    case Sending(_, _, left) => left == {}
    case Acking(_, _, _, _, left) => left == {}
  }

  /** Only a read or a removal that fails leaves a file behind: without one since the batch was started,
      acks are in order. */
  lemma {:induction false} LeftOnlyByFailure(s: Agent, steps: seq<Step>)
    requires NothingLeft(s) && forall x | x in steps :: !FailedIO(x)
    ensures NothingLeft(Run(s, steps))
    decreases |steps|
  {
    if steps != [] {
      LeftOnlyByFailure(s, steps[..|steps| - 1]);
      assert steps[|steps| - 1] in steps;
    }
  }

  const SAMPLE: Event := Event("", "file.created", "", "", "", "", "", "", "")

  function Wrote(clock: int): Step { Enqueue(SAMPLE, Written, clock, 0) }

  lemma RunLast(s: Agent, steps: seq<Step>, x: Step)
    ensures Run(s, steps + [x]) == Next(Run(s, steps), x)
  {
    assert (steps + [x])[..|steps|] == steps;
  }

  lemma TwoSteps(s: Agent, x: Step, y: Step)
    ensures Run(s, [x, y]) == Next(Next(s, x), y)
  {
    RunLast(s, [], x);
    RunLast(s, [x], y);
    assert [] + [x] == [x] && [x] + [y] == [x, y];
  }

  lemma TwoWrites(clock: int) returns (s: Agent)
    ensures s == Next(Next(FRESH, Wrote(0)), Wrote(clock))
    ensures var a, b := File(Decodable(SAMPLE), 0), File(Decodable(SAMPLE), clock);
            s == Agent(Store(map[1 := Entry(0, a), 2 := Entry(1, b)], [a, b], map[0 := InFile(1), 1 := InFile(2)]),
                       2, Waiting, [])
  {
    var a, b := File(Decodable(SAMPLE), 0), File(Decodable(SAMPLE), clock);
    var one := Next(FRESH, Wrote(0));
    assert one == Agent(Store(map[1 := Entry(0, a)], [a], map[0 := InFile(1)]), 1, Waiting, []);
    s := Next(one, Wrote(clock));
    assert s.store.dir == map[1 := Entry(0, a), 2 := Entry(1, b)];
    assert s.store.log == [a, b];
    assert s.store.place == map[0 := InFile(1), 1 := InFile(2)];
  }

  lemma TwoWritten(clock: int) returns (s: Agent)
    ensures s == Run(FRESH, [Wrote(0), Wrote(clock)])
    ensures var a, b := File(Decodable(SAMPLE), 0), File(Decodable(SAMPLE), clock);
            && s.store.dir == map[1 := Entry(0, a), 2 := Entry(1, b)] && s.store.dir.Keys == {1, 2}
            && s.store.place == map[0 := InFile(1), 1 := InFile(2)]
    ensures s.phase.Waiting? && s.requests == [] && Conserved(s.store)
  {
    TwoSteps(FRESH, Wrote(0), Wrote(clock));
    s := TwoWrites(clock);
    EventsConserved(FRESH, [Wrote(0), Wrote(clock)]);
  }

  lemma LowestOfTwo(files: set<nat>)
    requires files == {1, 2}
    ensures Lowest(files, BATCH_SIZE) == [1, 2]
  {
    var r := Lowest(files, BATCH_SIZE);
    assert |files| == 2;
    assert r[0] in r && r[1] in r;
  }

  lemma FirstPassed(s: Agent) returns (t: Agent)
    requires s.phase.Waiting? && s.store.dir.Keys == {1, 2}
    ensures t == Next(Next(s, StartBatch(true)), ReadNext(false, true))
    ensures t == s.(phase := Reading([1, 2], 1, [], [], {1}))
  {
    LowestOfTwo(s.store.dir.Keys);
    var u := Next(s, StartBatch(true));
    assert u == s.(phase := Reading([1, 2], 0, [], [], {}));
    t := Next(u, ReadNext(false, true));
  }

  lemma SecondRead(s: Agent) returns (t: Agent)
    requires s.phase == Reading([1, 2], 1, [], [], {1}) && 2 in s.store.dir && s.store.dir[2].file.content.Decodable?
    ensures t == Next(Next(s, ReadNext(true, true)), ReadNext(true, true))
    ensures t == s.(phase := Sending([2], [s.store.dir[2].id], {1}))
  {
    var none: seq<nat>, id := [], s.store.dir[2].id;
    assert none + [2] == [2] && none + [id] == [id];
    var u := Next(s, ReadNext(true, true));
    assert u == s.(phase := Reading([1, 2], 2, [2], [id], {1}));
    t := Next(u, ReadNext(true, true));
  }

  lemma FiveSteps(s: Agent, a: Step, b: Step, c: Step, d: Step, e: Step)
    ensures Run(s, [a, b, c, d, e]) == Next(Next(Next(Next(Next(s, a), b), c), d), e)
  {
    TwoSteps(s, a, b);
    RunLast(s, [a, b], c);
    RunLast(s, [a, b, c], d);
    RunLast(s, [a, b, c, d], e);
    assert [a, b] + [c] == [a, b, c] && [a, b, c] + [d] == [a, b, c, d] && [a, b, c, d] + [e] == [a, b, c, d, e];
  }

  lemma TwoMore(s: Agent, steps: seq<Step>, x: Step, y: Step)
    ensures Run(s, steps + [x, y]) == Next(Next(Run(s, steps), x), y)
  {
    RunConcat(s, steps, [x, y]);
    TwoSteps(Run(s, steps), x, y);
  }

  /** A batch of two files of which the first cannot be read, up to the reply. */
  function SecondOnly(reply: Reply): seq<Step> {
    [StartBatch(true), ReadNext(false, true), ReadNext(true, true), ReadNext(true, true), Send(reply)]
  }

  lemma SecondSent(s: Agent, reply: Reply) returns (t: Agent)
    requires s.phase.Waiting? && s.store.dir.Keys == {1, 2} && s.store.dir[2].file.content.Decodable?
    requires Dispose(reply) != Keep
    ensures t == Run(s, SecondOnly(reply))
    ensures t == s.(phase := Acking([2], [s.store.dir[2].id], 0, |s.requests|, {1}),
                    requests := s.requests + [Request([s.store.dir[2].id], reply)])
  {
    FiveSteps(s, StartBatch(true), ReadNext(false, true), ReadNext(true, true), ReadNext(true, true), Send(reply));
    var u := FirstPassed(s);
    var v := SecondRead(u);
    t := Next(v, Send(reply));
  }

  /** Two events; the file of the first cannot be read when the batch is read. The second is sent and
      acked, and the first is still on disk. */
  lemma UnreadableIsOvertaken(reply: Reply)
    requires reply.Status? && reply.code < 400
    ensures var s := Run(FRESH, [Wrote(0), Wrote(0)] + SecondOnly(reply));
            var t := Next(s, AckNext(true));
            AboutToAck(s, 2) && Overtakes(s, 2) &&
            1 in t.store.dir && t.store.place == map[0 := InFile(1), 1 := Gone(Acked(0))]
  {
    var a := TwoWritten(0);
    RunConcat(FRESH, [Wrote(0), Wrote(0)], SecondOnly(reply));
    var s := SecondSent(a, reply);
    assert 1 in s.phase.left;
    var f := AckRemoves(s, 2);
  }
}
