/** What can go wrong for single events over whole runs of the agent: when an event is lost, and when one
    is sent again after it was accepted. */
module AgentFates {
  import opened Text
  import opened Queue
  import opened Shipper
  import opened AgentRun

  // ------------------------------------------------------------ lost events

  /** What every run keeps, however the counter behaves. */
  predicate Shape(s: Agent) {
    match s.phase
    case Waiting => true
    case Reading(_, _, kept, ids, _) => |kept| == |ids|
    case Sending(kept, ids, _) => |kept| == |ids|
    case Acking(kept, ids, _, request, _) => |kept| == |ids| && request < |s.requests|
  }

  predicate LostAt(p: Place) { p.Gone? && (p.fate.Overwritten? || p.fate.Unsent?) }

  /** Some event was overwritten, or its file removed by the ack of another event. */
  ghost predicate Lost(d: Store) { exists id :: id in d.place && LostAt(d.place[id]) }

  /** The next step destroys an event: it writes a file under a number that is in use, or acks a file that
      no longer holds the event that was sent. */
  predicate Destroys(s: Agent, step: Step) {
    match step
    case Enqueue(_, disk, _, missed) =>
      Shown(|s.store.dir|, missed) < MAX_QUEUE_FILES && !disk.Lost? && Incremented(s.counter) in s.store.dir
    case AckNext(removable) =>
      removable && CanAck(s) && s.phase.next < |s.phase.kept| && s.phase.kept[s.phase.next] in s.store.dir &&
      s.store.dir[s.phase.kept[s.phase.next]].id != s.phase.ids[s.phase.next]
    case _ => false
  }

  lemma RemovalLoss(d: Store, file: nat, f: Fate)
    requires Conserved(d) && file in d.dir
    ensures Lost(Removed(d, file, f)) <==> Lost(d) || LostAt(Gone(f))
  {
    var t := Removed(d, file, f);
    assert t.place[d.dir[file].id] == Gone(f);
    if Lost(d) {
      var id :| id in d.place && LostAt(d.place[id]);
      assert t.place[id] == d.place[id];
    }
  }

  lemma WriteLoss(d: Store, n: nat, f: File)
    requires Conserved(d)
    ensures Lost(Put(d, n, f)) <==> Lost(d) || n in d.dir
  {
    var t := Put(d, n, f);
    if n in d.dir {
      assert LostAt(t.place[d.dir[n].id]);
    } else if Lost(d) {
      var id :| id in d.place && LostAt(d.place[id]);
      assert t.place[id] == d.place[id];
    }
  }

  lemma StepLoss(s: Agent, step: Step)
    requires Conserved(s.store) && Shape(s)
    ensures Lost(Next(s, step).store) <==> Lost(s.store) || Destroys(s, step)
  {
    match step
    case Enqueue(event, disk, clock, missed) => WriteLoss(s.store, Incremented(s.counter), FileOf(event, disk, clock));
    case ReadNext(_, _) =>
      if s.phase.Reading? && s.phase.next < |s.phase.paths| && s.phase.paths[s.phase.next] in s.store.dir {
        RemovalLoss(s.store, s.phase.paths[s.phase.next], Corrupt);
      }
    case AckNext(removable) =>
      if CanAck(s) && s.phase.next < |s.phase.kept| && s.phase.kept[s.phase.next] in s.store.dir {
        var file := s.phase.kept[s.phase.next];
        RemovalLoss(s.store, file, AckFate(s.store.dir[file].id, s.phase.ids[s.phase.next], s.phase.request,
                                           s.requests[s.phase.request].reply));
      }
    case PurgeFile(file, clock) => if file in s.store.dir { RemovalLoss(s.store, file, Purged(clock)); }
    case _ =>
  }

  lemma {:induction false} RunShape(s: Agent, steps: seq<Step>)
    requires Shape(s)
    ensures Shape(Run(s, steps))
    decreases |steps|
  {
    if steps != [] { RunShape(s, steps[..|steps| - 1]); }
  }

  ghost predicate DestroysAt(s: Agent, steps: seq<Step>, i: int) {
    0 <= i < |steps| && Destroys(Run(s, steps[..i]), steps[i])
  }

  /** In any run at all, whatever the seed and the restarts, an event is lost if and only if some step
      writes under a number that is in use or acks a file that was replaced since it was sent. */
  lemma {:induction false} LostIff(s: Agent, steps: seq<Step>)
    requires Conserved(s.store) && Shape(s)
    ensures Lost(Run(s, steps).store) <==> Lost(s.store) || exists i :: DestroysAt(s, steps, i)
    decreases |steps|
  {
    if steps != [] {
      var n := |steps| - 1;
      var before := steps[..n];
      LostIff(s, before);
      EventsConserved(s, before);
      RunShape(s, before);
      StepLoss(Run(s, before), steps[n]);
      DestroysLast(s, steps);
    }
  }

  lemma DestroysLast(s: Agent, steps: seq<Step>)
    requires steps != []
    ensures var n := |steps| - 1;
            (exists i :: DestroysAt(s, steps, i)) <==>
              (exists i :: DestroysAt(s, steps[..n], i)) || Destroys(Run(s, steps[..n]), steps[n])
  {
    var n := |steps| - 1;
    if Destroys(Run(s, steps[..n]), steps[n]) { assert DestroysAt(s, steps, n); }
    forall i | DestroysAt(s, steps[..n], i) ensures DestroysAt(s, steps, i) {
      assert steps[..n][..i] == steps[..i];
    }
    forall i | DestroysAt(s, steps, i) && i < n ensures DestroysAt(s, steps[..n], i) {
      assert steps[..n][..i] == steps[..i];
    }
  }

  // ------------------------------------------- the reopened queue's counter

  /** m events are written in a row. */
  ghost function Writes(s: Agent, m: nat): Agent
    decreases m
  {
    if m == 0 then s else Writes(Next(s, Wrote(0)), m - 1)
  }

  lemma PutKeys(d: Store, n: nat, f: File)
    ensures Put(d, n, f).dir.Keys == d.dir.Keys + {n} && |Put(d, n, f).dir| <= |d.dir| + 1
  {
    assert |Put(d, n, f).dir.Keys| <= |d.dir.Keys| + 1;
  }

  /** Some file on disk has a number in (lo, hi]. */
  ghost predicate SurvivorIn(files: set<nat>, lo: nat, hi: nat) { exists k :: k in files && lo < k <= hi }

  lemma SurvivorStep(files: set<nat>, after: set<nat>, lo: nat, hi: nat)
    requires lo < hi && after == files + {lo + 1}
    ensures SurvivorIn(files, lo, hi) <==> lo + 1 in files || SurvivorIn(after, lo + 1, hi)
  {
  }

  lemma WriteIsPut(s: Agent, clock: int) returns (t: Agent)
    requires |s.store.dir| < MAX_QUEUE_FILES && s.counter + 1 < UINT64
    ensures t == Next(s, Wrote(clock))
    ensures t.store == Put(s.store, s.counter + 1, FileOf(SAMPLE, Written, clock))
    ensures t.counter == s.counter + 1 && t.phase == s.phase && t.requests == s.requests
  {
    t := Next(s, Wrote(clock));
  }

  lemma WriteEffect(d: Store, c: nat, hi: nat, f: File) returns (t: Store)
    requires Conserved(d) && c < hi
    ensures t == Put(d, c + 1, f) && Conserved(t) && |t.dir| <= |d.dir| + 1
    ensures Lost(t) || SurvivorIn(t.dir.Keys, c + 1, hi) <==> Lost(d) || SurvivorIn(d.dir.Keys, c, hi)
  {
    t := Put(d, c + 1, f);
    PutConserves(d, c + 1, f);
    WriteLoss(d, c + 1, f);
    PutKeys(d, c + 1, f);
    SurvivorStep(d.dir.Keys, t.dir.Keys, c, hi);
  }

  lemma FirstWrite(s: Agent, hi: nat) returns (t: Agent)
    requires Conserved(s.store) && Shape(s) && |s.store.dir| < MAX_QUEUE_FILES && s.counter < hi < UINT64
    ensures t == Next(s, Wrote(0))
    ensures Conserved(t.store) && Shape(t) && t.counter == s.counter + 1 && |t.store.dir| <= |s.store.dir| + 1
    ensures Lost(t.store) || SurvivorIn(t.store.dir.Keys, t.counter, hi)
       <==> Lost(s.store) || SurvivorIn(s.store.dir.Keys, s.counter, hi)
  {
    var d := WriteEffect(s.store, s.counter, hi, FileOf(SAMPLE, Written, 0));
    t := WriteIsPut(s, 0);
  }

  /** After reopening at counter c, m events written in a row destroy a surviving one exactly when some
      survivor's number lies in (c, c + m]. */
  lemma {:induction false} ReopenLosesIff(s: Agent, m: nat)
    requires |s.store.dir| + m <= MAX_QUEUE_FILES && s.counter + m < UINT64 && Conserved(s.store) && Shape(s)
    ensures Lost(Writes(s, m).store)
       <==> Lost(s.store) || SurvivorIn(s.store.dir.Keys, s.counter, s.counter + m)
    decreases m
  {
    if m > 0 {
      var t := FirstWrite(s, s.counter + m);
      ReopenLosesIff(t, m - 1);
    }
  }

  const TEN_DAYS: int := 10 * 24 * 3600

  lemma OneLeft(s: Agent, clock: int) returns (t: Agent)
    requires s.store.dir.Keys == {1, 2} && s.store.dir[1].file.modified == 0 && clock == TEN_DAYS
    requires Conserved(s.store) && s.phase.Waiting?
    ensures t == Next(Next(s, PurgeFile(1, clock)), Restart(0, 0))
    ensures Conserved(t.store) && t.counter == 1 && t.store.dir.Keys == {2} && |t.store.dir| == 1 && Shape(t)
  {
    var u := DoPurge(s, 1, clock);
    RemovedConserves(s.store, 1, Purged(clock));
    assert u.store.dir.Keys == {2};
    assert |u.store.dir| == |u.store.dir.Keys|;
    t := DoRestart(u, 0, 0);
  }

  lemma Reopened(clock: int) returns (s: Agent)
    requires clock == TEN_DAYS
    ensures s == Run(FRESH, [Wrote(0), Wrote(clock)] + [PurgeFile(1, clock), Restart(0, 0)])
    ensures Conserved(s.store) && s.counter == 1 && s.store.dir.Keys == {2} && |s.store.dir| == 1 && Shape(s)
  {
    var a := TwoWritten(clock);
    TwoMore(FRESH, [Wrote(0), Wrote(clock)], PurgeFile(1, clock), Restart(0, 0));
    s := OneLeft(a, clock);
  }

  /** The seed the code computes does not meet that condition. Of two events, ten days apart, the purge
      takes the first; a restart whose clock reads 0 sets the counter to 1, and the next event overwrites
      the second. */
  lemma SeedCanReuseANumber(clock: int)
    requires clock == TEN_DAYS
    ensures var s := Run(FRESH, [Wrote(0), Wrote(clock)] + [PurgeFile(1, clock), Restart(0, 0)]);
            s.counter == 1 && s.store.dir.Keys == {2} && Destroys(s, Wrote(clock)) &&
            Lost(Next(s, Wrote(clock)).store)
  {
    var s := Reopened(clock);
    StepLoss(s, Wrote(clock));
  }

  // -------------------------------------------------------- sent twice

  /** The step keeps an accepted batch from being acked to its end: a restart in between, or a removal
      that fails. */
  predicate Interrupts(s: Agent, step: Step) {
    match step
    case Restart(_, _) => s.phase.Acking? && s.phase.next < |s.phase.kept|
    case AckNext(removable) =>
      !removable && s.phase.Acking? && s.phase.next < |s.phase.kept| && s.phase.kept[s.phase.next] in s.store.dir
    case _ => false
  }

  ghost predicate Uninterrupted(s: Agent, steps: seq<Step>)
    decreases |steps|
  {
    steps == [] ||
    (Uninterrupted(s, steps[..|steps| - 1]) && !Interrupts(Run(s, steps[..|steps| - 1]), steps[|steps| - 1]))
  }

  /** The server took the events of a request, or refused them for good. */
  predicate Accepted(r: Request) { r.reply.Status? && r.reply.code < 500 && r.reply.code != 401 && r.reply.code != 403 }

  /** Once a request was accepted, none of its events is in a later request. */
  ghost predicate NoRepeat(requests: seq<Request>) {
    forall q, r, id | 0 <= q < r < |requests| && Accepted(requests[q]) && id in requests[q].ids ::
      id !in requests[r].ids
  }

  ghost predicate NotAccepted(requests: seq<Request>, ids: seq<nat>) {
    forall r, id | 0 <= r < |requests| && Accepted(requests[r]) && id in requests[r].ids :: id !in ids
  }

  /** A read event that is still in a file is in the file it was read from. */
  ghost predicate AtHome(d: Store, kept: seq<nat>, ids: seq<nat>) {
    && |kept| == |ids|
    && forall i | 0 <= i < |ids| :: ids[i] in d.place && (d.place[ids[i]].InFile? ==> d.place[ids[i]].file == kept[i])
  }

  /** Accepted events are off the disk, except those whose ack is still due. */
  ghost predicate Settled(d: Store, requests: seq<Request>, due: seq<nat>) {
    forall r, id | 0 <= r < |requests| && Accepted(requests[r]) && id in requests[r].ids ::
      id in d.place && (d.place[id].Gone? || id in due)
  }

  ghost predicate OnceInv(s: Agent) {
    && NoRepeat(s.requests)
    && match s.phase
       case Waiting => Settled(s.store, s.requests, [])
       case Reading(_, _, kept, ids, _) =>
         Settled(s.store, s.requests, []) && NotAccepted(s.requests, ids) && AtHome(s.store, kept, ids)
       case Sending(kept, ids, _) =>
         Settled(s.store, s.requests, []) && NotAccepted(s.requests, ids) && AtHome(s.store, kept, ids)
       case Acking(kept, ids, next, _, _) =>
         next <= |kept| && AtHome(s.store, kept, ids) && Settled(s.store, s.requests, ids[next..])
  }

  /** Places only change from a file to gone, and new serials get new places. */
  ghost predicate PlacesGrow(d: Store, t: Store) {
    forall id | id in d.place ::
      id in t.place && (t.place[id] == d.place[id] || (d.place[id].InFile? && t.place[id].Gone?))
  }

  lemma StepGrows(s: Agent, step: Step)
    requires Conserved(s.store)
    ensures PlacesGrow(s.store, Next(s, step).store)
  {
    var file, f, w := StoreStep(s, step);
  }

  lemma GrowKeeps(d: Store, t: Store, requests: seq<Request>, due: seq<nat>, kept: seq<nat>, ids: seq<nat>)
    requires PlacesGrow(d, t)
    ensures Settled(d, requests, due) ==> Settled(t, requests, due)
    ensures AtHome(d, kept, ids) ==> AtHome(t, kept, ids)
  {
  }

  /** Steps that change the store but not the shipper's place in its round. */
  lemma SamePhaseOnce(s: Agent, t: Agent)
    requires OnceInv(s) && PlacesGrow(s.store, t.store) && t.requests == s.requests && t.phase == s.phase
    ensures OnceInv(t)
  {
    match s.phase
    case Waiting => GrowKeeps(s.store, t.store, s.requests, [], [], []);
    case Reading(_, _, kept, ids, _) => GrowKeeps(s.store, t.store, s.requests, [], kept, ids);
    case Sending(kept, ids, _) => GrowKeeps(s.store, t.store, s.requests, [], kept, ids);
    case Acking(kept, ids, next, _, _) => GrowKeeps(s.store, t.store, s.requests, ids[next..], kept, ids);
  }

  lemma ReadOnce(s: Agent, readable: bool, removable: bool)
    requires Conserved(s.store) && OnceInv(s) && s.phase.Reading?
    ensures OnceInv(DoRead(s, readable, removable))
  {
    StepGrows(s, ReadNext(readable, removable));
    var Reading(paths, next, kept, ids, left) := s.phase;
    GrowKeeps(s.store, DoRead(s, readable, removable).store, s.requests, [], kept, ids);
    if next < |paths| && paths[next] in s.store.dir {
      var id := s.store.dir[paths[next]].id;
      assert s.store.place[id] == InFile(paths[next]);
    }
  }

  lemma SendOnce(s: Agent, reply: Reply)
    requires OnceInv(s) && s.phase.Sending?
    ensures OnceInv(DoSend(s, reply))
  {
    var Sending(kept, ids, left) := s.phase;
    var t := DoSend(s, reply);
    assert ids[0..] == ids;
    forall q, r, id | 0 <= q < r < |t.requests| && Accepted(t.requests[q]) && id in t.requests[q].ids
      ensures id !in t.requests[r].ids
    {
      if r == |s.requests| { assert t.requests[r].ids == ids; }
    }
    forall id | id in ids ensures id in s.store.place {
      var i :| 0 <= i < |ids| && ids[i] == id;
    }
  }

  lemma DueNext(d: Store, requests: seq<Request>, ids: seq<nat>, next: nat)
    requires next < |ids| && Settled(d, requests, ids[next..]) && ids[next] in d.place && d.place[ids[next]].Gone?
    ensures Settled(d, requests, ids[next + 1..])
  {
    assert ids[next..] == [ids[next]] + ids[next + 1..];
  }

  lemma AckOnce(s: Agent, removable: bool)
    requires Inv(s) && OnceInv(s) && s.phase.Acking? && !Interrupts(s, AckNext(removable))
    ensures CanAck(s) && OnceInv(DoAck(s, removable))
  {
    var ids, next := s.phase.ids, s.phase.next;
    var t := DoAck(s, removable);
    if next >= |s.phase.kept| {
      assert ids[next..] == [];
    } else {
      StepGrows(s, AckNext(removable));
      GrowKeeps(s.store, t.store, s.requests, ids[next..], s.phase.kept, ids);
      assert t == DoAck(s, true);
      NextGone(s, t);
      DueNext(t.store, s.requests, ids, next);
    }
  }

  /** After its turn, the event is off the disk. */
  lemma NextGone(s: Agent, t: Agent)
    requires Inv(s) && s.phase.Acking? && s.phase.next < |s.phase.kept| && AtHome(s.store, s.phase.kept, s.phase.ids)
    requires CanAck(s) && t == DoAck(s, true)
    ensures t.store.place[s.phase.ids[s.phase.next]].Gone?
  {
    var file, id := s.phase.kept[s.phase.next], s.phase.ids[s.phase.next];
    if file in s.store.dir { assert s.store.dir[file].id == id; }
  }

  lemma NextOnce(s: Agent, step: Step)
    requires Inv(s) && OnceInv(s) && !Interrupts(s, step)
    ensures OnceInv(Next(s, step))
  {
    StepGrows(s, step);
    match step
    case Enqueue(_, _, _, _) => SamePhaseOnce(s, Next(s, step));
    case PurgeFile(_, _) => SamePhaseOnce(s, Next(s, step));
    case ReadNext(readable, removable) => if s.phase.Reading? { ReadOnce(s, readable, removable); }
    case Send(reply) => if s.phase.Sending? { SendOnce(s, reply); }
    case AckNext(removable) => if s.phase.Acking? { AckOnce(s, removable); }
    case StartBatch(_) =>
    case Restart(_, _) => RestartOnce(s);
  }

  lemma RestartOnce(s: Agent)
    requires OnceInv(s) && !(s.phase.Acking? && s.phase.next < |s.phase.kept|)
    ensures NoRepeat(s.requests) && Settled(s.store, s.requests, [])
  {
    if s.phase.Acking? { assert s.phase.ids[s.phase.next..] == []; }
  }

  lemma {:induction false} RunOnce(steps: seq<Step>)
    requires SafeRun(FRESH, steps) && Uninterrupted(FRESH, steps)
    ensures OnceInv(Run(FRESH, steps))
    decreases |steps|
  {
    if steps != [] {
      var before := steps[..|steps| - 1];
      RunOnce(before);
      RunKeepsInv(FRESH, before);
      NextOnce(Run(FRESH, before), steps[|steps| - 1]);
    }
  }

  /** Delivery is at least once, and more than once only by an interruption: without a restart in the
      middle of the acks and without a removal that fails there, no event of an accepted request is in
      any later request. */
  lemma SentOnceAfterAcceptance(steps: seq<Step>)
    requires SafeRun(FRESH, steps) && Uninterrupted(FRESH, steps)
    ensures NoRepeat(Run(FRESH, steps).requests)
  {
    RunOnce(steps);
  }
}
