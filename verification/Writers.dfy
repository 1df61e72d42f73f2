/** Any number of writers appending to one ledger: each locks the head row, inserts rows and advances
    its own view of the head, then commits or rolls back. A step that has to wait changes nothing. */
module Writers {
  import opened Text
  import opened Hashing
  import opened Table
  import opened Verify
  import opened Append

  type WriterId = nat

  /** An open transaction. `inserted` holds the row between its insert and the head update. */
  datatype Txn = Txn(subs: seq<Submission>, rows: seq<Row>, head: Head, inserted: Option<Row>)

  /** The committed tables, the lock on the head row, the open transactions, and (for specification)
      every submission of a committed transaction, in commit order. */
  datatype System = System(
    rows: seq<Row>,
    head: Head,
    lock: Option<WriterId>,
    open: map<WriterId, Txn>,
    log: seq<Submission>)

  const INITIAL: System := System([], GENESIS_HEAD, None, map[], [])

  datatype Step =
    | Lock(w: WriterId)
    | Insert(w: WriterId, sub: Submission)
    | Advance(w: WriterId)
    | Commit(w: WriterId)
    | Rollback(w: WriterId)

  function Next(D: RowDigest, s: System, step: Step): System {
    var w := step.w;
    match step
    case Lock(_) =>
      if w in s.open || s.lock.Some? then s
      else s.(lock := Some(w), open := s.open[w := Txn([], [], s.head, None)])
    case Insert(_, sub) =>
      if w !in s.open || s.open[w].inserted.Some? then s
      else
        var t := s.open[w];
        var row := NextRow(D, t.head, sub);
        s.(open := s.open[w := t.(subs := t.subs + [sub], rows := t.rows + [row], inserted := Some(row))])
    case Advance(_) =>
      if w !in s.open || s.open[w].inserted.None? then s
      else
        var t := s.open[w];
        s.(open := s.open[w := t.(head := TipOf(t.inserted.value), inserted := None)])
    case Commit(_) =>
      if w !in s.open || s.open[w].inserted.Some? then s
      else
        var t := s.open[w];
        System(s.rows + t.rows, t.head, if s.lock == Some(w) then None else s.lock, s.open - {w}, s.log + t.subs)
    case Rollback(_) =>
      if w !in s.open then s
      else s.(lock := if s.lock == Some(w) then None else s.lock, open := s.open - {w})
  }

  function Run(D: RowDigest, s: System, steps: seq<Step>): System
    decreases |steps|
  {
    if steps == [] then s else Run(D, Next(D, s, steps[0]), steps[1..])
  }

  // ------------------------------------------------------------ invariant

  /** The uncommitted work of the lock holder extends the committed chain. */
  ghost predicate TxnInv(D: RowDigest, head: Head, t: Txn) {
    && t.rows == Build(D, head, t.subs)
    && (t.inserted.None? ==> t.head == HeadAfter(head, t.rows))
    && (t.inserted.Some? ==> t.rows != [] && t.inserted.value == t.rows[|t.rows| - 1])
  }

  ghost predicate Inv(D: RowDigest, s: System) {
    && s.rows == Build(D, GENESIS_HEAD, s.log)
    && s.head == HeadAfter(GENESIS_HEAD, s.rows)
    && (forall w | w in s.open :: s.lock == Some(w) && TxnInv(D, s.head, s.open[w]))
    && (s.lock.Some? ==> s.lock.value in s.open)
  }

  lemma InsertKeepsInv(D: RowDigest, s: System, w: WriterId, sub: Submission)
    requires Inv(D, s)
    ensures Inv(D, Next(D, s, Insert(w, sub)))
  {
    if w in s.open { BuildStep(D, s.head, s.open[w].subs, sub); }
  }

  lemma CommitKeepsInv(D: RowDigest, s: System, w: WriterId)
    requires Inv(D, s)
    ensures Inv(D, Next(D, s, Commit(w)))
  {
    if w in s.open && s.open[w].inserted.None? {
      BuildConcat(D, GENESIS_HEAD, s.log, s.open[w].subs);
    }
  }

  lemma NextKeepsInv(D: RowDigest, s: System, step: Step)
    requires Inv(D, s)
    ensures Inv(D, Next(D, s, step))
  {
    match step
    case Insert(w, sub) => InsertKeepsInv(D, s, w, sub);
    case Commit(w) => CommitKeepsInv(D, s, w);
    case _ =>
  }

  lemma {:induction false} RunKeepsInv(D: RowDigest, s: System, steps: seq<Step>)
    requires Inv(D, s)
    ensures Inv(D, Run(D, s, steps))
    decreases |steps|
  {
    if steps != [] {
      NextKeepsInv(D, s, steps[0]);
      RunKeepsInv(D, Next(D, s, steps[0]), steps[1..]);
    }
  }

  // --------------------------------------------------------- main results

  /** However the writers interleave, the committed ledger is the one a single writer would have
      built from the committed submissions in commit order. */
  lemma Serializable(H: Digest, steps: seq<Step>)
    ensures var s := Run(RowHashes(H), INITIAL, steps);
            s.rows == Build(RowHashes(H), GENESIS_HEAD, s.log) && s.head == HeadAfter(GENESIS_HEAD, s.rows)
  {
    RunKeepsInv(RowHashes(H), INITIAL, steps);
  }

  /** At every point of every run the committed rows are numbered 1..n, each names its predecessor's
      record hash (the first: genesis), the head is (n, last record hash), and verify_chain is clean. */
  lemma CommittedChain(H: Digest, steps: seq<Step>)
    ensures var s := Run(RowHashes(H), INITIAL, steps);
            (forall i | 0 <= i < |s.rows| ::
               s.rows[i].sequenceNum == i + 1 && s.rows[i].prevHash == HashBefore(s.rows, i, GENESIS_HASH)) &&
            s.head == Head(|s.rows|, LastHash(s.rows, GENESIS_HASH)) &&
            Clean(RowHashes(H), s.rows)
  {
    var D := RowHashes(H);
    var s := Run(D, INITIAL, steps);
    RunKeepsInv(D, INITIAL, steps);
    RowHashesIgnoreStoredHash(H);
    BuildIsChain(D, GENESIS_HEAD, s.log);
    AscendingReadsItself(s.rows);
    forall i | 0 <= i < |s.rows|
      ensures s.rows[i].sequenceNum == i + 1 && s.rows[i].prevHash == HashBefore(s.rows, i, GENESIS_HASH)
    {
      assert Linked(D, s.rows[i], HashBefore(s.rows, i, GENESIS_HASH));
    }
  }

  /** An insert never repeats a sequence number, so the unique constraint never fires. */
  lemma InsertIsFresh(H: Digest, steps: seq<Step>, w: WriterId, sub: Submission)
    ensures var s := Run(RowHashes(H), INITIAL, steps);
            w in s.open && s.open[w].inserted.None? ==>
              var n := NextRow(RowHashes(H), s.open[w].head, sub).sequenceNum;
              (forall r | r in s.rows :: r.sequenceNum < n) && (forall r | r in s.open[w].rows :: r.sequenceNum < n)
  {
    var D := RowHashes(H);
    var s := Run(D, INITIAL, steps);
    RunKeepsInv(D, INITIAL, steps);
    RowHashesIgnoreStoredHash(H);
    BuildIsChain(D, GENESIS_HEAD, s.log);
    if w in s.open { BuildIsChain(D, s.head, s.open[w].subs); }
  }

  /** While w holds the lock and neither commits nor rolls back, nothing but w's own transaction changes. */
  lemma {:induction false} HeldLock(D: RowDigest, s: System, w: WriterId, steps: seq<Step>)
    requires s.lock == Some(w) && s.open.Keys == {w}
    requires Commit(w) !in steps && Rollback(w) !in steps
    ensures var t := Run(D, s, steps);
            t.open.Keys == {w} && t == s.(open := t.open)
    decreases |steps|
  {
    if steps != [] {
      assert steps[0] in steps;
      HeldLock(D, Next(D, s, steps[0]), w, steps[1..]);
    }
  }

  lemma {:induction false} RunConcat(D: RowDigest, s: System, a: seq<Step>, b: seq<Step>)
    ensures Run(D, s, a + b) == Run(D, Run(D, s, a), b)
    decreases |a|
  {
    if a == [] {
      assert a + b == b;
    } else {
      assert (a + b)[1..] == a[1..] + b;
      RunConcat(D, Next(D, s, a[0]), a[1..], b);
    }
  }

  /** A transaction that is rolled back, however many rows it inserted and whatever the other writers
      tried meanwhile, leaves the whole system as it was before it took the lock. */
  lemma RollbackLeavesNoTrace(D: RowDigest, before: seq<Step>, w: WriterId, during: seq<Step>)
    requires Run(D, INITIAL, before).lock == None
    requires Commit(w) !in during && Rollback(w) !in during
    ensures Run(D, INITIAL, before + [Lock(w)] + during + [Rollback(w)]) == Run(D, INITIAL, before)
  {
    var s := Run(D, INITIAL, before);
    RunKeepsInv(D, INITIAL, before);
    assert s.open == map[];
    var locked := Next(D, s, Lock(w));
    RunConcat(D, INITIAL, before, [Lock(w)]);
    assert Run(D, s, [Lock(w)]) == locked;
    RunConcat(D, INITIAL, before + [Lock(w)], during);
    HeldLock(D, locked, w, during);
    var t := Run(D, locked, during);
    RunConcat(D, INITIAL, before + [Lock(w)] + during, [Rollback(w)]);
    assert Run(D, t, [Rollback(w)]) == Next(D, t, Rollback(w));
    assert t.open - {w} == s.open;
  }

  /** The submissions that a writer's steps insert, whatever the others do in between; a second insert waits
      for the head update that belongs to the first. */
  function Inserted(w: WriterId, steps: seq<Step>, pending: bool): seq<Submission>
    decreases |steps|
  {
    if steps == [] then []
    else if steps[0].Insert? && steps[0].w == w && !pending then [steps[0].sub] + Inserted(w, steps[1..], true)
    else Inserted(w, steps[1..], pending && steps[0] != Advance(w))
  }

  /** The last insert still lacks its head update. */
  predicate Unfinished(w: WriterId, steps: seq<Step>, pending: bool)
    decreases |steps|
  {
    if steps == [] then pending
    else Unfinished(w, steps[1..], (steps[0].Insert? && steps[0].w == w) || (pending && steps[0] != Advance(w)))
  }

  lemma {:induction false} HeldTxn(D: RowDigest, s: System, w: WriterId, steps: seq<Step>)
    requires s.lock == Some(w) && s.open.Keys == {w} && Commit(w) !in steps && Rollback(w) !in steps
    ensures var t, pending := Run(D, s, steps), s.open[w].inserted.Some?;
            && w in t.open && t.open[w].subs == s.open[w].subs + Inserted(w, steps, pending)
            && t.open[w].inserted.Some? == Unfinished(w, steps, pending)
    decreases |steps|
  {
    if steps != [] {
      assert steps[0] in steps;
      assert forall x | x in steps[1..] :: x in steps;
      HeldTxn(D, Next(D, s, steps[0]), w, steps[1..]);
    }
  }

  /** A transaction that commits adds exactly the rows of what it inserted, in order, after the committed
      ones, moves the head to the last of them and frees the lock, whatever the other writers tried
      meanwhile. */
  lemma CommitPublishes(H: Digest, before: seq<Step>, w: WriterId, during: seq<Step>)
    requires Run(RowHashes(H), INITIAL, before).lock == None
    requires Commit(w) !in during && Rollback(w) !in during && !Unfinished(w, during, false)
    ensures var s := Run(RowHashes(H), INITIAL, before);
            var subs := Inserted(w, during, false);
            var rows := Build(RowHashes(H), s.head, subs);
            Run(RowHashes(H), INITIAL, before + [Lock(w)] + during + [Commit(w)]) ==
              System(s.rows + rows, HeadAfter(s.head, rows), None, map[], s.log + subs)
  {
    var D := RowHashes(H);
    var s := Run(D, INITIAL, before);
    RunKeepsInv(D, INITIAL, before);
    assert s.open == map[];
    var locked := Next(D, s, Lock(w));
    RunConcat(D, INITIAL, before, [Lock(w)]);
    assert Run(D, s, [Lock(w)]) == locked;
    RunConcat(D, INITIAL, before + [Lock(w)], during);
    HeldLock(D, locked, w, during);
    HeldTxn(D, locked, w, during);
    NextKeepsInv(D, s, Lock(w));
    RunKeepsInv(D, locked, during);
    var t := Run(D, locked, during);
    assert t.open[w].subs == Inserted(w, during, false);
    RunConcat(D, INITIAL, before + [Lock(w)] + during, [Commit(w)]);
    assert Run(D, t, [Commit(w)]) == Next(D, t, Commit(w));
    assert t.open - {w} == map[];
  }
}
