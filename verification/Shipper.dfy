/** The agent's shipper: one batch per round, back-off on errors. An HTTP exchange is its outcome. */
module Shipper {
  import opened Text
  import opened Queue

  const BATCH_SIZE: nat := 100
  const SECOND: nat := 1000000000
  const MIN_RETRY_WAIT: nat := 2 * SECOND
  const MAX_RETRY_WAIT: nat := 300 * SECOND

  /** No response at all, or the status code of the response. */
  datatype Reply = NetworkError | Status(code: nat)

  /** What shipOne does with the batch after a reply. */
  datatype Disposition = Keep | Drop | Ship

  function Dispose(reply: Reply): Disposition {
    match reply
    case NetworkError => Keep
    case Status(code) =>
      if code >= 500 then Keep
      else if code == 401 || code == 403 then Keep
      else if code >= 400 then Drop
      else Ship
  }

  // --------------------------------------------------------------- back-off

  function MinDuration(a: nat, b: nat): nat { if a < b then a else b }

  /** Random addition in [0, d/2). */
  function Jitter(d: nat, draw: nat): nat
    requires d >= 2
  {
    draw % (d / 2)
  }

  /** The value of `wait` after a history of rounds, true for a round that failed. */
  function WaitAfter(errs: seq<bool>): nat {
    if errs == [] || !errs[|errs| - 1] then MIN_RETRY_WAIT
    else MinDuration(WaitAfter(errs[..|errs| - 1]) * 2, MAX_RETRY_WAIT)
  }

  function TrailingErrors(errs: seq<bool>): nat {
    if errs == [] || !errs[|errs| - 1] then 0 else 1 + TrailingErrors(errs[..|errs| - 1])
  }

  function Pow2(k: nat): nat { if k == 0 then 1 else 2 * Pow2(k - 1) }

  /** After k consecutive errors the base wait is 2^(k+1) seconds, or 300 if that is more, whatever came
      before. */
  lemma {:induction false} WaitClosedForm(errs: seq<bool>)
    ensures var doubled := Pow2(TrailingErrors(errs) + 1);
            WaitAfter(errs) == (if doubled <= 300 then doubled else 300) * 1_000_000_000
  {
    if errs != [] && errs[|errs| - 1] {
      WaitClosedForm(errs[..|errs| - 1]);
    }
  }

  /** A failed round sleeps the base wait plus less than half of it; the others do not sleep. */
  predicate SleepOk(before: seq<bool>, err: bool, sleep: nat) {
    if err then WaitAfter(before) <= sleep < WaitAfter(before) / 2 * 3 else sleep == 0
  }

  predicate SleepsOk(errs: seq<bool>, sleeps: seq<nat>) {
    |errs| == |sleeps| && forall i | 0 <= i < |errs| :: SleepOk(errs[..i], errs[i], sleeps[i])
  }

  lemma SleepsExtend(errs: seq<bool>, sleeps: seq<nat>, err: bool, sleep: nat)
    requires SleepsOk(errs, sleeps) && SleepOk(errs, err, sleep)
    ensures SleepsOk(errs + [err], sleeps + [sleep])
  {
    var e := errs + [err];
    forall i | 0 <= i < |e| ensures SleepOk(e[..i], e[i], (sleeps + [sleep])[i]) {
      assert e[..i] == errs[..i];
    }
  }

  lemma WaitEven(errs: seq<bool>)
    ensures WaitAfter(errs) % 2 == 0 && WaitAfter(errs) >= MIN_RETRY_WAIT
  {
  }

  lemma WaitStep(errs: seq<bool>, err: bool)
    ensures WaitAfter(errs + [err])
         == if err then MinDuration(WaitAfter(errs) * 2, MAX_RETRY_WAIT) else MIN_RETRY_WAIT
  {
    assert (errs + [err])[..|errs|] == errs;
  }

  // ------------------------------------------------------------- one round

  /** The files a round sends: the readable ones of the oldest. */
  ghost function Batch(files: map<string, File>, io: IO): seq<string> {
    Readable(files, Oldest(files.Keys, BATCH_SIZE), io)
  }

  /** The files left after reading the batch. */
  ghost function AfterReading(files: map<string, File>, io: IO): map<string, File> {
    files - RemovedIn(files, Oldest(files.Keys, BATCH_SIZE), io)
  }

  /** The server did not take the batch, and may yet: no response, a 5xx, 401 or 403. */
  predicate Unanswered(reply: Reply) {
    match reply
    case NetworkError => true
    case Status(code) => code >= 500 || code == 401 || code == 403
  }

  /** A round fails if the directory cannot be listed, or if there was a batch and it may yet be taken. */
  ghost predicate RoundFails(configured: bool, files: map<string, File>, io: IO, reply: Reply) {
    configured && (!io.listed || (Batch(files, io) != [] && Unanswered(reply)))
  }

  ghost function AfterRound(configured: bool, files: map<string, File>, io: IO, reply: Reply): map<string, File> {
    if !configured || !io.listed then files
    else if Unanswered(reply) then AfterReading(files, io)
    else AfterReading(files, io) - ((set p | p in Batch(files, io)) - io.stuck)
  }

  ghost function SentInRound(configured: bool, files: map<string, File>, io: IO, reply: Reply): nat {
    if configured && io.listed && reply.Status? && reply.code < 400 then |Batch(files, io)| else 0
  }

  /** No file is gone but undecodable ones. */
  ghost predicate BatchStays(files: map<string, File>, after: map<string, File>) {
    && (forall p | p in after :: p in files && after[p] == files[p])
    && forall p | p in files && p !in after :: files[p].content.Undecodable?
  }

  /** The batch is gone, as far as it could be removed, and no other file but undecodable ones. */
  ghost predicate BatchLeaves(files: map<string, File>, after: map<string, File>, io: IO) {
    && (forall p | p in after :: p in files && after[p] == files[p])
    && (forall p | p in Batch(files, io) && p !in io.stuck :: p !in after)
    && forall p | p in files && p !in after :: p in Batch(files, io) || files[p].content.Undecodable?
  }

  /** The batch of a round: those of the oldest 100 files that can be read and decoded, in name order. */
  lemma BatchIff(files: map<string, File>, io: IO, p: string)
    ensures p in Batch(files, io)
       <==> p in Oldest(files.Keys, 100) && p in files && p !in io.unreadable && files[p].content.Decodable?
    ensures Ascending(Batch(files, io)) && |Batch(files, io)| <= 100
  {
    var paths := Oldest(files.Keys, 100);
    OldestFirst(files.Keys, 100);
    ReadableReads(files, paths, io);
    ReadableAscends(files, paths, io);
  }

  lemma {:induction false} ReadableAscends(files: map<string, File>, paths: seq<string>, io: IO)
    requires Ascending(paths)
    ensures Ascending(Readable(files, paths, io)) && |Readable(files, paths, io)| <= |paths|
    decreases |paths|
  {
    if paths != [] {
      ReadableAscends(files, paths[1..], io);
      ReadableReads(files, paths[1..], io);
      var r := Readable(files, paths[1..], io);
      assert forall i | 0 <= i < |r| :: r[i] in r && r[i] in paths[1..];
    }
  }

  /** What each round meets: what the collector and the purge did to the directory since the last one, the
      file system and the reply. */
  datatype Meets = Meets(others: map<string, File> -> map<string, File>, io: IO, reply: Reply)

  /** The directory that a round finds. */
  ghost function Found(configured: bool, files: map<string, File>, rounds: seq<Meets>, n: nat): map<string, File>
    requires n < |rounds|
    decreases n, 1
  {
    rounds[n].others(AfterRounds(configured, files, rounds, n))
  }

  /** The directory after the first n rounds. */
  ghost function AfterRounds(configured: bool, files: map<string, File>, rounds: seq<Meets>, n: nat): map<string, File>
    requires n <= |rounds|
    decreases n, 0
  {
    if n == 0 then files
    else AfterRound(configured, Found(configured, files, rounds, n - 1), rounds[n - 1].io, rounds[n - 1].reply)
  }

  ghost function SentInRounds(configured: bool, files: map<string, File>, rounds: seq<Meets>, n: nat): nat
    requires n <= |rounds|
  {
    if n == 0 then 0
    else
      SentInRounds(configured, files, rounds, n - 1) +
      SentInRound(configured, Found(configured, files, rounds, n - 1), rounds[n - 1].io, rounds[n - 1].reply)
  }

  ghost predicate FailsAt(configured: bool, files: map<string, File>, rounds: seq<Meets>, i: nat)
    requires i < |rounds|
  {
    RoundFails(configured, Found(configured, files, rounds, i), rounds[i].io, rounds[i].reply)
  }

  /** Which of the rounds so far failed. */
  ghost predicate Failures(configured: bool, files: map<string, File>, rounds: seq<Meets>, errs: seq<bool>) {
    |errs| <= |rounds| && forall i | 0 <= i < |errs| :: errs[i] == FailsAt(configured, files, rounds, i)
  }

  // ------------------------------------------------------------ the shipper

  class Shipper {
    const q: Queue
    var sent: nat

    constructor (q: Queue)
      ensures this.q == q && sent == 0
    {
      this.q := q;
      sent := 0;
    }

    /** One round; false when it ends in an error. */
    method ShipOne(configured: bool, io: IO, reply: Reply) returns (ok: bool)
      modifies q`files, this`sent
      ensures ok == !RoundFails(configured, old(q.files), io, reply)
      ensures q.files == AfterRound(configured, old(q.files), io, reply)
      ensures sent == old(sent) + SentInRound(configured, old(q.files), io, reply)
      ensures !configured || !io.listed ==> ok == !configured && q.files == old(q.files) && sent == old(sent)
      ensures configured && io.listed &&
              (reply.NetworkError? || reply.code >= 500 || reply.code == 401 || reply.code == 403) ==>
                BatchStays(old(q.files), q.files) && sent == old(sent) && (ok <==> Batch(old(q.files), io) == [])
      ensures configured && io.listed && reply.Status? && 400 <= reply.code < 500 && reply.code != 401 &&
              reply.code != 403 ==>
                BatchLeaves(old(q.files), q.files, io) && sent == old(sent) && ok
      ensures configured && io.listed && reply.Status? && reply.code < 400 ==>
                BatchLeaves(old(q.files), q.files, io) && sent == old(sent) + |Batch(old(q.files), io)| && ok
    {
      ReadableReads(q.files, Oldest(q.files.Keys, BATCH_SIZE), io);
      if !configured { return true; }
      var listed, events, paths := q.ReadBatch(BATCH_SIZE, io);
      if !listed { return false; }
      if |events| == 0 {
        assert q.files - ((set p | p in paths) - io.stuck) == q.files;
        return true;
      }
      match Dispose(reply)
      case Keep => ok := false;
      case Drop =>
        q.Ack(paths, io.stuck);
        ok := true;
      case Ship =>
        q.Ack(paths, io.stuck);
        sent := sent + |events|;
        ok := true;
    }

    /** Run for some rounds, with the collector and the purge at work between them: which rounds failed, the
        sleep after each failure, and what is left in the queue. */
    method Run(configured: bool, rounds: seq<Meets>, draws: seq<nat>) returns (errs: seq<bool>, sleeps: seq<nat>)
      requires |draws| == |rounds|
      modifies q`files, this`sent
      ensures |errs| == |rounds| && Failures(configured, old(q.files), rounds, errs) && SleepsOk(errs, sleeps)
      ensures q.files == AfterRounds(configured, old(q.files), rounds, |rounds|)
      ensures sent == old(sent) + SentInRounds(configured, old(q.files), rounds, |rounds|)
    {
      errs, sleeps := [], [];
      var wait := MIN_RETRY_WAIT;
      ghost var files, before := q.files, sent;
      for n := 0 to |rounds|
        invariant |errs| == n && Failures(configured, files, rounds, errs) && SleepsOk(errs, sleeps)
        invariant wait == WaitAfter(errs)
        invariant q.files == AfterRounds(configured, files, rounds, n)
        invariant sent == before + SentInRounds(configured, files, rounds, n)
      {
        q.files := rounds[n].others(q.files);
        var ok := ShipOne(configured, rounds[n].io, rounds[n].reply);
        assert !ok == FailsAt(configured, files, rounds, n);
        WaitEven(errs);
        WaitStep(errs, !ok);
        if !ok {
          var sleep := wait + Jitter(wait, draws[n]);
          SleepsExtend(errs, sleeps, true, sleep);
          errs, sleeps := errs + [true], sleeps + [sleep];
          wait := MinDuration(wait * 2, MAX_RETRY_WAIT);
        } else {
          SleepsExtend(errs, sleeps, false, 0);
          errs, sleeps := errs + [false], sleeps + [0];
          wait := MIN_RETRY_WAIT;
        }
      }
    }
  }
}
