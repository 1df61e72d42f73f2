/** check_rate_limit: a sliding-window log per key, pruned in place, with a cap on the number of keys. */
module RateLimit {
  const MAX_TRACKED_KEYS: nat := 50000

  /** The times of the recorded calls of each key, oldest first. */
  type Log = map<string, seq<real>>

  /** One call and the time it reads from the clock. */
  datatype Call = Call(key: string, maxRequests: int, windowSeconds: int, now: real) {
    function Cutoff(): real { now - windowSeconds as real }

    /** The limit the code really applies: a call that finds no recent one is never refused by it. */
    function Limit(): int { if maxRequests < 1 then 1 else maxRequests }
  }

  // ------------------------------------------------ what one call does

  /** Drops the leading entries before the cutoff; an entry at the cutoff stays. */
  function Pruned(times: seq<real>, cutoff: real): (r: seq<real>)
    ensures |r| <= |times|
  {
    if times != [] && times[0] < cutoff then Pruned(times[1..], cutoff) else times
  }

  function Recent(log: Log, c: Call): seq<real> {
    if c.key in log then Pruned(log[c.key], c.Cutoff()) else []
  }

  predicate Allows(log: Log, c: Call) {
    if Recent(log, c) != [] then |Recent(log, c)| < c.maxRequests else |log - {c.key}| < MAX_TRACKED_KEYS
  }

  function After(log: Log, c: Call): Log {
    if Allows(log, c) then log[c.key := Recent(log, c) + [c.now]]
    else if Recent(log, c) == [] then log - {c.key}
    else log[c.key := Recent(log, c)]
  }

  class RateLimiter {
    var log: Log

    constructor ()
      ensures log == map[]
    {
      log := map[];
    }

    method Check(key: string, maxRequests: int, windowSeconds: int, now: real) returns (allowed: bool)
      modifies this
      ensures allowed == Allows(old(log), Call(key, maxRequests, windowSeconds, now))
      ensures log == After(old(log), Call(key, maxRequests, windowSeconds, now))
    {
      var cutoff := now - windowSeconds as real;
      ghost var recent := Recent(log, Call(key, maxRequests, windowSeconds, now));
      if key in log {
        while log[key] != [] && log[key][0] < cutoff
          invariant key in log && log == old(log)[key := log[key]]
          invariant Pruned(log[key], cutoff) == recent
          decreases if key in log then |log[key]| else 0
        {
          log := log[key := log[key][1..]];
        }
        if log[key] == [] {
          log := log - {key};
        }
      }
      assert log == if recent == [] then old(log) - {key} else old(log)[key := recent];
      if key in log {
        if |log[key]| >= maxRequests {
          return false;
        }
        log := log[key := log[key] + [now]];
        return true;
      }
      if |log| >= MAX_TRACKED_KEYS {
        return false;
      }
      log := log[key := [now]];
      assert recent + [now] == [now];
      return true;
    }
  }

  // ------------------------------------------------------ whole histories

  function Decisions(log: Log, calls: seq<Call>): (r: seq<bool>)
    ensures |r| == |calls|
    decreases |calls|
  {
    if calls == [] then [] else [Allows(log, calls[0])] + Decisions(After(log, calls[0]), calls[1..])
  }

  function LogAfter(log: Log, calls: seq<Call>): Log
    decreases |calls|
  {
    if calls == [] then log else LogAfter(After(log, calls[0]), calls[1..])
  }

  /** The calls that were admitted. */
  function Chosen(calls: seq<Call>, decisions: seq<bool>): seq<Call>
    requires |calls| == |decisions|
  {
    if calls == [] then [] else (if decisions[0] then [calls[0]] else []) + Chosen(calls[1..], decisions[1..])
  }

  // ------------------------- the reference: counting what was admitted so far

  function Keys(admitted: seq<Call>): set<string> { set c | c in admitted :: c.key }

  /** How many admitted calls of a key fall in a closed interval of time. */
  function CountBetween(admitted: seq<Call>, key: string, from: real, to: real): nat {
    if admitted == [] then 0
    else CountBetween(admitted[..|admitted| - 1], key, from, to) +
         var c := admitted[|admitted| - 1]; if c.key == key && from <= c.now <= to then 1 else 0
  }

  /** A key that was admitted before is limited by the calls admitted in its window up to now; one that
      never was is refused exactly when the table already holds its full number of keys. */
  predicate Permits(admitted: seq<Call>, c: Call) {
    if c.key in Keys(admitted) then CountBetween(admitted, c.key, c.Cutoff(), c.now) < c.Limit()
    else |Keys(admitted)| < MAX_TRACKED_KEYS
  }

  function Extended(admitted: seq<Call>, c: Call): seq<Call> {
    if Permits(admitted, c) then admitted + [c] else admitted
  }

  function ReferenceDecisions(admitted: seq<Call>, calls: seq<Call>): (r: seq<bool>)
    ensures |r| == |calls|
    decreases |calls|
  {
    if calls == [] then []
    else [Permits(admitted, calls[0])] + ReferenceDecisions(Extended(admitted, calls[0]), calls[1..])
  }

  // ------------------------------------------------------ pruning lemmas

  function Times(admitted: seq<Call>, key: string): seq<real> {
    if admitted == [] then []
    else Times(admitted[..|admitted| - 1], key) +
         var c := admitted[|admitted| - 1]; if c.key == key then [c.now] else []
  }

  predicate UpTo(times: seq<real>, clock: real) {
    && (forall i, j | 0 <= i < j < |times| :: times[i] <= times[j])
    && (forall i | 0 <= i < |times| :: times[i] <= clock)
  }

  lemma {:induction false} PrunedTwice(times: seq<real>, a: real, b: real)
    requires a <= b
    ensures Pruned(Pruned(times, a), b) == Pruned(times, b)
  {
    if times != [] && times[0] < a { PrunedTwice(times[1..], a, b); }
  }

  lemma {:induction false} PrunedAppend(times: seq<real>, x: real, cutoff: real)
    ensures Pruned(times + [x], cutoff)
         == if Pruned(times, cutoff) != [] then Pruned(times, cutoff) + [x] else Pruned([x], cutoff)
  {
    if times == [] {
      assert times + [x] == [x];
    } else if times[0] < cutoff {
      assert (times + [x])[1..] == times[1..] + [x];
      PrunedAppend(times[1..], x, cutoff);
    }
  }

  /** Two logs of a key that no cutoff from `from` on can tell apart. */
  ghost predicate SameSince(a: seq<real>, b: seq<real>, from: real) {
    forall cutoff | cutoff >= from :: Pruned(a, cutoff) == Pruned(b, cutoff)
  }

  lemma SameSinceAppend(a: seq<real>, b: seq<real>, x: real, from: real)
    requires SameSince(a, b, from)
    ensures SameSince(a + [x], b + [x], from)
  {
    forall cutoff | cutoff >= from ensures Pruned(a + [x], cutoff) == Pruned(b + [x], cutoff) {
      PrunedAppend(a, x, cutoff);
      PrunedAppend(b, x, cutoff);
    }
  }

  lemma SameSincePruned(a: seq<real>, b: seq<real>, from: real, cutoff: real)
    requires SameSince(a, b, from) && cutoff >= from
    ensures SameSince(Pruned(a, cutoff), b, cutoff)
  {
    forall c | c >= cutoff ensures Pruned(Pruned(a, cutoff), c) == Pruned(b, c) {
      PrunedTwice(a, cutoff, c);
    }
  }

  /** What is left after pruning is what the reference counts. */
  lemma {:induction false} PrunedCounts(admitted: seq<Call>, key: string, cutoff: real, clock: real)
    requires UpTo(Times(admitted, key), clock)
    ensures |Pruned(Times(admitted, key), cutoff)| == CountBetween(admitted, key, cutoff, clock)
  {
    if admitted != [] {
      var before, c := admitted[..|admitted| - 1], admitted[|admitted| - 1];
      var times := Times(before, key);
      assert forall i | 0 <= i < |times| :: Times(admitted, key)[i] == times[i];
      PrunedCounts(before, key, cutoff, clock);
      if c.key == key {
        assert Times(admitted, key)[|times|] == c.now;
        assert [c.now][1..] == [];
        PrunedAppend(times, c.now, cutoff);
        PrunedFirst(times, cutoff);
      } else {
        assert Times(admitted, key) == times;
      }
    }
  }

  lemma {:induction false} PrunedFirst(times: seq<real>, cutoff: real)
    ensures Pruned(times, cutoff) != [] ==> Pruned(times, cutoff)[0] >= cutoff && Pruned(times, cutoff)[0] in times
  {
    if times != [] && times[0] < cutoff { PrunedFirst(times[1..], cutoff); }
  }

  // -------------------------------------------------------- the refinement

  /** The limiter's table against the list of calls admitted so far, the last one not after `clock`. */
  ghost predicate Refines(log: Log, admitted: seq<Call>, window: string -> int, clock: real) {
    && log.Keys == Keys(admitted)
    && |log| <= MAX_TRACKED_KEYS
    && (forall k | k in log :: SameSince(log[k], Times(admitted, k), clock - window(k) as real))
    && (forall k: string :: UpTo(Times(admitted, k), clock))
  }

  /** Non-decreasing clock readings, not before `clock`, and one window per key. */
  ghost predicate Orderly(calls: seq<Call>, window: string -> int, clock: real) {
    && (forall i, j | 0 <= i < j < |calls| :: calls[i].now <= calls[j].now)
    && (forall i | 0 <= i < |calls| :: clock <= calls[i].now && calls[i].windowSeconds == window(calls[i].key))
  }

  lemma {:induction false} TimesOfStranger(admitted: seq<Call>, key: string)
    ensures Times(admitted, key) == [] <==> key !in Keys(admitted)
  {
    if admitted != [] {
      var before, c := admitted[..|admitted| - 1], admitted[|admitted| - 1];
      TimesOfStranger(before, key);
      KeysExtended(before, c);
      assert admitted == before + [c];
    }
  }

  lemma KeysExtended(admitted: seq<Call>, c: Call)
    ensures Keys(admitted + [c]) == Keys(admitted) + {c.key}
  {
    forall k | k in Keys(admitted) + {c.key} ensures k in Keys(admitted + [c]) {
      if k == c.key {
        assert c in admitted + [c];
      } else {
        var d :| d in admitted && d.key == k;
        assert d in admitted + [c];
      }
    }
  }

  lemma TimesExtended(admitted: seq<Call>, c: Call, key: string)
    ensures Times(admitted + [c], key) == if key == c.key then Times(admitted, key) + [c.now] else Times(admitted, key)
  {
    assert (admitted + [c])[..|admitted|] == admitted;
  }

  lemma SmallerWithout(log: Log, key: string)
    ensures |log - {key}| == if key in log then |log| - 1 else |log|
  {
    if key in log {
      assert log.Keys == (log - {key}).Keys + {key};
      assert |log.Keys| == |(log - {key}).Keys| + 1;
    } else {
      assert log - {key} == log;
    }
  }

  lemma AfterKeys(log: Log, c: Call)
    requires |log| <= MAX_TRACKED_KEYS
    ensures log.Keys <= After(log, c).Keys && |After(log, c)| <= MAX_TRACKED_KEYS
    ensures After(log, c).Keys == if Allows(log, c) then log.Keys + {c.key} else log.Keys
    ensures |log| == MAX_TRACKED_KEYS && c.key !in log ==> !Allows(log, c)
  {
    SmallerWithout(log, c.key);
    if Allows(log, c) {
      AddedKey(log, c.key, Recent(log, c) + [c.now]);
    } else if Recent(log, c) != [] {
      AddedKey(log, c.key, Recent(log, c));
    } else {
      assert log - {c.key} == log;
    }
  }

  lemma AddedKey(log: Log, key: string, times: seq<real>)
    ensures log[key := times].Keys == log.Keys + {key}
    ensures |log[key := times]| == |log - {key}| + 1
  {
    SmallerWithout(log[key := times], key);
    assert log[key := times] - {key} == log - {key};
  }

  lemma OneDecision(log: Log, admitted: seq<Call>, window: string -> int, clock: real, c: Call)
    requires Refines(log, admitted, window, clock) && clock <= c.now && c.windowSeconds == window(c.key)
    ensures Allows(log, c) == Permits(admitted, c)
    ensures c.key in log ==> Recent(log, c) == Pruned(Times(admitted, c.key), c.Cutoff())
  {
    SmallerWithout(log, c.key);
    assert |log| == |log.Keys| == |Keys(admitted)|;
    if c.key in log {
      assert c.Cutoff() >= clock - window(c.key) as real;
      assert UpTo(Times(admitted, c.key), c.now);
      assert Recent(log, c) == Pruned(Times(admitted, c.key), c.Cutoff());
      PrunedCounts(admitted, c.key, c.Cutoff(), c.now);
    } else {
      assert Recent(log, c) == [] && |log - {c.key}| == |Keys(admitted)|;
    }
  }

  lemma AdmittedTable(log: Log, admitted: seq<Call>, c: Call)
    requires log.Keys == Keys(admitted) && |log| <= MAX_TRACKED_KEYS && Allows(log, c)
    ensures After(log, c).Keys == Keys(admitted + [c]) && |After(log, c)| <= MAX_TRACKED_KEYS
  {
    KeysExtended(admitted, c);
    AfterKeys(log, c);
  }

  lemma AdmittedTimes(admitted: seq<Call>, c: Call, key: string, clock: real)
    requires UpTo(Times(admitted, key), clock) && clock <= c.now
    ensures UpTo(Times(admitted + [c], key), c.now)
  {
    TimesExtended(admitted, c, key);
  }

  lemma AdmittedEntry(log: Log, admitted: seq<Call>, window: string -> int, clock: real, c: Call, k: string)
    requires Refines(log, admitted, window, clock) && clock <= c.now && c.windowSeconds == window(c.key)
    requires Allows(log, c) && k in After(log, c)
    ensures SameSince(After(log, c)[k], Times(admitted + [c], k), c.now - window(k) as real)
  {
    TimesExtended(admitted, c, k);
    if k == c.key { CalledKey(log, admitted, window, clock, c); }
  }

  lemma AdmittedStep(log: Log, admitted: seq<Call>, window: string -> int, clock: real, c: Call)
    requires Refines(log, admitted, window, clock) && clock <= c.now && c.windowSeconds == window(c.key)
    requires Allows(log, c)
    ensures Refines(After(log, c), admitted + [c], window, c.now)
  {
    AdmittedTable(log, admitted, c);
    forall k | k in After(log, c)
      ensures SameSince(After(log, c)[k], Times(admitted + [c], k), c.now - window(k) as real)
    {
      AdmittedEntry(log, admitted, window, clock, c, k);
    }
    forall k: string ensures UpTo(Times(admitted + [c], k), c.now) {
      AdmittedTimes(admitted, c, k, clock);
    }
  }

  /** The called key's entry stays indistinguishable from its admitted calls. */
  lemma CalledKey(log: Log, admitted: seq<Call>, window: string -> int, clock: real, c: Call)
    requires Refines(log, admitted, window, clock) && clock <= c.now && c.windowSeconds == window(c.key)
    ensures SameSince(Recent(log, c), Times(admitted, c.key), c.Cutoff())
    ensures SameSince(Recent(log, c) + [c.now], Times(admitted, c.key) + [c.now], c.Cutoff())
  {
    if c.key in log {
      SameSincePruned(log[c.key], Times(admitted, c.key), clock - window(c.key) as real, c.Cutoff());
    } else {
      TimesOfStranger(admitted, c.key);
    }
    SameSinceAppend(Recent(log, c), Times(admitted, c.key), c.now, c.Cutoff());
  }

  lemma RefusedStep(log: Log, admitted: seq<Call>, window: string -> int, clock: real, c: Call)
    requires Refines(log, admitted, window, clock) && clock <= c.now && c.windowSeconds == window(c.key)
    requires !Allows(log, c)
    ensures Refines(After(log, c), admitted, window, c.now)
  {
    SmallerWithout(log, c.key);
    var next := After(log, c);
    assert next.Keys == log.Keys;
    assert |next| == |next.Keys| && |log| == |log.Keys|;
    forall k | k in next ensures SameSince(next[k], Times(admitted, k), c.now - window(k) as real) {
      if k == c.key { CalledKey(log, admitted, window, clock, c); }
    }
    forall k: string ensures UpTo(Times(admitted, k), c.now) {
      assert UpTo(Times(admitted, k), clock);
    }
  }

  lemma {:induction false} RefinementFrom(log: Log, admitted: seq<Call>, calls: seq<Call>, window: string -> int,
                                          clock: real)
    requires Refines(log, admitted, window, clock) && Orderly(calls, window, clock)
    ensures Decisions(log, calls) == ReferenceDecisions(admitted, calls)
    decreases |calls|
  {
    if calls != [] {
      var c := calls[0];
      OneDecision(log, admitted, window, clock, c);
      if Allows(log, c) {
        AdmittedStep(log, admitted, window, clock, c);
      } else {
        RefusedStep(log, admitted, window, clock, c);
      }
      RefinementFrom(After(log, c), Extended(admitted, c), calls[1..], window, c.now);
    }
  }

  /** The pruned table decides every call of every history as counting the admitted calls would. */
  lemma Refinement(calls: seq<Call>, window: string -> int, clock: real)
    requires Orderly(calls, window, clock)
    ensures Decisions(map[], calls) == ReferenceDecisions([], calls)
  {
    RefinementFrom(map[], [], calls, window, clock);
  }

  // ------------------------------------------------------- what it guarantees

  lemma CountExtended(admitted: seq<Call>, c: Call, key: string, from: real, to: real)
    ensures CountBetween(admitted + [c], key, from, to)
         == CountBetween(admitted, key, from, to) + if c.key == key && from <= c.now <= to then 1 else 0
  {
    assert (admitted + [c])[..|admitted|] == admitted;
  }

  lemma {:induction false} CountGrows(admitted: seq<Call>, key: string, a: real, b: real, from: real, to: real)
    requires forall c | c in admitted && c.key == key && a <= c.now <= b :: from <= c.now <= to
    ensures CountBetween(admitted, key, a, b) <= CountBetween(admitted, key, from, to)
  {
    if admitted != [] { CountGrows(admitted[..|admitted| - 1], key, a, b, from, to); }
  }

  lemma {:induction false} NoneOfStranger(admitted: seq<Call>, key: string, from: real, to: real)
    requires key !in Keys(admitted)
    ensures CountBetween(admitted, key, from, to) == 0
  {
    if admitted != [] {
      assert admitted[|admitted| - 1] in admitted;
      assert Keys(admitted[..|admitted| - 1]) <= Keys(admitted);
      NoneOfStranger(admitted[..|admitted| - 1], key, from, to);
    }
  }

  /** Admitting one more call keeps an interval of window length within the limit. */
  lemma IntervalStep(admitted: seq<Call>, c: Call, key: string, limit: int, a: real, b: real)
    requires forall d | d in admitted :: d.now <= c.now
    requires c.key == key ==> c.maxRequests == limit && b - a <= c.windowSeconds as real
    requires CountBetween(admitted, key, a, b) <= (if limit < 1 then 1 else limit)
    ensures CountBetween(Extended(admitted, c), key, a, b) <= (if limit < 1 then 1 else limit)
  {
    CountExtended(admitted, c, key, a, b);
    if c.key == key && a <= c.now <= b {
      if key in Keys(admitted) {
        CountGrows(admitted, key, a, b, c.Cutoff(), c.now);
      } else {
        NoneOfStranger(admitted, key, a, b);
      }
    }
  }

  lemma ChosenFirst(admitted: seq<Call>, calls: seq<Call>, next: seq<Call>)
    requires calls != [] && next == Extended(admitted, calls[0])
    ensures admitted + Chosen(calls, ReferenceDecisions(admitted, calls))
         == next + Chosen(calls[1..], ReferenceDecisions(next, calls[1..]))
  {
    var ds, rest := ReferenceDecisions(admitted, calls), ReferenceDecisions(next, calls[1..]);
    assert ds[1..] == rest;
    ChosenStep(admitted, calls, ds);
  }

  lemma ChosenStep(before: seq<Call>, calls: seq<Call>, ds: seq<bool>)
    requires calls != [] && |calls| == |ds|
    ensures before + Chosen(calls, ds)
         == (if ds[0] then before + [calls[0]] else before) + Chosen(calls[1..], ds[1..])
  {
  }

  /** Every prefix of a history keeps the interval within the limit. */
  lemma {:induction false} IntervalFrom(admitted: seq<Call>, calls: seq<Call>, window: string -> int, clock: real,
                                        key: string, limit: int, a: real)
    requires Orderly(calls, window, clock) && (forall d | d in admitted :: d.now <= clock)
    requires forall c | c in calls && c.key == key :: c.maxRequests == limit
    requires CountBetween(admitted, key, a, a + window(key) as real) <= (if limit < 1 then 1 else limit)
    ensures CountBetween(admitted + Chosen(calls, ReferenceDecisions(admitted, calls)), key, a, a + window(key) as real)
         <= (if limit < 1 then 1 else limit)
    decreases |calls|
  {
    if calls == [] {
      assert admitted + Chosen(calls, ReferenceDecisions(admitted, calls)) == admitted;
    } else {
      IntervalStep(admitted, calls[0], key, limit, a, a + window(key) as real);
      var next := Extended(admitted, calls[0]);
      assert forall d | d in next :: d.now <= calls[0].now;
      IntervalFrom(next, calls[1..], window, calls[0].now, key, limit, a);
      ChosenFirst(admitted, calls, next);
    }
  }

  /** For a key with a fixed limit and window, any closed interval of window length contains at most
      the limit of admitted calls; a limit below 1 acts as 1. */
  lemma AtMostLimit(calls: seq<Call>, window: string -> int, clock: real, key: string, limit: int, a: real)
    requires Orderly(calls, window, clock)
    requires forall c | c in calls && c.key == key :: c.maxRequests == limit
    ensures CountBetween(Chosen(calls, Decisions(map[], calls)), key, a, a + window(key) as real)
         <= (if limit < 1 then 1 else limit)
  {
    Refinement(calls, window, clock);
    IntervalFrom([], calls, window, clock, key, limit, a);
    assert [] + Chosen(calls, Decisions(map[], calls)) == Chosen(calls, Decisions(map[], calls));
  }

  /** What the docstring promises: fewer than the limit in the window, and room for a new key. */
  predicate WithinLimit(admitted: seq<Call>, c: Call) {
    && CountBetween(admitted, c.key, c.now - c.windowSeconds as real, c.now) < c.maxRequests
    && (c.key in Keys(admitted) || |Keys(admitted)| < 50_000)
  }

  /** The promise is kept exactly when the limit is at least 1, or the call is refused anyway because of
      an earlier one in the window or a full table. */
  lemma KeptIff(admitted: seq<Call>, c: Call)
    ensures Permits(admitted, c) == WithinLimit(admitted, c)
       <==> (c.maxRequests >= 1
             || CountBetween(admitted, c.key, c.now - c.windowSeconds as real, c.now) > 0
             || (c.key !in Keys(admitted) && |Keys(admitted)| >= 50_000))
  {
    if c.key !in Keys(admitted) { NoneOfStranger(admitted, c.key, c.Cutoff(), c.now); }
  }

  /** With a limit of 0 the first call is admitted all the same. */
  lemma ZeroLimitAdmits()
    ensures var c := Call("login", 0, 60, 100.0); Decisions(map[], [c]) == [true] && !WithinLimit([], c)
  {
    var log: Log := map[];
    var c := Call("login", 0, 60, 100.0);
    assert log - {c.key} == log;
    assert Decisions(log, [c]) == [Allows(log, c)] + Decisions(After(log, c), [c][1..]);
    assert Decisions(After(log, c), [c][1..]) == [];
  }

  /** The table never exceeds its cap, and no key ever leaves it: a key whose entries have all aged out is
      removed only by a call that puts it straight back. */
  lemma {:induction false} TableOnlyGrows(log: Log, calls: seq<Call>)
    requires |log| <= MAX_TRACKED_KEYS
    ensures log.Keys <= LogAfter(log, calls).Keys && |LogAfter(log, calls)| <= MAX_TRACKED_KEYS
    decreases |calls|
  {
    if calls != [] {
      AfterKeys(log, calls[0]);
      TableOnlyGrows(After(log, calls[0]), calls[1..]);
    }
  }

  /** So once the table is full, every key not in it is refused in the whole rest of the history, however
      long the tracked keys have been idle. */
  lemma {:induction false} FullForever(log: Log, calls: seq<Call>, i: nat)
    requires |log| == MAX_TRACKED_KEYS && i < |calls| && calls[i].key !in log
    ensures !Decisions(log, calls)[i]
    decreases |calls|
  {
    AfterKeys(log, calls[0]);
    if i > 0 {
      var next := After(log, calls[0]);
      assert |next| == |next.Keys| && |log| == |log.Keys|;
      FullForever(next, calls[1..], i - 1);
    }
  }

  // ----------------------------------------------------- how the table fills

  function KeysOf(calls: seq<Call>): set<string> { set c | c in calls :: c.key }

  /** From the empty table, the table holds as many keys as the history used, up to the cap. */
  lemma {:induction false} TableSize(calls: seq<Call>)
    ensures LogAfter(map[], calls).Keys <= KeysOf(calls)
    ensures |LogAfter(map[], calls).Keys| == Capped(|KeysOf(calls)|)
  {
    if calls != [] {
      var n := |calls| - 1;
      TableSize(calls[..n]);
      assert calls == calls[..n] + [calls[n]];
      LogAfterLast(map[], calls[..n], calls[n]);
      assert KeysOf(calls) == KeysOf(calls[..n]) + {calls[n].key};
      KeyJoins(LogAfter(map[], calls[..n]), calls[n], KeysOf(calls[..n]));
    }
  }

  lemma {:induction false} LogAfterLast(log: Log, calls: seq<Call>, c: Call)
    ensures LogAfter(log, calls + [c]) == After(LogAfter(log, calls), c)
    decreases |calls|
  {
    if calls == [] {
      assert [] + [c] == [c] && [c][1..] == [];
    } else {
      assert (calls + [c])[1..] == calls[1..] + [c];
      LogAfterLast(After(log, calls[0]), calls[1..], c);
    }
  }

  function Capped(n: nat): nat { if n < MAX_TRACKED_KEYS then n else MAX_TRACKED_KEYS }

  lemma KeyJoins(log: Log, c: Call, used: set<string>)
    requires log.Keys <= used && |log.Keys| == Capped(|used|)
    ensures After(log, c).Keys <= used + {c.key} && |After(log, c).Keys| == Capped(|used + {c.key}|)
  {
    AfterKeys(log, c);
    assert |log| == |log.Keys|;
    if |used| <= MAX_TRACKED_KEYS { SameSize(log.Keys, used); }
    assert c.key in log ==> After(log, c).Keys == log.Keys;
    if c.key in used {
      assert used + {c.key} == used;
    } else {
      assert log - {c.key} == log;
      assert |used + {c.key}| == |used| + 1;
      assert Recent(log, c) == [];
    }
  }

  lemma {:induction false} SameSize(a: set<string>, b: set<string>)
    requires a <= b && |a| == |b|
    ensures a == b
  {
    if a != {} {
      var x :| x in a;
      SameSize(a - {x}, b - {x});
    }
  }

  /** A key that was never used is refused exactly when 50000 others were used before it, ever. */
  lemma StrangerRefusedIff(calls: seq<Call>, c: Call)
    requires c.key !in KeysOf(calls)
    ensures !Allows(LogAfter(map[], calls), c) <==> |KeysOf(calls)| >= MAX_TRACKED_KEYS
  {
    TableSize(calls);
    var log := LogAfter(map[], calls);
    assert log - {c.key} == log && |log| == |log.Keys|;
  }

  function Ones(i: nat): (r: string)
    ensures |r| == i
  {
    seq(i, _ => '1')
  }

  /** One call each from n addresses. */
  function Visits(n: nat, now: real): (calls: seq<Call>)
    ensures |calls| == n && forall i | 0 <= i < n :: calls[i] == Call(Ones(i), 5, 60, now)
  {
    seq(n, i requires 0 <= i < n => Call(Ones(i), 5, 60, now))
  }

  lemma {:induction false} VisitsKeys(n: nat, now: real)
    ensures |KeysOf(Visits(n, now))| == n
  {
    if n > 0 {
      VisitsKeys(n - 1, now);
      assert Visits(n, now) == Visits(n - 1, now) + [Visits(n, now)[n - 1]];
      assert KeysOf(Visits(n, now)) == KeysOf(Visits(n - 1, now)) + {Visits(n, now)[n - 1].key};
    }
  }

  /** So 50000 single calls shut out every new key, at any later time. */
  lemma VisitsShutOut(n: nat, now: real, c: Call)
    requires n == MAX_TRACKED_KEYS && c.key !in KeysOf(Visits(n, now))
    ensures !Allows(LogAfter(map[], Visits(n, now)), c)
  {
    VisitsKeys(n, now);
    StrangerRefusedIff(Visits(n, now), c);
  }
}
