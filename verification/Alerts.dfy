/** Alerts computed on demand, with deterministic keys that carry acknowledgements over from one
    evaluation to the next. */
module Alerts {
  import opened Text
  import opened Hashing
  import opened Calendar
  import opened AlertQueries

  type Tenant = string
  type UserId = nat

  /** A moment in microseconds since 1970. */
  type Moment = t: int | 0 <= t < MAX_DAYS * SECONDS_PER_DAY * MICROS_PER_SECOND witness 0

  const FAILED_LOGINS: string := "failed_logins"
  const BULK_EXPORT: string := "bulk_data_export"
  const CRITICAL_FINANCIAL: string := "critical_financial"

  // --------------------------------------------------------- alert identity

  /** The start of the bucket that holds `now`, in seconds since 1970. */
  function BucketStart(now: Moment, windowMinutes: nat): (start: nat)
    requires windowMinutes > 0
    ensures start * MICROS_PER_SECOND <= now < (start + windowMinutes * 60) * MICROS_PER_SECOND
    ensures start % (windowMinutes * 60) == 0
  {
    var minutes := now / (60 * MICROS_PER_SECOND);
    assert minutes * (60 * MICROS_PER_SECOND) <= now < (minutes + 1) * (60 * MICROS_PER_SECOND);
    var bucket := minutes / windowMinutes * windowMinutes;
    BucketBounds(minutes, windowMinutes);
    bucket * 60
  }

  lemma BucketBounds(minutes: nat, window: nat)
    requires window > 0
    ensures var bucket := minutes / window * window;
            bucket <= minutes < bucket + window && bucket * 60 % (window * 60) == 0
  {
    DivMod(minutes, window);
    MultipleMod(minutes / window, window * 60);
    assert minutes / window * window * 60 == minutes / window * (window * 60);
  }

  lemma DivMod(x: nat, m: nat)
    requires m > 0
    ensures x == x / m * m + x % m
  {
  }

  lemma MulSuccessor(q: nat, m: nat)
    ensures (q + 1) * m == q * m + m
  {
  }

  lemma {:induction false} MultiplesApart(a: nat, b: nat, m: nat)
    requires a < b
    ensures a * m + m <= b * m
    decreases b - a
  {
    MulSuccessor(b - 1, m);
    if a + 1 < b { MultiplesApart(a, b - 1, m); }
  }

  lemma MultipleMod(q: nat, m: nat)
    requires m > 0
    ensures q * m % m == 0
  {
    var d := q * m / m;
    DivMod(q * m, m);
    if d < q { MultiplesApart(d, q, m); }
    if q < d { MultiplesApart(q, d, m); }
  }

  /** No other multiple of the window is at most `now` with `now` less than a window after it. */
  lemma BucketUnique(now: Moment, windowMinutes: nat, other: nat)
    requires windowMinutes > 0 && other % (windowMinutes * 60) == 0
    requires other * MICROS_PER_SECOND <= now < (other + windowMinutes * 60) * MICROS_PER_SECOND
    ensures other == BucketStart(now, windowMinutes)
  {
    var m := windowMinutes * 60;
    var start := BucketStart(now, windowMinutes);
    var p, q := other / m, start / m;
    DivMod(other, m);
    DivMod(start, m);
    if p < q { MultiplesApart(p, q, m); }
    if q < p { MultiplesApart(q, p, m); }
  }

  /** What identifies an alert: a threshold rule's tenant, actor and bucket, or one financial row. */
  datatype Identity =
    | Threshold(rule: string, tenant: Tenant, actor: string, bucket: nat)
    | Financial(rowId: string)

  /** Rule ids have no colon, tenant ids are UUIDs of 36 characters; an actor id may be anything. */
  predicate WellFormed(id: Identity) {
    id.Threshold? ==>
      ':' !in id.rule && id.rule != CRITICAL_FINANCIAL && |id.tenant| == 36 && id.bucket < MAX_DAYS * SECONDS_PER_DAY
  }

  /** The text that is hashed into the alert key. */
  function RawKey(id: Identity): string
    requires WellFormed(id)
  {
    match id
    case Threshold(rule, tenant, actor, bucket) => rule + ":" + (tenant + ":" + (actor + ":" + Iso(At(bucket))))
    case Financial(rowId) => CRITICAL_FINANCIAL + ":" + rowId
  }

  lemma {:induction false} SplitAtColon(a: string, b: string, x: string, y: string)
    requires ':' !in a && ':' !in b && a + ":" + x == b + ":" + y
    ensures a == b && x == y
  {
    if a == [] || b == [] {
      assert (a + ":" + x)[0] == (b + ":" + y)[0];
      assert a == b;
      assert x == (a + ":" + x)[1..] && y == (b + ":" + y)[1..];
    } else {
      assert (a + ":" + x)[0] == a[0] && (b + ":" + y)[0] == b[0];
      assert (a + ":" + x)[1..] == a[1..] + ":" + x;
      assert (b + ":" + y)[1..] == b[1..] + ":" + y;
      SplitAtColon(a[1..], b[1..], x, y);
      assert a == [a[0]] + a[1..] && b == [b[0]] + b[1..];
    }
  }

  lemma SamePrefix(a: string, b: string, x: string, y: string)
    requires |a| == |b| && a + x == b + y
    ensures a == b && x == y
  {
    assert a == (a + x)[..|a|] && b == (b + y)[..|b|];
    assert x == (a + x)[|a|..] && y == (b + y)[|b|..];
  }

  lemma SameSuffix(a: string, b: string, x: string, y: string)
    requires |x| == |y| && a + x == b + y
    ensures a == b && x == y
  {
    assert |a + x| == |b + y|;
    SamePrefix(a, b, x, y);
  }

  /** A raw key is a colon-free rule id, a colon, and the rest. */
  lemma KeyParts(id: Identity) returns (rule: string, rest: string)
    requires WellFormed(id)
    ensures RawKey(id) == rule + ":" + rest && ':' !in rule
    ensures id.Threshold? ==> rule == id.rule && rest == id.tenant + ":" + (id.actor + ":" + Iso(At(id.bucket)))
    ensures id.Financial? ==> rule == CRITICAL_FINANCIAL && rest == id.rowId
  {
    match id
    case Threshold(r, tenant, actor, bucket) => rule, rest := r, tenant + ":" + (actor + ":" + Iso(At(bucket)));
    case Financial(rowId) => rule, rest := CRITICAL_FINANCIAL, rowId;
  }

  lemma SameKeySame(a: Identity, b: Identity)
    requires WellFormed(a) && WellFormed(b) && RawKey(a) == RawKey(b)
    ensures a == b
  {
    var r1, x1 := KeyParts(a);
    var r2, x2 := KeyParts(b);
    SplitAtColon(r1, r2, x1, x2);
    if a.Threshold? && b.Threshold? {
      IsoParts(At(a.bucket));
      IsoParts(At(b.bucket));
      SameTail(a.tenant, b.tenant, a.actor, b.actor, Iso(At(a.bucket)), Iso(At(b.bucket)));
      IsoInjective(At(a.bucket), At(b.bucket));
      AtInjective(a.bucket, b.bucket);
    }
  }

  lemma SameTail(t1: string, t2: string, a1: string, a2: string, s1: string, s2: string)
    requires |t1| == |t2| && t1 + ":" + (a1 + ":" + s1) == t2 + ":" + (a2 + ":" + s2)
    requires |s1| == 25 && |s2| == 25
    ensures t1 == t2 && a1 == a2 && s1 == s2
  {
    SamePrefix(t1 + ":", t2 + ":", a1 + ":" + s1, a2 + ":" + s2);
    assert t1 == (t1 + ":")[..|t1|] && t2 == (t2 + ":")[..|t2|];
    SameSuffix(a1 + ":", a2 + ":", s1, s2);
    assert a1 == (a1 + ":")[..|a1|] && a2 == (a2 + ":")[..|a2|];
  }

  /** The hashed text in order: the rule, the tenant, the actor and the start of the bucket, or the rule and the
      id of the row. */
  lemma RawKeyReads(id: Identity) returns (key: string)
    requires WellFormed(id)
    ensures key == RawKey(id)
    ensures id.Threshold? ==>
              var n := |id.rule|;
              && |key| == n + |id.actor| + 64 && key[..n] == id.rule && key[n] == ':' && key[n + 1..n + 37] == id.tenant
              && key[n + 37] == ':' && key[n + 38..|key| - 26] == id.actor && key[|key| - 26] == ':'
              && key[|key| - 25..] == Iso(At(id.bucket))
    ensures id.Financial? ==> key == "critical_financial" + ":" + id.rowId
  {
    key := RawKey(id);
    if id.Threshold? {
      IsoParts(At(id.bucket));
      KeyPieces(key, id.rule, id.tenant, id.actor, Iso(At(id.bucket)));
    }
  }

  lemma KeyPieces(key: string, rule: string, tenant: string, actor: string, time: string)
    requires key == rule + ":" + (tenant + ":" + (actor + ":" + time)) && |tenant| == 36 && |time| == 25
    ensures var n := |rule|;
            && |key| == n + |actor| + 64 && key[..n] == rule && key[n] == ':' && key[n + 1..n + 37] == tenant
            && key[n + 37] == ':' && key[n + 38..|key| - 26] == actor && key[|key| - 26] == ':'
            && key[|key| - 25..] == time
  {
  }

  predicate Collision(H: Digest, x: string, y: string) { x != y && H(x) == H(y) }

  /** The hashed text determines the rule, the tenant, the actor and the bucket, colons in actor ids or
      not; so two alerts share a key only if they are the same or the digest collides. */
  lemma KeyDetermines(H: Digest, a: Identity, b: Identity)
    requires WellFormed(a) && WellFormed(b)
    ensures RawKey(a) == RawKey(b) <==> a == b
    ensures H(RawKey(a)) == H(RawKey(b)) ==> a == b || Collision(H, RawKey(a), RawKey(b))
  {
    if RawKey(a) == RawKey(b) { SameKeySame(a, b); }
  }

  // ------------------------------------------------------------ evaluation

  datatype Alert = Alert(
    key: string, ruleId: string, severity: string, actorId: string, detectedAt: int,
    status: string, acknowledgedBy: Option<UserId>, acknowledgedAt: Option<Moment>)

  datatype Acknowledgment = Acknowledgment(
    tenantId: Tenant, ruleId: string, actorId: string, status: string, user: UserId, at: Moment)

  type TenantId = t: Tenant | |t| == 36 witness "00000000-0000-0000-0000-000000000000"

  function MakeKey(H: Digest, id: Identity): string
    requires WellFormed(id)
  {
    H(RawKey(id))
  }

  function RuleId(rule: Rule): (id: string)
    ensures ':' !in id && id != CRITICAL_FINANCIAL
  {
    assert |CRITICAL_FINANCIAL| == 18;
    if rule == BulkExport then BULK_EXPORT else FAILED_LOGINS
  }

  lemma RuleIdsDiffer(a: Rule, b: Rule)
    ensures RuleId(a) == RuleId(b) ==> a == b
  {
    assert |RuleId(FailedLogins)| == 13 && |RuleId(BulkExport)| == 16;
  }

  /** The identity of a threshold alert raised now. */
  function IdentityOf(rule: Rule, tenant: TenantId, actor: string, now: Moment): (id: Identity)
    ensures WellFormed(id)
  {
    Threshold(RuleId(rule), tenant, actor, BucketStart(now, WindowOf(rule)))
  }

  /** The key of a rule's alert for an actor. */
  type Keys = (Rule, string) -> string

  function KeysOf(H: Digest, tenant: TenantId, now: Moment): Keys {
    (rule: Rule, actor: string) => MakeKey(H, IdentityOf(rule, tenant, actor, now))
  }

  function ThresholdAlert(keys: Keys, rule: Rule, actor: string, now: Moment): Alert {
    Alert(keys(rule, actor), RuleId(rule), if rule == BulkExport then "critical" else "high", actor, now, "open", None,
          None)
  }

  function ThresholdAlerts(keys: Keys, rule: Rule, actors: seq<string>, now: Moment): seq<Alert> {
    seq(|actors|, i requires 0 <= i < |actors| => ThresholdAlert(keys, rule, actors[i], now))
  }

  function FinancialAlert(H: Digest, row: FinancialRow): Alert {
    Alert(MakeKey(H, Financial(row.id)), CRITICAL_FINANCIAL, row.severity, row.actorId, row.occurredAt, "open", None,
          None)
  }

  function Raised(H: Digest, keys: Keys, now: Moment, found: Matches): seq<Alert> {
    ThresholdAlerts(keys, FailedLogins, found.failedLogins, now) +
    ThresholdAlerts(keys, BulkExport, found.bulkExports, now) +
    seq(|found.financial|, i requires 0 <= i < |found.financial| => FinancialAlert(H, found.financial[i]))
  }

  /** An alert with the acknowledgement of its key, if its tenant has one. */
  function Marked(acks: map<string, Acknowledgment>, tenant: Tenant, a: Alert): Alert {
    if a.key in acks && acks[a.key].tenantId == tenant then
      a.(status := acks[a.key].status, acknowledgedBy := Some(acks[a.key].user), acknowledgedAt := Some(acks[a.key].at))
    else a
  }

  function InsertByTime(a: Alert, s: seq<Alert>): seq<Alert> {
    if s == [] || a.detectedAt >= s[0].detectedAt then [a] + s else [s[0]] + InsertByTime(a, s[1..])
  }

  /** list.sort by detection time with reverse=True. */
  function NewestFirst(s: seq<Alert>): seq<Alert> {
    if s == [] then [] else InsertByTime(s[0], NewestFirst(s[1..]))
  }

  function MarkedAll(acks: map<string, Acknowledgment>, tenant: Tenant, s: seq<Alert>): (r: seq<Alert>)
    ensures |r| == |s|
  {
    seq(|s|, i requires 0 <= i < |s| => Marked(acks, tenant, s[i]))
  }

  function Evaluated(H: Digest, acks: map<string, Acknowledgment>, keys: Keys, tenant: Tenant, now: Moment,
                     found: Matches)
    : seq<Alert>
  {
    NewestFirst(MarkedAll(acks, tenant, Raised(H, keys, now, found)))
  }

  /** An acknowledge call. */
  datatype Ack = Ack(
    key: string, ruleId: string, actorId: string, status: string, user: UserId, tenant: Tenant, now: Moment)

  /** The key is the primary key: a row of another tenant under it makes the insert fail. */
  predicate Accepted(acks: map<string, Acknowledgment>, a: Ack) { a.key in acks ==> acks[a.key].tenantId == a.tenant }

  function AfterAck(acks: map<string, Acknowledgment>, a: Ack): map<string, Acknowledgment> {
    if !Accepted(acks, a) then acks
    else if a.key in acks then acks[a.key := acks[a.key].(status := a.status, user := a.user, at := a.now)]
    else acks[a.key := Acknowledgment(a.tenant, a.ruleId, a.actorId, a.status, a.user, a.now)]
  }

  function AfterAcks(acks: map<string, Acknowledgment>, calls: seq<Ack>): map<string, Acknowledgment>
    decreases |calls|
  {
    if calls == [] then acks else AfterAcks(AfterAck(acks, calls[0]), calls[1..])
  }

  class AlertService {
    const H: Digest
    var acks: map<string, Acknowledgment>

    constructor (H: Digest)
      ensures this.H == H && acks == map[]
    {
      this.H := H;
      acks := map[];
    }

    /** The loop that marks the raised alerts with the tenant's acknowledgements. */
    method Mark(tenant: Tenant, raised: seq<Alert>) returns (alerts: seq<Alert>)
      ensures alerts == MarkedAll(acks, tenant, raised)
    {
      alerts := raised;
      var acksByKey := map k | k in acks && acks[k].tenantId == tenant :: acks[k];
      for i := 0 to |alerts|
        invariant |alerts| == |raised|
        invariant forall j | 0 <= j < |raised| ::
                  alerts[j] == if j < i then Marked(acks, tenant, raised[j]) else raised[j]
      {
        if alerts[i].key in acksByKey {
          var ack := acksByKey[alerts[i].key];
          alerts := alerts[i := alerts[i].(status := ack.status)];
          alerts := alerts[i := alerts[i].(acknowledgedBy := Some(ack.user))];
          alerts := alerts[i := alerts[i].(acknowledgedAt := Some(ack.at))];
        }
      }
    }

    method EvaluateAlerts(tenant: TenantId, now: Moment, found: Matches) returns (alerts: seq<Alert>)
      ensures alerts == Evaluated(H, acks, KeysOf(H, tenant, now), tenant, now, found)
      ensures forall v: View, ledger: seq<Row> | Queried(v, ledger, tenant, now, found) ::
                ShowsExactly(H, acks, KeysOf(H, tenant, now), v, ledger, tenant, now, alerts)
    {
      var keys := KeysOf(H, tenant, now);
      forall v: View, ledger: seq<Row> | Queried(v, ledger, tenant, now, found)
        ensures ShowsExactly(H, acks, keys, v, ledger, tenant, now, Evaluated(H, acks, keys, tenant, now, found))
      {
        EvaluationShowsExactly(H, acks, keys, v, ledger, tenant, now, found);
      }
      alerts := Raised(H, keys, now, found);
      if alerts == [] {
        return;
      }
      alerts := Mark(tenant, alerts);
      alerts := NewestFirst(alerts);
    }

    method AcknowledgeAlert(key: string, ruleId: string, actorId: string, status: string, user: UserId, tenant: Tenant,
                            now: Moment)
      returns (accepted: bool)
      modifies this
      ensures acks == AfterAck(old(acks), Ack(key, ruleId, actorId, status, user, tenant, now))
      ensures accepted == Accepted(old(acks), Ack(key, ruleId, actorId, status, user, tenant, now))
    {
      if key in acks && acks[key].tenantId == tenant {
        acks := acks[key := acks[key].(status := status)];
        acks := acks[key := acks[key].(user := user, at := now)];
        return true;
      }
      if key in acks {
        return false;
      }
      acks := acks[key := Acknowledgment(tenant, ruleId, actorId, status, user, now)];
      return true;
    }
  }

  // ------------------------------------------------------ what is shown

  lemma {:induction false} InsertedElements(a: Alert, s: seq<Alert>)
    ensures multiset(InsertByTime(a, s)) == multiset(s) + multiset{a}
    ensures forall x :: x in InsertByTime(a, s) <==> x == a || x in s
  {
    if s != [] && a.detectedAt < s[0].detectedAt {
      InsertedElements(a, s[1..]);
      assert s == [s[0]] + s[1..];
    }
  }

  ghost predicate Descending(s: seq<Alert>) { forall i, j | 0 <= i < j < |s| :: s[i].detectedAt >= s[j].detectedAt }

  lemma {:induction false} InsertedSorted(a: Alert, s: seq<Alert>)
    requires Descending(s)
    ensures Descending(InsertByTime(a, s))
  {
    if s != [] && a.detectedAt < s[0].detectedAt {
      InsertedSorted(a, s[1..]);
      InsertedElements(a, s[1..]);
      var t := InsertByTime(a, s[1..]);
      forall j | 0 <= j < |t| ensures s[0].detectedAt >= t[j].detectedAt {
        assert t[j] in t;
      }
    }
  }

  /** The result lists the same alerts, newest first. */
  lemma {:induction false} NewestFirstSorts(s: seq<Alert>)
    ensures Descending(NewestFirst(s)) && multiset(NewestFirst(s)) == multiset(s)
    ensures forall x :: x in NewestFirst(s) <==> x in s
  {
    if s != [] {
      NewestFirstSorts(s[1..]);
      InsertedSorted(s[0], NewestFirst(s[1..]));
      InsertedElements(s[0], NewestFirst(s[1..]));
      assert s == [s[0]] + s[1..];
    }
  }

  /** The alerts of one moment. */
  function AtTime(s: seq<Alert>, t: int): seq<Alert> {
    if s == [] then [] else (if s[0].detectedAt == t then [s[0]] else []) + AtTime(s[1..], t)
  }

  lemma {:induction false} InsertedAtTime(a: Alert, s: seq<Alert>, t: int)
    requires Descending(s)
    ensures AtTime(InsertByTime(a, s), t) == (if a.detectedAt == t then [a] else []) + AtTime(s, t)
  {
    if s != [] && a.detectedAt < s[0].detectedAt {
      InsertedAtTime(a, s[1..], t);
      if a.detectedAt == t { assert s[0].detectedAt != t; }
    }
  }

  /** Alerts of the same moment keep the order in which they were raised. */
  lemma {:induction false} NewestFirstKeepsOrder(s: seq<Alert>, t: int)
    ensures AtTime(NewestFirst(s), t) == AtTime(s, t)
  {
    if s != [] {
      NewestFirstKeepsOrder(s[1..], t);
      NewestFirstSorts(s[1..]);
      InsertedAtTime(s[0], NewestFirst(s[1..]), t);
    }
  }

  /** For this rule the list shows an alert for exactly these actors, one for each. */
  ghost predicate ShowsRule(alerts: seq<Alert>, rule: string, image: string -> Alert, over: string -> bool) {
    && (forall actor: string :: over(actor) <==> image(actor) in alerts)
    && (forall x | x in alerts && x.ruleId == rule :: x == image(x.actorId) && multiset(alerts)[x] == 1)
  }

  /** For this rule it shows an alert for exactly the selected rows of the ledger. */
  ghost predicate ShowsRows(alerts: seq<Alert>, rule: string, image: FinancialRow -> Alert, rows: seq<FinancialRow>) {
    && (forall f | f in rows :: image(f) in alerts)
    && (forall x | x in alerts && x.ruleId == rule :: exists f :: f in rows && x == image(f))
  }

  /** The alert of an actor as it should appear now. */
  function ShownFor(acks: map<string, Acknowledgment>, keys: Keys, rule: Rule, tenant: Tenant,
                    now: Moment): string -> Alert
  {
    actor => Marked(acks, tenant, ThresholdAlert(keys, rule, actor, now))
  }

  function ShownForRow(H: Digest, acks: map<string, Acknowledgment>, tenant: Tenant): FinancialRow -> Alert {
    f => Marked(acks, tenant, FinancialAlert(H, f))
  }

  /** What a tenant should see: an alert for each actor with at least 5 failures in 15 minutes, one for each
      with at least 10 data accesses in 10 minutes, and the high or critical financial transactions of 24
      hours, newest first, each with its acknowledgement. */
  ghost predicate ShowsExactly(H: Digest, acks: map<string, Acknowledgment>, keys: Keys, v: View, ledger: seq<Row>,
                               tenant: Tenant, now: Moment, alerts: seq<Alert>)
  {
    && Descending(alerts)
    && (forall rule: Rule ::
          ShowsRule(alerts, RuleId(rule), ShownFor(acks, keys, rule, tenant, now), Over(rule, v, ledger, tenant, now)))
    && ShowsRows(alerts, CRITICAL_FINANCIAL, ShownForRow(H, acks, tenant), SelectedRows(v, ledger, tenant, now))
    && forall x | x in alerts :: x.ruleId == CRITICAL_FINANCIAL || exists rule: Rule :: x.ruleId == RuleId(rule)
  }

  lemma {:induction false} AtMostOnce(s: seq<Alert>, x: Alert)
    requires forall i, j | 0 <= i < j < |s| :: s[i] != x || s[j] != x
    ensures multiset(s)[x] <= 1
  {
    if s != [] {
      AtMostOnce(s[1..], x);
      assert s == [s[0]] + s[1..];
      if s[0] == x {
        assert x !in s[1..];
      }
    }
  }

  /** Lists in three parts, one for each rule. */
  ghost predicate PartFor<T>(list: seq<Alert>, rule: string, from: nat, items: seq<T>, image: T -> Alert) {
    && from + |items| <= |list|
    && (forall i | 0 <= i < |items| :: list[from + i] == image(items[i]))
    && (forall k | 0 <= k < |list| && list[k].ruleId == rule :: from <= k < from + |items|)
  }

  lemma PartElement<T>(list: seq<Alert>, rule: string, from: nat, items: seq<T>, image: T -> Alert, k: nat)
    requires PartFor(list, rule, from, items, image) && k < |list| && list[k].ruleId == rule
    ensures 0 <= k - from < |items| && list[k] == image(items[k - from])
  {
    assert list[from + (k - from)] == image(items[k - from]);
  }

  lemma RuleListed(list: seq<Alert>, alerts: seq<Alert>, rule: string, from: nat, actors: seq<string>,
                   image: string -> Alert, over: string -> bool)
    requires multiset(alerts) == multiset(list) && (forall x :: x in alerts <==> x in list)
    requires PartFor(list, rule, from, actors, image) && NoRepeats(actors)
    requires forall actor :: image(actor).ruleId == rule && image(actor).actorId == actor
    requires forall actor :: actor in actors <==> over(actor)
    ensures ShowsRule(alerts, rule, image, over)
  {
    forall actor | over(actor) ensures image(actor) in alerts {
      var i :| 0 <= i < |actors| && actors[i] == actor;
      assert list[from + i] in list;
    }
    forall x | x in alerts && x.ruleId == rule
      ensures x.actorId in actors && x == image(x.actorId) && multiset(alerts)[x] == 1
    {
      var k :| 0 <= k < |list| && list[k] == x;
      PartElement(list, rule, from, actors, image, k);
      forall i, j | 0 <= i < j < |list| ensures list[i] != x || list[j] != x {
        if list[i] == x && list[j] == x {
          PartElement(list, rule, from, actors, image, i);
          PartElement(list, rule, from, actors, image, j);
        }
      }
      AtMostOnce(list, x);
      assert x in multiset(list);
    }
  }

  lemma RowsListed(list: seq<Alert>, alerts: seq<Alert>, rule: string, from: nat, found: seq<FinancialRow>,
                   image: FinancialRow -> Alert, rows: seq<FinancialRow>)
    requires forall x :: x in alerts <==> x in list
    requires PartFor(list, rule, from, found, image) && multiset(found) == multiset(rows)
    ensures ShowsRows(alerts, rule, image, rows)
  {
    assert forall f :: f in found <==> f in multiset(found);
    assert forall f :: f in rows <==> f in multiset(rows);
    forall f | f in rows ensures image(f) in alerts {
      var i :| 0 <= i < |found| && found[i] == f;
      assert list[from + i] in list;
    }
    forall x | x in alerts && x.ruleId == rule ensures exists f :: f in rows && x == image(f) {
      var k :| 0 <= k < |list| && list[k] == x;
      PartElement(list, rule, from, found, image, k);
    }
  }

  function StartOf(rule: Rule, found: Matches): nat { if rule == BulkExport then |found.failedLogins| else 0 }

  ghost predicate AllOf(list: seq<Alert>, id: string) { forall i | 0 <= i < |list| :: list[i].ruleId == id }

  lemma PartBetween<T>(before: seq<Alert>, part: seq<Alert>, behind: seq<Alert>, id: string, items: seq<T>,
                       image: T -> Alert)
    requires forall i | 0 <= i < |before| :: before[i].ruleId != id
    requires forall i | 0 <= i < |behind| :: behind[i].ruleId != id
    requires |part| == |items| && forall i | 0 <= i < |items| :: part[i] == image(items[i])
    ensures PartFor(before + part + behind, id, |before|, items, image)
  {
  }

  lemma RaisedParts(H: Digest, keys: Keys, now: Moment, found: Matches)
    returns (first: seq<Alert>, second: seq<Alert>, third: seq<Alert>)
    ensures Raised(H, keys, now, found) == first + second + third
    ensures first == ThresholdAlerts(keys, FailedLogins, found.failedLogins, now)
    ensures second == ThresholdAlerts(keys, BulkExport, found.bulkExports, now)
    ensures AllOf(first, RuleId(FailedLogins)) && AllOf(second, RuleId(BulkExport)) && AllOf(third, CRITICAL_FINANCIAL)
  {
    first := ThresholdAlerts(keys, FailedLogins, found.failedLogins, now);
    second := ThresholdAlerts(keys, BulkExport, found.bulkExports, now);
    third := seq(|found.financial|, i requires 0 <= i < |found.financial| => FinancialAlert(H, found.financial[i]));
  }

  lemma RaisedRule(H: Digest, keys: Keys, now: Moment, found: Matches, rule: Rule, id: string)
    requires id == RuleId(rule)
    ensures PartFor(Raised(H, keys, now, found), id, StartOf(rule, found), Actors(found, rule),
                    actor => ThresholdAlert(keys, rule, actor, now))
  {
    RuleIdsDiffer(FailedLogins, BulkExport);
    var first, second, third := RaisedParts(H, keys, now, found);
    if rule == FailedLogins {
      PartBetween([], first, second + third, id, found.failedLogins, actor => ThresholdAlert(keys, rule, actor, now));
      assert first + second + third == [] + first + (second + third);
    } else {
      PartBetween(first, second, third, id, found.bulkExports, actor => ThresholdAlert(keys, rule, actor, now));
    }
  }

  /** The raised alerts, marked, are such a list. */
  lemma MarkedPart<T>(acks: map<string, Acknowledgment>, tenant: Tenant, raised: seq<Alert>, id: string, from: nat,
                      items: seq<T>, image: T -> Alert, shown: T -> Alert)
    requires PartFor(raised, id, from, items, image) && forall x :: shown(x) == Marked(acks, tenant, image(x))
    ensures PartFor(MarkedAll(acks, tenant, raised), id, from, items, shown)
  {
    var list := MarkedAll(acks, tenant, raised);
    forall i | 0 <= i < |items| ensures list[from + i] == shown(items[i]) {
      assert raised[from + i] == image(items[i]);
    }
    assert forall k | 0 <= k < |list| :: list[k].ruleId == raised[k].ruleId;
  }

  lemma MarkedRows(H: Digest, acks: map<string, Acknowledgment>, keys: Keys, tenant: Tenant, now: Moment,
                   found: Matches, list: seq<Alert>, financial: string)
    requires list == MarkedAll(acks, tenant, Raised(H, keys, now, found)) && financial == CRITICAL_FINANCIAL
    ensures PartFor(list, financial, |found.failedLogins| + |found.bulkExports|, found.financial,
                    ShownForRow(H, acks, tenant))
    ensures forall k | 0 <= k < |list| ::
              list[k].ruleId == financial || exists rule: Rule :: list[k].ruleId == RuleId(rule)
  {
  }

  lemma ImageOfActor(acks: map<string, Acknowledgment>, keys: Keys, rule: Rule, tenant: Tenant, now: Moment)
    returns (image: string -> Alert)
    ensures image == ShownFor(acks, keys, rule, tenant, now)
    ensures forall actor :: image(actor).ruleId == RuleId(rule) && image(actor).actorId == actor
  {
    image := ShownFor(acks, keys, rule, tenant, now);
  }

  lemma RuleShown(H: Digest, acks: map<string, Acknowledgment>, keys: Keys, tenant: Tenant, now: Moment, found: Matches,
                  rule: Rule, over: string -> bool, list: seq<Alert>, alerts: seq<Alert>)
    requires list == MarkedAll(acks, tenant, Raised(H, keys, now, found))
    requires multiset(alerts) == multiset(list) && (forall x :: x in alerts <==> x in list)
    requires Lists(Actors(found, rule), over)
    ensures ShowsRule(alerts, RuleId(rule), ShownFor(acks, keys, rule, tenant, now), over)
  {
    var raised := Raised(H, keys, now, found);
    RaisedRule(H, keys, now, found, rule, RuleId(rule));
    var image := ImageOfActor(acks, keys, rule, tenant, now);
    MarkedPart(acks, tenant, raised, RuleId(rule), StartOf(rule, found), Actors(found, rule),
               actor => ThresholdAlert(keys, rule, actor, now), image);
    RuleListed(list, alerts, RuleId(rule), StartOf(rule, found), Actors(found, rule), image, over);
  }

  lemma RowsShown(H: Digest, acks: map<string, Acknowledgment>, keys: Keys, tenant: Tenant, now: Moment, found: Matches,
                  rows: seq<FinancialRow>, list: seq<Alert>, alerts: seq<Alert>, financial: string)
    requires list == MarkedAll(acks, tenant, Raised(H, keys, now, found)) && financial == CRITICAL_FINANCIAL
    requires (forall x :: x in alerts <==> x in list) && multiset(found.financial) == multiset(rows)
    ensures ShowsRows(alerts, financial, ShownForRow(H, acks, tenant), rows)
    ensures forall x | x in alerts :: x.ruleId == financial || exists rule: Rule :: x.ruleId == RuleId(rule)
  {
    MarkedRows(H, acks, keys, tenant, now, found, list, financial);
    RowsListed(list, alerts, financial, |found.failedLogins| + |found.bulkExports|, found.financial,
               ShownForRow(H, acks, tenant), rows);
  }

  /** The alerts of the three rules when nobody acknowledged them. */
  lemma AlertForms(H: Digest, keys: Keys, actor: string, now: Moment, f: FinancialRow)
    ensures ThresholdAlert(keys, FailedLogins, actor, now)
         == Alert(keys(FailedLogins, actor), "failed_logins", "high", actor, now, "open", None, None)
    ensures ThresholdAlert(keys, BulkExport, actor, now)
         == Alert(keys(BulkExport, actor), "bulk_data_export", "critical", actor, now, "open", None, None)
    ensures var a := FinancialAlert(H, f);
            a == Alert(H("critical_financial" + ":" + f.id), "critical_financial", f.severity, f.actorId, f.occurredAt,
                       "open", None, None)
  {
  }

  /** The key of a threshold alert is the digest of its identity, with buckets of 15 and of 10 minutes. */
  lemma KeysAre(H: Digest, tenant: TenantId, now: Moment, actor: string) returns (a: Identity, b: Identity)
    ensures WellFormed(a) && KeysOf(H, tenant, now)(FailedLogins, actor) == H(RawKey(a))
    ensures a == Threshold("failed_logins", tenant, actor, BucketStart(now, 15))
    ensures WellFormed(b) && KeysOf(H, tenant, now)(BulkExport, actor) == H(RawKey(b))
    ensures b == Threshold("bulk_data_export", tenant, actor, BucketStart(now, 10))
  {
    a, b := IdentityOf(FailedLogins, tenant, actor, now), IdentityOf(BulkExport, tenant, actor, now);
  }

  /** An alert shows the acknowledgement under its key if that is its tenant's own, and is as raised otherwise;
      nothing else of it changes. */
  lemma MarkedIs(acks: map<string, Acknowledgment>, tenant: Tenant, a: Alert)
    ensures var m := Marked(acks, tenant, a);
            && m.key == a.key && m.ruleId == a.ruleId && m.severity == a.severity && m.actorId == a.actorId
            && m.detectedAt == a.detectedAt
            && if a.key in acks && acks[a.key].tenantId == tenant then
                 m.status == acks[a.key].status && m.acknowledgedBy == Some(acks[a.key].user) &&
                 m.acknowledgedAt == Some(acks[a.key].at)
               else m == a
  {
  }

  /** An acknowledgement is stored under its key with the tenant that makes it, and replaces only status, user
      and time of an earlier one of that tenant; another tenant's stays as it is; other keys are not touched. */
  lemma AckStored(acks: map<string, Acknowledgment>, a: Ack)
    ensures var after := AfterAck(acks, a);
            && (forall k | k != a.key :: k in after <==> k in acks)
            && (forall k | k in acks && k != a.key :: after[k] == acks[k])
            && a.key in after
            && if a.key !in acks then
                 Accepted(acks, a) &&
                 after[a.key] == Acknowledgment(a.tenant, a.ruleId, a.actorId, a.status, a.user, a.now)
               else if acks[a.key].tenantId == a.tenant then
                 Accepted(acks, a) &&
                 after[a.key] ==
                   Acknowledgment(a.tenant, acks[a.key].ruleId, acks[a.key].actorId, a.status, a.user, a.now)
               else !Accepted(acks, a) && after == acks
  {
  }

  /** When the queries answer from the ledger, an evaluation shows exactly what it should. */
  lemma EvaluationShowsExactly(H: Digest, acks: map<string, Acknowledgment>, keys: Keys, v: View, ledger: seq<Row>,
                               tenant: Tenant, now: Moment, found: Matches)
    requires Queried(v, ledger, tenant, now, found)
    ensures ShowsExactly(H, acks, keys, v, ledger, tenant, now, Evaluated(H, acks, keys, tenant, now, found))
  {
    var list := MarkedAll(acks, tenant, Raised(H, keys, now, found));
    var alerts := NewestFirst(list);
    NewestFirstSorts(list);
    forall rule: Rule
      ensures ShowsRule(alerts, RuleId(rule), ShownFor(acks, keys, rule, tenant, now),
                        Over(rule, v, ledger, tenant, now))
    {
      RuleShown(H, acks, keys, tenant, now, found, rule, Over(rule, v, ledger, tenant, now), list, alerts);
    }
    RowsShown(H, acks, keys, tenant, now, found, SelectedRows(v, ledger, tenant, now), list, alerts,
              CRITICAL_FINANCIAL);
  }

  // ------------------------------------------------- what acknowledging does

  /** Every alert shown is one raised, marked with its tenant's acknowledgement of its key. */
  lemma ShownIsRaised(H: Digest, acks: map<string, Acknowledgment>, keys: Keys, tenant: Tenant, now: Moment,
                      found: Matches, x: Alert)
    returns (raised: Alert)
    requires x in Evaluated(H, acks, keys, tenant, now, found)
    ensures raised in Raised(H, keys, now, found) && x == Marked(acks, tenant, raised)
  {
    var s := Raised(H, keys, now, found);
    NewestFirstSorts(MarkedAll(acks, tenant, s));
    var i :| 0 <= i < |s| && MarkedAll(acks, tenant, s)[i] == x;
    raised := s[i];
  }

  /** The key of a threshold alert follows from its rule, its actor and the bucket. */
  lemma RaisedKey(H: Digest, keys: Keys, now: Moment, found: Matches, rule: Rule, x: Alert)
    requires x in Raised(H, keys, now, found) && x.ruleId == RuleId(rule)
    ensures x.key == keys(rule, x.actorId)
  {
    RuleIdsDiffer(FailedLogins, BulkExport);
  }

  lemma {:induction false} AckStays(acks: map<string, Acknowledgment>, key: string, calls: seq<Ack>, tenant: Tenant)
    requires key in acks && acks[key].tenantId == tenant
    requires forall c | c in calls :: !(c.key == key && c.tenant == tenant)
    ensures key in AfterAcks(acks, calls) && AfterAcks(acks, calls)[key] == acks[key]
    decreases |calls|
  {
    if calls != [] {
      assert calls[0] in calls;
      AckStays(AfterAck(acks, calls[0]), key, calls[1..], tenant);
    }
  }

  lemma SameBucketSameKey(H: Digest, tenant: TenantId, rule: Rule, actor: string, now1: Moment, now2: Moment)
    requires BucketStart(now1, WindowOf(rule)) == BucketStart(now2, WindowOf(rule))
    ensures KeysOf(H, tenant, now1)(rule, actor) == KeysOf(H, tenant, now2)(rule, actor)
  {
  }

  /** A threshold alert is shown, and its key is acknowledged. Every later evaluation in the same bucket
      that still raises the alert shows that acknowledgement, until the tenant acknowledges the key again. */
  lemma AcknowledgementShows(H: Digest, acks: map<string, Acknowledgment>, tenant: TenantId, rule: Rule,
                             now1: Moment, found1: Matches, shown: Alert, a: Ack, calls: seq<Ack>,
                             now2: Moment, found2: Matches, again: Alert)
    requires shown in Evaluated(H, acks, KeysOf(H, tenant, now1), tenant, now1, found1)
    requires again in Evaluated(H, AfterAcks(AfterAck(acks, a), calls), KeysOf(H, tenant, now2), tenant, now2, found2)
    requires again.ruleId == shown.ruleId == RuleId(rule) && again.actorId == shown.actorId
    requires BucketStart(now1, WindowOf(rule)) == BucketStart(now2, WindowOf(rule))
    requires a.key == shown.key && a.tenant == tenant && Accepted(acks, a)
    requires forall c | c in calls :: !(c.key == a.key && c.tenant == tenant)
    ensures again.key == shown.key && again.status == a.status
    ensures again.acknowledgedBy == Some(a.user) && again.acknowledgedAt == Some(a.now)
  {
    SameBucketSameKey(H, tenant, rule, shown.actorId, now1, now2);
    var first := ShownKey(H, acks, KeysOf(H, tenant, now1), tenant, now1, found1, rule, shown);
    var later := AfterAcks(AfterAck(acks, a), calls);
    var raised := ShownKey(H, later, KeysOf(H, tenant, now2), tenant, now2, found2, rule, again);
    AckStays(AfterAck(acks, a), a.key, calls, tenant);
  }

  /** A threshold alert shown is one raised under its rule's key. */
  lemma ShownKey(H: Digest, acks: map<string, Acknowledgment>, keys: Keys, tenant: Tenant, now: Moment, found: Matches,
                 rule: Rule, x: Alert)
    returns (raised: Alert)
    requires x in Evaluated(H, acks, keys, tenant, now, found) && x.ruleId == RuleId(rule)
    ensures x.key == keys(rule, x.actorId) && x == Marked(acks, tenant, raised)
  {
    raised := ShownIsRaised(H, acks, keys, tenant, now, found, x);
    RaisedKey(H, keys, now, found, rule, raised);
  }

  /** In another bucket the same rule and actor make another alert: its key differs, or the digest
      collides. */
  lemma OtherBucketOtherKey(H: Digest, rule: Rule, tenant: TenantId, actor: string, now1: Moment, now2: Moment)
    requires BucketStart(now1, WindowOf(rule)) != BucketStart(now2, WindowOf(rule))
    ensures var a, b := IdentityOf(rule, tenant, actor, now1), IdentityOf(rule, tenant, actor, now2);
            MakeKey(H, a) != MakeKey(H, b) || Collision(H, RawKey(a), RawKey(b))
  {
    KeyDetermines(H, IdentityOf(rule, tenant, actor, now1), IdentityOf(rule, tenant, actor, now2));
  }
}
