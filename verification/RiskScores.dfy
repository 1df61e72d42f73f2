/** Risk scores of actors: a ranking computed from the ledger, behind a cache with a short lifetime. */
module RiskScores {
  import opened Text
  import opened Hashing

  const WEIGHT_FAILED_OUTCOME: nat := 5
  const WEIGHT_CRITICAL_SEVERITY: nat := 10
  const WEIGHT_ADMINISTRATIVE: nat := 3
  const WEIGHT_FINANCIAL: nat := 2
  const MAX_RISK_SCORE: nat := 100

  /** Seconds. */
  const CACHE_TTL: real := 20.0

  type Tenant = string

  /** Says whether a source belongs to the agent of a tenant; sources are never re-assigned. */
  type AgentSource = (string, Tenant) -> bool

  // ------------------------------------------------------------- the query

  predicate Failed(e: Event) { e.outcome == "failure" }
  predicate Critical(e: Event) { e.severity == "high" || e.severity == "critical" }
  predicate Administrative(e: Event) { e.eventCategory == "administrative" }
  predicate Financial(e: Event) { e.eventCategory == "financial_transaction" }
  predicate Any(e: Event) { true }

  predicate Counts(agent: AgentSource, tenant: Tenant, actor: string, row: Row) {
    row.tenantId == tenant && agent(row.sourceId, tenant) && row.event.actorId == actor
  }

  function Count(agent: AgentSource, ledger: seq<Row>, tenant: Tenant, actor: string, q: Event -> bool): nat
    decreases |ledger|
  {
    if ledger == [] then 0
    else
      var n := |ledger| - 1;
      Count(agent, ledger[..n], tenant, actor, q) +
      if Counts(agent, tenant, actor, ledger[n]) && q(ledger[n].event) then 1 else 0
  }

  /** Times in order. */
  function Stamp(u: Instant): nat {
    (((((u.year * 12 + u.month) * 32 + u.day) * 24 + u.hour) * 60 + u.minute) * 60 + u.second) * 1000000 + u.micro
  }

  predicate NotAfter(a: Option<Instant>, b: Option<Instant>) {
    a.None? || (b.Some? && Stamp(a.value) <= Stamp(b.value))
  }

  /** The latest time at which something of an actor occurred. */
  function LastSeen(agent: AgentSource, ledger: seq<Row>, tenant: Tenant, actor: string): Option<Instant>
    decreases |ledger|
  {
    if ledger == [] then None
    else
      var n := |ledger| - 1;
      var before := LastSeen(agent, ledger[..n], tenant, actor);
      var time := Some(ledger[n].event.occurredAt);
      if Counts(agent, tenant, actor, ledger[n]) && !NotAfter(time, before) then time else before
  }

  /** It is the time of one of the actor's rows, and none of them is later. */
  lemma {:induction false} LastSeenIsLatest(agent: AgentSource, ledger: seq<Row>, tenant: Tenant, actor: string)
    ensures var last := LastSeen(agent, ledger, tenant, actor);
            && (forall row | row in ledger && Counts(agent, tenant, actor, row) ::
                  NotAfter(Some(row.event.occurredAt), last))
            && (last.Some? ==> exists row | row in ledger && Counts(agent, tenant, actor, row) ::
                                 last == Some(row.event.occurredAt))
    decreases |ledger|
  {
    if ledger != [] {
      var n := |ledger| - 1;
      LastSeenIsLatest(agent, ledger[..n], tenant, actor);
      assert ledger == ledger[..n] + [ledger[n]];
    }
  }

  /** One row of the grouped query. */
  datatype Group = Group(
    actorId: string, total: nat, failed: nat, critical: nat, admin: nat, financial: nat, lastSeen: Option<Instant>)

  function GroupOf(agent: AgentSource, ledger: seq<Row>, tenant: Tenant, actor: string): Group {
    Group(actor, Count(agent, ledger, tenant, actor, Any), Count(agent, ledger, tenant, actor, Failed),
          Count(agent, ledger, tenant, actor, Critical), Count(agent, ledger, tenant, actor, Administrative),
          Count(agent, ledger, tenant, actor, Financial), LastSeen(agent, ledger, tenant, actor))
  }

  /** What the database may answer: one group per actor of the tenant, the most active first. */
  ghost predicate Grouped(agent: AgentSource, ledger: seq<Row>, tenant: Tenant, rows: seq<Group>) {
    && (forall g | g in rows :: g == GroupOf(agent, ledger, tenant, g.actorId) && g.total > 0)
    && (forall actor: string | GroupOf(agent, ledger, tenant, actor).total > 0 ::
          GroupOf(agent, ledger, tenant, actor) in rows)
    && (forall i, j | 0 <= i < j < |rows| :: rows[i].actorId != rows[j].actorId && rows[i].total >= rows[j].total)
  }

  // -------------------------------------------------------------- the ranking

  datatype ActorScore = ActorScore(group: Group, riskScore: nat)

  function RawScore(g: Group): nat {
    WEIGHT_FAILED_OUTCOME * g.failed + WEIGHT_CRITICAL_SEVERITY * g.critical +
    WEIGHT_ADMINISTRATIVE * g.admin + WEIGHT_FINANCIAL * g.financial
  }

  function Capped(raw: nat): nat { if raw < MAX_RISK_SCORE then raw else MAX_RISK_SCORE }

  function ScoreOf(g: Group): ActorScore { ActorScore(g, Capped(RawScore(g))) }

  function Scores(rows: seq<Group>): (s: seq<ActorScore>)
    ensures |s| == |rows| && forall i | 0 <= i < |rows| :: s[i] == ScoreOf(rows[i])
  {
    if rows == [] then [] else Scores(rows[..|rows| - 1]) + [ScoreOf(rows[|rows| - 1])]
  }

  function Insert(x: ActorScore, s: seq<ActorScore>): (r: seq<ActorScore>)
    ensures |r| == |s| + 1
  {
    if s == [] || x.riskScore >= s[0].riskScore then [x] + s else [s[0]] + Insert(x, s[1..])
  }

  /** list.sort with reverse=True: highest score first, and equal scores keep their order. */
  function StableSort(s: seq<ActorScore>): (r: seq<ActorScore>)
    ensures |r| == |s|
  {
    if s == [] then [] else Insert(s[0], StableSort(s[1..]))
  }

  predicate RanksBefore(a: ActorScore, b: ActorScore) {
    a.riskScore > b.riskScore || (a.riskScore == b.riskScore && a.group.total >= b.group.total)
  }

  ghost predicate Ranked(s: seq<ActorScore>) {
    forall i, j | 0 <= i < j < |s| :: RanksBefore(s[i], s[j]) && s[i].group.actorId != s[j].group.actorId
  }

  /** The ranking a tenant should see: every actor of the tenant once, with its counts and its score,
      highest score first and among equal scores the more active one first. */
  ghost predicate Ranking(agent: AgentSource, ledger: seq<Row>, tenant: Tenant, s: seq<ActorScore>) {
    && (forall x | x in s :: x == ScoreOf(GroupOf(agent, ledger, tenant, x.group.actorId)) && x.group.total > 0)
    && (forall actor: string | GroupOf(agent, ledger, tenant, actor).total > 0 ::
          ScoreOf(GroupOf(agent, ledger, tenant, actor)) in s)
    && Ranked(s)
  }

  lemma {:induction false} InsertElements(x: ActorScore, s: seq<ActorScore>)
    ensures forall y :: y in Insert(x, s) <==> y == x || y in s
  {
    if s != [] && x.riskScore < s[0].riskScore {
      InsertElements(x, s[1..]);
      assert s == [s[0]] + s[1..];
    }
  }

  lemma {:induction false} SortElements(s: seq<ActorScore>)
    ensures forall y :: y in StableSort(s) <==> y in s
  {
    if s != [] {
      SortElements(s[1..]);
      InsertElements(s[0], StableSort(s[1..]));
      assert s == [s[0]] + s[1..];
    }
  }

  lemma RankedCons(x: ActorScore, s: seq<ActorScore>)
    requires Ranked(s) && forall y | y in s :: RanksBefore(x, y) && x.group.actorId != y.group.actorId
    ensures Ranked([x] + s)
  {
    forall i, j | 0 <= i < j < |[x] + s|
      ensures RanksBefore(([x] + s)[i], ([x] + s)[j]) && ([x] + s)[i].group.actorId != ([x] + s)[j].group.actorId
    {
      assert ([x] + s)[j] == s[j - 1] && s[j - 1] in s;
    }
  }

  lemma RankedTail(s: seq<ActorScore>)
    requires Ranked(s) && s != []
    ensures Ranked(s[1..])
    ensures forall y | y in s[1..] :: RanksBefore(s[0], y) && s[0].group.actorId != y.group.actorId
  {
  }

  /** An actor at least as active as all in a ranking, inserted where the sort puts it. */
  lemma {:induction false} InsertRanked(x: ActorScore, s: seq<ActorScore>)
    requires Ranked(s)
    requires forall y | y in s :: x.group.total >= y.group.total && x.group.actorId != y.group.actorId
    ensures Ranked(Insert(x, s))
  {
    if s == [] || x.riskScore >= s[0].riskScore {
      forall y | y in s ensures RanksBefore(x, y) {
        var i :| 0 <= i < |s| && s[i] == y;
        assert i == 0 || RanksBefore(s[0], s[i]);
      }
      RankedCons(x, s);
    } else {
      RankedTail(s);
      InsertRanked(x, s[1..]);
      InsertElements(x, s[1..]);
      RankedCons(s[0], Insert(x, s[1..]));
    }
  }

  lemma {:induction false} SortRanks(s: seq<ActorScore>)
    requires forall i, j | 0 <= i < j < |s| ::
               s[i].group.total >= s[j].group.total && s[i].group.actorId != s[j].group.actorId
    ensures Ranked(StableSort(s))
  {
    if s != [] {
      SortRanks(s[1..]);
      SortElements(s[1..]);
      InsertRanked(s[0], StableSort(s[1..]));
    }
  }

  /** Scoring and sorting the database's groups gives the ranking of the ledger. */
  lemma RankingFromGroups(agent: AgentSource, ledger: seq<Row>, tenant: Tenant, rows: seq<Group>)
    requires Grouped(agent, ledger, tenant, rows)
    ensures Ranking(agent, ledger, tenant, StableSort(Scores(rows)))
  {
    var s := Scores(rows);
    SortRanks(s);
    SortElements(s);
    forall x | x in StableSort(s)
      ensures x == ScoreOf(GroupOf(agent, ledger, tenant, x.group.actorId)) && x.group.total > 0
    {
      var i :| 0 <= i < |s| && s[i] == x;
      assert rows[i] in rows;
    }
    forall actor: string | GroupOf(agent, ledger, tenant, actor).total > 0
      ensures ScoreOf(GroupOf(agent, ledger, tenant, actor)) in StableSort(s)
    {
      var i :| 0 <= i < |rows| && rows[i] == GroupOf(agent, ledger, tenant, actor);
      assert s[i] == ScoreOf(rows[i]);
    }
  }

  /** The current score of an actor. */
  function Score(agent: AgentSource, ledger: seq<Row>, tenant: Tenant, actor: string): (score: nat)
    ensures score <= MAX_RISK_SCORE
  {
    ScoreOf(GroupOf(agent, ledger, tenant, actor)).riskScore
  }

  lemma {:induction false} SameCount(agent: AgentSource, ledger: seq<Row>, tenant: Tenant, actor: string,
                                     q: Event -> bool, r: Event -> bool)
    requires forall e :: q(e) == r(e)
    ensures Count(agent, ledger, tenant, actor, q) == Count(agent, ledger, tenant, actor, r)
    decreases |ledger|
  {
    if ledger != [] { SameCount(agent, ledger[..|ledger| - 1], tenant, actor, q, r); }
  }

  /** One more row counts for an actor exactly if it is the actor's, in the tenant, from a source of the tenant's
      agent, and of the kind counted. */
  lemma CountNext(agent: AgentSource, ledger: seq<Row>, row: Row, tenant: Tenant, actor: string, q: Event -> bool)
    ensures Count(agent, ledger + [row], tenant, actor, q)
         == Count(agent, ledger, tenant, actor, q) +
            if row.tenantId == tenant && agent(row.sourceId, tenant) && row.event.actorId == actor && q(row.event)
            then 1 else 0
  {
    assert (ledger + [row])[..|ledger|] == ledger;
  }

  /** The score: 5 for a failure, 10 for a high or critical event, 3 for an administrative and 2 for a financial
      one, added up over the actor's events, and 100 at most. */
  lemma ScoreIs(agent: AgentSource, ledger: seq<Row>, tenant: Tenant, actor: string,
                failed: Event -> bool, critical: Event -> bool, admin: Event -> bool, financial: Event -> bool)
    requires forall e: Event :: failed(e) <==> e.outcome == "failure"
    requires forall e: Event :: critical(e) <==> e.severity == "high" || e.severity == "critical"
    requires forall e: Event :: admin(e) <==> e.eventCategory == "administrative"
    requires forall e: Event :: financial(e) <==> e.eventCategory == "financial_transaction"
    ensures var sum := 5 * Count(agent, ledger, tenant, actor, failed) +
                       10 * Count(agent, ledger, tenant, actor, critical) +
                       3 * Count(agent, ledger, tenant, actor, admin) +
                       2 * Count(agent, ledger, tenant, actor, financial);
            Score(agent, ledger, tenant, actor) == if sum <= 100 then sum else 100
  {
    SameCount(agent, ledger, tenant, actor, failed, Failed);
    SameCount(agent, ledger, tenant, actor, critical, Critical);
    SameCount(agent, ledger, tenant, actor, admin, Administrative);
    SameCount(agent, ledger, tenant, actor, financial, Financial);
  }

  lemma {:induction false} CountGrows(agent: AgentSource, ledger: seq<Row>, more: seq<Row>, tenant: Tenant,
                                      actor: string, q: Event -> bool)
    ensures Count(agent, ledger, tenant, actor, q) <= Count(agent, ledger + more, tenant, actor, q)
    decreases |more|
  {
    if more == [] {
      assert ledger + more == ledger;
    } else {
      var n := |more| - 1;
      assert (ledger + more)[..|ledger + more| - 1] == ledger + more[..n];
      CountGrows(agent, ledger, more[..n], tenant, actor, q);
    }
  }

  lemma {:induction false} LastSeenGrows(agent: AgentSource, ledger: seq<Row>, more: seq<Row>, tenant: Tenant,
                                         actor: string)
    ensures NotAfter(LastSeen(agent, ledger, tenant, actor), LastSeen(agent, ledger + more, tenant, actor))
    decreases |more|
  {
    if more == [] {
      assert ledger + more == ledger;
    } else {
      var n := |more| - 1;
      assert (ledger + more)[..|ledger + more| - 1] == ledger + more[..n];
      LastSeenGrows(agent, ledger, more[..n], tenant, actor);
    }
  }

  /** Scores never decrease as the ledger grows. */
  lemma ScoreGrows(agent: AgentSource, ledger: seq<Row>, more: seq<Row>, tenant: Tenant, actor: string)
    ensures Score(agent, ledger, tenant, actor) <= Score(agent, ledger + more, tenant, actor)
  {
    CountGrows(agent, ledger, more, tenant, actor, Failed);
    CountGrows(agent, ledger, more, tenant, actor, Critical);
    CountGrows(agent, ledger, more, tenant, actor, Administrative);
    CountGrows(agent, ledger, more, tenant, actor, Financial);
  }

  // ---------------------------------------------------------------- the cache

  datatype Cached = Cached(expiresAt: real, scores: seq<ActorScore>)

  datatype Stats = Stats(ledger: seq<Row>, cache: map<Tenant, Cached>)

  /** A row is appended, or the scores are asked for; `rows` is what the database answers if it is asked. */
  datatype Step = Append(row: Row) | GetScores(tenant: Tenant, limit: int, now: real, rows: seq<Group>)

  /** s[:limit] in Python. */
  function Limited(s: seq<ActorScore>, limit: int): seq<ActorScore> {
    if limit >= |s| then s else if limit >= 0 then s[..limit] else if |s| + limit >= 0 then s[..|s| + limit] else []
  }

  predicate Hit(cache: map<Tenant, Cached>, tenant: Tenant, now: real) {
    tenant in cache && cache[tenant].expiresAt > now
  }

  function Next(s: Stats, step: Step): Stats {
    match step
    case Append(row) => s.(ledger := s.ledger + [row])
    case GetScores(tenant, limit, now, rows) =>
      if Hit(s.cache, tenant, now) then s
      else s.(cache := s.cache[tenant := Cached(now + CACHE_TTL, StableSort(Scores(rows)))])
  }

  function Answer(s: Stats, step: Step): seq<ActorScore>
    requires step.GetScores?
  {
    Limited(if Hit(s.cache, step.tenant, step.now) then s.cache[step.tenant].scores else StableSort(Scores(step.rows)),
            step.limit)
  }

  method ComputeActorRiskScores(rows: seq<Group>) returns (scored: seq<ActorScore>)
    ensures scored == StableSort(Scores(rows))
    ensures forall agent: AgentSource, ledger: seq<Row>, tenant: Tenant | Grouped(agent, ledger, tenant, rows) ::
              Ranking(agent, ledger, tenant, scored)
  {
    scored := [];
    for i := 0 to |rows|
      invariant scored == Scores(rows[..i])
    {
      var row := rows[i];
      var rawScore := WEIGHT_FAILED_OUTCOME * row.failed + WEIGHT_CRITICAL_SEVERITY * row.critical
        + WEIGHT_ADMINISTRATIVE * row.admin + WEIGHT_FINANCIAL * row.financial;
      scored := scored + [ActorScore(row, if rawScore < MAX_RISK_SCORE then rawScore else MAX_RISK_SCORE)];
      assert rows[..i + 1][..i] == rows[..i];
    }
    assert rows[..|rows|] == rows;
    scored := StableSort(scored);
    forall agent: AgentSource, ledger: seq<Row>, tenant: Tenant | Grouped(agent, ledger, tenant, rows)
      ensures Ranking(agent, ledger, tenant, scored)
    {
      RankingFromGroups(agent, ledger, tenant, rows);
    }
  }

  class RiskScoreCache {
    var cache: map<Tenant, Cached>

    constructor ()
      ensures cache == map[]
    {
      cache := map[];
    }

    method GetActorRiskScores(ghost ledger: seq<Row>, tenant: Tenant, limit: int, now: real, rows: seq<Group>)
      returns (scores: seq<ActorScore>)
      modifies this
      ensures Stats(ledger, cache) == Next(Stats(ledger, old(cache)), GetScores(tenant, limit, now, rows))
      ensures scores == Answer(Stats(ledger, old(cache)), GetScores(tenant, limit, now, rows))
    {
      if tenant in cache {
        var cached := cache[tenant];
        if cached.expiresAt > now {
          return Limited(cached.scores, limit);
        }
      }
      var scored := ComputeActorRiskScores(rows);
      cache := cache[tenant := Cached(now + CACHE_TTL, scored)];
      return Limited(scored, limit);
    }
  }

  // ----------------------------------------------------------------- whole runs

  function Run(s: Stats, steps: seq<Step>): Stats
    decreases |steps|
  {
    if steps == [] then s else Next(Run(s, steps[..|steps| - 1]), steps[|steps| - 1])
  }

  /** The clock does not go back, and the database answers from the ledger of the moment. */
  ghost predicate Honest(agent: AgentSource, s: Stats, steps: seq<Step>) {
    && (forall i | 0 <= i < |steps| && steps[i].GetScores? ::
          Grouped(agent, Run(s, steps[..i]).ledger, steps[i].tenant, steps[i].rows))
    && (forall i, j | 0 <= i < j < |steps| && steps[i].GetScores? && steps[j].GetScores? ::
          steps[i].now <= steps[j].now)
  }

  lemma {:induction false} LedgerGrows(s: Stats, steps: seq<Step>, i: nat) returns (more: seq<Row>)
    requires i <= |steps|
    ensures Run(s, steps).ledger == Run(s, steps[..i]).ledger + more
    decreases |steps|
  {
    if i == |steps| {
      more := [];
      assert steps[..i] == steps;
    } else {
      var n := |steps| - 1;
      var before := LedgerGrows(s, steps[..n], i);
      assert steps[..n][..i] == steps[..i];
      more := if steps[n].Append? then before + [steps[n].row] else before;
    }
  }

  /** Step i computed this cache entry of a tenant. */
  ghost predicate MadeAt(steps: seq<Step>, i: int, tenant: Tenant, entry: Cached) {
    && 0 <= i < |steps| && steps[i].GetScores? && steps[i].tenant == tenant
    && entry == Cached(steps[i].now + CACHE_TTL, StableSort(Scores(steps[i].rows)))
  }

  lemma {:induction false} EntryMade(s: Stats, steps: seq<Step>, tenant: Tenant) returns (i: int)
    requires s.cache == map[] && tenant in Run(s, steps).cache
    ensures MadeAt(steps, i, tenant, Run(s, steps).cache[tenant])
    decreases |steps|
  {
    var n := |steps| - 1;
    var before := Run(s, steps[..n]);
    if steps[n].GetScores? && steps[n].tenant == tenant && !Hit(before.cache, tenant, steps[n].now) {
      i := n;
    } else {
      i := EntryMade(s, steps[..n], tenant);
    }
  }

  /** Which computation answers the last step: itself, or one of the same tenant under 20 seconds ago. */
  lemma AnswerMade(agent: AgentSource, s: Stats, steps: seq<Step>, last: Step) returns (i: int)
    requires s.cache == map[] && last.GetScores? && Honest(agent, s, steps + [last])
    ensures 0 <= i <= |steps|
    ensures var made := (steps + [last])[i];
            made.GetScores? && made.tenant == last.tenant && last.now - CACHE_TTL < made.now <= last.now &&
            Answer(Run(s, steps), last) == Limited(StableSort(Scores(made.rows)), last.limit)
  {
    if Hit(Run(s, steps).cache, last.tenant, last.now) {
      i := EntryMade(s, steps, last.tenant);
      assert (steps + [last])[i] == steps[i] && (steps + [last])[|steps|] == last;
    } else {
      i := |steps|;
    }
  }

  /** Step i asked for the same tenant under 20 seconds before the last one, and the last answer is the
      tenant's ranking of the ledger as it was at step i. */
  ghost predicate RecentRanking(agent: AgentSource, s: Stats, steps: seq<Step>, last: Step, i: int)
    requires last.GetScores?
  {
    && 0 <= i <= |steps|
    && var made := (steps + [last])[i];
    && made.GetScores? && made.tenant == last.tenant && last.now - 20.0 < made.now <= last.now
    && Ranking(agent, Run(s, steps[..i]).ledger, last.tenant, StableSort(Scores(made.rows)))
    && Answer(Run(s, steps), last) == Limited(StableSort(Scores(made.rows)), last.limit)
  }

  lemma AnswerFound(agent: AgentSource, s: Stats, steps: seq<Step>, last: Step) returns (i: int)
    requires s.cache == map[] && last.GetScores? && Honest(agent, s, steps + [last])
    ensures RecentRanking(agent, s, steps, last, i)
  {
    i := AnswerMade(agent, s, steps, last);
    assert (steps + [last])[..i] == steps[..i];
    RankingFromGroups(agent, Run(s, steps[..i]).ledger, last.tenant, (steps + [last])[i].rows);
  }

  /** Every answer in every run is the ranking of the tenant that asked, exact for the ledger as it was
      less than 20 seconds ago. */
  lemma AnswersAreRecent(agent: AgentSource, s: Stats, steps: seq<Step>, last: Step)
    requires s.cache == map[] && last.GetScores? && Honest(agent, s, steps + [last])
    ensures exists i :: RecentRanking(agent, s, steps, last, i)
  {
    var i := AnswerFound(agent, s, steps, last);
  }

  lemma AnswerFromPast(agent: AgentSource, s: Stats, steps: seq<Step>, last: Step)
    returns (past: seq<Row>, more: seq<Row>, ranking: seq<ActorScore>)
    requires s.cache == map[] && last.GetScores? && Honest(agent, s, steps + [last])
    ensures Run(s, steps).ledger == past + more && Ranking(agent, past, last.tenant, ranking)
    ensures Answer(Run(s, steps), last) == Limited(ranking, last.limit)
  {
    var i := AnswerFound(agent, s, steps, last);
    more := LedgerGrows(s, steps, i);
    past, ranking := Run(s, steps[..i]).ledger, StableSort(Scores((steps + [last])[i].rows));
  }

  /** Once computed, a tenant's ranking is the answer for the next 20 seconds, whatever is appended and
      whoever else asks in between. */
  lemma {:induction false} RankingStays(s: Stats, a: Step, between: seq<Step>, b: Step)
    requires a.GetScores? && b.GetScores? && b.tenant == a.tenant && b.now - a.now < 20.0
    requires !(a.tenant in s.cache && s.cache[a.tenant].expiresAt > a.now)
    requires forall x | x in between :: x.GetScores? ==> x.tenant != a.tenant
    ensures Answer(Run(Next(s, a), between), b) == Limited(StableSort(Scores(a.rows)), b.limit)
  {
    EntryStays(Next(s, a), between, a.tenant);
  }

  lemma {:induction false} EntryStays(s: Stats, steps: seq<Step>, tenant: Tenant)
    requires tenant in s.cache && forall x | x in steps :: x.GetScores? ==> x.tenant != tenant
    ensures tenant in Run(s, steps).cache && Run(s, steps).cache[tenant] == s.cache[tenant]
    decreases |steps|
  {
    if steps != [] { EntryStays(s, steps[..|steps| - 1], tenant); }
  }

  /** A limit takes the first ones, and a negative limit leaves out the last ones. */
  lemma LimitedIs(s: seq<ActorScore>, limit: int)
    ensures Limited(s, limit) <= s
    ensures |Limited(s, limit)| == if limit >= 0 then (if limit < |s| then limit else |s|)
                                   else if |s| + limit > 0 then |s| + limit else 0
  {
  }

  /** No answer ever shows an actor with more than its current score, or outside 0..100, or as seen later
      than it was. */
  lemma AnswersNeverHigher(agent: AgentSource, s: Stats, steps: seq<Step>, last: Step, x: ActorScore)
    requires s.cache == map[] && last.GetScores? && Honest(agent, s, steps + [last])
    requires x in Answer(Run(s, steps), last)
    ensures x.riskScore <= Score(agent, Run(s, steps).ledger, last.tenant, x.group.actorId) <= MAX_RISK_SCORE
    ensures NotAfter(x.group.lastSeen, LastSeen(agent, Run(s, steps).ledger, last.tenant, x.group.actorId))
  {
    var past, more, ranking := AnswerFromPast(agent, s, steps, last);
    assert x in ranking;
    ScoreGrows(agent, past, more, last.tenant, x.group.actorId);
    LastSeenGrows(agent, past, more, last.tenant, x.group.actorId);
  }
}
