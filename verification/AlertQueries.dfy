/** The three queries of an alert evaluation, against the ledger of the moment. */
module AlertQueries {
  import opened Hashing
  import RiskScores

  const MICROS_PER_SECOND: nat := 1000000

  const FAILED_LOGIN_WINDOW_MINUTES: nat := 15
  const FAILED_LOGIN_THRESHOLD: nat := 5
  const BULK_EXPORT_WINDOW_MINUTES: nat := 10
  const BULK_EXPORT_THRESHOLD: nat := 10
  const CRITICAL_FINANCIAL_LOOKBACK_HOURS: nat := 24

  /** The rules with a threshold. */
  datatype Rule = FailedLogins | BulkExport

  function WindowOf(rule: Rule): nat {
    if rule == BulkExport then BULK_EXPORT_WINDOW_MINUTES else FAILED_LOGIN_WINDOW_MINUTES
  }

  /** What the queries read besides the hashed columns: which sources belong to the agent, times as
      microseconds since 1970, and the ids of rows. */
  datatype View = View(agent: RiskScores.AgentSource, when: Instant -> int, idOf: Row -> string)

  /** A financial event that the third rule selects. */
  datatype FinancialRow = FinancialRow(id: string, severity: string, actorId: string, occurredAt: int)

  /** What the three queries answer: the actors over the two thresholds, and the rows of the third rule. */
  datatype Matches = Matches(failedLogins: seq<string>, bulkExports: seq<string>, financial: seq<FinancialRow>)

  function MinutesBefore(now: int, minutes: nat): int { now - minutes * 60 * MICROS_PER_SECOND }

  predicate FailedSince(v: View, since: int, e: Event) { RiskScores.Failed(e) && v.when(e.occurredAt) >= since }

  predicate DataAccessSince(v: View, since: int, e: Event) {
    e.eventCategory == "data_access" && v.when(e.occurredAt) >= since
  }

  predicate FinancialSince(v: View, since: int, e: Event) {
    RiskScores.Financial(e) && RiskScores.Critical(e) && v.when(e.occurredAt) >= since
  }

  /** How many failures of an actor the agent of the tenant reported in the last 15 minutes. */
  function RecentFailures(v: View, ledger: seq<Row>, tenant: string, now: int, actor: string): nat {
    RiskScores.Count(v.agent, ledger, tenant, actor,
                     e => FailedSince(v, MinutesBefore(now, FAILED_LOGIN_WINDOW_MINUTES), e))
  }

  /** How many data accesses in the last 10 minutes. */
  function RecentAccesses(v: View, ledger: seq<Row>, tenant: string, now: int, actor: string): nat {
    RiskScores.Count(v.agent, ledger, tenant, actor,
                     e => DataAccessSince(v, MinutesBefore(now, BULK_EXPORT_WINDOW_MINUTES), e))
  }

  /** The high or critical financial transactions of the last 24 hours. */
  predicate Selected(v: View, tenant: string, now: int, row: Row) {
    && row.tenantId == tenant && v.agent(row.sourceId, tenant)
    && FinancialSince(v, MinutesBefore(now, CRITICAL_FINANCIAL_LOOKBACK_HOURS * 60), row.event)
  }

  function FinancialRowOf(v: View, row: Row): FinancialRow {
    FinancialRow(v.idOf(row), row.event.severity, row.event.actorId, v.when(row.event.occurredAt))
  }

  function SelectedRows(v: View, ledger: seq<Row>, tenant: string, now: int): seq<FinancialRow>
    decreases |ledger|
  {
    if ledger == [] then []
    else
      var n := |ledger| - 1;
      SelectedRows(v, ledger[..n], tenant, now) +
      if Selected(v, tenant, now, ledger[n]) then [FinancialRowOf(v, ledger[n])] else []
  }

  /** Which actors are over the threshold of a rule. */
  function Over(rule: Rule, v: View, ledger: seq<Row>, tenant: string, now: int): string -> bool {
    actor =>
      match rule
      case FailedLogins => RecentFailures(v, ledger, tenant, now, actor) >= FAILED_LOGIN_THRESHOLD
      case BulkExport => RecentAccesses(v, ledger, tenant, now, actor) >= BULK_EXPORT_THRESHOLD
  }

  function Actors(found: Matches, rule: Rule): seq<string> {
    if rule == BulkExport then found.bulkExports else found.failedLogins
  }

  /** The thresholds: 5 failures in 15 minutes, 10 data accesses in 10 minutes, both windows closed at their
      start. */
  lemma OverIff(v: View, ledger: seq<Row>, tenant: string, now: int, actor: string,
                failures: Event -> bool, accesses: Event -> bool)
    requires forall e: Event ::
               failures(e) <==> e.outcome == "failure" && now - v.when(e.occurredAt) <= 15 * 60 * 1_000_000
    requires forall e: Event ::
               accesses(e) <==> e.eventCategory == "data_access" && now - v.when(e.occurredAt) <= 10 * 60 * 1_000_000
    ensures Over(FailedLogins, v, ledger, tenant, now)(actor)
       <==> RiskScores.Count(v.agent, ledger, tenant, actor, failures) >= 5
    ensures Over(BulkExport, v, ledger, tenant, now)(actor)
       <==> RiskScores.Count(v.agent, ledger, tenant, actor, accesses) >= 10
  {
    RiskScores.SameCount(v.agent, ledger, tenant, actor, failures,
                         e => FailedSince(v, MinutesBefore(now, FAILED_LOGIN_WINDOW_MINUTES), e));
    RiskScores.SameCount(v.agent, ledger, tenant, actor, accesses,
                         e => DataAccessSince(v, MinutesBefore(now, BULK_EXPORT_WINDOW_MINUTES), e));
  }

  ghost predicate NoRepeats(actors: seq<string>) { forall i, j | 0 <= i < j < |actors| :: actors[i] != actors[j] }

  ghost predicate Lists(actors: seq<string>, over: string -> bool) {
    NoRepeats(actors) && forall a: string :: a in actors <==> over(a)
  }

  /** What the database may answer: each actor over a threshold once, and each selected row once, in any
      order. */
  ghost predicate Queried(v: View, ledger: seq<Row>, tenant: string, now: int, found: Matches) {
    && (forall rule: Rule :: Lists(Actors(found, rule), Over(rule, v, ledger, tenant, now)))
    && multiset(found.financial) == multiset(SelectedRows(v, ledger, tenant, now))
  }

  /** The third rule: financial transactions of high or critical severity in the last 24 hours. */
  predicate HighFinancial(v: View, tenant: string, now: int, row: Row) {
    && row.tenantId == tenant && v.agent(row.sourceId, tenant)
    && row.event.eventCategory == "financial_transaction"
    && (row.event.severity == "high" || row.event.severity == "critical")
    && now - v.when(row.event.occurredAt) <= 24 * 60 * 60 * 1_000_000
  }

  /** The selected rows, read off the ledger. */
  lemma {:induction false} SelectedIff(v: View, ledger: seq<Row>, tenant: string, now: int, f: FinancialRow)
    ensures f in SelectedRows(v, ledger, tenant, now)
       <==> exists row :: row in ledger && HighFinancial(v, tenant, now, row) &&
                          f == FinancialRow(v.idOf(row), row.event.severity, row.event.actorId,
                                            v.when(row.event.occurredAt))
    decreases |ledger|
  {
    if ledger != [] {
      var n := |ledger| - 1;
      SelectedIff(v, ledger[..n], tenant, now, f);
      assert ledger == ledger[..n] + [ledger[n]];
    }
  }
}
