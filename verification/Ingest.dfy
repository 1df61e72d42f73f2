/** agent_ingest_events: what an agent sends is forced into the event schema and appended to the ledger,
    and what cannot be forced is skipped. */
module Ingest {
  import opened Text
  import opened Json
  import opened Hashing
  import opened EventSchema
  import opened Table
  import opened Verify
  import opened Append

  const MAX_EVENTS: nat := 500

  // ------------------------------------------------- the event-type sanitiser

  predicate CleanChar(c: char) { NameChar(c) || c == '.' }

  /** Replaces every other character by an underscore. */
  function Cleaned(s: string): (r: string)
    ensures |r| == |s| && forall i | 0 <= i < |r| :: CleanChar(r[i])
  {
    seq(|s|, i requires 0 <= i < |s| => if CleanChar(s[i]) then s[i] else '_')
  }

  function NoDots(s: string): (r: string)
    ensures |r| == |s| && AllNameChars(r)
  {
    var r := seq(|s|, i requires 0 <= i < |s| => if NameChar(s[i]) then s[i] else '_');
    assert forall c | c in r :: NameChar(c);
    r
  }

  function FirstDot(s: string): (k: nat)
    ensures k <= |s| && (forall i | 0 <= i < k :: s[i] != '.') && (k < |s| ==> s[k] == '.')
  {
    if s == "" || s[0] == '.' then 0 else 1 + FirstDot(s[1..])
  }

  /** The cleaned name, with a dot in it; `prepare` is lower-casing and stripping. */
  function Dotted(prepare: string -> string, raw: string): string {
    var clean := Cleaned(prepare(raw));
    if '.' in clean then clean else "agent." + clean
  }

  function LeftPart(prepare: string -> string, raw: string): string {
    var clean := Dotted(prepare, raw);
    var left := NoDots(clean[..FirstDot(clean)]);
    if left == "" then "agent" else left
  }

  function RightPart(prepare: string -> string, raw: string): string {
    var clean := Dotted(prepare, raw);
    var right := if FirstDot(clean) < |clean| then NoDots(clean[FirstDot(clean) + 1..]) else "";
    if right == "" then "event" else right
  }

  function Truncated(s: string, n: nat): string { if |s| <= n then s else s[..n] }

  function SanitiseEventType(prepare: string -> string, raw: string): string {
    Truncated(LeftPart(prepare, raw) + "." + RightPart(prepare, raw), MAX_EVENT_TYPE)
  }

  /** Letters, digits and underscores stay, everything else becomes an underscore. */
  ghost predicate Underscored(s: string, r: string) {
    |r| == |s| && forall i | 0 <= i < |s| ::
      r[i] == if 'a' <= s[i] <= 'z' || '0' <= s[i] <= '9' || s[i] == '_' then s[i] else '_'
  }

  /** The name in front of the first dot and the name behind it, with "agent" for a missing first and
      "event" for a missing second one. */
  ghost predicate Halves(p: string, left: string, right: string) {
    && ('.' !in p ==> left == "agent" && (if p == "" then right == "event" else Underscored(p, right)))
    && forall k | 0 <= k < |p| && p[k] == '.' && '.' !in p[..k] ::
      && (if k == 0 then left == "agent" else Underscored(p[..k], left))
      && (if k + 1 == |p| then right == "event" else Underscored(p[k + 1..], right))
  }

  lemma NoDotsUnderscores(s: string, p: string)
    requires |s| == |p| && forall i | 0 <= i < |s| :: s[i] == if CleanChar(p[i]) then p[i] else '_'
    ensures Underscored(p, NoDots(s))
  {
  }

  lemma {:induction false} SameDots(a: string, b: string)
    requires |a| == |b| && forall i | 0 <= i < |a| :: a[i] == '.' <==> b[i] == '.'
    ensures FirstDot(a) == FirstDot(b) && ('.' in a <==> '.' in b)
  {
    if a != "" {
      SameDots(a[1..], b[1..]);
      assert a == [a[0]] + a[1..] && b == [b[0]] + b[1..];
    }
  }

  lemma DotsKept(p: string)
    ensures FirstDot(Cleaned(p)) == FirstDot(p) && ('.' in Cleaned(p) <==> '.' in p)
  {
    SameDots(Cleaned(p), p);
  }

  lemma {:induction false} FirstDotIs(p: string, j: nat)
    requires j < |p| && p[j] == '.' && '.' !in p[..j]
    ensures FirstDot(p) == j
  {
    if j > 0 {
      assert p[..j][0] == p[0] && p[1..][..j - 1] == p[..j][1..];
      FirstDotIs(p[1..], j - 1);
    }
  }

  lemma UndottedHalves(prepare: string -> string, raw: string)
    requires '.' !in prepare(raw)
    ensures Halves(prepare(raw), LeftPart(prepare, raw), RightPart(prepare, raw))
  {
    var p := prepare(raw);
    var c := Cleaned(p);
    DotsKept(p);
    assert "agent." == "agent" + "." && Dotted(prepare, raw) == "agent" + "." + c;
    DotAfter("agent" + "." + c, "agent", c);
    NamesKept("agent");
    NoDotsUnderscores(c, p);
  }

  lemma DottedHalves(prepare: string -> string, raw: string)
    requires '.' in prepare(raw)
    ensures Halves(prepare(raw), LeftPart(prepare, raw), RightPart(prepare, raw))
  {
    var p := prepare(raw);
    var c, k := Cleaned(p), FirstDot(p);
    DotsKept(p);
    NoDotsUnderscores(c[..k], p[..k]);
    NoDotsUnderscores(c[k + 1..], p[k + 1..]);
    forall j | 0 <= j < |p| && p[j] == '.' && '.' !in p[..j] ensures j == k {
      FirstDotIs(p, j);
    }
  }

  /** The sanitised event type: the two halves of the prepared name, joined by a dot and cut after 128
      characters. */
  lemma SanitisedForm(prepare: string -> string, raw: string) returns (left: string, right: string)
    ensures Halves(prepare(raw), left, right)
    ensures var joined := left + "." + right;
            SanitiseEventType(prepare, raw) == if |joined| <= 128 then joined else joined[..128]
  {
    left, right := LeftPart(prepare, raw), RightPart(prepare, raw);
    if '.' in prepare(raw) { DottedHalves(prepare, raw); } else { UndottedHalves(prepare, raw); }
  }

  /** Lower-casing and stripping leave a name of allowed characters alone. */
  ghost predicate KeepsNames(prepare: string -> string) {
    forall s: string | (forall i | 0 <= i < |s| :: CleanChar(s[i])) :: prepare(s) == s
  }

  lemma PartsAreNames(prepare: string -> string, raw: string)
    ensures LeftPart(prepare, raw) != "" && AllNameChars(LeftPart(prepare, raw))
    ensures RightPart(prepare, raw) != "" && AllNameChars(RightPart(prepare, raw))
  {
  }

  /** Names joined by a dot and cut at n characters. */
  lemma JoinedIsValid(left: string, right: string)
    requires left != "" && right != "" && AllNameChars(left) && AllNameChars(right)
    ensures ValidEventType(Truncated(left + "." + right, MAX_EVENT_TYPE)) <==> |left| <= 126
  {
    var s := left + "." + right;
    var r := Truncated(s, MAX_EVENT_TYPE);
    if |left| <= 126 {
      assert r[..|left|] == left;
      assert forall c | c in r[|left| + 1..] :: c in right;
      assert DotAt(r, |left|);
    } else {
      forall k | 0 <= k < |r| ensures !DotAt(r, k) {
        if k < |left| { assert r[k] == left[k] && left[k] in left; }
      }
    }
  }

  /** The result is a valid event type exactly if the part before the dot has at most 126 characters. */
  lemma SanitisedValidIff(prepare: string -> string, raw: string)
    ensures |SanitiseEventType(prepare, raw)| <= MAX_EVENT_TYPE
    ensures ValidEventType(SanitiseEventType(prepare, raw)) <==> |LeftPart(prepare, raw)| <= 126
  {
    PartsAreNames(prepare, raw);
    JoinedIsValid(LeftPart(prepare, raw), RightPart(prepare, raw));
  }

  lemma CleanKept(prepare: string -> string, s: string)
    requires KeepsNames(prepare) && forall i | 0 <= i < |s| :: CleanChar(s[i])
    ensures Cleaned(prepare(s)) == s
  {
  }

  lemma NamesKept(s: string)
    requires AllNameChars(s)
    ensures NoDots(s) == s
  {
    assert forall i | 0 <= i < |s| :: s[i] in s;
  }

  /** Names already in the form left, dot, right are only cut. */
  lemma JoinedIsKept(prepare: string -> string, left: string, right: string)
    requires KeepsNames(prepare) && left != "" && AllNameChars(left) && AllNameChars(right)
    ensures SanitiseEventType(prepare, left + "." + right)
         == Truncated(left + "." + (if right == "" then "event" else right), MAX_EVENT_TYPE)
  {
    var s := left + "." + right;
    forall i | 0 <= i < |s| ensures CleanChar(s[i]) {
      if i < |left| { assert s[i] in left; } else if i > |left| { assert s[i] in right; }
    }
    CleanKept(prepare, s);
    assert s[|left|] == '.';
    DotAfter(s, left, right);
    NamesKept(left);
    NamesKept(right);
  }

  lemma DotAfter(s: string, left: string, right: string)
    requires AllNameChars(left) && s == left + "." + right
    ensures FirstDot(s) == |left| && s[..FirstDot(s)] == left && s[FirstDot(s) + 1..] == right
  {
    forall i | 0 <= i < |left| ensures s[i] != '.' {
      assert s[i] in left;
    }
    assert s[|left|] == '.';
  }

  /** Valid event types pass unchanged. */
  lemma ValidUnchanged(prepare: string -> string, s: string)
    requires KeepsNames(prepare) && ValidEventType(s)
    ensures SanitiseEventType(prepare, s) == s
  {
    var k :| 0 <= k < |s| && DotAt(s, k);
    assert s == s[..k] + "." + s[k + 1..];
    JoinedIsKept(prepare, s[..k], s[k + 1..]);
  }

  lemma UndottedIsDotted(prepare: string -> string, s: string)
    requires KeepsNames(prepare) && AllNameChars(s)
    ensures Dotted(prepare, s) == "agent" + "." + s
  {
    forall i | 0 <= i < |s| ensures CleanChar(s[i]) && s[i] != '.' {
      assert s[i] in s;
    }
    CleanKept(prepare, s);
    assert '.' !in s;
    assert "agent." == "agent" + ".";
  }

  /** Without a dot, a name gets the prefix. */
  lemma UndottedIsPrefixed(prepare: string -> string, s: string)
    requires KeepsNames(prepare) && AllNameChars(s)
    ensures SanitiseEventType(prepare, s) == Truncated("agent" + "." + (if s == "" then "event" else s), MAX_EVENT_TYPE)
  {
    UndottedIsDotted(prepare, s);
    DotAfter("agent" + "." + s, "agent", s);
    NamesKept("agent");
    NamesKept(s);
  }

  lemma StableIfShort(prepare: string -> string, left: string, right: string)
    requires KeepsNames(prepare) && left != "" && right != "" && AllNameChars(left) && AllNameChars(right)
    requires |left| <= 127
    ensures var r := Truncated(left + "." + right, MAX_EVENT_TYPE); SanitiseEventType(prepare, r) == r
  {
    var r := Truncated(left + "." + right, MAX_EVENT_TYPE);
    var kept := r[|left| + 1..];
    assert r == left + "." + kept;
    assert forall c | c in kept :: c in right;
    JoinedIsKept(prepare, left, kept);
  }

  lemma UnstableIfLong(prepare: string -> string, left: string, right: string)
    requires KeepsNames(prepare) && AllNameChars(left) && |left| > 127
    ensures var r := Truncated(left + "." + right, MAX_EVENT_TYPE); SanitiseEventType(prepare, r) != r
  {
    var r := Truncated(left + "." + right, MAX_EVENT_TYPE);
    assert r == left[..128];
    assert r[5] in left;
    UndottedIsPrefixed(prepare, r);
    PrefixChanges(r);
  }

  lemma PrefixChanges(r: string)
    requires |r| == MAX_EVENT_TYPE && r[5] != '.'
    ensures Truncated("agent" + "." + r, MAX_EVENT_TYPE) != r
  {
    assert Truncated("agent" + "." + r, MAX_EVENT_TYPE)[5] == '.';
  }

  /** Sanitising twice is sanitising once exactly if the part before the dot has at most 127 characters. */
  lemma IdempotentIff(prepare: string -> string, raw: string)
    requires KeepsNames(prepare)
    ensures SanitiseEventType(prepare, SanitiseEventType(prepare, raw)) == SanitiseEventType(prepare, raw)
       <==> |LeftPart(prepare, raw)| <= 127
  {
    var left, right := LeftPart(prepare, raw), RightPart(prepare, raw);
    PartsAreNames(prepare, raw);
    if |left| <= 127 {
      StableIfShort(prepare, left, right);
    } else {
      UnstableIfLong(prepare, left, right);
    }
  }

  // ---------------------------------------------------------- the ingest loop

  /** An event as an agent sends it. */
  datatype AgentEvent = AgentEvent(
    occurredAt: Option<string>, eventType: string, eventCategory: string, outcome: string, severity: string,
    actorType: Option<string>, actorId: Option<string>, originIp: Option<string>, metadata: Option<Dict>)

  /** The library functions the loop calls: lower-casing and stripping, parsing a time, parsing an address,
      and the checks of the schema. */
  datatype Tools = Tools(
    prepare: string -> string, parseTime: string -> Option<Instant>, parseAddress: string -> Option<string>,
    checks: Checks)

  function OccurredAt(t: Tools, ev: AgentEvent, now: Instant): Instant {
    if ev.occurredAt.None? || ev.occurredAt.value == "" then now
    else
      match t.parseTime(ev.occurredAt.value)
      case None => now
      case Some(i) => i
  }

  function MappedSeverity(s: string): string {
    if s == "warn" then "warning" else if s == "error" then "high" else s
  }

  function OneOf(s: string, allowed: set<string>, default: string): string { if s in allowed then s else default }

  function ActorIdOf(id: Option<string>): string {
    if id.None? || id.value == "" then "agent" else Truncated(id.value, MAX_ACTOR_ID)
  }

  function Address(ip: Option<string>): Option<string> { if ip.Some? && ip.value != "" then ip else None }

  /** The event that the loop builds, before it is checked. */
  function Built(t: Tools, ev: AgentEvent, now: Instant): Event {
    Event(OccurredAt(t, ev, now),
          if ev.actorType.Some? then OneOf(ev.actorType.value, ACTOR_TYPES, "system") else "system",
          ActorIdOf(ev.actorId), None, SanitiseEventType(t.prepare, ev.eventType),
          OneOf(ev.eventCategory, CATEGORIES, "system"), OneOf(ev.outcome, OUTCOMES, "unknown"),
          OneOf(MappedSeverity(ev.severity), SEVERITIES, "info"),
          None, if Address(ev.originIp).Some? then t.parseAddress(ev.originIp.value) else None, None, None, None, None,
          if ev.metadata.Some? then ev.metadata.value else NoMembers)
  }

  predicate Accepted(t: Tools, ev: AgentEvent, now: Instant) {
    (Address(ev.originIp).Some? ==> t.parseAddress(ev.originIp.value).Some?) && ValidEvent(t.checks, Built(t, ev, now))
  }

  lemma BuiltIsSanitised(t: Tools, ev: AgentEvent, now: Instant)
    ensures var e := Built(t, ev, now);
            && e.actorType in ACTOR_TYPES && 1 <= |e.actorId| <= MAX_ACTOR_ID
            && e.eventCategory in CATEGORIES && e.outcome in OUTCOMES && e.severity in SEVERITIES
  {
  }

  /** Known severities are kept, and the agent's own names are translated into known ones. */
  lemma SeveritiesMapped(s: string)
    ensures s in SEVERITIES ==> OneOf(MappedSeverity(s), SEVERITIES, "info") == s
    ensures s == "warn" ==> OneOf(MappedSeverity(s), SEVERITIES, "info") == "warning"
    ensures s == "error" ==> OneOf(MappedSeverity(s), SEVERITIES, "info") == "high"
  {
    if s in SEVERITIES { assert s[0] == 'd' || s[0] == 'i' || |s| == 7 || s[0] == 'h' || s[0] == 'c'; }
  }

  /** What the loop fills in and replaces, spelled out. */
  lemma FilledIn(t: Tools, ev: AgentEvent, now: Instant)
    ensures var e := Built(t, ev, now);
            && KnownWords(e)
            && (ev.occurredAt.None? || ev.occurredAt.value == "" || t.parseTime(ev.occurredAt.value).None? ==>
                  e.occurredAt == now)
            && (ev.occurredAt.Some? && ev.occurredAt.value != "" && t.parseTime(ev.occurredAt.value).Some? ==>
                  e.occurredAt == t.parseTime(ev.occurredAt.value).value)
            && e.originIp == (if ev.originIp.None? || ev.originIp.value == "" then None
                              else t.parseAddress(ev.originIp.value))
            && e.actorId == (if ev.actorId.None? || ev.actorId.value == "" then "agent"
                             else if |ev.actorId.value| > 256 then ev.actorId.value[..256] else ev.actorId.value)
            && e.metadata == (if ev.metadata.None? then NoMembers else ev.metadata.value)
  {
    BuiltIsSanitised(t, ev, now);
    WordsKnown(Built(t, ev, now));
  }

  predicate ActorWord(w: string) { w == "user" || w == "service_account" || w == "system" || w == "unknown" }

  predicate OutcomeWord(w: string) { w == "success" || w == "failure" || w == "denied" || w == "unknown" }

  predicate SeverityWord(w: string) {
    w == "debug" || w == "info" || w == "warning" || w == "high" || w == "critical"
  }

  predicate SeverityOf(s: string, r: string) {
    && (s == "warn" ==> r == "warning")
    && (s == "error" ==> r == "high")
    && (s != "warn" && s != "error" && !SeverityWord(s) ==> r == "info")
  }

  lemma DefaultSeverity(s: string, r: string)
    requires r == OneOf(MappedSeverity(s), SEVERITIES, "info")
    ensures SeverityOf(s, r)
  {
    SeveritiesMapped(s);
  }

  lemma AllowedWords(actorType: string, category: string, outcome: string)
    ensures actorType in ACTOR_TYPES <==> ActorWord(actorType)
    ensures category in CATEGORIES <==> KnownCategory(category)
    ensures outcome in OUTCOMES <==> OutcomeWord(outcome)
  {
  }

  /** Words that the schema does not know become the default ones, and the agent's names for severities the
      ledger's. */
  lemma DefaultWords(t: Tools, ev: AgentEvent, now: Instant) returns (e: Event)
    ensures e == Built(t, ev, now) && SeverityOf(ev.severity, e.severity)
    ensures ev.actorType.None? || !ActorWord(ev.actorType.value) ==> e.actorType == "system"
    ensures !KnownCategory(ev.eventCategory) ==> e.eventCategory == "system"
    ensures !OutcomeWord(ev.outcome) ==> e.outcome == "unknown"
  {
    e := Built(t, ev, now);
    DefaultSeverity(ev.severity, e.severity);
    AllowedWords(if ev.actorType.Some? then ev.actorType.value else "", ev.eventCategory, ev.outcome);
  }

  /** Words that the schema knows already are not altered. */
  lemma VocabularyKept(t: Tools, ev: AgentEvent, now: Instant)
    ensures var e := Built(t, ev, now);
            && (ev.actorType.Some? && ev.actorType.value in ACTOR_TYPES ==> e.actorType == ev.actorType.value)
            && (ev.eventCategory in CATEGORIES ==> e.eventCategory == ev.eventCategory)
            && (ev.outcome in OUTCOMES ==> e.outcome == ev.outcome)
            && (ev.severity in SEVERITIES ==> e.severity == ev.severity)
  {
    SeveritiesMapped(ev.severity);
  }

  lemma ActorIdKept(id: string)
    requires 1 <= |id| <= MAX_ACTOR_ID
    ensures ActorIdOf(Some(id)) == id
  {
    assert id != "";
  }

  /** Neither are a valid event type, an actor id of a valid length, and the metadata. */
  lemma ContentKept(t: Tools, ev: AgentEvent, now: Instant)
    requires KeepsNames(t.prepare) && ValidEventType(ev.eventType)
    requires ev.actorId.Some? && 1 <= |ev.actorId.value| <= MAX_ACTOR_ID && ev.metadata.Some?
    ensures Built(t, ev, now).eventType == ev.eventType && Some(Built(t, ev, now).actorId) == ev.actorId
    ensures Some(Built(t, ev, now).metadata) == ev.metadata
  {
    ValidUnchanged(t.prepare, ev.eventType);
    ActorIdKept(ev.actorId.value);
  }

  lemma NoKeysNotForbidden(lower: string -> string)
    ensures !ContainsForbidden(JObj(NoMembers), lower, FORBIDDEN_METADATA_KEYS)
  {
  }

  /** The sanitising leaves exactly these reasons to skip an event: an address that is none, an event type
      whose left part is too long, forbidden or oversized metadata, and a time outside the window. */
  lemma AcceptedIff(t: Tools, ev: AgentEvent, now: Instant)
    ensures Accepted(t, ev, now) <==>
              && (ev.originIp.Some? && ev.originIp.value != "" ==> t.parseAddress(ev.originIp.value).Some?)
              && |LeftPart(t.prepare, ev.eventType)| <= 126
              && (ev.metadata.Some? ==>
                    !HasRawContent(ev.metadata.value, t.checks.lower) &&
                    t.checks.size(ev.metadata.value) <= t.checks.maxBytes)
              && (ev.metadata.None? ==> t.checks.size(NoMembers) <= t.checks.maxBytes)
              && t.checks.inWindow(OccurredAt(t, ev, now))
  {
    BuiltIsSanitised(t, ev, now);
    NoKeysNotForbidden(t.checks.lower);
    SanitisedValidIff(t.prepare, ev.eventType);
    if ev.metadata.Some? { CleanDictIff(t.checks, ev.metadata.value); }
  }

  /** What the loop submits for an event, if anything. */
  type Submitter = (AgentEvent, Instant) -> Option<Submission>

  function SubmitterOf(t: Tools, sourceId: string, tenantId: string): Submitter {
    (ev: AgentEvent, now: Instant) =>
      if Accepted(t, ev, now) then Some(Submission(Built(t, ev, now), sourceId, tenantId, now)) else None
  }

  /** The accepted events of a batch, in order, with the clock readings of their turns. */
  function Submissions(submit: Submitter, events: seq<AgentEvent>, clock: nat -> Instant): seq<Submission>
    decreases |events|
  {
    if events == [] then []
    else
      var n := |events| - 1;
      var before := Submissions(submit, events[..n], clock);
      match submit(events[n], clock(n))
      case None => before
      case Some(s) => before + [s]
  }

  function Capped(events: seq<AgentEvent>): seq<AgentEvent> {
    if |events| <= MAX_EVENTS then events else events[..MAX_EVENTS]
  }

  lemma BuildMore(D: RowDigest, head: Head, rows: seq<Row>, subs: seq<Submission>, s: Submission)
    requires rows == Build(D, head, subs)
    ensures rows + [NextRow(D, HeadAfter(head, rows), s)] == Build(D, head, subs + [s])
    ensures HeadAfter(head, rows + [NextRow(D, HeadAfter(head, rows), s)])
            == TipOf(NextRow(D, HeadAfter(head, rows), s))
  {
    BuildStep(D, head, subs, s);
  }

  /** The loop over a batch: what is submitted is appended, the rest is passed over. */
  method IngestBatch(H: Digest, submit: Submitter, session: Session, batch: seq<AgentEvent>, clock: nat -> Instant)
    returns (ingested: nat)
    modifies session`added, session.head
    ensures var subs := Submissions(submit, batch, clock);
            var rows := Build(RowHashes(H), old(session.head.Value()), subs);
            && ingested == |subs|
            && session.added == old(session.added) + rows
            && session.head.Value() == HeadAfter(old(session.head.Value()), rows)
  {
    ghost var D, start, added := RowHashes(H), session.head.Value(), session.added;
    ghost var rows: seq<Row>, subs: seq<Submission> := [], [];
    ingested := 0;
    for i := 0 to |batch|
      invariant subs == Submissions(submit, batch[..i], clock) && ingested == |subs|
      invariant rows == Build(D, start, subs)
      invariant session.added == added + rows && session.head.Value() == HeadAfter(start, rows)
    {
      assert batch[..i + 1][..i] == batch[..i];
      match submit(batch[i], clock(i))
      case None =>
      case Some(s) =>
        BuildMore(D, start, rows, subs, s);
        var row := session.AppendEvent(H, s);
        rows, subs := rows + [row], subs + [s];
        ingested := ingested + 1;
    }
    assert batch[..|batch|] == batch;
  }

  /** Adds exactly the accepted ones of the first 500 events to the chain, in order, and counts them. */
  method AgentIngestEvents(H: Digest, t: Tools, session: Session, events: seq<AgentEvent>, clock: nat -> Instant,
                           sourceId: string, tenantId: string)
    returns (ingested: nat)
    modifies session`added, session.head
    ensures var first := if |events| <= 500 then events else events[..500];
            var subs := Submissions(SubmitterOf(t, sourceId, tenantId), first, clock);
            var rows := Build(RowHashes(H), old(session.head.Value()), subs);
            && ingested == |subs|
            && session.added == old(session.added) + rows
            && session.head.Value() == HeadAfter(old(session.head.Value()), rows)
            && forall r | r in rows :: Conforms(t.checks, r.event) && r.tenantId == tenantId && r.sourceId == sourceId
  {
    ghost var head := session.head.Value();
    ingested := IngestBatch(H, SubmitterOf(t, sourceId, tenantId), session, Capped(events), clock);
    RowsConform(H, t, head, Capped(events), clock, sourceId, tenantId);
  }

  /** These positions are, in ascending order, those of the events that are submitted, each with the clock
      reading of its turn. */
  ghost predicate Positions(submit: Submitter, events: seq<AgentEvent>, clock: nat -> Instant, subs: seq<Submission>,
                            at: seq<nat>)
  {
    && |at| == |subs|
    && (forall j, k | 0 <= j < k < |at| :: at[j] < at[k])
    && (forall i | 0 <= i < |events| :: i in at <==> submit(events[i], clock(i)).Some?)
    && forall j | 0 <= j < |at| :: at[j] < |events| && submit(events[at[j]], clock(at[j])) == Some(subs[j])
  }

  lemma PositionsMore(submit: Submitter, events: seq<AgentEvent>, clock: nat -> Instant, subs: seq<Submission>,
                      at: seq<nat>, ev: AgentEvent)
    requires Positions(submit, events, clock, subs, at)
    ensures var n := |events|;
            match submit(ev, clock(n))
            case None => Positions(submit, events + [ev], clock, subs, at)
            case Some(s) => Positions(submit, events + [ev], clock, subs + [s], at + [n])
  {
    assert forall k | 0 <= k < |at| :: at[k] in at;
  }

  lemma {:induction false} SubmissionsFrom(submit: Submitter, events: seq<AgentEvent>, clock: nat -> Instant)
    returns (at: seq<nat>)
    ensures Positions(submit, events, clock, Submissions(submit, events, clock), at)
    decreases |events|
  {
    if events == [] {
      at := [];
    } else {
      var n := |events| - 1;
      at := SubmissionsFrom(submit, events[..n], clock);
      PositionsMore(submit, events[..n], clock, Submissions(submit, events[..n], clock), at, events[n]);
      assert events == events[..n] + [events[n]];
      if submit(events[n], clock(n)).Some? { at := at + [n]; }
    }
  }

  /** Exactly the accepted events are submitted, in their order, each with the clock reading of its turn. */
  lemma SubmissionsAre(t: Tools, sourceId: string, tenantId: string, events: seq<AgentEvent>, clock: nat -> Instant)
    returns (at: seq<nat>, subs: seq<Submission>)
    ensures subs == Submissions(SubmitterOf(t, sourceId, tenantId), events, clock)
    ensures |at| == |subs| && forall j, k | 0 <= j < k < |at| :: at[j] < at[k]
    ensures forall i | 0 <= i < |events| :: i in at <==> Accepted(t, events[i], clock(i))
    ensures forall j | 0 <= j < |at| ::
              at[j] < |events| &&
              subs[j] == Submission(Built(t, events[at[j]], clock(at[j])), sourceId, tenantId, clock(at[j]))
  {
    var submit := SubmitterOf(t, sourceId, tenantId);
    subs := Submissions(submit, events, clock);
    at := SubmissionsFrom(submit, events, clock);
    forall i: nat, ev: AgentEvent
      ensures submit(ev, clock(i)) ==
                if Accepted(t, ev, clock(i)) then Some(Submission(Built(t, ev, clock(i)), sourceId, tenantId, clock(i)))
                else None
    {
    }
  }

  lemma {:induction false} SubmissionsValid(t: Tools, sourceId: string, tenantId: string, events: seq<AgentEvent>,
                                            clock: nat -> Instant)
    ensures var subs := Submissions(SubmitterOf(t, sourceId, tenantId), events, clock);
            forall s | s in subs ::
              ValidEvent(t.checks, s.event) && Conforms(t.checks, s.event) && s.sourceId == sourceId &&
              s.tenantId == tenantId
    decreases |events|
  {
    if events != [] {
      SubmissionsValid(t, sourceId, tenantId, events[..|events| - 1], clock);
      var subs := Submissions(SubmitterOf(t, sourceId, tenantId), events, clock);
      if subs != [] && ValidEvent(t.checks, subs[|subs| - 1].event) { ValidConforms(t.checks, subs[|subs| - 1].event); }
    }
  }

  /** The rows added for a batch. */
  lemma RowsConform(H: Digest, t: Tools, head: Head, events: seq<AgentEvent>, clock: nat -> Instant, sourceId: string,
                    tenantId: string)
    ensures var rows := Build(RowHashes(H), head, Submissions(SubmitterOf(t, sourceId, tenantId), events, clock));
            forall r | r in rows :: Conforms(t.checks, r.event) && r.tenantId == tenantId && r.sourceId == sourceId
  {
    SubmissionsValid(t, sourceId, tenantId, events, clock);
    RowHashesIgnoreStoredHash(H);
    BuildIsChain(RowHashes(H), head, Submissions(SubmitterOf(t, sourceId, tenantId), events, clock));
  }

  /** A ledger that verifies before a batch of an agent verifies after it, and every row added holds an
      event that passes the schema. */
  lemma IngestKeepsVerified(H: Digest, t: Tools, rows: seq<Row>, events: seq<AgentEvent>, clock: nat -> Instant,
                            sourceId: string, tenantId: string)
    requires Ascending(rows) && Clean(RowHashes(H), rows)
    ensures var subs := Submissions(SubmitterOf(t, sourceId, tenantId), Capped(events), clock);
            var more := Build(RowHashes(H), HeadAfter(GENESIS_HEAD, rows), subs);
            && Clean(RowHashes(H), rows + more)
            && forall r | r in more :: Conforms(t.checks, r.event) && r.tenantId == tenantId
  {
    var subs := Submissions(SubmitterOf(t, sourceId, tenantId), Capped(events), clock);
    AppendKeepsVerified(H, rows, subs);
    SubmissionsValid(t, sourceId, tenantId, Capped(events), clock);
    RowsConform(H, t, HeadAfter(GENESIS_HEAD, rows), Capped(events), clock, sourceId, tenantId);
  }
}
