/** EventCreate: the checks every event passes before it may reach the ledger. */
module EventSchema {
  import opened Text
  import opened Json
  import opened Hashing

  const ACTOR_TYPES: set<string> := {"user", "service_account", "system", "unknown"}
  const CATEGORIES: set<string> :=
    {"authentication", "authorization", "data_access", "data_modification", "configuration", "process_execution",
     "network", "financial_transaction", "administrative", "system"}
  const OUTCOMES: set<string> := {"success", "failure", "denied", "unknown"}
  const SEVERITIES: set<string> := {"debug", "info", "warning", "high", "critical"}

  const FORBIDDEN_METADATA_KEYS: set<string> :=
    {"keystrokes", "screen_capture", "screenshot", "raw_content", "message_body", "file_contents", "password",
     "clipboard"}

  const MAX_EVENT_TYPE: nat := 128
  const MAX_ACTOR_ID: nat := 256

  // ------------------------------------------------------- forbidden keys

  /** The recursive search through nested objects and lists; `lower` is str.lower. */
  predicate ContainsForbidden(j: Json, lower: string -> string, forbidden: set<string>) {
    match j
    case JObj(members) => MembersContain(members, lower, forbidden)
    case JArr(items) => ItemsContain(items, lower, forbidden)
    case _ => false
  }

  predicate MembersContain(members: Members, lower: string -> string, forbidden: set<string>) {
    match members
    case NoMembers => false
    case Member(key, value, rest) =>
      lower(key) in forbidden || ContainsForbidden(value, lower, forbidden) || MembersContain(rest, lower, forbidden)
  }

  predicate ItemsContain(items: Items, lower: string -> string, forbidden: set<string>) {
    match items
    case NoItems => false
    case Item(head, rest) => ContainsForbidden(head, lower, forbidden) || ItemsContain(rest, lower, forbidden)
  }

  /** The n-th item of a list, or the value of the n-th member of an object. */
  function Child(j: Json, n: nat): Option<Json> {
    match j
    case JObj(members) => MemberAt(members, n)
    case JArr(items) => ItemAt(items, n)
    case _ => None
  }

  function MemberAt(members: Members, n: nat): Option<Json> {
    match members
    case NoMembers => None
    case Member(_, value, rest) => if n == 0 then Some(value) else MemberAt(rest, n - 1)
  }

  function ItemAt(items: Items, n: nat): Option<Json> {
    match items
    case NoItems => None
    case Item(head, rest) => if n == 0 then Some(head) else ItemAt(rest, n - 1)
  }

  /** The value at the end of a path of positions. */
  function ValueAt(j: Json, path: seq<nat>): Option<Json>
    decreases |path|
  {
    if path == [] then Some(j)
    else
      match Child(j, path[0])
      case None => None
      case Some(c) => ValueAt(c, path[1..])
  }

  /** An object with a key whose lower-case form is forbidden. */
  predicate HasForbiddenKey(j: Json, lower: string -> string, forbidden: set<string>) {
    j.JObj? && exists k | k in Keys(j.members) :: lower(k) in forbidden
  }

  ghost predicate Reaches(j: Json, path: seq<nat>, lower: string -> string, forbidden: set<string>) {
    ValueAt(j, path).Some? && HasForbiddenKey(ValueAt(j, path).value, lower, forbidden)
  }

  lemma FirstStep(j: Json, n: nat, c: Json, path: seq<nat>)
    requires Child(j, n) == Some(c)
    ensures ValueAt(j, [n] + path) == ValueAt(c, path)
  {
    assert ([n] + path)[1..] == path;
  }

  /** If the search says yes, there is a path to an object with a forbidden key. */
  lemma {:induction false} FoundHasPath(j: Json, lower: string -> string, forbidden: set<string>)
    returns (path: seq<nat>)
    requires ContainsForbidden(j, lower, forbidden)
    ensures Reaches(j, path, lower, forbidden)
    decreases j
  {
    match j
    case JObj(members) =>
      if HasForbiddenKey(j, lower, forbidden) {
        path := [];
      } else {
        var n, c := MemberFound(members, lower, forbidden);
        var more := FoundHasPath(c, lower, forbidden);
        FirstStep(j, n, c, more);
        path := [n] + more;
      }
    case JArr(items) =>
      var n, c := ItemFound(items, lower, forbidden);
      var more := FoundHasPath(c, lower, forbidden);
      FirstStep(j, n, c, more);
      path := [n] + more;
  }

  lemma {:induction false} MemberFound(members: Members, lower: string -> string, forbidden: set<string>)
    returns (n: nat, c: Json)
    requires MembersContain(members, lower, forbidden) && forall k | k in Keys(members) :: lower(k) !in forbidden
    ensures MemberAt(members, n) == Some(c) && c < members && ContainsForbidden(c, lower, forbidden)
    decreases members
  {
    if ContainsForbidden(members.value, lower, forbidden) {
      n, c := 0, members.value;
    } else {
      n, c := MemberFound(members.rest, lower, forbidden);
      n := n + 1;
    }
  }

  lemma {:induction false} ItemFound(items: Items, lower: string -> string, forbidden: set<string>)
    returns (n: nat, c: Json)
    requires ItemsContain(items, lower, forbidden)
    ensures ItemAt(items, n) == Some(c) && c < items && ContainsForbidden(c, lower, forbidden)
    decreases items
  {
    if ContainsForbidden(items.head, lower, forbidden) {
      n, c := 0, items.head;
    } else {
      n, c := ItemFound(items.rest, lower, forbidden);
      n := n + 1;
    }
  }

  lemma {:induction false} KeyIsFound(members: Members, k: string, lower: string -> string, forbidden: set<string>)
    requires k in Keys(members) && lower(k) in forbidden
    ensures MembersContain(members, lower, forbidden)
    decreases members
  {
    if k != members.key { KeyIsFound(members.rest, k, lower, forbidden); }
  }

  lemma {:induction false} MemberIsFound(members: Members, n: nat, lower: string -> string, forbidden: set<string>)
    requires MemberAt(members, n).Some? && ContainsForbidden(MemberAt(members, n).value, lower, forbidden)
    ensures MembersContain(members, lower, forbidden)
    decreases members
  {
    if n > 0 { MemberIsFound(members.rest, n - 1, lower, forbidden); }
  }

  lemma {:induction false} ItemIsFound(items: Items, n: nat, lower: string -> string, forbidden: set<string>)
    requires ItemAt(items, n).Some? && ContainsForbidden(ItemAt(items, n).value, lower, forbidden)
    ensures ItemsContain(items, lower, forbidden)
    decreases items
  {
    if n > 0 { ItemIsFound(items.rest, n - 1, lower, forbidden); }
  }

  lemma {:induction false} PathIsFound(j: Json, path: seq<nat>, lower: string -> string, forbidden: set<string>)
    requires Reaches(j, path, lower, forbidden)
    ensures ContainsForbidden(j, lower, forbidden)
    decreases |path|
  {
    if path == [] {
      var k :| k in Keys(j.members) && lower(k) in forbidden;
      KeyIsFound(j.members, k, lower, forbidden);
    } else {
      PathIsFound(Child(j, path[0]).value, path[1..], lower, forbidden);
      match j
      case JObj(members) => MemberIsFound(members, path[0], lower, forbidden);
      case JArr(items) => ItemIsFound(items, path[0], lower, forbidden);
      case _ =>
    }
  }

  /** The search says yes exactly when some path through nested objects and lists reaches an object with a
      key whose lower-case form is forbidden. */
  lemma ForbiddenIffReachable(j: Json, lower: string -> string, forbidden: set<string>)
    ensures ContainsForbidden(j, lower, forbidden) <==> exists path :: Reaches(j, path, lower, forbidden)
  {
    if ContainsForbidden(j, lower, forbidden) {
      var path := FoundHasPath(j, lower, forbidden);
    }
    forall path | Reaches(j, path, lower, forbidden) ensures ContainsForbidden(j, lower, forbidden) {
      PathIsFound(j, path, lower, forbidden);
    }
  }

  // ------------------------------------------------------------ event types

  predicate NameChar(c: char) { 'a' <= c <= 'z' || '0' <= c <= '9' || c == '_' }

  predicate AllNameChars(s: string) { forall c | c in s :: NameChar(c) }

  /** ^[a-z0-9_]+\.[a-z0-9_]+$ with the dot at position k. */
  predicate DotAt(s: string, k: nat) {
    0 < k < |s| - 1 && s[k] == '.' && AllNameChars(s[..k]) && AllNameChars(s[k + 1..])
  }

  predicate ValidEventType(s: string) { |s| <= MAX_EVENT_TYPE && exists k | 0 <= k < |s| :: DotAt(s, k) }

  // ------------------------------------------------------------- the schema

  /** What the checks use of the libraries, the clock and the settings: str.lower, the size of a dumped
      dictionary in bytes against its limit, and the window that occurred_at must lie in. */
  datatype Checks = Checks(lower: string -> string, size: Dict -> nat, maxBytes: nat, inWindow: Instant -> bool)

  predicate CleanDict(c: Checks, d: Dict) {
    !ContainsForbidden(JObj(d), c.lower, FORBIDDEN_METADATA_KEYS) && c.size(d) <= c.maxBytes
  }

  predicate Fits(s: Option<string>, max: nat) { s.Some? ==> |s.value| <= max }

  /** Every constraint of EventCreate; an origin_ip is an address by its type. */
  predicate ValidEvent(c: Checks, e: Event) {
    && e.actorType in ACTOR_TYPES
    && 1 <= |e.actorId| <= MAX_ACTOR_ID
    && Fits(e.actorDisplayName, 256)
    && ValidEventType(e.eventType)
    && e.eventCategory in CATEGORIES
    && e.outcome in OUTCOMES
    && e.severity in SEVERITIES
    && Fits(e.originHost, 255)
    && Fits(e.originApplication, 255)
    && Fits(e.targetType, 128)
    && Fits(e.targetId, 512)
    && (e.changeSummary.Some? ==> CleanDict(c, e.changeSummary.value))
    && CleanDict(c, e.metadata)
    && c.inWindow(e.occurredAt)
  }

  // --------------------------------------------- what a valid event is, spelled out

  predicate RawContentWord(w: string) {
    w == "keystrokes" || w == "screen_capture" || w == "screenshot" || w == "raw_content" ||
    w == "message_body" || w == "file_contents" || w == "password" || w == "clipboard"
  }

  /** Along this path through nested objects and lists lies an object with a key that is, in lower case, one of
      the eight words. */
  ghost predicate NamesRawContent(j: Json, path: seq<nat>, lower: string -> string) {
    && ValueAt(j, path).Some? && ValueAt(j, path).value.JObj?
    && exists k | k in Keys(ValueAt(j, path).value.members) :: RawContentWord(lower(k))
  }

  ghost predicate HasRawContent(d: Dict, lower: string -> string) {
    exists path :: NamesRawContent(JObj(d), path, lower)
  }

  lemma ForbiddenWords(w: string, forbidden: set<string>)
    requires forbidden == FORBIDDEN_METADATA_KEYS
    ensures w in forbidden <==> RawContentWord(w)
  {
  }

  lemma CleanDictIff(c: Checks, d: Dict)
    ensures CleanDict(c, d) <==> !HasRawContent(d, c.lower) && c.size(d) <= c.maxBytes
  {
    var forbidden := FORBIDDEN_METADATA_KEYS;
    ForbiddenIffReachable(JObj(d), c.lower, forbidden);
    ReachesWords(JObj(d), c.lower, forbidden);
  }

  lemma ReachesWords(j: Json, lower: string -> string, forbidden: set<string>)
    requires forall w :: w in forbidden <==> RawContentWord(w)
    ensures (exists path :: Reaches(j, path, lower, forbidden)) <==> exists path :: NamesRawContent(j, path, lower)
  {
    forall path ensures Reaches(j, path, lower, forbidden) <==> NamesRawContent(j, path, lower) {}
  }

  /** The vocabulary of an event. */
  predicate KnownWords(e: Event) {
    && (e.actorType == "user" || e.actorType == "service_account" || e.actorType == "system" ||
        e.actorType == "unknown")
    && (e.outcome == "success" || e.outcome == "failure" || e.outcome == "denied" || e.outcome == "unknown")
    && (e.severity == "debug" || e.severity == "info" || e.severity == "warning" || e.severity == "high" ||
        e.severity == "critical")
    && KnownCategory(e.eventCategory)
  }

  predicate KnownCategory(c: string) {
    c == "authentication" || c == "authorization" || c == "data_access" || c == "data_modification" ||
    c == "configuration" || c == "process_execution" || c == "network" || c == "financial_transaction" ||
    c == "administrative" || c == "system"
  }

  /** Two names of lower-case letters, digits and underscores with one dot between them, 128 characters at
      most. */
  ghost predicate TypePattern(s: string) {
    |s| <= 128 && exists left: string, right: string ::
      s == left + "." + right && left != "" && right != "" && AllNameChars(left) && AllNameChars(right)
  }

  lemma ValidEventTypeIff(s: string)
    ensures ValidEventType(s) <==> TypePattern(s)
  {
    if ValidEventType(s) {
      var k :| 0 <= k < |s| && DotAt(s, k);
      assert s == s[..k] + "." + s[k + 1..];
    }
    if TypePattern(s) {
      var left: string, right: string :|
        s == left + "." + right && left != "" && right != "" && AllNameChars(left) && AllNameChars(right);
      assert s[..|left|] == left && s[|left| + 1..] == right;
      assert DotAt(s, |left|);
    }
  }

  /** Everything an agent's event must be to reach the ledger: no raw content at any depth, no oversized
      metadata, known words, a type of the right form, and a time in the window. */
  ghost predicate Conforms(c: Checks, e: Event) {
    && !HasRawContent(e.metadata, c.lower) && c.size(e.metadata) <= c.maxBytes
    && (e.changeSummary.Some? ==>
          !HasRawContent(e.changeSummary.value, c.lower) && c.size(e.changeSummary.value) <= c.maxBytes)
    && Fits(e.actorDisplayName, 256) && Fits(e.originHost, 255) && Fits(e.originApplication, 255)
    && Fits(e.targetType, 128) && Fits(e.targetId, 512)
    && KnownWords(e) && TypePattern(e.eventType) && 1 <= |e.actorId| <= 256 && c.inWindow(e.occurredAt)
  }

  lemma WordsKnown(e: Event)
    ensures KnownWords(e)
       <==> (e.actorType in ACTOR_TYPES && e.outcome in OUTCOMES && e.severity in SEVERITIES &&
             e.eventCategory in CATEGORIES)
  {
  }

  lemma ValidConforms(c: Checks, e: Event)
    requires ValidEvent(c, e)
    ensures Conforms(c, e)
  {
    CleanDictIff(c, e.metadata);
    if e.changeSummary.Some? { CleanDictIff(c, e.changeSummary.value); }
    ValidEventTypeIff(e.eventType);
    WordsKnown(e);
  }
}
