/** The hash contract of the ledger: which columns of a row are hashed, and as what text.
    SHA-256 is a function parameter of everything that hashes. */
module Hashing {
  import opened Text
  import opened Json

  /** SHA-256 hex digest of the UTF-8 bytes of a text. */
  type Digest = string -> string

  /** 64 zeros: the predecessor hash of the first row. */
  const GENESIS_HASH: string := "0000000000000000000000000000000000000000000000000000000000000000"

  /** A Python dict with string keys, in insertion order. */
  type Dict = m: Members | DistinctMembers(m) witness NoMembers

  datatype Utc = Utc(year: nat, month: nat, day: nat, hour: nat, minute: nat, second: nat, micro: nat) {
    predicate Valid() {
      1 <= year <= 9999 && 1 <= month <= 12 && 1 <= day <= 31 &&
      hour < 24 && minute < 60 && second < 60 && micro < 1000000
    }
  }

  /** A timezone-aware datetime in UTC. */
  type Instant = u: Utc | u.Valid() witness Utc(1970, 1, 1, 0, 0, 0, 0)

  function DateText(t: Instant): (s: string)
    ensures |s| == 10
  {
    Padded(t.year, 4) + "-" + Padded(t.month, 2) + "-" + Padded(t.day, 2)
  }

  function TimeText(t: Instant): (s: string)
    ensures |s| == 8
  {
    Padded(t.hour, 2) + ":" + Padded(t.minute, 2) + ":" + Padded(t.second, 2)
  }

  /** datetime.isoformat() in UTC: the fraction appears only when it is not zero. */
  function Iso(t: Instant): string {
    DateText(t) + "T" + TimeText(t) + (if t.micro == 0 then "" else "." + Padded(t.micro, 6)) + "+00:00"
  }

  /** A validated event as a source submits it. */
  datatype Event = Event(
    occurredAt: Instant,
    actorType: string,
    actorId: string,
    actorDisplayName: Option<string>,
    eventType: string,
    eventCategory: string,
    outcome: string,
    severity: string,
    originHost: Option<string>,
    originIp: Option<string>,
    originApplication: Option<string>,
    targetType: Option<string>,
    targetId: Option<string>,
    changeSummary: Option<Dict>,
    metadata: Dict)

  /** A row of ledger.events. */
  datatype Row = Row(
    sequenceNum: int,
    tenantId: string,
    sourceId: string,
    event: Event,
    receivedAt: Instant,
    prevHash: string,
    recordHash: string)

  // -------------------------------------------------------------- payload

  type Pairs = seq<(string, Json)>

  function FromPairs(pairs: Pairs): Members {
    if pairs == [] then NoMembers else Member(pairs[0].0, pairs[0].1, FromPairs(pairs[1..]))
  }

  function OptionalString(s: Option<string>): Json {
    match s
    case None => JNull
    case Some(t) => JStr(t)
  }

  function OptionalDict(d: Option<Dict>): Json {
    match d
    case None => JNull
    case Some(m) => JObj(m)
  }

  /** build_canonical_payload, in the documented order of its fields. */
  function CanonicalPairs(sequenceNum: int, tenantId: string, sourceId: string, e: Event, prevHash: string): Pairs {
    [ ("sequence_num", JInt(sequenceNum)),
      ("tenant_id", JStr(tenantId)),
      ("source_id", JStr(sourceId)),
      ("actor_type", JStr(e.actorType)),
      ("actor_id", JStr(e.actorId)),
      ("event_type", JStr(e.eventType)),
      ("event_category", JStr(e.eventCategory)),
      ("outcome", JStr(e.outcome)),
      ("occurred_at", JStr(Iso(e.occurredAt))),
      ("target_type", OptionalString(e.targetType)),
      ("target_id", OptionalString(e.targetId)),
      ("change_summary", OptionalDict(e.changeSummary)),
      ("metadata", JObj(e.metadata)),
      ("prev_hash", JStr(prevHash)) ]
  }

  function CanonicalText(sequenceNum: int, tenantId: string, sourceId: string, e: Event, prevHash: string): string {
    Dumps(JObj(FromPairs(CanonicalPairs(sequenceNum, tenantId, sourceId, e, prevHash))))
  }

  function RowPairs(row: Row): (p: Pairs)
    ensures |p| == 14
  {
    CanonicalPairs(row.sequenceNum, row.tenantId, row.sourceId, row.event, row.prevHash)
  }

  /** The text a verifier hashes for a stored row. */
  function RowText(row: Row): string {
    CanonicalText(row.sequenceNum, row.tenantId, row.sourceId, row.event, row.prevHash)
  }

  /** Recomputes a record hash from the columns of a row. */
  type RowDigest = Row -> string

  /** compute_record_hash of a row's own columns. */
  function RowHashes(H: Digest): RowDigest { row => H(RowText(row)) }

  // --------------------------------------------------- what the text determines

  ghost predicate SameDict(a: Dict, b: Dict) { MembersMeaning(a) == MembersMeaning(b) }

  ghost predicate SameOptionalDict(a: Option<Dict>, b: Option<Dict>) {
    a.Some? == b.Some? && (a.Some? ==> SameDict(a.value, b.value))
  }

  /** Two rows agree on every hashed column; dictionaries are compared as dictionaries. */
  ghost predicate SameContent(a: Row, b: Row) {
    && a.sequenceNum == b.sequenceNum
    && a.tenantId == b.tenantId
    && a.sourceId == b.sourceId
    && a.event.actorType == b.event.actorType
    && a.event.actorId == b.event.actorId
    && a.event.eventType == b.event.eventType
    && a.event.eventCategory == b.event.eventCategory
    && a.event.outcome == b.event.outcome
    && a.event.occurredAt == b.event.occurredAt
    && a.event.targetType == b.event.targetType
    && a.event.targetId == b.event.targetId
    && SameOptionalDict(a.event.changeSummary, b.event.changeSummary)
    && SameDict(a.event.metadata, b.event.metadata)
    && a.prevHash == b.prevHash
  }

  predicate DigitsOf(s: string, n: nat) { AllDigits(s) && NumberOf(s) == n }

  lemma DateParts(t: Instant)
    ensures DateText(t)[..4] == Padded(t.year, 4) && DateText(t)[4] == '-' && DateText(t)[5..7] == Padded(t.month, 2)
    ensures DateText(t)[7] == '-' && DateText(t)[8..] == Padded(t.day, 2)
    ensures DigitsOf(Padded(t.year, 4), t.year) && DigitsOf(Padded(t.month, 2), t.month)
    ensures DigitsOf(Padded(t.day, 2), t.day)
  {
    assert Power10(2) == 100 && Power10(4) == 10000;
  }

  lemma TimeParts(t: Instant)
    ensures TimeText(t)[..2] == Padded(t.hour, 2) && TimeText(t)[2] == ':' && TimeText(t)[3..5] == Padded(t.minute, 2)
    ensures TimeText(t)[5] == ':' && TimeText(t)[6..] == Padded(t.second, 2)
    ensures DigitsOf(Padded(t.hour, 2), t.hour) && DigitsOf(Padded(t.minute, 2), t.minute)
    ensures DigitsOf(Padded(t.second, 2), t.second)
  {
    assert Power10(2) == 100;
  }

  lemma IsoParts(t: Instant)
    ensures |Iso(t)| == if t.micro == 0 then 25 else 32
    ensures Iso(t)[..10] == DateText(t) && Iso(t)[10] == 'T' && Iso(t)[11..19] == TimeText(t)
    ensures Iso(t)[|Iso(t)| - 6..] == "+00:00"
    ensures t.micro != 0 ==> Iso(t)[19] == '.' && Iso(t)[20..26] == Padded(t.micro, 6)
    ensures DigitsOf(Padded(t.micro, 6), t.micro)
  {
    assert Power10(6) == 100 * Power10(4) && Power10(4) == 10000;
  }

  lemma IsoInjective(a: Instant, b: Instant)
    requires Iso(a) == Iso(b)
    ensures a == b
  {
    IsoParts(a);
    IsoParts(b);
    DateParts(a);
    DateParts(b);
    TimeParts(a);
    TimeParts(b);
  }

  predicate SameNames(p: Pairs, q: Pairs) {
    |p| == |q| && forall i | 0 <= i < |p| :: p[i].0 == q[i].0
  }

  predicate SameKeys(a: Members, b: Members) {
    (a.NoMembers? && b.NoMembers?) || (a.Member? && b.Member? && a.key == b.key && SameKeys(a.rest, b.rest))
  }

  lemma {:induction false} InsertInjective(key: string, v: Json, w: Json, a: Members, b: Members)
    requires SameKeys(a, b)
    ensures SameKeys(Insert(key, v, a), Insert(key, w, b))
    ensures Insert(key, v, a) == Insert(key, w, b) ==> v == w && a == b
  {
    if a.Member? && Less(a.key, key) { InsertInjective(key, v, w, a.rest, b.rest); }
  }

  /** Objects with the same names in the same order sort alike exactly when their values do. */
  lemma {:induction false} PairsSorted(p: Pairs, q: Pairs)
    requires SameNames(p, q)
    ensures SameKeys(SortedMembers(FromPairs(p)), SortedMembers(FromPairs(q)))
    ensures SortedMembers(FromPairs(p)) == SortedMembers(FromPairs(q)) <==> SameColumns(p, q)
  {
    if p != [] {
      var a, b := SortedMembers(FromPairs(p[1..])), SortedMembers(FromPairs(q[1..]));
      PairsSorted(p[1..], q[1..]);
      InsertInjective(p[0].0, Sorted(p[0].1), Sorted(q[0].1), a, b);
      assert forall i | 1 <= i < |p| :: p[1..][i - 1] == p[i] && q[1..][i - 1] == q[i];
    }
  }

  lemma SortedDict(a: Dict, b: Dict)
    ensures Sorted(JObj(a)) == Sorted(JObj(b)) <==> SameDict(a, b)
  {
    DumpsCanonical(JObj(a), JObj(b));
  }

  predicate SameColumns(p: Pairs, q: Pairs)
    requires |p| == |q|
  {
    forall i | 0 <= i < |p| :: Sorted(p[i].1) == Sorted(q[i].1)
  }

  lemma RowPairsSameNames(a: Row, b: Row)
    ensures SameNames(RowPairs(a), RowPairs(b))
  {
  }

  lemma SameContentSameColumns(a: Row, b: Row)
    requires SameContent(a, b)
    ensures SameColumns(RowPairs(a), RowPairs(b))
  {
    SortedDict(a.event.metadata, b.event.metadata);
    if a.event.changeSummary.Some? {
      SortedDict(a.event.changeSummary.value, b.event.changeSummary.value);
    }
  }

  lemma SortedOptional(a: Option<string>, b: Option<string>)
    requires Sorted(OptionalString(a)) == Sorted(OptionalString(b))
    ensures a == b
  {
  }

  lemma SortedOptionalDict(a: Option<Dict>, b: Option<Dict>)
    requires Sorted(OptionalDict(a)) == Sorted(OptionalDict(b))
    ensures SameOptionalDict(a, b)
  {
    if a.Some? && b.Some? { SortedDict(a.value, b.value); }
  }

  lemma SamePlainColumns(a: Row, b: Row)
    requires SameColumns(RowPairs(a), RowPairs(b))
    ensures a.sequenceNum == b.sequenceNum && a.tenantId == b.tenantId && a.sourceId == b.sourceId
    ensures a.event.actorType == b.event.actorType && a.event.actorId == b.event.actorId
    ensures a.event.eventType == b.event.eventType && a.event.eventCategory == b.event.eventCategory
    ensures a.event.outcome == b.event.outcome && a.prevHash == b.prevHash
    ensures Iso(a.event.occurredAt) == Iso(b.event.occurredAt)
  {
    var p, q := RowPairs(a), RowPairs(b);
    assert Sorted(p[0].1) == Sorted(q[0].1) && Sorted(p[1].1) == Sorted(q[1].1) && Sorted(p[2].1) == Sorted(q[2].1);
    assert Sorted(p[3].1) == Sorted(q[3].1) && Sorted(p[4].1) == Sorted(q[4].1) && Sorted(p[5].1) == Sorted(q[5].1);
    assert Sorted(p[6].1) == Sorted(q[6].1) && Sorted(p[7].1) == Sorted(q[7].1) && Sorted(p[13].1) == Sorted(q[13].1);
    assert Sorted(p[8].1) == Sorted(q[8].1);
  }

  lemma SameNestedColumns(a: Row, b: Row)
    requires SameColumns(RowPairs(a), RowPairs(b))
    ensures a.event.targetType == b.event.targetType && a.event.targetId == b.event.targetId
    ensures SameOptionalDict(a.event.changeSummary, b.event.changeSummary)
    ensures SameDict(a.event.metadata, b.event.metadata)
  {
    var p, q := RowPairs(a), RowPairs(b);
    assert Sorted(p[9].1) == Sorted(q[9].1) && Sorted(p[10].1) == Sorted(q[10].1);
    assert Sorted(p[11].1) == Sorted(q[11].1) && Sorted(p[12].1) == Sorted(q[12].1);
    SortedOptional(a.event.targetType, b.event.targetType);
    SortedOptional(a.event.targetId, b.event.targetId);
    SortedOptionalDict(a.event.changeSummary, b.event.changeSummary);
    SortedDict(a.event.metadata, b.event.metadata);
  }

  lemma SameColumnsSameContent(a: Row, b: Row)
    requires SameColumns(RowPairs(a), RowPairs(b))
    ensures SameContent(a, b)
  {
    SamePlainColumns(a, b);
    SameNestedColumns(a, b);
    IsoInjective(a.event.occurredAt, b.event.occurredAt);
  }

  lemma DumpsEqualSorted(a: Json, b: Json)
    ensures Dumps(a) == Dumps(b) <==> Sorted(a) == Sorted(b)
  {
    DumpsRoundTrip(a);
    DumpsRoundTrip(b);
  }

  /** The hashed text determines every hashed column, and nothing else of the row: neither the
      order of dictionary keys nor any other column can change it. */
  lemma TextDeterminesContent(a: Row, b: Row)
    ensures RowText(a) == RowText(b) <==> SameContent(a, b)
  {
    RowPairsSameNames(a, b);
    PairsSorted(RowPairs(a), RowPairs(b));
    DumpsEqualSorted(JObj(FromPairs(RowPairs(a))), JObj(FromPairs(RowPairs(b))));
    if SameContent(a, b) { SameContentSameColumns(a, b); }
    if SameColumns(RowPairs(a), RowPairs(b)) { SameColumnsSameContent(a, b); }
  }

  // ------------------------------------------------ what the text says

  ghost predicate DistinctNames(p: Pairs) { forall i, j | 0 <= i < j < |p| :: p[i].0 != p[j].0 }

  lemma DistinctTail(p: Pairs)
    requires DistinctNames(p) && p != []
    ensures DistinctNames(p[1..]) && forall i | 0 <= i < |p[1..]| :: p[1..][i].0 != p[0].0
  {
  }

  lemma {:induction false} NotAKey(p: Pairs, k: string)
    requires forall i | 0 <= i < |p| :: p[i].0 != k
    ensures k !in Keys(FromPairs(p)) && k !in MembersMeaning(FromPairs(p))
  {
    if p != [] { NotAKey(p[1..], k); }
  }

  lemma {:induction false} PairMeaning(p: Pairs, i: nat)
    requires DistinctNames(p) && i < |p|
    ensures p[i].0 in MembersMeaning(FromPairs(p)) && MembersMeaning(FromPairs(p))[p[i].0] == Meaning(p[i].1)
  {
    if i > 0 {
      DistinctTail(p);
      PairMeaning(p[1..], i - 1);
    }
  }

  /** An object made of pairs with distinct names has as many entries as there are pairs. */
  lemma {:induction false} PairsSize(p: Pairs)
    requires DistinctNames(p) && forall i | 0 <= i < |p| :: Distinct(p[i].1)
    ensures DistinctMembers(FromPairs(p)) && |MembersMeaning(FromPairs(p))| == |p|
  {
    if p != [] {
      DistinctTail(p);
      NotAKey(p[1..], p[0].0);
      PairsSize(p[1..]);
    }
  }

  /** Tells the fourteen names apart, by length, first and third letter. */
  function Place(length: int, first: char, third: char): int {
    if length == 12 then 0
    else if length == 9 then (if first == 's' then 2 else if first == 'p' then 13 else if third == 'n' then 1 else 10)
    else if length == 10 then (if first == 'a' then 3 else 5)
    else if length == 8 then (if first == 'a' then 4 else 12)
    else if length == 14 then (if first == 'e' then 6 else 11)
    else if length == 7 then 7
    else if first == 'o' then 8 else 9
  }

  predicate PlacedAt(name: string, i: int) { |name| >= 3 && Place(|name|, name[0], name[2]) == i }

  lemma RowNamesPlaced(row: Row)
    ensures forall i | 0 <= i < 14 :: PlacedAt(RowPairs(row)[i].0, i)
  {
    var p := RowPairs(row);
    assert PlacedAt(p[0].0, 0) && PlacedAt(p[1].0, 1) && PlacedAt(p[2].0, 2) && PlacedAt(p[3].0, 3);
    assert PlacedAt(p[4].0, 4) && PlacedAt(p[5].0, 5) && PlacedAt(p[6].0, 6) && PlacedAt(p[7].0, 7);
    assert PlacedAt(p[8].0, 8) && PlacedAt(p[9].0, 9) && PlacedAt(p[10].0, 10) && PlacedAt(p[11].0, 11);
    assert PlacedAt(p[12].0, 12) && PlacedAt(p[13].0, 13);
  }

  lemma PlacedDistinct(p: Pairs)
    requires forall i | 0 <= i < |p| :: PlacedAt(p[i].0, i)
    ensures DistinctNames(p)
  {
    forall i, j | 0 <= i < j < |p| ensures p[i].0 != p[j].0 {
      assert PlacedAt(p[i].0, i) && PlacedAt(p[j].0, j);
    }
  }

  function TextOrNull(s: Option<string>): Value {
    match s
    case None => VNull
    case Some(t) => VStr(t)
  }

  function DictOrNull(d: Option<Dict>): Value {
    match d
    case None => VNull
    case Some(m) => VDict(MembersMeaning(m))
  }

  ghost predicate Maps(dict: map<string, Value>, name: string, v: Value) { name in dict && dict[name] == v }

  ghost predicate CarriesPlainColumns(dict: map<string, Value>, row: Row) {
    && Maps(dict, "sequence_num", VInt(row.sequenceNum))
    && Maps(dict, "tenant_id", VStr(row.tenantId))
    && Maps(dict, "source_id", VStr(row.sourceId))
    && Maps(dict, "actor_type", VStr(row.event.actorType))
    && Maps(dict, "actor_id", VStr(row.event.actorId))
    && Maps(dict, "event_type", VStr(row.event.eventType))
    && Maps(dict, "event_category", VStr(row.event.eventCategory))
  }

  ghost predicate CarriesOtherColumns(dict: map<string, Value>, row: Row) {
    && Maps(dict, "outcome", VStr(row.event.outcome))
    && Maps(dict, "occurred_at", VStr(Iso(row.event.occurredAt)))
    && Maps(dict, "target_type", TextOrNull(row.event.targetType))
    && Maps(dict, "target_id", TextOrNull(row.event.targetId))
    && Maps(dict, "change_summary", DictOrNull(row.event.changeSummary))
    && Maps(dict, "metadata", VDict(MembersMeaning(row.event.metadata)))
    && Maps(dict, "prev_hash", VStr(row.prevHash))
  }

  ghost predicate MapsPair(dict: map<string, Value>, pair: (string, Json)) { Maps(dict, pair.0, Meaning(pair.1)) }

  lemma PlainColumnsCarried(row: Row, p: Pairs, dict: map<string, Value>)
    requires p == RowPairs(row) && forall i | 0 <= i < 14 :: MapsPair(dict, p[i])
    ensures CarriesPlainColumns(dict, row)
  {
    assert MapsPair(dict, p[0]) && MapsPair(dict, p[1]) && MapsPair(dict, p[2]) && MapsPair(dict, p[3]);
    assert MapsPair(dict, p[4]) && MapsPair(dict, p[5]) && MapsPair(dict, p[6]);
  }

  lemma OtherColumnsCarried(row: Row, p: Pairs, dict: map<string, Value>)
    requires p == RowPairs(row) && forall i | 0 <= i < 14 :: MapsPair(dict, p[i])
    ensures CarriesOtherColumns(dict, row)
  {
    assert MapsPair(dict, p[7]) && MapsPair(dict, p[8]) && MapsPair(dict, p[9]) && MapsPair(dict, p[10]);
    assert MapsPair(dict, p[11]) && MapsPair(dict, p[12]) && MapsPair(dict, p[13]);
  }

  /** The hashed text of a row, read back whole, has its keys sorted and is the dictionary of the row's
      fourteen columns under their own names, and no other. */
  lemma TextSaysColumns(row: Row) returns (j: Json)
    ensures ParseValue(RowText(row)) == Some((j, ""))
    ensures Canonical(j) && Meaning(j).VDict? && |Meaning(j).dict| == 14
    ensures CarriesPlainColumns(Meaning(j).dict, row) && CarriesOtherColumns(Meaning(j).dict, row)
  {
    var p := RowPairs(row);
    RowNamesPlaced(row);
    PlacedDistinct(p);
    assert forall i | 0 <= i < 14 :: Distinct(p[i].1);
    PairsSize(p);
    forall i | 0 <= i < 14 ensures MapsPair(MembersMeaning(FromPairs(p)), p[i]) {
      PairMeaning(p, i);
    }
    var payload := JObj(FromPairs(p));
    j := Sorted(payload);
    DumpsRoundTrip(payload);
    SortedKeepsMeaning(payload);
    PlainColumnsCarried(row, p, MembersMeaning(FromPairs(p)));
    OtherColumnsCarried(row, p, MembersMeaning(FromPairs(p)));
  }

  /** The text of a time: a date, a time of day, microseconds if there are any, and the offset of UTC, every
      number in a fixed number of digits. */
  predicate SaysTime(s: string, t: Utc) {
    && |s| == (if t.micro == 0 then 25 else 32)
    && s[4] == '-' && s[7] == '-' && s[10] == 'T' && s[13] == ':' && s[16] == ':' && s[|s| - 6..] == "+00:00"
    && DigitsOf(s[..4], t.year) && DigitsOf(s[5..7], t.month) && DigitsOf(s[8..10], t.day)
    && DigitsOf(s[11..13], t.hour) && DigitsOf(s[14..16], t.minute) && DigitsOf(s[17..19], t.second)
    && (t.micro != 0 ==> s[19] == '.' && DigitsOf(s[20..26], t.micro))
  }

  ghost predicate LiesAt(s: string, from: nat, part: string) {
    from + |part| <= |s| && forall k | 0 <= k < |part| :: s[from + k] == part[k]
  }

  lemma SubSlice(s: string, from: nat, part: string, i: nat, j: nat)
    requires LiesAt(s, from, part) && i <= j <= |part|
    ensures s[from + i..from + j] == part[i..j]
  {
    forall k | 0 <= k < j - i ensures s[from + i..from + j][k] == part[i..j][k] {
      assert s[from + (i + k)] == part[i + k];
    }
  }

  lemma LaidOut(s: string, d: string, c: string, f: string)
    requires |d| == 10 && |c| == 8 && s == d + "T" + c + f
    ensures |s| == 19 + |f| && LiesAt(s, 0, d) && s[10] == 'T' && LiesAt(s, 11, c) && LiesAt(s, 19, f)
  {
  }

  lemma PartsSayTime(s: string, d: string, c: string, f: string, t: Utc)
    requires |d| == 10 && |c| == 8 && |f| == (if t.micro == 0 then 6 else 13)
    requires |s| == 19 + |f| && LiesAt(s, 0, d) && s[10] == 'T' && LiesAt(s, 11, c) && LiesAt(s, 19, f)
    requires d[4] == '-' && d[7] == '-' && c[2] == ':' && c[5] == ':' && f[|f| - 6..] == "+00:00"
    requires DigitsOf(d[0..4], t.year) && DigitsOf(d[5..7], t.month) && DigitsOf(d[8..10], t.day)
    requires DigitsOf(c[0..2], t.hour) && DigitsOf(c[3..5], t.minute) && DigitsOf(c[6..8], t.second)
    requires t.micro != 0 ==> f[0] == '.' && DigitsOf(f[1..7], t.micro)
    ensures SaysTime(s, t)
  {
    SubSlice(s, 0, d, 0, 4);
    SubSlice(s, 0, d, 5, 7);
    SubSlice(s, 0, d, 8, 10);
    SubSlice(s, 11, c, 0, 2);
    SubSlice(s, 11, c, 3, 5);
    SubSlice(s, 11, c, 6, 8);
    if t.micro != 0 { SubSlice(s, 19, f, 1, 7); }
    SubSlice(s, 19, f, |f| - 6, |f|);
    assert s[..4] == s[0..4];
  }

  lemma IsoPieces(t: Instant) returns (d: string, c: string, f: string)
    ensures Iso(t) == d + "T" + c + f && |d| == 10 && |c| == 8 && |f| == (if t.micro == 0 then 6 else 13)
    ensures d[4] == '-' && d[7] == '-' && c[2] == ':' && c[5] == ':' && f[|f| - 6..] == "+00:00"
    ensures DigitsOf(d[0..4], t.year) && DigitsOf(d[5..7], t.month) && DigitsOf(d[8..10], t.day)
    ensures DigitsOf(c[0..2], t.hour) && DigitsOf(c[3..5], t.minute) && DigitsOf(c[6..8], t.second)
    ensures t.micro != 0 ==> f[0] == '.' && DigitsOf(f[1..7], t.micro)
  {
    d, c := DateText(t), TimeText(t);
    f := (if t.micro == 0 then "" else "." + Padded(t.micro, 6)) + "+00:00";
    DateParts(t);
    TimeParts(t);
    IsoParts(t);
    if t.micro != 0 { assert f[1..7] == Padded(t.micro, 6); }
    assert d[0..4] == d[..4] && d[8..10] == d[8..] && c[0..2] == c[..2] && c[6..8] == c[6..];
  }

  lemma IsoSays(t: Instant)
    ensures SaysTime(Iso(t), t)
  {
    var d, c, f := IsoPieces(t);
    LaidOut(Iso(t), d, c, f);
    PartsSayTime(Iso(t), d, c, f, t);
  }
}
