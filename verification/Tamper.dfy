/** What a clean verification report proves: tampering is either reported or comes with two
    different row texts that hash alike (or a row text that hashes to the genesis value). */
module Tamper {
  import opened Hashing
  import opened Verify
  import opened Table

  /** Two lists hold the same ledger: every hashed column and every record hash agree. */
  ghost predicate SameRows(a: seq<Row>, b: seq<Row>) {
    |a| == |b| && forall i | 0 <= i < |a| :: SameContent(a[i], b[i]) && a[i].recordHash == b[i].recordHash
  }

  /** The same, said through the text T that is hashed for a row. */
  ghost predicate SameTexts(T: Row -> string, a: seq<Row>, b: seq<Row>) {
    |a| == |b| && forall i | 0 <= i < |a| :: T(a[i]) == T(b[i]) && a[i].recordHash == b[i].recordHash
  }

  /** How a hash is computed: D(row) == H(T(row)), and T determines the predecessor hash. */
  ghost predicate HashesTexts(D: RowDigest, H: Digest, T: Row -> string) {
    && (forall r: Row :: D(r) == H(T(r)))
    && (forall r: Row, s: Row :: T(r) == T(s) ==> r.prevHash == s.prevHash)
  }

  lemma SameTextsSameRows(a: seq<Row>, b: seq<Row>)
    ensures SameTexts(RowText, a, b) <==> SameRows(a, b)
  {
    forall i | 0 <= i < |a| && i < |b| ensures RowText(a[i]) == RowText(b[i]) <==> SameContent(a[i], b[i]) {
      TextDeterminesContent(a[i], b[i]);
    }
  }

  /** Two rows whose different texts have one digest. */
  ghost predicate Collide(H: Digest, T: Row -> string, r: Row, s: Row) {
    T(r) != T(s) && H(T(r)) == H(T(s))
  }

  ghost predicate CollisionBetween(H: Digest, T: Row -> string, a: seq<Row>, b: seq<Row>) {
    exists i, j :: 0 <= i < |a| && 0 <= j < |b| && Collide(H, T, a[i], b[j])
  }

  ghost predicate Preimage(H: Digest, T: Row -> string, rows: seq<Row>, digest: string) {
    exists i :: 0 <= i < |rows| && H(T(rows[i])) == digest
  }

  /** SHA-256 broken by these very rows: a collision between them, or a preimage of the genesis hash. */
  ghost predicate HashBroken(H: Digest, a: seq<Row>, b: seq<Row>) {
    || CollisionBetween(H, RowText, a, b)
    || Preimage(H, RowText, a, GENESIS_HASH)
    || Preimage(H, RowText, b, GENESIS_HASH)
  }

  lemma RowHashesTexts(H: Digest)
    ensures HashesTexts(RowHashes(H), H, RowText)
  {
    forall r: Row ensures RowHashes(H)(r) == H(RowText(r)) {}
    forall r: Row, s: Row | RowText(r) == RowText(s) ensures r.prevHash == s.prevHash {
      TextDeterminesContent(r, s);
    }
  }

  // ------------------------------------------------- one tip, one history

  /** Two histories are the same, or rows of theirs break the hash. */
  ghost predicate Settled(H: Digest, T: Row -> string, a: seq<Row>, b: seq<Row>, from: string) {
    SameTexts(T, a, b) || CollisionBetween(H, T, a, b) || Preimage(H, T, a, from) || Preimage(H, T, b, from)
  }

  lemma {:induction false} TipDeterminesRows(
      D: RowDigest, H: Digest, T: Row -> string, a: seq<Row>, b: seq<Row>, from: string)
    requires HashesTexts(D, H, T)
    requires ValidFrom(D, a, from) && ValidFrom(D, b, from) && LastHash(a, from) == LastHash(b, from)
    ensures Settled(H, T, a, b, from)
    decreases |a|
  {
    if a == [] || b == [] {
      EmptyHistory(D, H, T, a, b, from);
    } else {
      var m, n := |a| - 1, |b| - 1;
      LinkedAt(D, a, m, from);
      LinkedAt(D, b, n, from);
      if T(a[m]) != T(b[n]) {
        assert Collide(H, T, a[m], b[n]);
      } else {
        PrefixTips(D, a, b, m, n, from);
        TipDeterminesRows(D, H, T, a[..m], b[..n], from);
        ExtendSettled(H, T, a, b, m, n, from);
      }
    }
  }

  lemma EmptyHistory(D: RowDigest, H: Digest, T: Row -> string, a: seq<Row>, b: seq<Row>, from: string)
    requires HashesTexts(D, H, T)
    requires ValidFrom(D, a, from) && ValidFrom(D, b, from) && LastHash(a, from) == LastHash(b, from)
    requires a == [] || b == []
    ensures Settled(H, T, a, b, from)
  {
    if a != [] {
      LinkedAt(D, a, |a| - 1, from);
    } else if b != [] {
      LinkedAt(D, b, |b| - 1, from);
    }
  }

  lemma ExtendSettled(H: Digest, T: Row -> string, a: seq<Row>, b: seq<Row>, m: nat, n: nat, from: string)
    requires |a| == m + 1 && |b| == n + 1
    requires T(a[m]) == T(b[n]) && a[m].recordHash == b[n].recordHash
    requires Settled(H, T, a[..m], b[..n], from)
    ensures Settled(H, T, a, b, from)
  {
    LiftBroken(H, T, a, b, m, n, from);
    ExtendSame(T, a, b, m, n);
  }

  lemma ExtendSame(T: Row -> string, a: seq<Row>, b: seq<Row>, m: nat, n: nat)
    requires |a| == m + 1 && |b| == n + 1
    requires T(a[m]) == T(b[n]) && a[m].recordHash == b[n].recordHash
    ensures SameTexts(T, a[..m], b[..n]) ==> SameTexts(T, a, b)
  {
    if SameTexts(T, a[..m], b[..n]) {
      forall i | 0 <= i <= m ensures T(a[i]) == T(b[i]) && a[i].recordHash == b[i].recordHash {
        if i < m { assert a[..m][i] == a[i] && b[..m][i] == b[i]; }
      }
    }
  }

  lemma PrefixTips(D: RowDigest, a: seq<Row>, b: seq<Row>, m: nat, n: nat, from: string)
    requires |a| == m + 1 && |b| == n + 1 && a[m].prevHash == b[n].prevHash
    requires ValidFrom(D, a, from) && ValidFrom(D, b, from)
    ensures ValidFrom(D, a[..m], from) && ValidFrom(D, b[..n], from)
    ensures LastHash(a[..m], from) == LastHash(b[..n], from)
  {
    LinkedAt(D, a, m, from);
    LinkedAt(D, b, n, from);
    PrefixValid(D, a, m, from);
    PrefixValid(D, b, n, from);
  }

  lemma LinkedAt(D: RowDigest, rows: seq<Row>, i: nat, from: string)
    requires i < |rows| && ValidFrom(D, rows, from)
    ensures Linked(D, rows[i], HashBefore(rows, i, from))
  {
  }

  lemma PrefixValid(D: RowDigest, rows: seq<Row>, k: nat, from: string)
    requires ValidFrom(D, rows, from) && k <= |rows|
    ensures ValidFrom(D, rows[..k], from) && LastHash(rows[..k], from) == HashBefore(rows, k, from)
  {
    forall i | 0 <= i < k ensures Linked(D, rows[..k][i], HashBefore(rows[..k], i, from)) {
      LinkedAt(D, rows, i, from);
      assert HashBefore(rows[..k], i, from) == HashBefore(rows, i, from);
    }
  }

  lemma LiftBroken(H: Digest, T: Row -> string, a: seq<Row>, b: seq<Row>, m: nat, n: nat, digest: string)
    requires m <= |a| && n <= |b|
    ensures CollisionBetween(H, T, a[..m], b[..n]) ==> CollisionBetween(H, T, a, b)
    ensures Preimage(H, T, a[..m], digest) ==> Preimage(H, T, a, digest)
    ensures Preimage(H, T, b[..n], digest) ==> Preimage(H, T, b, digest)
  {
    if CollisionBetween(H, T, a[..m], b[..n]) {
      var i, j :| 0 <= i < m && 0 <= j < n && Collide(H, T, a[..m][i], b[..n][j]);
      assert Collide(H, T, a[i], b[j]);
    }
    if Preimage(H, T, a[..m], digest) {
      var i :| 0 <= i < m && H(T(a[..m][i])) == digest;
      assert H(T(a[i])) == digest;
    }
    if Preimage(H, T, b[..n], digest) {
      var i :| 0 <= i < n && H(T(b[..n][i])) == digest;
      assert H(T(b[i])) == digest;
    }
  }

  /** Two ledgers that both verify and end in the same record hash are the same ledger, of the
      same length, in every hashed column of every row, unless these rows break SHA-256. */
  lemma SameTipSameLedger(H: Digest, a: seq<Row>, b: seq<Row>)
    requires Clean(RowHashes(H), a) && Clean(RowHashes(H), b)
    requires LastHash(ByNumber(a), GENESIS_HASH) == LastHash(ByNumber(b), GENESIS_HASH)
    ensures SameRows(ByNumber(a), ByNumber(b)) || HashBroken(H, ByNumber(a), ByNumber(b))
  {
    RowHashesTexts(H);
    TipDeterminesRows(RowHashes(H), H, RowText, ByNumber(a), ByNumber(b), GENESIS_HASH);
    SameTextsSameRows(ByNumber(a), ByNumber(b));
  }

  // -------------------------------------------------- where tampering shows

  /** Reading this table, the report is not clean, and its first entry names the row read at a position
      between lo and hi. */
  ghost predicate ReportedWithin(D: RowDigest, table: seq<Row>, lo: nat, hi: nat) {
    var rows := ByNumber(table);
    && Divergences(D, rows, GENESIS_HASH) != []
    && lo <= FirstBad(D, rows, GENESIS_HASH) <= hi
    && FirstBad(D, rows, GENESIS_HASH) < |rows|
    && Divergences(D, rows, GENESIS_HASH)[0].sequenceNum == rows[FirstBad(D, rows, GENESIS_HASH)].sequenceNum
  }

  lemma ReportedIfBad(D: RowDigest, table: seq<Row>, rows: seq<Row>, lo: nat, hi: nat)
    requires rows == ByNumber(table) && lo <= FirstBad(D, rows, GENESIS_HASH) <= hi < |rows|
    ensures ReportedWithin(D, table, lo, hi)
  {
    FirstDivergence(D, rows, GENESIS_HASH);
  }

  lemma FirstBadAtLeast(D: RowDigest, rows: seq<Row>, k: nat, from: string)
    requires k <= |rows| && ValidFrom(D, rows[..k], from)
    ensures k <= FirstBad(D, rows, from)
  {
    var b := FirstBad(D, rows, from);
    if b < k {
      LinkedAt(D, rows[..k], b, from);
    }
  }

  /** No divergence up to position m: the row read there names the last hash before it. */
  lemma ReadBefore(D: RowDigest, t: seq<Row>, m: nat, from: string)
    requires m < |t| && FirstBad(D, t, from) > m
    ensures ValidFrom(D, t[..m], from) && LastHash(t[..m], from) == t[m].prevHash && D(t[m]) == t[m].recordHash
  {
    var good := t[..FirstBad(D, t, from)];
    PrefixValid(D, good, m, from);
    assert good[..m] == t[..m];
    LinkedAt(D, good, m, from);
  }

  /** The kept row's predecessors, for any text function T. */
  lemma ReadAlike(D: RowDigest, H: Digest, T: Row -> string, rows: seq<Row>, j: nat, t: seq<Row>, m: nat, from: string)
    requires HashesTexts(D, H, T) && ValidFrom(D, rows, from)
    requires j < |rows| && m < |t| && t[m] == rows[j] && FirstBad(D, t, from) > m
    ensures Settled(H, T, rows[..j], t[..m], from)
  {
    ReadBefore(D, t, m, from);
    PrefixValid(D, rows, j, from);
    LinkedAt(D, rows, j, from);
    TipDeterminesRows(D, H, T, rows[..j], t[..m], from);
  }

  /** Whatever was changed in the table (edits, renumberings, deletions, insertions, a forged run): if a
      row of the ledger is still there and what is read before it is not what was there before, the
      first divergence comes no later than that row, and not within the unchanged beginning, unless the
      rows read up to it break SHA-256. */
  lemma ChangeReported(H: Digest, rows: seq<Row>, j: nat, table: seq<Row>, c: nat, m: nat)
    requires ValidChain(RowHashes(H), rows) && UniqueNumbers(table)
    requires j < |rows| && c <= m < |table| && ByNumber(table)[m] == rows[j]
    requires c <= |rows| && ByNumber(table)[..c] == rows[..c]
    requires !SameRows(rows[..j], ByNumber(table)[..m])
    ensures ReportedWithin(RowHashes(H), table, c, m) || HashBroken(H, rows[..j], ByNumber(table)[..m])
  {
    var D, t := RowHashes(H), ByNumber(table);
    PrefixValid(D, rows, c, GENESIS_HASH);
    FirstBadAtLeast(D, t, c, GENESIS_HASH);
    if FirstBad(D, t, GENESIS_HASH) <= m {
      ReportedIfBad(D, table, t, c, m);
    } else {
      RowHashesTexts(H);
      ReadAlike(D, H, RowText, rows, j, t, m, GENESIS_HASH);
      SameTextsSameRows(rows[..j], t[..m]);
    }
  }

  // ------------------------------------------------------ one row overwritten

  /** Where the change to row k is first read: at the row's old place, or, if its number now puts it
      before other rows, at its new one. */
  function FirstAffected(rows: seq<Row>, k: nat, row: Row): (a: nat)
    requires k < |rows|
    ensures a <= k
  {
    var p := Rank(Without(rows, k), row.sequenceNum);
    if p < k then p else k
  }

  /** The row's number puts it behind rows that used to follow it. */
  predicate MovesBack(rows: seq<Row>, k: nat, row: Row)
    requires k < |rows|
  {
    Rank(Without(rows, k), row.sequenceNum) > k
  }

  /** How the table is read after the update, around the first affected place. */
  lemma ReadAround(rows: seq<Row>, k: nat, row: Row) returns (t: seq<Row>, a: nat)
    requires Ascending(rows) && k < |rows| && UniqueNumbers(rows[k := row])
    ensures t == ByNumber(rows[k := row]) && |t| == |rows| && Ascending(t)
    ensures a == FirstAffected(rows, k, row) && t[..a] == rows[..a]
    ensures MovesBack(rows, k, row) ==> a == k && k + 1 < |rows| && t[a] == rows[k + 1]
    ensures !MovesBack(rows, k, row) ==> t[a] == row
    ensures a < k ==> t[a + 1] == rows[a]
    ensures !MovesBack(rows, k, row) && a == k ==> t == rows[k := row]
  {
    ReadAfterUpdate(rows, k, row);
    MovedAscends(rows, k, row);
    t, a := Moved(rows, k, row), FirstAffected(rows, k, row);
  }

  /** Different numbers make different texts. */
  lemma OtherNumberOtherText(a: Row, b: Row)
    requires a.sequenceNum != b.sequenceNum
    ensures RowText(a) != RowText(b)
  {
    TextDeterminesContent(a, b);
  }

  /** A row whose digest is the hash before row a collides with the row before it, or hits the genesis hash. */
  lemma HashBeforeReached(H: Digest, rows: seq<Row>, a: nat, x: Row)
    requires ValidChain(RowHashes(H), rows) && a <= |rows| && H(RowText(x)) == HashBefore(rows, a, GENESIS_HASH)
    requires a > 0 ==> rows[a - 1].sequenceNum != x.sequenceNum
    ensures a == 0 ==> H(RowText(x)) == GENESIS_HASH
    ensures a > 0 ==> Collide(H, RowText, rows[a - 1], x) && Collide(H, RowText, x, rows[a - 1])
  {
    if a > 0 {
      LinkedAt(RowHashes(H), rows, a - 1, GENESIS_HASH);
      OtherNumberOtherText(rows[a - 1], x);
    }
  }

  /** A row that moves back leaves its follower at its place, and that does not link there. */
  lemma MovedBackReported(H: Digest, rows: seq<Row>, k: nat, row: Row)
    requires Ascending(rows) && ValidChain(RowHashes(H), rows)
    requires k < |rows| && UniqueNumbers(rows[k := row]) && MovesBack(rows, k, row)
    ensures ReportedWithin(RowHashes(H), rows[k := row], k, k) || HashBroken(H, rows, rows[k := row])
  {
    var D := RowHashes(H);
    var t, a := ReadAround(rows, k, row);
    PrefixValid(D, rows, k, GENESIS_HASH);
    FirstBadAtLeast(D, t, k, GENESIS_HASH);
    if FirstBad(D, t, GENESIS_HASH) <= k {
      ReportedIfBad(D, rows[k := row], t, k, k);
    } else {
      ReadBefore(D, t, k, GENESIS_HASH);
      LinkedAt(D, rows, k, GENESIS_HASH);
      LinkedAt(D, rows, k + 1, GENESIS_HASH);
      HashBeforeReached(H, rows, k, rows[k]);
      if k > 0 { assert rows[k := row][k - 1] == rows[k - 1]; }
    }
  }

  lemma EditReportedAt(H: Digest, rows: seq<Row>, k: nat, row: Row)
    requires Ascending(rows) && ValidChain(RowHashes(H), rows) && k < |rows| && UniqueNumbers(rows[k := row])
    requires row.recordHash == rows[k].recordHash && !SameContent(rows[k], row)
    ensures var a := FirstAffected(rows, k, row);
            ReportedWithin(RowHashes(H), rows[k := row], a, a) || HashBroken(H, rows, rows[k := row])
  {
    var D := RowHashes(H);
    var t, a := ReadAround(rows, k, row);
    if MovesBack(rows, k, row) {
      MovedBackReported(H, rows, k, row);
    } else {
      PrefixValid(D, rows, a, GENESIS_HASH);
      FirstBadAtLeast(D, t, a, GENESIS_HASH);
      if FirstBad(D, t, GENESIS_HASH) <= a {
        ReportedIfBad(D, rows[k := row], t, a, a);
      } else {
        ReadBefore(D, t, a, GENESIS_HASH);
        OldHashCollides(H, rows, k, row);
      }
    }
  }

  /** An edited row that still hashes to its old record hash collides with what it was. */
  lemma OldHashCollides(H: Digest, rows: seq<Row>, k: nat, row: Row)
    requires ValidChain(RowHashes(H), rows) && k < |rows| && !SameContent(rows[k], row)
    requires H(RowText(row)) == row.recordHash == rows[k].recordHash
    ensures HashBroken(H, rows, rows[k := row])
  {
    LinkedAt(RowHashes(H), rows, k, GENESIS_HASH);
    TextDeterminesContent(rows[k], row);
    assert Collide(H, RowText, rows[k], rows[k := row][k]);
  }

  /** The first entry an edit without a new record hash causes: about the row that took the edited row's
      place, if that moved back; else about the predecessor hash of the edited row, if that is wrong
      where the row is now read; else about its record hash. */
  function FirstEntry(H: Digest, rows: seq<Row>, k: nat, row: Row): Divergence
    requires k < |rows| && (MovesBack(rows, k, row) ==> k + 1 < |rows|)
  {
    var a := FirstAffected(rows, k, row);
    var before := HashBefore(rows, a, GENESIS_HASH);
    if MovesBack(rows, k, row) then
      Divergence(rows[k + 1].sequenceNum, PrevHashColumn, before, rows[k + 1].prevHash)
    else if row.prevHash != before then Divergence(row.sequenceNum, PrevHashColumn, before, row.prevHash)
    else Divergence(row.sequenceNum, RecordHashColumn, H(RowText(row)), row.recordHash)
  }

  lemma FirstEntryShown(H: Digest, rows: seq<Row>, k: nat, row: Row, t: seq<Row>, a: nat)
    requires Ascending(rows) && ValidChain(RowHashes(H), rows) && k < |rows| && UniqueNumbers(rows[k := row])
    requires t == ByNumber(rows[k := row]) && a == FirstAffected(rows, k, row)
    requires ReportedWithin(RowHashes(H), rows[k := row], a, a)
    ensures (MovesBack(rows, k, row) ==> k + 1 < |rows|) &&
            Divergences(RowHashes(H), t, GENESIS_HASH)[0] == FirstEntry(H, rows, k, row)
  {
    var u, b := ReadAround(rows, k, row);
    FirstDivergence(RowHashes(H), t, GENESIS_HASH);
    if a > 0 { assert t[..a][a - 1] == rows[..a][a - 1]; }
    if MovesBack(rows, k, row) { LinkedAt(RowHashes(H), rows, k + 1, GENESIS_HASH); }
  }

  lemma RowIsRead(rows: seq<Row>, k: nat, row: Row) returns (p: nat)
    requires k < |rows|
    ensures p < |rows| && |ByNumber(rows[k := row])| == |rows| && ByNumber(rows[k := row])[p] == row
  {
    SameMultiset(rows[k := row]);
    assert rows[k := row][k] == row;
    InMultiset(rows[k := row], ByNumber(rows[k := row]), row);
    p :| 0 <= p < |ByNumber(rows[k := row])| && ByNumber(rows[k := row])[p] == row;
  }

  lemma EditedRowShown(H: Digest, rows: seq<Row>, k: nat, row: Row)
    requires k < |rows| && H(RowText(row)) != row.recordHash
    ensures Divergence(row.sequenceNum, RecordHashColumn, H(RowText(row)), row.recordHash)
         in Divergences(RowHashes(H), ByNumber(rows[k := row]), GENESIS_HASH)
  {
    var t := ByNumber(rows[k := row]);
    var p := RowIsRead(rows, k, row);
    ReportNamesExactly(RowHashes(H), t, GENESIS_HASH);
    assert SaysRecordHash(RowHashes(H), t, p,
                          Divergence(row.sequenceNum, RecordHashColumn, H(RowText(row)), row.recordHash));
  }

  /** A hashed column of any row is edited, the sequence number included, and its record hash left alone:
      the first divergence is at the first affected place, which holds the edited row, or the row behind
      it if its number moved it back, and it is exactly the entry named above; and the report says that the
      edited row does not carry its own hash; unless these rows break SHA-256. */
  lemma EditReported(H: Digest, rows: seq<Row>, k: nat, row: Row)
    requires Ascending(rows) && ValidChain(RowHashes(H), rows) && k < |rows| && UniqueNumbers(rows[k := row])
    requires row.recordHash == rows[k].recordHash && !SameContent(rows[k], row)
    ensures var a := FirstAffected(rows, k, row);
            var report := Divergences(RowHashes(H), ByNumber(rows[k := row]), GENESIS_HASH);
            || (ReportedWithin(RowHashes(H), rows[k := row], a, a) &&
                (MovesBack(rows, k, row) ==> k + 1 < |rows|) &&
                ByNumber(rows[k := row])[a] == (if MovesBack(rows, k, row) then rows[k + 1] else row) &&
                report[0] == FirstEntry(H, rows, k, row) &&
                Divergence(row.sequenceNum, RecordHashColumn, H(RowText(row)), row.recordHash) in report)
            || HashBroken(H, rows, rows[k := row])
  {
    var t, a := ReadAround(rows, k, row);
    EditReportedAt(H, rows, k, row);
    if H(RowText(row)) == row.recordHash {
      OldHashCollides(H, rows, k, row);
    } else {
      EditedRowShown(H, rows, k, row);
    }
    if ReportedWithin(RowHashes(H), rows[k := row], a, a) { FirstEntryShown(H, rows, k, row, t, a); }
  }

  /** A row that moves forward, links and is linked to by the row behind it, breaks the hash. */
  lemma MovedForwardBreaks(H: Digest, rows: seq<Row>, k: nat, row: Row, a: nat)
    requires ValidChain(RowHashes(H), rows) && k < |rows| && a < k
    requires a > 0 ==> rows[a - 1].sequenceNum != row.sequenceNum
    requires H(RowText(row)) == row.recordHash == rows[a].prevHash
    ensures HashBroken(H, rows, rows[k := row])
  {
    LinkedAt(RowHashes(H), rows, a, GENESIS_HASH);
    HashBeforeReached(H, rows, a, row);
    assert rows[k := row][k] == row;
  }

  /** A row rewritten with a number that moves it forward is found out by itself or by the row behind it. */
  lemma MovedForwardReported(H: Digest, rows: seq<Row>, k: nat, row: Row)
    requires Ascending(rows) && ValidChain(RowHashes(H), rows) && k < |rows| && UniqueNumbers(rows[k := row])
    requires FirstAffected(rows, k, row) < k
    ensures var a := FirstAffected(rows, k, row);
            ReportedWithin(RowHashes(H), rows[k := row], a, a + 1) || HashBroken(H, rows, rows[k := row])
  {
    var D := RowHashes(H);
    var t, a := ReadAround(rows, k, row);
    PrefixValid(D, rows, a, GENESIS_HASH);
    FirstBadAtLeast(D, t, a, GENESIS_HASH);
    if FirstBad(D, t, GENESIS_HASH) <= a + 1 {
      ReportedIfBad(D, rows[k := row], t, a, a + 1);
    } else {
      ReadBefore(D, t, a, GENESIS_HASH);
      ReadBefore(D, t, a + 1, GENESIS_HASH);
      assert LastHash(t[..a + 1], GENESIS_HASH) == row.recordHash;
      if a > 0 { assert t[a - 1] == t[..a][a - 1] == rows[a - 1]; }
      MovedForwardBreaks(H, rows, k, row, a);
    }
  }

  lemma StaysReported(H: Digest, rows: seq<Row>, k: nat, row: Row)
    requires Ascending(rows) && ValidChain(RowHashes(H), rows) && k + 1 < |rows| && UniqueNumbers(rows[k := row])
    requires FirstAffected(rows, k, row) == k && !MovesBack(rows, k, row) && !SameContent(rows[k], row)
    ensures ReportedWithin(RowHashes(H), rows[k := row], k, k + 1) || HashBroken(H, rows, rows[k := row])
  {
    var t, a := ReadAround(rows, k, row);
    assert rows[..k + 1][k] == rows[k] && t[..k + 1][k] == row;
    ChangeReported(H, rows, k + 1, rows[k := row], k, k + 1);
    LiftBroken(H, RowText, rows, t, k + 1, k + 1, GENESIS_HASH);
  }

  /** A row is edited and its record hash rewritten as well. Unless it stays the last row, the first
      divergence is at the first affected place or the next one (just there, if its number moved the row
      back), or these rows break SHA-256. */
  lemma RewriteReported(H: Digest, rows: seq<Row>, k: nat, row: Row)
    requires Ascending(rows) && ValidChain(RowHashes(H), rows) && k < |rows| && UniqueNumbers(rows[k := row])
    requires !SameContent(rows[k], row) && (k + 1 < |rows| || FirstAffected(rows, k, row) < k)
    ensures var a := FirstAffected(rows, k, row);
            || ReportedWithin(RowHashes(H), rows[k := row], a, if MovesBack(rows, k, row) then a else a + 1)
            || HashBroken(H, rows, rows[k := row])
  {
    if MovesBack(rows, k, row) {
      MovedBackReported(H, rows, k, row);
    } else if FirstAffected(rows, k, row) < k {
      MovedForwardReported(H, rows, k, row);
    } else {
      StaysReported(H, rows, k, row);
    }
  }

  /** The last row stays the last exactly if its new number is above the others. */
  lemma StaysLastIff(rows: seq<Row>, row: Row)
    requires Ascending(rows) && rows != [] && UniqueNumbers(rows[|rows| - 1 := row])
    ensures FirstAffected(rows, |rows| - 1, row) == |rows| - 1
       <==> (|rows| > 1 ==> rows[|rows| - 2].sequenceNum < row.sequenceNum)
  {
    var k := |rows| - 1;
    var rest := Without(rows, k);
    assert rest == rows[..k];
    RankSplits(rest, row.sequenceNum);
  }

  lemma LastLinkedIff(D: RowDigest, rows: seq<Row>, row: Row, t: seq<Row>, from: string)
    requires rows != [] && ValidFrom(D, rows, from) && t == rows[|rows| - 1 := row]
    ensures ValidFrom(D, t, from) <==> Linked(D, row, rows[|rows| - 1].prevHash)
  {
    var k := |rows| - 1;
    PrefixValid(D, rows, k, from);
    assert t == rows[..k] + [row];
    ValidConcat(D, rows[..k], [row], from);
    LinkedAt(D, rows, k, from);
    assert ValidFrom(D, [row], rows[k].prevHash) <==> Linked(D, [row][0], HashBefore([row], 0, rows[k].prevHash));
  }

  /** A rewritten last row that stays the last escapes exactly when it is linked to its predecessor and
      hashes to the record hash it carries: nothing later can contradict it. */
  lemma LastRewriteEscapesIff(H: Digest, rows: seq<Row>, row: Row)
    requires Ascending(rows) && rows != [] && ValidChain(RowHashes(H), rows)
    requires UniqueNumbers(rows[|rows| - 1 := row])
    requires |rows| > 1 ==> rows[|rows| - 2].sequenceNum < row.sequenceNum
    ensures Clean(RowHashes(H), rows[|rows| - 1 := row])
       <==> row.prevHash == rows[|rows| - 1].prevHash && H(RowText(row)) == row.recordHash
  {
    StaysLastIff(rows, row);
    var t, a := ReadAround(rows, |rows| - 1, row);
    LastLinkedIff(RowHashes(H), rows, row, t, GENESIS_HASH);
    RowHashesTexts(H);
  }

  /** A rewritten last row whose number moves it forward never escapes. */
  lemma LastMovedReported(H: Digest, rows: seq<Row>, row: Row)
    requires Ascending(rows) && |rows| > 1 && ValidChain(RowHashes(H), rows)
    requires UniqueNumbers(rows[|rows| - 1 := row]) && row.sequenceNum < rows[|rows| - 2].sequenceNum
    ensures var a := FirstAffected(rows, |rows| - 1, row);
            || ReportedWithin(RowHashes(H), rows[|rows| - 1 := row], a, a + 1)
            || HashBroken(H, rows, rows[|rows| - 1 := row])
  {
    StaysLastIff(rows, row);
    MovedForwardReported(H, rows, |rows| - 1, row);
  }

  /** Deleting a row that is not the last is reported at the row that followed it. */
  lemma DeletionReported(H: Digest, rows: seq<Row>, k: nat)
    requires Ascending(rows) && ValidChain(RowHashes(H), rows) && k + 1 < |rows|
    ensures ReportedWithin(RowHashes(H), Without(rows, k), k, k) || HashBroken(H, rows[..k + 1], rows[..k])
  {
    var t := Without(rows, k);
    WithoutAscends(rows, k);
    AscendingReadsItself(t);
    assert t[..k] == rows[..k];
    ChangeReported(H, rows, k + 1, t, k, k);
  }

  /** Dropping the rows with the highest numbers is never reported. */
  lemma TruncationNotReported(H: Digest, rows: seq<Row>, k: nat)
    requires Ascending(rows) && k <= |rows| && Clean(RowHashes(H), rows)
    ensures Clean(RowHashes(H), rows[..k])
  {
    AscendingReadsItself(rows);
    AscendingReadsItself(rows[..k]);
    PrefixValid(RowHashes(H), rows, k, GENESIS_HASH);
  }

  lemma {:induction false} SameTextsSameDivergences(
      D: RowDigest, H: Digest, T: Row -> string, a: seq<Row>, b: seq<Row>, from: string)
    requires HashesTexts(D, H, T) && SameTexts(T, a, b)
    requires forall i | 0 <= i < |a| :: a[i].sequenceNum == b[i].sequenceNum
    ensures Divergences(D, a, from) == Divergences(D, b, from)
  {
    if a != [] {
      assert forall i | 0 <= i < |a[1..]| :: a[1..][i] == a[i + 1] && b[1..][i] == b[i + 1];
      SameTextsSameDivergences(D, H, T, a[1..], b[1..], a[0].recordHash);
    }
  }

  /** Storage may return dictionaries in any key order, and columns outside the payload may hold
      anything: the report is the same, entry for entry. */
  lemma ReportIgnoresKeyOrder(H: Digest, a: seq<Row>, b: seq<Row>)
    requires SameRows(ByNumber(a), ByNumber(b))
    ensures Divergences(RowHashes(H), ByNumber(a), GENESIS_HASH) == Divergences(RowHashes(H), ByNumber(b), GENESIS_HASH)
  {
    RowHashesTexts(H);
    SameTextsSameRows(ByNumber(a), ByNumber(b));
    SameTextsSameDivergences(RowHashes(H), H, RowText, ByNumber(a), ByNumber(b), GENESIS_HASH);
  }
}
