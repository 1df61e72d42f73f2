/** verify_chain: the independent loop that recomputes every hash and lists divergences. */
module Verify {
  import opened Hashing
  import opened Table

  datatype Column = PrevHashColumn | RecordHashColumn

  datatype Divergence = Divergence(sequenceNum: int, column: Column, expected: string, actual: string)

  datatype Report = Report(recordsChecked: nat, divergences: seq<Divergence>) {
    predicate Ok() { |divergences| == 0 }
  }

  // ------------------------------------------------- what a valid chain is

  /** The hash a row at position i must name as its predecessor, in a list that starts after `from`. */
  function HashBefore(rows: seq<Row>, i: nat, from: string): string
    requires i <= |rows|
  {
    if i == 0 then from else rows[i - 1].recordHash
  }

  function LastHash(rows: seq<Row>, from: string): string { HashBefore(rows, |rows|, from) }

  predicate Linked(D: RowDigest, row: Row, expected: string) {
    row.prevHash == expected && D(row) == row.recordHash
  }

  ghost predicate ValidFrom(D: RowDigest, rows: seq<Row>, from: string) {
    forall i | 0 <= i < |rows| :: Linked(D, rows[i], HashBefore(rows, i, from))
  }

  ghost predicate ValidChain(D: RowDigest, rows: seq<Row>) { ValidFrom(D, rows, GENESIS_HASH) }

  // -------------------------------------------------------- the divergences

  function RowDivergences(D: RowDigest, row: Row, expected: string): seq<Divergence> {
    (if row.prevHash != expected
     then [Divergence(row.sequenceNum, PrevHashColumn, expected, row.prevHash)] else []) +
    (if D(row) != row.recordHash
     then [Divergence(row.sequenceNum, RecordHashColumn, D(row), row.recordHash)] else [])
  }

  function Divergences(D: RowDigest, rows: seq<Row>, from: string): seq<Divergence> {
    if rows == [] then []
    else RowDivergences(D, rows[0], from) + Divergences(D, rows[1..], rows[0].recordHash)
  }

  lemma DivergencesStep(D: RowDigest, rows: seq<Row>, i: nat, expected: string, before: seq<Divergence>)
    requires i < |rows|
    ensures before + Divergences(D, rows[i..], expected)
         == before + RowDivergences(D, rows[i], expected) + Divergences(D, rows[i + 1..], rows[i].recordHash)
  {
    assert rows[i..][0] == rows[i] && rows[i..][1..] == rows[i + 1..];
  }

  method VerifyRows(D: RowDigest, rows: seq<Row>, from: string) returns (report: Report)
    ensures report.recordsChecked == |rows|
    ensures report.divergences == Divergences(D, rows, from)
    ensures report.Ok() <==> ValidFrom(D, rows, from)
    ensures NamesExactly(D, rows, from, report.divergences)
    ensures Ascending(rows) ==> InReadOrder(report.divergences)
  {
    var expectedPrevHash := from;
    var recordsChecked := 0;
    var divergences := [];
    while recordsChecked < |rows|
      invariant recordsChecked <= |rows|
      invariant expectedPrevHash == HashBefore(rows, recordsChecked, from)
      invariant divergences + Divergences(D, rows[recordsChecked..], expectedPrevHash)
             == Divergences(D, rows, from)
    {
      var row := rows[recordsChecked];
      ghost var before := divergences;
      DivergencesStep(D, rows, recordsChecked, expectedPrevHash, before);
      recordsChecked := recordsChecked + 1;
      if row.prevHash != expectedPrevHash {
        divergences := divergences + [Divergence(row.sequenceNum, PrevHashColumn, expectedPrevHash, row.prevHash)];
      }
      var recomputedHash := D(row);
      if recomputedHash != row.recordHash {
        divergences := divergences + [Divergence(row.sequenceNum, RecordHashColumn, recomputedHash, row.recordHash)];
      }
      assert divergences == before + RowDivergences(D, row, expectedPrevHash);
      expectedPrevHash := row.recordHash;
    }
    report := Report(recordsChecked, divergences);
    NoDivergenceIffValid(D, rows, from);
    ReportNamesExactly(D, rows, from);
    if Ascending(rows) { ReportInReadOrder(D, rows, from); }
  }

  /** Reads the table in number order and verifies it from the genesis hash. */
  method VerifyChain(H: Digest, table: seq<Row>) returns (report: Report)
    requires UniqueNumbers(table)
    ensures report.recordsChecked == |table|
    ensures report.divergences == Divergences(RowHashes(H), ByNumber(table), GENESIS_HASH)
    ensures report.Ok() <==> Clean(RowHashes(H), table)
    ensures NamesExactly(RowHashes(H), ByNumber(table), GENESIS_HASH, report.divergences)
    ensures InReadOrder(report.divergences)
  {
    var rows := ByNumber(table);
    ByNumberAscends(table);
    report := VerifyRows(RowHashes(H), rows, GENESIS_HASH);
  }

  /** The rows of a table, read in number order, are a valid chain. */
  ghost predicate Clean(D: RowDigest, table: seq<Row>) { ValidChain(D, ByNumber(table)) }

  // ---------------------------------------------------------- its meaning

  /** An empty divergence list means a valid chain, and the other way round. */
  lemma {:induction false} NoDivergenceIffValid(D: RowDigest, rows: seq<Row>, from: string)
    ensures Divergences(D, rows, from) == [] <==> ValidFrom(D, rows, from)
  {
    if rows != [] {
      var rest := rows[1..];
      NoDivergenceIffValid(D, rest, rows[0].recordHash);
      forall i | 0 <= i < |rest|
        ensures rest[i] == rows[i + 1] && HashBefore(rest, i, rows[0].recordHash) == HashBefore(rows, i + 1, from)
      {
      }
      if ValidFrom(D, rest, rows[0].recordHash) && Linked(D, rows[0], from) {
        forall i | 0 <= i < |rows| ensures Linked(D, rows[i], HashBefore(rows, i, from)) {
          if i > 0 { assert Linked(D, rest[i - 1], HashBefore(rest, i - 1, rows[0].recordHash)); }
        }
      }
      if ValidFrom(D, rows, from) {
        assert Linked(D, rows[0], HashBefore(rows, 0, from));
      }
    }
  }

  /** An entry says that row i does not name the record hash of the row before it. */
  predicate SaysPrevHash(rows: seq<Row>, i: int, from: string, e: Divergence) {
    && 0 <= i < |rows|
    && e == Divergence(rows[i].sequenceNum, PrevHashColumn, if i == 0 then from else rows[i - 1].recordHash,
                       rows[i].prevHash)
    && e.expected != e.actual
  }

  /** An entry says that row i does not carry its own hash. */
  predicate SaysRecordHash(D: RowDigest, rows: seq<Row>, i: int, e: Divergence) {
    && 0 <= i < |rows|
    && e == Divergence(rows[i].sequenceNum, RecordHashColumn, D(rows[i]), rows[i].recordHash)
    && e.expected != e.actual
  }

  ghost predicate Said(D: RowDigest, rows: seq<Row>, from: string, e: Divergence) {
    (exists i :: SaysPrevHash(rows, i, from, e)) || exists i :: SaysRecordHash(D, rows, i, e)
  }

  /** These entries name every wrong predecessor hash and every wrong record hash, with the column, the
      expected and the actual value, and nothing else. */
  ghost predicate NamesExactly(D: RowDigest, rows: seq<Row>, from: string, entries: seq<Divergence>) {
    forall e :: e in entries <==> Said(D, rows, from, e)
  }

  /** Rows in number order, and for one row the predecessor hash before the record hash. */
  ghost predicate InReadOrder(entries: seq<Divergence>) {
    forall p, q | 0 <= p < q < |entries| ::
      || entries[p].sequenceNum < entries[q].sequenceNum
      || (entries[p].sequenceNum == entries[q].sequenceNum &&
          entries[p].column == PrevHashColumn && entries[q].column == RecordHashColumn)
  }

  lemma SaidStep(D: RowDigest, rows: seq<Row>, from: string, e: Divergence)
    requires rows != []
    ensures Said(D, rows, from, e) <==>
              || SaysPrevHash(rows, 0, from, e) || SaysRecordHash(D, rows, 0, e)
              || Said(D, rows[1..], rows[0].recordHash, e)
  {
    var rest, next := rows[1..], rows[0].recordHash;
    forall i ensures i > 0 ==> (SaysPrevHash(rows, i, from, e) <==> SaysPrevHash(rest, i - 1, next, e)) {}
    forall i ensures i > 0 ==> (SaysRecordHash(D, rows, i, e) <==> SaysRecordHash(D, rest, i - 1, e)) {}
    if i :| SaysPrevHash(rest, i, next, e) { assert SaysPrevHash(rows, i + 1, from, e); }
    if i :| SaysRecordHash(D, rest, i, e) { assert SaysRecordHash(D, rows, i + 1, e); }
  }

  /** The report names exactly what is wrong. */
  lemma {:induction false} ReportNamesExactly(D: RowDigest, rows: seq<Row>, from: string)
    ensures NamesExactly(D, rows, from, Divergences(D, rows, from))
  {
    if rows != [] {
      ReportNamesExactly(D, rows[1..], rows[0].recordHash);
      forall e ensures e in Divergences(D, rows, from) <==> Said(D, rows, from, e) {
        SaidStep(D, rows, from, e);
      }
    }
  }

  lemma OrderJoins(a: seq<Divergence>, b: seq<Divergence>, n: int)
    requires InReadOrder(a) && InReadOrder(b)
    requires forall e | e in a :: e.sequenceNum == n
    requires forall e | e in b :: e.sequenceNum > n
    ensures InReadOrder(a + b)
  {
    assert forall p | 0 <= p < |a| :: a[p] in a;
    assert forall q | 0 <= q < |b| :: b[q] in b;
  }

  lemma RowInReadOrder(D: RowDigest, row: Row, expected: string) returns (s: seq<Divergence>)
    ensures s == RowDivergences(D, row, expected) && InReadOrder(s)
    ensures forall e | e in s :: e.sequenceNum == row.sequenceNum
  {
    s := RowDivergences(D, row, expected);
  }

  lemma {:induction false} NumbersFrom(D: RowDigest, rows: seq<Row>, from: string, n: int)
    requires forall i | 0 <= i < |rows| :: rows[i].sequenceNum > n
    ensures forall e | e in Divergences(D, rows, from) :: e.sequenceNum > n
  {
    if rows != [] {
      var first := RowInReadOrder(D, rows[0], from);
      NumbersFrom(D, rows[1..], rows[0].recordHash, n);
    }
  }

  lemma {:induction false} ReportInReadOrder(D: RowDigest, rows: seq<Row>, from: string)
    requires Ascending(rows)
    ensures InReadOrder(Divergences(D, rows, from))
  {
    if rows != [] {
      var first := RowInReadOrder(D, rows[0], from);
      var rest := Divergences(D, rows[1..], rows[0].recordHash);
      ReportInReadOrder(D, rows[1..], rows[0].recordHash);
      NumbersFrom(D, rows[1..], rows[0].recordHash, rows[0].sequenceNum);
      OrderJoins(first, rest, rows[0].sequenceNum);
    }
  }

  /** Verifying a ledger is verifying any prefix and then the rest from the prefix's last hash. */
  lemma {:induction false} DivergencesConcat(D: RowDigest, a: seq<Row>, b: seq<Row>, from: string)
    ensures Divergences(D, a + b, from) == Divergences(D, a, from) + Divergences(D, b, LastHash(a, from))
  {
    if a == [] {
      assert a + b == b;
    } else {
      assert (a + b)[1..] == a[1..] + b;
      DivergencesConcat(D, a[1..], b, a[0].recordHash);
    }
  }

  lemma ValidConcat(D: RowDigest, a: seq<Row>, b: seq<Row>, from: string)
    ensures ValidFrom(D, a + b, from) <==> ValidFrom(D, a, from) && ValidFrom(D, b, LastHash(a, from))
  {
    DivergencesConcat(D, a, b, from);
    NoDivergenceIffValid(D, a + b, from);
    NoDivergenceIffValid(D, a, from);
    NoDivergenceIffValid(D, b, LastHash(a, from));
  }

  lemma PrependLinked(D: RowDigest, row: Row, rest: seq<Row>, from: string)
    requires Linked(D, row, from) && ValidFrom(D, rest, row.recordHash)
    ensures ValidFrom(D, [row] + rest, from)
  {
    ValidConcat(D, [row], rest, from);
  }

  lemma FirstAndRest<T>(s: seq<T>, k: nat)
    requires k < |s|
    ensures s[..k + 1] == [s[0]] + s[1..][..k]
  {
  }

  lemma FirstBadStep(D: RowDigest, rows: seq<Row>, k: nat, from: string)
    requires rows != [] && k < |rows| && Linked(D, rows[0], from)
    requires ValidFrom(D, rows[1..][..k], rows[0].recordHash)
    ensures ValidFrom(D, rows[..k + 1], from)
  {
    FirstAndRest(rows, k);
    PrependLinked(D, rows[0], rows[1..][..k], from);
  }

  /** Position of the first row that is not linked; |rows| if there is none. */
  function FirstBad(D: RowDigest, rows: seq<Row>, from: string): (k: nat)
    ensures k <= |rows|
    ensures ValidFrom(D, rows[..k], from)
    ensures k < |rows| ==> !Linked(D, rows[k], HashBefore(rows, k, from))
  {
    if rows == [] || !Linked(D, rows[0], from) then 0
    else
      var k := FirstBad(D, rows[1..], rows[0].recordHash);
      FirstBadStep(D, rows, k, from);
      k + 1
  }

  lemma RowOnly(D: RowDigest, rows: seq<Row>, i: nat, from: string)
    requires i < |rows|
    ensures Divergences(D, rows, from) == Divergences(D, rows[..i], from) +
              (RowDivergences(D, rows[i], HashBefore(rows, i, from)) +
               Divergences(D, rows[i + 1..], rows[i].recordHash))
  {
    assert rows == rows[..i] + rows[i..];
    DivergencesConcat(D, rows[..i], rows[i..], from);
    assert rows[i..][1..] == rows[i + 1..];
  }

  /** The first entry of the report names the first unlinked row: its predecessor hash if that is wrong, and
      otherwise its record hash. */
  lemma FirstDivergence(D: RowDigest, rows: seq<Row>, from: string)
    ensures FirstBad(D, rows, from) == |rows| <==> Divergences(D, rows, from) == []
    ensures Divergences(D, rows, from) != [] ==>
              FirstBad(D, rows, from) < |rows| &&
              Divergences(D, rows, from)[0].sequenceNum == rows[FirstBad(D, rows, from)].sequenceNum
    ensures Divergences(D, rows, from) != [] ==>
              var k := FirstBad(D, rows, from);
              var row, before := rows[k], HashBefore(rows, k, from);
              Divergences(D, rows, from)[0] ==
                if row.prevHash != before then Divergence(row.sequenceNum, PrevHashColumn, before, row.prevHash)
                else Divergence(row.sequenceNum, RecordHashColumn, D(row), row.recordHash)
  {
    var k := FirstBad(D, rows, from);
    NoDivergenceIffValid(D, rows, from);
    NoDivergenceIffValid(D, rows[..k], from);
    if k < |rows| { RowOnly(D, rows, k, from); }
  }
}
