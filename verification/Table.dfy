/** ledger.events as a table: rows in no particular order, unique by sequence_num, and read back in
    ascending sequence_num order. */
module Table {
  import opened Hashing

  predicate UniqueNumbers(table: seq<Row>) {
    forall i, j | 0 <= i < j < |table| :: table[i].sequenceNum != table[j].sequenceNum
  }

  predicate Ascending(rows: seq<Row>) {
    forall i, j | 0 <= i < j < |rows| :: rows[i].sequenceNum < rows[j].sequenceNum
  }

  function Insert(row: Row, rows: seq<Row>): (r: seq<Row>)
    ensures |r| == |rows| + 1
  {
    if rows == [] || row.sequenceNum < rows[0].sequenceNum then [row] + rows
    else [rows[0]] + Insert(row, rows[1..])
  }

  /** SELECT ... ORDER BY sequence_num ASC. */
  function ByNumber(table: seq<Row>): (r: seq<Row>)
    ensures |r| == |table|
  {
    if table == [] then [] else Insert(table[0], ByNumber(table[1..]))
  }

  // ------------------------------------------------ the listing is unique

  lemma {:induction false} InsertRows(row: Row, rows: seq<Row>)
    ensures multiset(Insert(row, rows)) == multiset(rows) + multiset{row}
  {
    if rows != [] && row.sequenceNum >= rows[0].sequenceNum {
      InsertRows(row, rows[1..]);
      assert rows == [rows[0]] + rows[1..];
    }
  }

  lemma {:induction false} SameMultiset(table: seq<Row>)
    ensures multiset(ByNumber(table)) == multiset(table)
  {
    if table != [] {
      SameMultiset(table[1..]);
      InsertRows(table[0], ByNumber(table[1..]));
      assert table == [table[0]] + table[1..];
    }
  }

  lemma InMultiset(a: seq<Row>, b: seq<Row>, x: Row)
    requires multiset(a) == multiset(b)
    ensures x in a <==> x in b
  {
    assert x in a <==> x in multiset(a);
    assert x in b <==> x in multiset(b);
  }

  lemma {:induction false} InsertElements(row: Row, rows: seq<Row>)
    ensures forall x :: x in Insert(row, rows) <==> x == row || x in rows
  {
    if rows != [] && row.sequenceNum >= rows[0].sequenceNum {
      InsertElements(row, rows[1..]);
      assert forall x :: x in rows <==> x == rows[0] || x in rows[1..];
    }
  }

  lemma AscendingCons(first: Row, rest: seq<Row>)
    requires Ascending(rest) && forall x | x in rest :: first.sequenceNum < x.sequenceNum
    ensures Ascending([first] + rest)
  {
    assert forall i | 0 <= i < |rest| :: rest[i] in rest;
  }

  lemma AscendingTail(rows: seq<Row>)
    requires Ascending(rows) && rows != []
    ensures Ascending(rows[1..]) && forall x | x in rows[1..] :: rows[0].sequenceNum < x.sequenceNum
  {
  }

  lemma {:induction false} InsertAscends(row: Row, rows: seq<Row>)
    requires Ascending(rows) && forall x | x in rows :: x.sequenceNum != row.sequenceNum
    ensures Ascending(Insert(row, rows))
  {
    if rows != [] {
      assert rows[0] in rows;
      AscendingTail(rows);
      if row.sequenceNum > rows[0].sequenceNum {
        InsertAscends(row, rows[1..]);
        InsertElements(row, rows[1..]);
        AscendingCons(rows[0], Insert(row, rows[1..]));
      } else {
        assert rows == [rows[0]] + rows[1..];
        AscendingCons(row, rows);
      }
    }
  }

  lemma {:induction false} ByNumberAscends(table: seq<Row>)
    requires UniqueNumbers(table)
    ensures Ascending(ByNumber(table))
  {
    if table != [] {
      ByNumberAscends(table[1..]);
      forall x | x in ByNumber(table[1..]) ensures x.sequenceNum != table[0].sequenceNum {
        SameMultiset(table[1..]);
        InMultiset(ByNumber(table[1..]), table[1..], x);
      }
      InsertAscends(table[0], ByNumber(table[1..]));
    }
  }

  lemma {:induction false} OneAscending(a: seq<Row>, b: seq<Row>)
    requires Ascending(a) && Ascending(b) && multiset(a) == multiset(b)
    ensures a == b
  {
    assert |a| == |multiset(a)| && |b| == |multiset(b)|;
    if a != [] {
      InMultiset(a, b, a[0]);
      InMultiset(a, b, b[0]);
      assert a[0] == b[0];
      assert a == [a[0]] + a[1..] && b == [b[0]] + b[1..];
      assert multiset(a[1..]) == multiset(a) - multiset{a[0]};
      assert multiset(b[1..]) == multiset(b) - multiset{b[0]};
      OneAscending(a[1..], b[1..]);
    }
  }

  /** However the rows are stored, they are read in the one ascending order. */
  lemma ReadsAscending(table: seq<Row>, rows: seq<Row>)
    requires UniqueNumbers(table) && Ascending(rows) && multiset(rows) == multiset(table)
    ensures ByNumber(table) == rows
  {
    ByNumberAscends(table);
    SameMultiset(table);
    OneAscending(ByNumber(table), rows);
  }

  lemma AscendingReadsItself(rows: seq<Row>)
    requires Ascending(rows)
    ensures UniqueNumbers(rows) && ByNumber(rows) == rows
  {
    ReadsAscending(rows, rows);
  }

  // ------------------------------------------------ reading after an update

  /** How many rows have a lower number. */
  function Rank(rows: seq<Row>, n: int): (p: nat)
    ensures p <= |rows|
  {
    if rows == [] then 0 else (if rows[0].sequenceNum < n then 1 else 0) + Rank(rows[1..], n)
  }

  function Without(rows: seq<Row>, k: nat): (r: seq<Row>)
    requires k < |rows|
    ensures |r| == |rows| - 1
  {
    rows[..k] + rows[k + 1..]
  }

  lemma {:induction false} RankOfNone(rows: seq<Row>, n: int)
    requires forall i | 0 <= i < |rows| :: rows[i].sequenceNum >= n
    ensures Rank(rows, n) == 0
  {
    if rows != [] { RankOfNone(rows[1..], n); }
  }

  /** In an ascending list the rows with a lower number are the first ones. */
  lemma {:induction false} RankSplits(rows: seq<Row>, n: int)
    requires Ascending(rows)
    ensures forall i | 0 <= i < |rows| :: rows[i].sequenceNum < n <==> i < Rank(rows, n)
  {
    if rows != [] {
      RankSplits(rows[1..], n);
      if rows[0].sequenceNum >= n { RankOfNone(rows[1..], n); }
      forall i | 0 <= i < |rows| ensures rows[i].sequenceNum < n <==> i < Rank(rows, n) {
        if i > 0 { assert rows[i] == rows[1..][i - 1]; }
      }
    }
  }

  /** Where a row is read after an update: among the other rows, behind those with a lower number. */
  function Moved(rows: seq<Row>, k: nat, row: Row): (r: seq<Row>)
    requires k < |rows|
    ensures |r| == |rows|
  {
    var rest := Without(rows, k);
    var p := Rank(rest, row.sequenceNum);
    rest[..p] + [row] + rest[p..]
  }

  lemma PutIn(rest: seq<Row>, p: nat, row: Row)
    requires p <= |rest|
    ensures multiset(rest[..p] + [row] + rest[p..]) == multiset(rest) + multiset{row}
  {
    assert rest == rest[..p] + rest[p..];
  }

  lemma MovedRows(rows: seq<Row>, k: nat, row: Row)
    requires k < |rows|
    ensures multiset(Moved(rows, k, row)) == multiset(rows[k := row])
  {
    var rest := Without(rows, k);
    PutIn(rest, Rank(rest, row.sequenceNum), row);
    PutIn(rest, k, row);
    assert rest[..k] == rows[..k] && rest[k..] == rows[k + 1..];
    assert rows[k := row] == rows[..k] + [row] + rows[k + 1..];
  }

  lemma WithoutAscends(rows: seq<Row>, k: nat)
    requires Ascending(rows) && k < |rows|
    ensures Ascending(Without(rows, k))
  {
  }

  lemma OtherNumbers(rows: seq<Row>, k: nat, row: Row, i: nat)
    requires k < |rows| && UniqueNumbers(rows[k := row]) && i < |rows| - 1
    ensures Without(rows, k)[i].sequenceNum != row.sequenceNum
  {
    var j := if i < k then i else i + 1;
    assert Without(rows, k)[i] == rows[k := row][j] && rows[k := row][k] == row;
  }

  lemma MovedAscends(rows: seq<Row>, k: nat, row: Row)
    requires Ascending(rows) && k < |rows| && UniqueNumbers(rows[k := row])
    ensures Ascending(Moved(rows, k, row))
  {
    var rest := Without(rows, k);
    var p := Rank(rest, row.sequenceNum);
    WithoutAscends(rows, k);
    RankSplits(rest, row.sequenceNum);
    forall i | 0 <= i < |rest| ensures rest[i].sequenceNum != row.sequenceNum {
      OtherNumbers(rows, k, row, i);
    }
    assert rest == rest[..p] + rest[p..];
    Spliced(rest[..p], row, rest[p..]);
  }

  lemma Spliced(before: seq<Row>, row: Row, after: seq<Row>)
    requires Ascending(before + after)
    requires forall x | x in before :: x.sequenceNum < row.sequenceNum
    requires forall x | x in after :: row.sequenceNum < x.sequenceNum
    ensures Ascending(before + [row] + after)
  {
    var t, rest := before + [row] + after, before + after;
    var p := |before|;
    forall i, j | 0 <= i < j < |t| ensures t[i].sequenceNum < t[j].sequenceNum {
      if i == p {
        assert t[j] in after;
      } else if j == p {
        assert t[i] in before;
      } else {
        assert t[i] == rest[if i < p then i else i - 1] && t[j] == rest[if j < p then j else j - 1];
      }
    }
  }

  /** After row k of an ascending table is overwritten, the other rows are read in their order, and the
      new row where its number puts it. */
  lemma ReadAfterUpdate(rows: seq<Row>, k: nat, row: Row)
    requires Ascending(rows) && k < |rows| && UniqueNumbers(rows[k := row])
    ensures ByNumber(rows[k := row]) == Moved(rows, k, row)
  {
    MovedRows(rows, k, row);
    MovedAscends(rows, k, row);
    ReadsAscending(rows[k := row], Moved(rows, k, row));
  }
}
