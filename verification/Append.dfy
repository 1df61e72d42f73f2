/** append_event and append_batch: extending the chain from the locked head row. */
module Append {
  import opened Hashing
  import opened Table
  import opened Verify

  /** The tip of the chain: number and hash of the last row. */
  datatype Head = Head(lastSequenceNum: int, lastHash: string)

  /** The seeded head row: no rows yet. */
  const GENESIS_HEAD: Head := Head(0, GENESIS_HASH)

  /** One call of append_event: the event, who submits it, and the server's clock. */
  datatype Submission = Submission(event: Event, sourceId: string, tenantId: string, receivedAt: Instant)

  /** The row append_event adds after a given head, when D recomputes record hashes. */
  function NextRow(D: RowDigest, head: Head, s: Submission): Row {
    var draft := Row(head.lastSequenceNum + 1, s.tenantId, s.sourceId, s.event, s.receivedAt, head.lastHash, "");
    draft.(recordHash := D(draft))
  }

  function TipOf(row: Row): Head { Head(row.sequenceNum, row.recordHash) }

  function HeadAfter(head: Head, rows: seq<Row>): Head {
    if rows == [] then head else TipOf(rows[|rows| - 1])
  }

  /** The rows that a list of submissions adds to a chain with the given head. */
  function Build(D: RowDigest, head: Head, subs: seq<Submission>): (rows: seq<Row>)
    ensures |rows| == |subs|
    decreases |subs|
  {
    if subs == [] then []
    else
      var row := NextRow(D, head, subs[0]);
      [row] + Build(D, TipOf(row), subs[1..])
  }

  // ------------------------------------------------------- the operations

  lemma RowHashesAt(H: Digest, row: Row)
    ensures RowHashes(H)(row) == H(CanonicalText(row.sequenceNum, row.tenantId, row.sourceId, row.event, row.prevHash))
  {
    assert RowHashes(H)(row) == H(RowText(row));
  }

  lemma NextRowHash(H: Digest, head: Head, s: Submission)
    ensures NextRow(RowHashes(H), head, s).recordHash
         == H(CanonicalText(head.lastSequenceNum + 1, s.tenantId, s.sourceId, s.event, head.lastHash))
  {
    RowHashesAt(H, Row(head.lastSequenceNum + 1, s.tenantId, s.sourceId, s.event, s.receivedAt, head.lastHash, ""));
  }

  /** ledger.chain_head, loaded and locked in a database session. */
  class ChainHead {
    var lastSequenceNum: int
    var lastHash: string

    function Value(): Head
      reads this
    {
      Head(lastSequenceNum, lastHash)
    }

    /** The row the first migration seeds. */
    constructor Seed()
      ensures Value() == GENESIS_HEAD
      ensures lastSequenceNum == 0 && lastHash == "0000000000000000000000000000000000000000000000000000000000000000"
    {
      lastSequenceNum := 0;
      lastHash := GENESIS_HASH;
    }
  }

  /** A database session: the locked head and the rows flushed in the open transaction. */
  class Session {
    const head: ChainHead
    var added: seq<Row>

    constructor (head: ChainHead)
      ensures this.head == head && added == []
    {
      this.head := head;
      added := [];
    }

    method AppendEvent(H: Digest, s: Submission) returns (row: Row)
      modifies this`added, head
      ensures row == NextRow(RowHashes(H), old(head.Value()), s)
      ensures added == old(added) + [row]
      ensures head.Value() == TipOf(row)
    {
      NextRowHash(H, head.Value(), s);
      var nextSequenceNum := head.lastSequenceNum + 1;
      var recordHash := H(CanonicalText(nextSequenceNum, s.tenantId, s.sourceId, s.event, head.lastHash));
      row := Row(nextSequenceNum, s.tenantId, s.sourceId, s.event, s.receivedAt, head.lastHash, recordHash);
      added := added + [row];
      head.lastSequenceNum := nextSequenceNum;
      head.lastHash := recordHash;
    }

    method AppendBatch(H: Digest, subs: seq<Submission>) returns (rows: seq<Row>)
      modifies this`added, head
      ensures rows == Build(RowHashes(H), old(head.Value()), subs)
      ensures added == old(added) + rows
      ensures head.Value() == HeadAfter(old(head.Value()), rows)
    {
      rows := [];
      ghost var D, start := RowHashes(H), head.Value();
      assert subs[..0] == [];
      for i := 0 to |subs|
        invariant rows == Build(D, start, subs[..i])
        invariant added == old(added) + rows
        invariant head.Value() == HeadAfter(start, rows)
      {
        var row := AppendEvent(H, subs[i]);
        BuildStep(D, start, subs[..i], subs[i]);
        assert subs[..i] + [subs[i]] == subs[..i + 1];
        rows := rows + [row];
      }
      assert subs[..|subs|] == subs;
    }
  }

  // ------------------------------------------------ what a built chain is

  lemma {:induction false} BuildConcat(D: RowDigest, head: Head, a: seq<Submission>, b: seq<Submission>)
    ensures Build(D, head, a + b) == Build(D, head, a) + Build(D, HeadAfter(head, Build(D, head, a)), b)
    decreases |a|
  {
    if a == [] {
      assert a + b == b;
    } else {
      var row := NextRow(D, head, a[0]);
      assert (a + b)[1..] == a[1..] + b;
      BuildConcat(D, TipOf(row), a[1..], b);
      assert HeadAfter(head, Build(D, head, a)) == HeadAfter(TipOf(row), Build(D, TipOf(row), a[1..]));
    }
  }

  lemma BuildStep(D: RowDigest, head: Head, subs: seq<Submission>, s: Submission)
    ensures Build(D, head, subs + [s])
         == Build(D, head, subs) + [NextRow(D, HeadAfter(head, Build(D, head, subs)), s)]
  {
    BuildConcat(D, head, subs, [s]);
    assert [s][1..] == [];
  }

  /** A recomputed hash does not depend on the stored one. */
  ghost predicate IgnoresStoredHash(D: RowDigest) {
    forall r: Row, h: string :: D(r.(recordHash := h)) == D(r)
  }

  lemma RowHashesIgnoreStoredHash(H: Digest)
    ensures IgnoresStoredHash(RowHashes(H))
  {
    forall r: Row, h: string ensures RowHashes(H)(r.(recordHash := h)) == RowHashes(H)(r) {
      TextDeterminesContent(r, r.(recordHash := h));
    }
  }

  /** The i-th of a list of rows built from a head is numbered on from it and carries submission i. */
  ghost predicate Carries(rows: seq<Row>, head: Head, subs: seq<Submission>) {
    && |rows| == |subs|
    && forall i | 0 <= i < |rows| ::
      && rows[i].sequenceNum == head.lastSequenceNum + 1 + i
      && rows[i].event == subs[i].event
      && rows[i].tenantId == subs[i].tenantId
      && rows[i].sourceId == subs[i].sourceId
      && rows[i].receivedAt == subs[i].receivedAt
  }

  /** Rows built from a head are numbered on from it without gaps, carry the submissions in order,
      and each names its predecessor's hash and hashes to its own. */
  lemma {:induction false} BuildIsChain(D: RowDigest, head: Head, subs: seq<Submission>)
    requires IgnoresStoredHash(D)
    ensures var rows := Build(D, head, subs);
            ValidFrom(D, rows, head.lastHash) && Carries(rows, head, subs) &&
            HeadAfter(head, rows) == Head(head.lastSequenceNum + |subs|, LastHash(rows, head.lastHash))
    decreases |subs|
  {
    if subs != [] {
      var row := NextRow(D, head, subs[0]);
      var rest := Build(D, TipOf(row), subs[1..]);
      BuildIsChain(D, TipOf(row), subs[1..]);
      OneRowChain(D, head, subs[0]);
      ValidConcat(D, [row], rest, head.lastHash);
      CarriesOn(row, rest, head, subs);
      HeadAfterFirst(head, row, rest);
    }
  }

  lemma HeadAfterFirst(head: Head, row: Row, rest: seq<Row>)
    ensures HeadAfter(head, [row] + rest) == HeadAfter(TipOf(row), rest)
    ensures LastHash([row] + rest, head.lastHash) == LastHash(rest, row.recordHash)
  {
  }

  lemma OneRowChain(D: RowDigest, head: Head, s: Submission)
    requires IgnoresStoredHash(D)
    ensures ValidFrom(D, [NextRow(D, head, s)], head.lastHash)
    ensures Carries([NextRow(D, head, s)], head, [s])
  {
    assert Linked(D, NextRow(D, head, s), head.lastHash);
  }

  lemma CarriesOn(row: Row, rest: seq<Row>, head: Head, subs: seq<Submission>)
    requires subs != [] && Carries([row], head, [subs[0]]) && Carries(rest, TipOf(row), subs[1..])
    ensures Carries([row] + rest, head, subs)
  {
    var rows := [row] + rest;
    assert [row][0] == row && [subs[0]][0] == subs[0];
    forall i | 0 <= i < |rows|
      ensures rows[i].sequenceNum == head.lastSequenceNum + 1 + i && rows[i].event == subs[i].event
           && rows[i].tenantId == subs[i].tenantId && rows[i].sourceId == subs[i].sourceId
           && rows[i].receivedAt == subs[i].receivedAt
    {
      if i > 0 { assert rows[i] == rest[i - 1] && subs[i] == subs[1..][i - 1]; }
    }
  }

  lemma AppendedAscend(rows: seq<Row>, more: seq<Row>, subs: seq<Submission>)
    requires Ascending(rows) && Carries(more, HeadAfter(GENESIS_HEAD, rows), subs)
    ensures Ascending(rows + more)
  {
  }

  /** Appending to a verified ledger whose head is its last row keeps it verified, and the new rows are
      read behind the old ones. */
  lemma AppendKeepsVerified(H: Digest, rows: seq<Row>, subs: seq<Submission>)
    requires Ascending(rows) && Clean(RowHashes(H), rows)
    ensures var more := Build(RowHashes(H), HeadAfter(GENESIS_HEAD, rows), subs);
            Ascending(rows + more) && Clean(RowHashes(H), rows + more)
  {
    var D := RowHashes(H);
    var more := Build(D, HeadAfter(GENESIS_HEAD, rows), subs);
    RowHashesIgnoreStoredHash(H);
    BuildIsChain(D, HeadAfter(GENESIS_HEAD, rows), subs);
    AppendedAscend(rows, more, subs);
    AscendingReadsItself(rows);
    AscendingReadsItself(rows + more);
    ValidConcat(D, rows, more, GENESIS_HASH);
  }
}
