/** watchDirectory: decoding the change records of a notification buffer, and pairing the two halves of
    a rename across records and reads. */
module FileWatcher {
  import opened NoisyPaths

  type Byte = b: int | 0 <= b < 0x100
  type Unit = u: int | 0 <= u < 0x1_0000

  const UINT32: nat := 0x1_0000_0000

  const ADDED: nat := 1
  const REMOVED: nat := 2
  const MODIFIED: nat := 3
  const RENAME_OLD: nat := 4
  const RENAME_NEW: nat := 5

  /** One change record: what happened to the file with this relative name (UTF-16 units). */
  datatype Change = Change(action: nat, name: seq<Unit>)

  datatype FileEvent = FileEvent(
    kind: string, category: string, severity: string, path: string, newPath: string, driveLabel: string)

  /** What a watcher is set up with: how a name becomes a full path, the noise filter, the test for the
      recycle bin, and the label of a removable drive ("" for none). */
  datatype Watch = Watch(
    full: seq<Unit> -> string, noisy: string -> bool, recycled: string -> bool, driveLabel: string)

  // ------------------------------------------------- decoding the buffer

  function U16(b0: Byte, b1: Byte): Unit { b0 + 0x100 * b1 }

  function U32(b0: Byte, b1: Byte, b2: Byte, b3: Byte): (n: nat)
    ensures n < UINT32
  {
    b0 + 0x100 * b1 + 0x1_0000 * b2 + 0x100_0000 * b3
  }

  function U32At(b: seq<Byte>, i: nat): (n: nat)
    requires i + 4 <= |b|
    ensures n < UINT32
  {
    U32(b[i], b[i + 1], b[i + 2], b[i + 3])
  }

  /** n units starting at byte i. */
  function UnitsAt(b: seq<Byte>, i: nat, n: nat): (r: seq<Unit>)
    requires i + 2 * n <= |b|
    ensures |r| == n
    decreases n
  {
    if n == 0 then [] else [U16(b[i], b[i + 1])] + UnitsAt(b, i + 2, n - 1)
  }

  /** windows.UTF16ToString stops at the first NUL. */
  function UpToNul(name: seq<Unit>): seq<Unit> {
    if name == [] || name[0] == 0 then [] else [name[0]] + UpToNul(name[1..])
  }

  /** A whole record lies at this offset. */
  predicate RecordAt(b: seq<Byte>, offset: nat) { offset + 12 <= |b| && offset + 12 + U32At(b, offset + 8) <= |b| }

  function ChangeAt(b: seq<Byte>, offset: nat): Change
    requires RecordAt(b, offset)
  {
    Change(U32At(b, offset + 4), UpToNul(UnitsAt(b, offset + 12, U32At(b, offset + 8) / 2)))
  }

  /** What lies at an offset: nothing whole, or a change and the distance of the next one (0 for none). */
  datatype Found = Nothing | Found(change: Change, next: nat)

  function FindAt(b: seq<Byte>, offset: nat): Found {
    if RecordAt(b, offset) then Found(ChangeAt(b, offset), U32At(b, offset)) else Nothing
  }

  type Reader = nat -> Found

  function ReaderOf(b: seq<Byte>): Reader { (i: nat) => FindAt(b, i) }

  /** Follows the distances until nothing whole is left. */
  function WalkBy(read: Reader, size: nat, offset: nat): seq<Change>
    decreases size - offset
  {
    if offset >= size then []
    else
      match read(offset)
      case Nothing => []
      case Found(c, next) => [c] + if next == 0 then [] else WalkBy(read, size, offset + next)
  }

  /** The records of the filled part of a buffer. */
  function Walk(b: seq<Byte>): seq<Change> { WalkBy(ReaderOf(b), |b|, 0) }

  // -------------------------------------------------- reacting to changes

  /** Half of a rename seen so far ("" for none), and the events emitted. */
  datatype Seen = Seen(renamedOld: string, emitted: seq<FileEvent>)

  function Created(w: Watch, path: string): FileEvent {
    if w.driveLabel != "" then FileEvent("file.copied_to_usb", "data_exfiltration", "critical", path, "", w.driveLabel)
    else FileEvent("file.created", "file_activity", "info", path, "", "")
  }

  function Deleted(w: Watch, path: string): FileEvent {
    FileEvent("file.deleted", "file_activity", "high", path, "", w.driveLabel)
  }

  /** Moving a file into the recycle bin counts as deleting it. */
  function Renamed(w: Watch, path: string, newPath: string): FileEvent {
    if w.recycled(newPath) then FileEvent("file.deleted", "file_activity", "high", path, newPath, "")
    else FileEvent("file.renamed", "file_activity", "info", path, newPath, "")
  }

  function OnChange(w: Watch, s: Seen, c: Change): Seen {
    var path := w.full(c.name);
    if w.noisy(path) then s
    else if c.action == ADDED then s.(emitted := s.emitted + [Created(w, path)])
    else if c.action == REMOVED then s.(emitted := s.emitted + [Deleted(w, path)])
    else if c.action == MODIFIED && w.driveLabel == "" then
      s.(emitted := s.emitted + [FileEvent("file.modified", "file_activity", "info", path, "", "")])
    else if c.action == RENAME_OLD then s.(renamedOld := path)
    else if c.action == RENAME_NEW && s.renamedOld != "" then
      Seen("", s.emitted + [Renamed(w, s.renamedOld, path)])
    else s
  }

  function OnChanges(w: Watch, s: Seen, changes: seq<Change>): Seen
    decreases |changes|
  {
    if changes == [] then s else OnChanges(w, OnChange(w, s, changes[0]), changes[1..])
  }

  /** The events of a change that is no half of a rename: actions 1, 2 and 3 are an addition, a removal and a
      modification; on a removable drive an addition is a copy to it, and a modification is none. */
  function EventsOf(w: Watch, action: nat, path: string): seq<FileEvent> {
    if w.noisy(path) then []
    else if action == 1 && w.driveLabel == "" then [FileEvent("file.created", "file_activity", "info", path, "", "")]
    else if action == 1 then
      [FileEvent("file.copied_to_usb", "data_exfiltration", "critical", path, "", w.driveLabel)]
    else if action == 2 then [FileEvent("file.deleted", "file_activity", "high", path, "", w.driveLabel)]
    else if action == 3 && w.driveLabel == "" then
      [FileEvent("file.modified", "file_activity", "info", path, "", "")]
    else []
  }

  /** The event of two joined halves: into the recycle bin a deletion, otherwise a renaming. */
  function EventOfRename(w: Watch, path: string, newPath: string): FileEvent {
    FileEvent(if w.recycled(newPath) then "file.deleted" else "file.renamed", "file_activity",
              if w.recycled(newPath) then "high" else "info", path, newPath, "")
  }

  /** The watcher goes from s to t on a change. 4 and 5 are the old and the new half of a rename, an old half
      waits for the next new one, and a noisy path does nothing. */
  predicate Reacts(w: Watch, s: Seen, action: nat, path: string, t: Seen) {
    && (w.noisy(path) ==> t == s)
    && (action != 4 && action != 5 ==> t == Seen(s.renamedOld, s.emitted + EventsOf(w, action, path)))
    && (!w.noisy(path) && action == 4 ==> t == Seen(path, s.emitted))
    && (!w.noisy(path) && action == 5 ==>
          t == if s.renamedOld == "" then s else Seen("", s.emitted + [EventOfRename(w, s.renamedOld, path)]))
  }

  lemma OnChangeReacts(w: Watch, s: Seen, c: Change)
    ensures Reacts(w, s, c.action, w.full(c.name), OnChange(w, s, c))
  {
    assert s.emitted + [] == s.emitted;
  }

  class Watcher {
    const w: Watch
    const buf: array<Byte>
    var renamedOld: string
    var emitted: seq<FileEvent>

    constructor (w: Watch, buf: array<Byte>)
      ensures this.w == w && this.buf == buf && State() == Seen("", [])
    {
      this.w := w;
      this.buf := buf;
      renamedOld := "";
      emitted := [];
    }

    ghost function State(): Seen
      reads this
    {
      Seen(renamedOld, emitted)
    }

    method Emit(e: FileEvent)
      modifies this`emitted
      ensures emitted == old(emitted) + [e]
    {
      emitted := emitted + [e];
    }

    method React(action: nat, full: string, ghost name: seq<Unit>)
      requires full == w.full(name)
      modifies this`renamedOld, this`emitted
      ensures State() == OnChange(w, old(State()), Change(action, name))
    {
      if !w.noisy(full) {
        if action == ADDED {
          var kind, severity := "file.created", "info";
          if w.driveLabel != "" {
            kind, severity := "file.copied_to_usb", "critical";
          }
          var category := if w.driveLabel != "" then "data_exfiltration" else "file_activity";
          Emit(FileEvent(kind, category, severity, full, "", w.driveLabel));
        } else if action == REMOVED {
          Emit(FileEvent("file.deleted", "file_activity", "high", full, "", w.driveLabel));
        } else if action == MODIFIED {
          if w.driveLabel == "" {
            Emit(FileEvent("file.modified", "file_activity", "info", full, "", ""));
          }
        } else if action == RENAME_OLD {
          renamedOld := full;
        } else if action == RENAME_NEW {
          if renamedOld != "" {
            if w.recycled(full) {
              Emit(FileEvent("file.deleted", "file_activity", "high", renamedOld, full, ""));
            } else {
              Emit(FileEvent("file.renamed", "file_activity", "info", renamedOld, full, ""));
            }
            renamedOld := "";
          }
        }
      }
    }

    /** The name field of a record, read unit by unit. */
    method ReadName(start: nat, n: nat, ghost b: seq<Byte>) returns (u16: seq<Unit>)
      requires |b| <= buf.Length && b == buf[..|b|] && start + 2 * n <= |b|
      ensures u16 == UnitsAt(b, start, n)
    {
      u16 := [];
      while |u16| < n
        invariant |u16| <= n
        invariant u16 + UnitsAt(b, start + 2 * |u16|, n - |u16|) == UnitsAt(b, start, n)
      {
        var i := |u16|;
        NextUnit(b, start + 2 * i, n - i, u16);
        u16 := u16 + [U16(buf[start + i * 2], buf[start + i * 2 + 1])];
      }
    }

    /** The record at an offset of the filled part, if a whole one lies there. */
    method ReadRecord(offset: nat, returned: nat, ghost read: Reader)
      returns (found: bool, next: nat, action: nat, name: seq<Unit>)
      requires returned <= buf.Length && read == ReaderOf(buf[..returned])
      ensures read(offset) == if found then Found(Change(action, UpToNul(name)), next) else Nothing
      ensures found ==> offset < returned
    {
      found, next, action, name := false, 0, 0, [];
      if offset + 12 > returned {
        return;
      }
      next := U32(buf[offset], buf[offset + 1], buf[offset + 2], buf[offset + 3]);
      action := U32(buf[offset + 4], buf[offset + 5], buf[offset + 6], buf[offset + 7]);
      var nlen := U32(buf[offset + 8], buf[offset + 9], buf[offset + 10], buf[offset + 11]);
      if offset + 12 + nlen > returned {
        return;
      }
      found := true;
      name := ReadName(offset + 12, nlen / 2, buf[..returned]);
    }

    /** The inner loop over the records of one read. It uses nothing of the buffer beyond `returned`. */
    method HandleRead(returned: nat)
      requires returned <= buf.Length
      modifies this`renamedOld, this`emitted
      ensures State() == OnChanges(w, old(State()), Walk(buf[..returned]))
    {
      ghost var read := ReaderOf(buf[..returned]);
      ghost var rest := WalkRests(read, returned);
      ghost var goal := OnChanges(w, State(), rest(0));
      var offset := 0;
      while true
        invariant OnChanges(w, State(), rest(offset)) == goal
        decreases returned - offset
      {
        var found, next, action, name := ReadRecord(offset, returned, read);
        if !found {
          assert rest(offset) == [];
          break;
        }
        ghost var before, c := State(), Change(action, UpToNul(name));
        ghost var todo := if next == 0 then [] else rest(offset + next);
        assert Follows(rest, offset, c, next);
        React(action, w.full(UpToNul(name)), c.name);
        OnChangesStep(w, before, State(), c, todo);
        if next == 0 {
          break;
        }
        offset := offset + next;
      }
    }
  }

  ghost predicate Follows(rest: nat -> seq<Change>, offset: nat, c: Change, next: nat) {
    rest(offset) == [c] + if next == 0 then [] else rest(offset + next)
  }

  /** The changes still to come from each offset. */
  lemma WalkRests(read: Reader, size: nat) returns (rest: nat -> seq<Change>)
    ensures rest(0) == WalkBy(read, size, 0)
    ensures forall o: nat, c, next | o < size && read(o) == Found(c, next) :: Follows(rest, o, c, next)
    ensures forall o: nat | o >= size || read(o) == Nothing :: rest(o) == []
  {
    rest := (o: nat) => WalkBy(read, size, o);
  }

  lemma NextUnit(b: seq<Byte>, i: nat, n: nat, before: seq<Unit>)
    requires n > 0 && i + 2 * n <= |b|
    ensures before + UnitsAt(b, i, n) == before + [U16(b[i], b[i + 1])] + UnitsAt(b, i + 2, n - 1)
  {
  }

  lemma OnChangesFirst(w: Watch, s: Seen, c: Change, rest: seq<Change>)
    ensures OnChanges(w, s, [c] + rest) == OnChanges(w, OnChange(w, s, c), rest)
  {
    assert ([c] + rest)[1..] == rest;
  }

  lemma OnChangesStep(w: Watch, s: Seen, t: Seen, c: Change, rest: seq<Change>)
    requires t == OnChange(w, s, c)
    ensures OnChanges(w, s, [c] + rest) == OnChanges(w, t, rest)
  {
    OnChangesFirst(w, s, c, rest);
  }

  // ---------------------------------------------- the encoding undone

  /** A record as the system lays it out: the change, and whatever bytes fill up to the next record. */
  datatype Record = Record(change: Change, padding: seq<Byte>) {
    function Size(): nat { 12 + 2 * |change.name| + |padding| }

    predicate Fits() { change.action < UINT32 && Size() < UINT32 }
  }

  function Le32(n: nat): (b: seq<Byte>)
    requires n < UINT32
    ensures |b| == 4
  {
    var n1 := n / 0x100;
    var n2 := n1 / 0x100;
    [n % 0x100, n1 % 0x100, n2 % 0x100, n2 / 0x100]
  }

  function NameBytes(name: seq<Unit>): (b: seq<Byte>)
    ensures |b| == 2 * |name|
  {
    if name == [] then [] else [name[0] % 0x100, name[0] / 0x100] + NameBytes(name[1..])
  }

  function EncodeOne(r: Record, next: nat): (b: seq<Byte>)
    requires r.Fits() && next < UINT32
    ensures |b| == r.Size()
  {
    Le32(next) + Le32(r.change.action) + Le32(2 * |r.change.name|) + NameBytes(r.change.name) + r.padding
  }

  /** The last record has no next one. */
  function Encode(records: seq<Record>): seq<Byte>
    requires forall r | r in records :: r.Fits()
  {
    if records == [] then []
    else if |records| == 1 then EncodeOne(records[0], 0)
    else EncodeOne(records[0], records[0].Size()) + Encode(records[1..])
  }

  lemma Le32RoundTrip(n: nat)
    requires n < UINT32
    ensures var b := Le32(n); U32(b[0], b[1], b[2], b[3]) == n
  {
  }

  lemma SliceOfSlice<T>(b: seq<T>, at: nat, n: nat, i: nat, j: nat)
    requires at + n <= |b| && i <= j <= n
    ensures b[at..at + n][i..j] == b[at + i..at + j]
  {
    var s, t := b[at..at + n][i..j], b[at + i..at + j];
    forall k | 0 <= k < j - i ensures s[k] == t[k] {
      assert b[at..at + n][i + k] == b[at + i + k];
    }
  }

  lemma {:induction false} UnitsOfBytes(b: seq<Byte>, at: nat, name: seq<Unit>)
    requires at + 2 * |name| <= |b| && b[at..at + 2 * |name|] == NameBytes(name)
    ensures UnitsAt(b, at, |name|) == name
    decreases |name|
  {
    if name != [] {
      var n := 2 * |name|;
      assert b[at] == b[at..at + n][0] && b[at + 1] == b[at..at + n][1];
      SliceOfSlice(b, at, n, 2, n);
      assert NameBytes(name)[2..n] == NameBytes(name[1..]);
      UnitsOfBytes(b, at + 2, name[1..]);
    }
  }

  lemma EncodedFields(r: Record, next: nat)
    requires r.Fits() && next < UINT32
    ensures EncodeOne(r, next)[0..4] == Le32(next)
    ensures EncodeOne(r, next)[4..8] == Le32(r.change.action)
    ensures EncodeOne(r, next)[8..12] == Le32(2 * |r.change.name|)
    ensures EncodeOne(r, next)[12..12 + 2 * |r.change.name|] == NameBytes(r.change.name)
  {
  }

  lemma NumberAt(b: seq<Byte>, at: nat, n: nat)
    requires n < UINT32 && at + 4 <= |b| && b[at..at + 4] == Le32(n)
    ensures U32At(b, at) == n
  {
    Le32RoundTrip(n);
    var s := b[at..at + 4];
    assert s[0] == b[at] && s[1] == b[at + 1] && s[2] == b[at + 2] && s[3] == b[at + 3];
  }

  lemma HeaderAt(b: seq<Byte>, before: nat, r: Record, next: nat)
    requires r.Fits() && next < UINT32 && before + r.Size() <= |b|
    requires b[before..before + r.Size()] == EncodeOne(r, next)
    ensures U32At(b, before) == next
    ensures U32At(b, before + 4) == r.change.action
    ensures U32At(b, before + 8) == 2 * |r.change.name|
  {
    var n := r.Size();
    EncodedFields(r, next);
    SliceOfSlice(b, before, n, 0, 4);
    SliceOfSlice(b, before, n, 4, 8);
    SliceOfSlice(b, before, n, 8, 12);
    NumberAt(b, before, next);
    NumberAt(b, before + 4, r.change.action);
    NumberAt(b, before + 8, 2 * |r.change.name|);
  }

  lemma NameAt(b: seq<Byte>, before: nat, r: Record, next: nat)
    requires r.Fits() && next < UINT32 && before + r.Size() <= |b|
    requires b[before..before + r.Size()] == EncodeOne(r, next)
    ensures UnitsAt(b, before + 12, |r.change.name|) == r.change.name
  {
    EncodedFields(r, next);
    SliceOfSlice(b, before, r.Size(), 12, 12 + 2 * |r.change.name|);
    UnitsOfBytes(b, before + 12, r.change.name);
  }

  /** A reader finds these records, each at the end of the one before. */
  predicate Lists(read: Reader, size: nat, offset: nat, records: seq<Record>)
    decreases |records|
  {
    if records == [] then offset >= size
    else
      var next := if |records| == 1 then 0 else records[0].Size();
      offset < size && read(offset) == Found(Carried(records[0]), next) &&
      (|records| == 1 || Lists(read, size, offset + next, records[1..]))
  }

  /** The change a record carries, its name up to the first NUL. */
  function Carried(r: Record): Change { Change(r.change.action, UpToNul(r.change.name)) }

  function Decoded(records: seq<Record>): seq<Change> {
    if records == [] then [] else [Carried(records[0])] + Decoded(records[1..])
  }

  lemma {:induction false} WalkListed(read: Reader, size: nat, offset: nat, records: seq<Record>)
    requires Lists(read, size, offset, records)
    ensures WalkBy(read, size, offset) == Decoded(records)
    decreases |records|
  {
    if |records| == 1 {
      assert records[1..] == [];
    } else if records != [] {
      WalkListed(read, size, offset + records[0].Size(), records[1..]);
    }
  }

  lemma FoundAt(b: seq<Byte>, before: nat, r: Record, next: nat)
    requires r.Fits() && next < UINT32 && before + r.Size() <= |b|
    requires b[before..before + r.Size()] == EncodeOne(r, next)
    ensures before < |b| && ReaderOf(b)(before) == Found(Carried(r), next)
  {
    HeaderAt(b, before, r, next);
    NameAt(b, before, r, next);
    FoundFields(b, before, r.change, next);
  }

  lemma FoundFields(b: seq<Byte>, offset: nat, c: Change, next: nat)
    requires offset + 12 + 2 * |c.name| <= |b| && U32At(b, offset) == next
    requires U32At(b, offset + 4) == c.action && U32At(b, offset + 8) == 2 * |c.name|
    requires UnitsAt(b, offset + 12, |c.name|) == c.name
    ensures ReaderOf(b)(offset) == Found(Change(c.action, UpToNul(c.name)), next)
  {
    assert U32At(b, offset + 8) / 2 == |c.name|;
    assert ReaderOf(b)(offset) == FindAt(b, offset);
  }

  lemma EncodeFirst(records: seq<Record>, next: nat)
    requires records != [] && (forall r | r in records :: r.Fits())
    requires next == if |records| == 1 then 0 else records[0].Size()
    ensures |Encode(records)| >= records[0].Size()
    ensures Encode(records)[..records[0].Size()] == EncodeOne(records[0], next)
    ensures next != 0 ==> Encode(records)[next..] == Encode(records[1..])
  {
  }

  lemma TailSlices<T>(b: seq<T>, before: nat, tail: seq<T>, n: nat)
    requires before <= |b| && b[before..] == tail && n <= |tail|
    ensures b[before..before + n] == tail[..n] && b[before + n..] == tail[n..]
  {
  }

  lemma EncodingFirst(b: seq<Byte>, read: Reader, before: nat, records: seq<Record>) returns (next: nat)
    requires read == ReaderOf(b) && records != [] && (forall r | r in records :: r.Fits())
    requires before <= |b| && b[before..] == Encode(records)
    ensures next == if |records| == 1 then 0 else records[0].Size()
    ensures before < |b| && read(before) == Found(Carried(records[0]), next)
    ensures |records| > 1 ==> before + next <= |b| && b[before + next..] == Encode(records[1..])
  {
    next := if |records| == 1 then 0 else records[0].Size();
    EncodeFirst(records, next);
    TailSlices(b, before, Encode(records), records[0].Size());
    FoundAt(b, before, records[0], next);
  }

  function NextOf(records: seq<Record>): nat { if |records| <= 1 then 0 else records[0].Size() }

  /** Wherever some records lie, the reader finds the first one, and the others lie behind it. */
  ghost predicate FindsFirst(read: Reader, size: nat, lie: (nat, seq<Record>) -> bool) {
    && (forall o: nat :: lie(o, []) ==> o >= size)
    && (forall o: nat, rs: seq<Record> :: lie(o, rs) && rs != [] ==>
          o < size && read(o) == Found(Carried(rs[0]), NextOf(rs)) && (|rs| > 1 ==> lie(o + NextOf(rs), rs[1..])))
  }

  lemma {:induction false} ListedFrom(read: Reader, size: nat, lie: (nat, seq<Record>) -> bool, before: nat,
                                      records: seq<Record>)
    requires FindsFirst(read, size, lie) && lie(before, records)
    ensures Lists(read, size, before, records)
    decreases |records|
  {
    if |records| > 1 { ListedFrom(read, size, lie, before + NextOf(records), records[1..]); }
  }

  predicate EncodedAt(b: seq<Byte>, o: nat, rs: seq<Record>) {
    o <= |b| && (forall r | r in rs :: r.Fits()) && b[o..] == Encode(rs)
  }

  lemma EncodingFound(b: seq<Byte>, read: Reader, o: nat, rs: seq<Record>)
    requires read == ReaderOf(b) && EncodedAt(b, o, rs)
    ensures rs == [] ==> o >= |b|
    ensures rs != [] ==> o < |b| && read(o) == Found(Carried(rs[0]), NextOf(rs))
    ensures |rs| > 1 ==> EncodedAt(b, o + NextOf(rs), rs[1..])
  {
    if rs != [] {
      var next := EncodingFirst(b, read, o, rs);
    }
  }

  lemma EncodingListed(b: seq<Byte>, records: seq<Record>)
    requires EncodedAt(b, 0, records)
    ensures Lists(ReaderOf(b), |b|, 0, records)
  {
    var lie := (o: nat, rs: seq<Record>) => EncodedAt(b, o, rs);
    assert FindsFirst(ReaderOf(b), |b|, lie) by {
      forall o: nat, rs: seq<Record> | EncodedAt(b, o, rs)
        ensures rs == [] ==> o >= |b|
        ensures rs != [] ==> o < |b| && ReaderOf(b)(o) == Found(Carried(rs[0]), NextOf(rs))
        ensures |rs| > 1 ==> EncodedAt(b, o + NextOf(rs), rs[1..])
      {
        EncodingFound(b, ReaderOf(b), o, rs);
      }
    }
    ListedFrom(ReaderOf(b), |b|, lie, 0, records);
  }

  /** Walking an encoding yields its changes in order, each name cut at its first NUL: NUL-free names
      come back whole. */
  lemma RecordsRoundTrip(records: seq<Record>)
    requires forall r | r in records :: r.Fits()
    ensures Walk(Encode(records)) == Decoded(records)
    ensures (forall r | r in records :: 0 !in r.change.name) ==>
              |Decoded(records)| == |records| &&
              forall i | 0 <= i < |records| :: Decoded(records)[i] == records[i].change
    ensures |Decoded(records)| == |records|
    ensures forall i | 0 <= i < |records| :: CutAtNul(records[i].change, Decoded(records)[i])
  {
    CutNames(records);
    assert Encode(records)[0..] == Encode(records);
    EncodingListed(Encode(records), records);
    WalkListed(ReaderOf(Encode(records)), |Encode(records)|, 0, records);
    if forall r | r in records :: 0 !in r.change.name { WholeNames(records); }
  }

  /** The same action, and the name up to its first NUL. */
  predicate CutAtNul(full: Change, c: Change) {
    && c.action == full.action && c.name <= full.name && 0 !in c.name
    && (c.name == full.name || full.name[|c.name|] == 0)
  }

  lemma {:induction false} CutName(name: seq<Unit>)
    ensures var cut := UpToNul(name); cut <= name && 0 !in cut && (cut == name || name[|cut|] == 0)
  {
    if name != [] && name[0] != 0 { CutName(name[1..]); }
  }

  lemma {:induction false} CutNames(records: seq<Record>)
    ensures |Decoded(records)| == |records|
    ensures forall i | 0 <= i < |records| :: CutAtNul(records[i].change, Decoded(records)[i])
  {
    if records != [] {
      CutName(records[0].change.name);
      CutNames(records[1..]);
    }
  }

  lemma {:induction false} WholeNames(records: seq<Record>)
    requires forall r | r in records :: 0 !in r.change.name
    ensures |Decoded(records)| == |records| && forall i | 0 <= i < |records| :: Decoded(records)[i] == records[i].change
  {
    if records != [] {
      WholeName(records[0].change.name);
      WholeNames(records[1..]);
    }
  }

  lemma {:induction false} WholeName(name: seq<Unit>)
    requires 0 !in name
    ensures UpToNul(name) == name
  {
    if name != [] { WholeName(name[1..]); }
  }

  // --------------------------------------------------- splitting into reads

  lemma {:induction false} OnChangesConcat(w: Watch, s: Seen, a: seq<Change>, b: seq<Change>)
    ensures OnChanges(w, s, a + b) == OnChanges(w, OnChanges(w, s, a), b)
    decreases |a|
  {
    if a == [] {
      assert a + b == b;
    } else {
      assert (a + b)[1..] == a[1..] + b;
      OnChangesConcat(w, OnChange(w, s, a[0]), a[1..], b);
    }
  }

  lemma {:induction false} DecodedConcat(a: seq<Record>, b: seq<Record>)
    ensures Decoded(a + b) == Decoded(a) + Decoded(b)
  {
    if a == [] {
      assert a + b == b;
    } else {
      assert (a + b)[1..] == a[1..] + b;
      DecodedConcat(a[1..], b);
    }
  }

  function Flattened(parts: seq<seq<Record>>): seq<Record> {
    if parts == [] then [] else parts[0] + Flattened(parts[1..])
  }

  ghost predicate AllFit(parts: seq<seq<Record>>) {
    forall i | 0 <= i < |parts| :: forall r | r in parts[i] :: r.Fits()
  }

  /** What the watcher has seen after reads that return these encodings one after the other. */
  ghost function AfterReads(w: Watch, s: Seen, parts: seq<seq<Record>>): Seen
    requires AllFit(parts)
    decreases |parts|
  {
    if parts == [] then s
    else AfterReads(w, OnChanges(w, s, Walk(Encode(parts[0]))), parts[1..])
  }

  /** However a stream of records is split over reads, the events are those of the stream as a whole. */
  lemma {:induction false} SplitDoesNotMatter(w: Watch, s: Seen, parts: seq<seq<Record>>)
    requires AllFit(parts)
    ensures AfterReads(w, s, parts) == OnChanges(w, s, Decoded(Flattened(parts)))
    decreases |parts|
  {
    if parts != [] {
      RecordsRoundTrip(parts[0]);
      DecodedConcat(parts[0], Flattened(parts[1..]));
      OnChangesConcat(w, s, Decoded(parts[0]), Decoded(Flattened(parts[1..])));
      SplitDoesNotMatter(w, OnChanges(w, s, Decoded(parts[0])), parts[1..]);
    }
  }

  // ------------------------------------------------------- pairing renames

  /** What happens in the watched tree: a rename, reported as two adjacent halves, or another change. */
  datatype Op = Move(from: seq<Unit>, to: seq<Unit>) | Single(change: Change)

  predicate WellFormed(ops: seq<Op>) {
    forall i | 0 <= i < |ops| && ops[i].Single? ::
      ops[i].change.action != RENAME_OLD && ops[i].change.action != RENAME_NEW
  }

  function Reported(op: Op): seq<Change> {
    match op
    case Move(from, to) => [Change(RENAME_OLD, from), Change(RENAME_NEW, to)]
    case Single(c) => [c]
  }

  function ReportedAll(ops: seq<Op>): seq<Change> {
    if ops == [] then [] else Reported(ops[0]) + ReportedAll(ops[1..])
  }

  predicate Clean(w: Watch, name: seq<Unit>) { !w.noisy(w.full(name)) }

  /** The events an op ought to cause: a rename with two clean halves exactly one, naming both. */
  function Expected(w: Watch, op: Op): seq<FileEvent> {
    match op
    case Move(from, to) =>
      if Clean(w, from) && Clean(w, to) then [EventOfRename(w, w.full(from), w.full(to))] else []
    case Single(c) => EventsOf(w, c.action, w.full(c.name))
  }

  function ExpectedAll(w: Watch, ops: seq<Op>): seq<FileEvent> {
    if ops == [] then [] else Expected(w, ops[0]) + ExpectedAll(w, ops[1..])
  }

  predicate Leaves(w: Watch, op: Op) { op.Move? && Clean(w, op.from) && !Clean(w, op.to) }

  predicate Arrives(w: Watch, op: Op) { op.Move? && !Clean(w, op.from) && Clean(w, op.to) }

  /** Halves wrongly joined: an arrival while an old half is pending. */
  function Joined(w: Watch, pending: bool, ops: seq<Op>): nat
    decreases |ops|
  {
    if ops == [] then 0
    else if Leaves(w, ops[0]) then Joined(w, true, ops[1..])
    else if Arrives(w, ops[0]) then (if pending then 1 else 0) + Joined(w, false, ops[1..])
    else if ops[0].Move? && Clean(w, ops[0].from) then Joined(w, false, ops[1..])
    else Joined(w, pending, ops[1..])
  }

  /** What one op adds, and whether an old half is pending after it. */
  function AfterOp(w: Watch, s: Seen, op: Op): Seen {
    if Leaves(w, op) then Seen(w.full(op.from), s.emitted)
    else if Arrives(w, op) && s.renamedOld != "" then
      Seen("", s.emitted + [EventOfRename(w, s.renamedOld, w.full(op.to))])
    else
      Seen(if op.Move? && Clean(w, op.from) then "" else s.renamedOld, s.emitted + Expected(w, op))
  }

  lemma OnMove(w: Watch, s: Seen, from: seq<Unit>, to: seq<Unit>)
    requires w.full(from) != ""
    ensures OnChanges(w, s, Reported(Move(from, to))) == AfterOp(w, s, Move(from, to))
  {
    var a, b := Change(RENAME_OLD, from), Change(RENAME_NEW, to);
    TwoChanges(w, s, a, b);
    assert s.emitted + [] == s.emitted;
  }

  lemma OnOp(w: Watch, s: Seen, op: Op)
    requires forall name :: w.full(name) != ""
    requires op.Single? ==> op.change.action != RENAME_OLD && op.change.action != RENAME_NEW
    ensures OnChanges(w, s, Reported(op)) == AfterOp(w, s, op)
  {
    match op
    case Move(from, to) =>
      OnMove(w, s, from, to);
    case Single(c) =>
      assert [c][1..] == [];
      SingleAdds(w, s, c);
  }

  lemma SingleAdds(w: Watch, s: Seen, c: Change)
    requires c.action != RENAME_OLD && c.action != RENAME_NEW
    ensures OnChange(w, s, c) == Seen(s.renamedOld, s.emitted + EventsOf(w, c.action, w.full(c.name)))
  {
    OnChangeReacts(w, s, c);
  }

  lemma TwoChanges(w: Watch, s: Seen, a: Change, b: Change)
    ensures OnChanges(w, s, [a, b]) == OnChange(w, OnChange(w, s, a), b)
  {
    OnChangesFirst(w, s, a, [b]);
    OnChangesFirst(w, OnChange(w, s, a), b, []);
    assert [a, b] == [a] + [b] && [b] == [b] + [];
  }

  lemma OpStep(w: Watch, s: Seen, op: Op, rest: seq<Op>) returns (u: Seen, extra: nat)
    requires forall name :: w.full(name) != ""
    requires op.Single? ==> op.change.action != RENAME_OLD && op.change.action != RENAME_NEW
    ensures u == OnChanges(w, s, Reported(op))
    ensures Joined(w, s.renamedOld != "", [op] + rest) == extra + Joined(w, u.renamedOld != "", rest)
    ensures |u.emitted| == |s.emitted| + |Expected(w, op)| + extra
    ensures extra == 0 ==> u.emitted == s.emitted + Expected(w, op)
  {
    OnOp(w, s, op);
    u := AfterOp(w, s, op);
    assert ([op] + rest)[1..] == rest;
    extra := if Arrives(w, op) && s.renamedOld != "" then 1 else 0;
  }

  lemma AddUp(s: seq<FileEvent>, u: seq<FileEvent>, t: seq<FileEvent>, a: seq<FileEvent>, b: seq<FileEvent>,
              x: nat, y: nat)
    requires |u| == |s| + |a| + x && (x == 0 ==> u == s + a)
    requires |t| == |u| + |b| + y && (y == 0 ==> t == u + b)
    ensures |t| == |s| + |a + b| + (x + y) && (x + y == 0 ==> t == s + (a + b))
  {
  }

  /** Every wrong join is one event too many. */
  lemma {:induction false} ExtraEvents(w: Watch, s: Seen, ops: seq<Op>)
    requires WellFormed(ops) && forall name :: w.full(name) != ""
    ensures |OnChanges(w, s, ReportedAll(ops)).emitted|
         == |s.emitted| + |ExpectedAll(w, ops)| + Joined(w, s.renamedOld != "", ops)
    ensures Joined(w, s.renamedOld != "", ops) == 0 ==>
              OnChanges(w, s, ReportedAll(ops)).emitted == s.emitted + ExpectedAll(w, ops)
    decreases |ops|
  {
    if ops != [] {
      var op, rest := ops[0], ops[1..];
      assert ops == [op] + rest;
      var u, extra := OpStep(w, s, op, rest);
      OnChangesConcat(w, s, Reported(op), ReportedAll(rest));
      ExtraEvents(w, u, rest);
      AddUp(s.emitted, u.emitted, OnChanges(w, u, ReportedAll(rest)).emitted, Expected(w, op), ExpectedAll(w, rest),
            extra, Joined(w, u.renamedOld != "", rest));
    }
  }

  predicate CleanOld(w: Watch, op: Op) { op.Move? && Clean(w, op.from) }

  /** Op j is an arrival, and no earlier rename shows a clean old half. */
  ghost predicate ExposedAt(w: Watch, ops: seq<Op>, j: int) {
    0 <= j < |ops| && Arrives(w, ops[j]) && forall k | 0 <= k < j :: !CleanOld(w, ops[k])
  }

  ghost predicate Exposed(w: Watch, ops: seq<Op>) { exists j :: ExposedAt(w, ops, j) }

  /** Op i leaves, and an arrival follows before the next rename with a clean old half. */
  ghost predicate TrapAt(w: Watch, ops: seq<Op>, i: int) {
    0 <= i < |ops| && Leaves(w, ops[i]) && Exposed(w, ops[i + 1..])
  }

  ghost predicate Trap(w: Watch, ops: seq<Op>) { exists i :: TrapAt(w, ops, i) }

  lemma ExposedStep(w: Watch, ops: seq<Op>)
    requires ops != []
    ensures Exposed(w, ops) <==> Arrives(w, ops[0]) || (!CleanOld(w, ops[0]) && Exposed(w, ops[1..]))
  {
    if Arrives(w, ops[0]) {
      assert ExposedAt(w, ops, 0);
    } else if Exposed(w, ops) {
      var j :| ExposedAt(w, ops, j);
      assert ExposedAt(w, ops[1..], j - 1);
    } else if Exposed(w, ops[1..]) {
      var j :| ExposedAt(w, ops[1..], j);
      assert CleanOld(w, ops[0]) || ExposedAt(w, ops, j + 1);
    }
  }

  lemma TrapStep(w: Watch, ops: seq<Op>)
    requires ops != []
    ensures Trap(w, ops) <==> (Leaves(w, ops[0]) && Exposed(w, ops[1..])) || Trap(w, ops[1..])
  {
    if Leaves(w, ops[0]) && Exposed(w, ops[1..]) { assert TrapAt(w, ops, 0); }
    if Trap(w, ops[1..]) {
      var i :| TrapAt(w, ops[1..], i);
      assert ops[1..][i + 1..] == ops[i + 2..];
      assert TrapAt(w, ops, i + 1);
    }
    if Trap(w, ops) {
      var i :| TrapAt(w, ops, i);
      if i > 0 {
        assert ops[1..][i..] == ops[i + 1..];
        assert TrapAt(w, ops[1..], i - 1);
      }
    }
  }

  lemma {:induction false} JoinedIff(w: Watch, pending: bool, ops: seq<Op>)
    ensures Joined(w, pending, ops) > 0 <==> (pending && Exposed(w, ops)) || Trap(w, ops)
    decreases |ops|
  {
    if ops != [] {
      ExposedStep(w, ops);
      TrapStep(w, ops);
      JoinedIff(w, true, ops[1..]);
      JoinedIff(w, false, ops[1..]);
    }
  }

  /** For renames reported as adjacent halves, the watcher emits exactly the expected events, unless some
      rename from a clean to a noisy name is followed, before any other rename with a clean old name, by
      one from a noisy to a clean name; then it emits an event that joins two different renames. */
  lemma PairsCorrectlyIff(w: Watch, ops: seq<Op>)
    requires WellFormed(ops) && forall name :: w.full(name) != ""
    ensures OnChanges(w, Seen("", []), ReportedAll(ops)).emitted == ExpectedAll(w, ops) <==> !Trap(w, ops)
  {
    ExtraEvents(w, Seen("", []), ops);
    JoinedIff(w, false, ops);
    assert [] + ExpectedAll(w, ops) == ExpectedAll(w, ops);
  }

  /** Exactly one event is due, naming both paths, and it is a delete just for the recycle bin. */
  ghost predicate OneEvent(w: Watch, op: Op)
    requires op.Move?
  {
    |Expected(w, op)| == 1 &&
    var e := Expected(w, op)[0];
    e.path == w.full(op.from) && e.newPath == w.full(op.to) && (e.kind == "file.deleted" <==> w.recycled(e.newPath))
  }

  /** In particular, when both halves of every rename pass the filter, each rename yields exactly one
      event, and it names both paths. */
  lemma CleanRenames(w: Watch, ops: seq<Op>)
    requires WellFormed(ops) && forall name :: w.full(name) != ""
    requires forall i | 0 <= i < |ops| && ops[i].Move? :: Clean(w, ops[i].from) && Clean(w, ops[i].to)
    ensures OnChanges(w, Seen("", []), ReportedAll(ops)).emitted == ExpectedAll(w, ops)
    ensures forall i | 0 <= i < |ops| && ops[i].Move? :: OneEvent(w, ops[i])
  {
    assert !Trap(w, ops) by {
      forall i ensures !TrapAt(w, ops, i) {}
    }
    PairsCorrectlyIff(w, ops);
    forall i | 0 <= i < |ops| && ops[i].Move? ensures OneEvent(w, ops[i]) {
      var e := EventOfRename(w, w.full(ops[i].from), w.full(ops[i].to));
      assert Expected(w, ops[i]) == [e];
    }
  }

  /** A document renamed to a temporary name, then another temporary file renamed to a document: the
      watcher reports one rename, from the first document to the second. */
  lemma JoinedRenames(w: Watch, a: seq<Unit>, tmp: seq<Unit>, tmp2: seq<Unit>, b: seq<Unit>)
    requires forall name :: w.full(name) != ""
    requires Clean(w, a) && !Clean(w, tmp) && !Clean(w, tmp2) && Clean(w, b)
    ensures var ops := [Move(a, tmp), Move(tmp2, b)];
            OnChanges(w, Seen("", []), ReportedAll(ops)).emitted == [EventOfRename(w, w.full(a), w.full(b))] &&
            ExpectedAll(w, ops) == []
  {
    var first, second := Move(a, tmp), Move(tmp2, b);
    TwoReports(first, second);
    assert [first, second][1..] == [second] && [second][1..] == [];
    assert ExpectedAll(w, [second]) == Expected(w, second) + [];
    OnChangesConcat(w, Seen("", []), Reported(first), Reported(second));
    OnOp(w, Seen("", []), first);
    OnOp(w, Seen(w.full(a), []), second);
  }

  lemma TwoReports(first: Op, second: Op)
    ensures ReportedAll([first, second]) == Reported(first) + Reported(second)
  {
    assert [first, second][1..] == [second];
    assert [second][1..] == [];
    assert ReportedAll([second]) == Reported(second) + [];
  }

  // ------------------------------------------------ a case with the real filter

  /** The name as text, and back, for ASCII names. */
  function TextOf(name: seq<Unit>): string {
    if name == [] then "" else [if name[0] < 0x80 then name[0] as char else '?'] + TextOf(name[1..])
  }

  predicate Ascii(s: string) { forall i | 0 <= i < |s| :: s[i] as int < 0x80 }

  function UnitsOf(s: string): seq<Unit>
    requires Ascii(s)
  {
    if s == "" then [] else [s[0] as int] + UnitsOf(s[1..])
  }

  lemma {:induction false} TextOfUnits(s: string)
    requires Ascii(s)
    ensures TextOf(UnitsOf(s)) == s
  {
    if s != "" { TextOfUnits(s[1..]); }
  }

  /** The watcher of a whole drive. */
  ghost predicate WatchesDrive(w: Watch, drive: char, f: Filter, bin: string) {
    && (forall name :: w.full(name) == [drive] + ":\\" + TextOf(name))
    && (forall path :: w.noisy(path) == Noisy(path, f))
    && forall path :: w.recycled(path) == Contains(Lower(path), bin)
  }

  /** There is such a watcher. */
  function DriveWatch(drive: char, f: Filter, bin: string): (w: Watch)
    ensures WatchesDrive(w, drive, f, bin)
  {
    Watch((name: seq<Unit>) => [drive] + ":\\" + TextOf(name), path => Noisy(path, f),
          path => Contains(Lower(path), bin), "")
  }

  /** The name of a file right below the drive: plain ASCII, and nothing the recycle bin is known by. */
  predicate RootFile(name: string, ext: string) {
    name != "" && Plain(name) && Plain(ext) && Ascii(name + "." + ext) && '$' !in name + "." + ext
  }

  ghost predicate RootName(file: seq<Unit>, name: string, ext: string) {
    RootFile(name, ext) && file == UnitsOf(name + "." + ext)
  }

  predicate Listed(f: Filter, name: string, ext: string) { "." + ext in f.exts || name + "." + ext in f.names }

  lemma RootNamePath(w: Watch, drive: char, f: Filter, bin: string, file: seq<Unit>, name: string, ext: string)
    requires WatchesDrive(w, drive, f, bin) && RootName(file, name, ext)
    ensures w.full(file) == InRoot(drive, name, ext)
  {
    TextOfUnits(name + "." + ext);
    assert [drive] + ":\\" + (name + "." + ext) == InRoot(drive, name, ext);
  }

  lemma InRootCleanIff(drive: char, f: Filter, name: string, ext: string)
    requires Letter(drive) && WholeDirectories(f) && RootFile(name, ext)
    ensures Noisy(InRoot(drive, name, ext), f) <==> Listed(f, name, ext)
  {
    InRootNoisyIff(drive, name, ext, f);
    NoOfficePrefix(name + "." + ext);
  }

  lemma NoOfficePrefix(file: string)
    ensures HasPrefix(file, "~$") ==> '$' in file
  {
    assert HasPrefix(file, "~$") ==> file[1] == '$';
  }

  lemma NotRecycled(drive: char, bin: string, name: string, ext: string)
    requires Letter(drive) && RootFile(name, ext) && bin != "" && bin[0] == '$'
    ensures !Contains(Lower(InRoot(drive, name, ext)), bin)
  {
    ContainsFirst(Lower(InRoot(drive, name, ext)), bin);
  }

  /** Such a file passes the filter exactly if neither its extension nor its name is listed. */
  lemma RootNameCleanIff(w: Watch, drive: char, f: Filter, bin: string, file: seq<Unit>, name: string, ext: string)
    requires Letter(drive) && WholeDirectories(f) && bin != "" && bin[0] == '$'
    requires WatchesDrive(w, drive, f, bin) && RootName(file, name, ext)
    ensures w.full(file) == InRoot(drive, name, ext) && !w.recycled(w.full(file))
    ensures Clean(w, file) <==> !Listed(f, name, ext)
  {
    var path := w.full(file);
    RootNamePath(w, drive, f, bin, file, name, ext);
    InRootCleanIff(drive, f, name, ext);
    NotRecycled(drive, bin, name, ext);
    assert w.recycled(path) == Contains(Lower(path), bin);
    assert w.noisy(path) == Noisy(path, f);
  }

  /** On a drive, a file that is not listed is renamed to a listed one, and another listed one to a third
      that is not: the event says that the first was renamed to the last. */
  lemma JoinedOnDrive(w: Watch, drive: char, f: Filter, bin: string, first: Op, second: Op, name: string, ext: string,
                      t: string, tmp: string, u: string, tmp2: string, newName: string, newExt: string)
    requires Letter(drive) && WholeDirectories(f) && bin != "" && bin[0] == '$'
    requires WatchesDrive(w, drive, f, bin) && first.Move? && second.Move?
    requires RootName(first.from, name, ext) && !Listed(f, name, ext)
    requires RootName(first.to, t, tmp) && Listed(f, t, tmp)
    requires RootName(second.from, u, tmp2) && Listed(f, u, tmp2)
    requires RootName(second.to, newName, newExt) && !Listed(f, newName, newExt)
    ensures OnChanges(w, Seen("", []), ReportedAll([first, second])).emitted ==
              [FileEvent("file.renamed", "file_activity", "info", InRoot(drive, name, ext),
                         InRoot(drive, newName, newExt), "")]
  {
    RootNameCleanIff(w, drive, f, bin, first.from, name, ext);
    RootNameCleanIff(w, drive, f, bin, first.to, t, tmp);
    RootNameCleanIff(w, drive, f, bin, second.from, u, tmp2);
    RootNameCleanIff(w, drive, f, bin, second.to, newName, newExt);
    FullNotEmpty(w, drive, f, bin);
    JoinedMoves(w, first, second);
  }

  lemma FullNotEmpty(w: Watch, drive: char, f: Filter, bin: string)
    requires WatchesDrive(w, drive, f, bin)
    ensures forall name :: w.full(name) != ""
  {
  }

  lemma JoinedMoves(w: Watch, first: Op, second: Op)
    requires first.Move? && second.Move? && forall name :: w.full(name) != ""
    requires Clean(w, first.from) && !Clean(w, first.to) && !Clean(w, second.from) && Clean(w, second.to)
    requires !w.recycled(w.full(second.to))
    ensures OnChanges(w, Seen("", []), ReportedAll([first, second])).emitted ==
              [FileEvent("file.renamed", "file_activity", "info", w.full(first.from), w.full(second.to), "")]
  {
    JoinedRenames(w, first.from, first.to, second.from, second.to);
  }

  /** With the program's filter: report.docx is renamed to a.tmp, then b.tmp to plan.docx, and the watcher
      reports that report.docx was renamed to plan.docx. */
  lemma ReportBecomesPlan(w: Watch, f: Filter, bin: string, first: Op, second: Op, report: string, a: string,
                          b: string, plan: string, docx: string, tmp: string)
    requires WatchesDrive(w, 'E', f, bin) && bin == "$recycle.bin" && f == PROGRAM_FILTER
    requires docx == "docx" && tmp == "tmp"
    requires report == "report" && a == "a" && b == "b" && plan == "plan"
    requires first.Move? && RootName(first.from, report, docx) && RootName(first.to, a, tmp)
    requires second.Move? && RootName(second.from, b, tmp) && RootName(second.to, plan, docx)
    ensures OnChanges(w, Seen("", []), ReportedAll([first, second])).emitted ==
              [FileEvent("file.renamed", "file_activity", "info", InRoot('E', report, docx), InRoot('E', plan, docx),
                         "")]
  {
    ProgramFilterHasWholeDirectories(f);
    DocxNotListed(f, report, docx);
    DocxNotListed(f, plan, docx);
    TmpListed(f, a, tmp);
    TmpListed(f, b, tmp);
    JoinedOnDrive(w, 'E', f, bin, first, second, report, docx, a, tmp, b, tmp, plan, docx);
  }

  /** There are such renames. */
  lemma SuchRenames(name: string, ext: string)
    requires (ext == "docx" && (name == "report" || name == "plan")) || (ext == "tmp" && (name == "a" || name == "b"))
    ensures RootFile(name, ext) && RootName(UnitsOf(name + "." + ext), name, ext)
  {
  }

  lemma TmpListed(f: Filter, name: string, tmp: string)
    requires f == PROGRAM_FILTER && tmp == "tmp"
    ensures Listed(f, name, tmp)
  {
    assert "." + tmp == ".tmp" == f.exts[0];
  }

  lemma DocxNotListed(f: Filter, name: string, docx: string)
    requires f == PROGRAM_FILTER && docx == "docx"
    ensures !Listed(f, name, docx)
  {
    var dotted, file := "." + docx, name + "." + docx;
    assert |dotted| == 5 && dotted[1] == 'd' && dotted[2] == 'o';
    assert file[|file| - 1] == 'x';
    NotNamed(f, file);
  }

  lemma NotNamed(f: Filter, file: string)
    requires f.names == NOISY_NAMES && file != "" && file[|file| - 1] == 'x'
    ensures file !in f.names
  {
    forall i | 0 <= i < |f.names| ensures f.names[i] != file {
      assert i == 0 || i == 1 || i == 2;
    }
  }
}
