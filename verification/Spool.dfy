/** The disk spool of one upstream: an append-only file of framed records with a read
    and a write offset, and a companion file that persists the read offset. */
module Spools {
  import opened Framing
  import opened SpoolQueue
  import opened Wrappers

  const MAX_OFFSET: nat := 0x8000_0000_0000_0000

  /** The read offset that a reopened spool starts from: the eight little-endian bytes
      of the offset file as a signed 64-bit number, or 0 if the file is absent, has
      another length, is negative or lies beyond the end of the spool. */
  function LoadOffset(offsetFile: Option<Bytes>, size: nat): (off: nat)
    ensures off <= size
  {
    match offsetFile
    case Some(b) =>
      var n := FromLittleEndian(b);
      if |b| == 8 && n < MAX_OFFSET && n <= size then n else 0
    case None => 0
  }

  /** The position in the file of record number `n`. */
  ghost function Position(q: Queue, n: nat): nat
    requires q.start <= n <= |q.log|
  {
    |EncodeAll(q.log[q.start..n])|
  }

  lemma {:induction false} PositionMonotone(q: Queue, m: nat, n: nat)
    requires q.start <= m <= n <= |q.log|
    ensures Position(q, n) == Position(q, m) + |EncodeAll(q.log[m..n])|
    ensures Position(q, m) <= Position(q, n)
    ensures m < n ==> Position(q, m) < Position(q, n)
  {
    EncodeAllBetween(q.log, q.start, m, n);
    EncodeAllEmpty(q.log[m..n]);
  }

  /** `file` holds the records of the queue that are still on disk. */
  ghost predicate OnDisk(q: Queue, file: Bytes)
  {
    q.Valid() && file == EncodeAll(q.log[q.start..])
  }

  /** The disk image of a queue; without an offset file nothing was ever acknowledged. */
  ghost predicate Image(q: Queue, file: Bytes, offsetFile: Option<Bytes>)
  {
    && OnDisk(q, file)
    && |file| < MAX_OFFSET
    && offsetFile == (if offsetFile.None? && q.saved == q.start then None
                      else Some(LittleEndian(Position(q, q.saved), 8)))
  }

  lemma {:induction false} ImageLoads(q: Queue, file: Bytes, offsetFile: Option<Bytes>)
    requires Image(q, file, offsetFile)
    ensures LoadOffset(offsetFile, |file|) == Position(q, q.saved)
  {
    PositionMonotone(q, q.saved, |q.log|);
    assert q.log[q.start..|q.log|] == q.log[q.start..];
    OffsetFileRoundTrip(Position(q, q.saved), |file|);
  }

  /** The reader's ticket names a record that is still on disk. */
  ghost predicate TicketOnDisk(q: Queue, ticket: Option<nat>)
  {
    ticket.Some? ==> q.start <= ticket.value <= |q.fates| && ticket.value < |q.log|
  }

  lemma {:induction false} PendingOnDisk(q: Queue, file: Bytes)
    requires OnDisk(q, file)
    ensures var p := Position(q, |q.fates|);
      && p <= |file|
      && file[p..] == EncodeAll(q.Pending())
      && |file| - p == |EncodeAll(q.Pending())|
      && (p == |file| <==> q.Pending() == [])
  {
    EncodeAllRest(q.log, q.start, |q.fates|);
    EncodeAllEmpty(q.Pending());
  }

  lemma {:induction false} IndexFrom(log: seq<Record>, start: nat, n: nat)
    requires start <= n < |log|
    ensures Holds(EncodeAll(log[start..]), |EncodeAll(log[start..n])|, Encode(log[n]))
    ensures EncodeAll(log[start..n + 1]) == EncodeAll(log[start..n]) + Encode(log[n])
  {
    var rest, k := log[start..], n - start;
    assert rest[..k] == log[start..n] && rest[..k + 1] == log[start..n + 1] && rest[k] == log[n] by {
      SliceOfRest(log, start, n);
      SliceOfRest(log, start, n + 1);
    }
    EncodeAllIndex(rest, k);
  }

  /** Record `n` lies in the file at its position. */
  lemma {:induction false} RecordLiesAtPosition(q: Queue, file: Bytes, n: nat)
    requires OnDisk(q, file) && q.start <= n < |q.log|
    ensures Holds(file, Position(q, n), Encode(q.log[n]))
    ensures Position(q, n + 1) == Position(q, n) + |Encode(q.log[n])|
  {
    IndexFrom(q.log, q.start, n);
  }

  lemma SliceOfRest<T>(s: seq<T>, a: nat, b: nat)
    requires a <= b <= |s|
    ensures s[a..][..b - a] == s[a..b]
  {
  }

  lemma {:induction false} BytesOfOffset(off: nat)
    requires off < MAX_OFFSET
    ensures FromLittleEndian(LittleEndian(off, 8)) == off
  {
    assert Pow256(4) == LIMIT32;
    assert Pow256(8) == 256 * (256 * (256 * (256 * Pow256(4))));
    LittleEndianRoundTrip(off, 8);
  }

  lemma {:induction false} OffsetFileRoundTrip(off: nat, size: nat)
    requires off <= size < MAX_OFFSET
    ensures LoadOffset(Some(LittleEndian(off, 8)), size) == off
  {
    BytesOfOffset(off);
  }

  /** Any offset but zero is loaded if and only if the file holds its eight bytes and it
      lies within the spool. */
  lemma {:induction false} OffsetLoadedExactlyWhen(offsetFile: Option<Bytes>, size: nat, off: nat)
    requires off > 0
    ensures LoadOffset(offsetFile, size) == off <==>
      off <= size && off < MAX_OFFSET && offsetFile == Some(LittleEndian(off, 8))
  {
    if off <= size && off < MAX_OFFSET && offsetFile == Some(LittleEndian(off, 8)) {
      BytesOfOffset(off);
    }
    if LoadOffset(offsetFile, size) == off {
      LittleEndianOnto(offsetFile.value);
    }
  }

  /** Which of the records an append at `off` and the following ones accept, and the write
      offset after them. */
  function AcceptedOf(off: nat, rs: seq<Record>, faults: seq<bool>): (r: (seq<Record>, nat))
    requires |faults| == |rs|
  {
    if rs == [] then ([], off)
    else
      var n := |rs| - 1;
      var (written, end) := AcceptedOf(off, rs[..n], faults[..n]);
      var size := |Encode(Clip(rs[n]))|;
      if faults[n] || end + size >= MAX_OFFSET then (written, end) else (written + [rs[n]], end + size)
  }

  /** From the queue `q` and the offset `off`, the writes have led to `now` and `end`, and
      the record that the reader has taken still lies where it did. */
  ghost predicate Wrote(q: Queue, off: nat, maxBytes: int, ticket: Option<nat>, rs: seq<Record>, faults: seq<bool>,
                        written: seq<Record>, now: Queue, end: nat)
  {
    && q.Valid() && |faults| == |rs|
    && (written, end) == AcceptedOf(off, rs, faults)
    && now == AppendAll(q, written, maxBytes)
    && (ticket.Some? && q.start <= ticket.value <= |q.log| ==> Position(now, ticket.value) == Position(q, ticket.value))
  }

  lemma {:induction false} AcceptedOne(off: nat, rs: seq<Record>, faults: seq<bool>)
    requires 0 < |rs| == |faults|
    ensures var r := rs[|rs| - 1];
      var (written, end) := AcceptedOf(off, rs[..|rs| - 1], faults[..|rs| - 1]);
      AcceptedOf(off, rs, faults) == if faults[|rs| - 1] || end + |Encode(Clip(r))| >= MAX_OFFSET then (written, end)
                                     else (written + [r], end + |Encode(Clip(r))|)
  {
  }

  /** The disk accepts one more record. */
  lemma {:induction false} WroteOne(q: Queue, off: nat, maxBytes: int, ticket: Option<nat>, rs: seq<Record>,
                                    faults: seq<bool>, written: seq<Record>, now: Queue, end: nat,
                                    now': Queue, end': nat)
    requires 0 < |rs| == |faults|
    requires Wrote(q, off, maxBytes, ticket, rs[..|rs| - 1], faults[..|rs| - 1], written, now, end)
    requires !faults[|rs| - 1] && end' == end + |Encode(Clip(rs[|rs| - 1]))| < MAX_OFFSET
    requires now' == Append(now, Clip(rs[|rs| - 1]), maxBytes)
    ensures Wrote(q, off, maxBytes, ticket, rs, faults, written + [rs[|rs| - 1]], now', end')
  {
    var r := rs[|rs| - 1];
    AcceptedOne(off, rs, faults);
    AppendAllSnoc(q, written, r, maxBytes);
    assert now' == AppendAll(q, written + [r], maxBytes);
    if ticket.Some? && q.start <= ticket.value <= |q.log| {
      AppendKeepsTicket(now, Clip(r), maxBytes, ticket.value);
    }
  }

  /** The disk does not. */
  lemma {:induction false} WroteNone(q: Queue, off: nat, maxBytes: int, ticket: Option<nat>, rs: seq<Record>,
                                     faults: seq<bool>, written: seq<Record>, now: Queue, end: nat)
    requires 0 < |rs| == |faults|
    requires Wrote(q, off, maxBytes, ticket, rs[..|rs| - 1], faults[..|rs| - 1], written, now, end)
    requires faults[|rs| - 1] || end + |Encode(Clip(rs[|rs| - 1]))| >= MAX_OFFSET
    ensures Wrote(q, off, maxBytes, ticket, rs, faults, written, now, end)
  {
    AcceptedOne(off, rs, faults);
  }

  /** What a spool's fields have to do with its queue. */
  ghost predicate Stores(q: Queue, ticket: Option<nat>, file: Bytes, offsetFile: Option<Bytes>, readOff: nat,
                         writeOff: nat)
  {
    && Image(q, file, offsetFile)
    && writeOff == |file|
    && readOff == Position(q, |q.fates|)
    && TicketOnDisk(q, ticket)
  }

  class Spool {
    var file: Bytes
    var offsetFile: Option<Bytes>
    var readOff: nat
    var writeOff: nat
    var dropped: nat
    const maxBytes: int

    ghost var queue: Queue
    /** The number of the record that the one reader has taken and not yet settled. */
    ghost var ticket: Option<nat>

    ghost predicate Valid()
      reads this
    {
      Stores(queue, ticket, file, offsetFile, readOff, writeOff)
    }

    /** The bytes in [readOff, writeOff) are the encodings of the pending records. */
    lemma {:induction false} UndeliveredBytes()
      requires Valid()
      ensures readOff <= writeOff
      ensures file[readOff..writeOff] == EncodeAll(queue.Pending())
      ensures writeOff - readOff == |EncodeAll(queue.Pending())|
      ensures readOff == writeOff <==> queue.Pending() == []
    {
      PendingOnDisk(queue, file);
    }

    /** Opening whatever the disk holds. If that is the image of a queue, the spool
        resumes that queue from its persisted offset. */
    constructor Open(disk: Bytes, offsets: Option<Bytes>, maxBytes: int, ghost q: Queue)
      ensures file == disk && offsetFile == offsets && writeOff == |disk| && dropped == 0
      ensures this.maxBytes == maxBytes
      ensures readOff == LoadOffset(offsets, |disk|)
      ensures ticket == None
      ensures Image(q, disk, offsets) ==> Valid() && queue == Reopen(q)
    {
      if Image(q, disk, offsets) {
        ImageLoads(q, disk, offsets);
        ReopenedImage(q, disk, offsets);
      }
      this.file, this.offsetFile, this.maxBytes := disk, offsets, maxBytes;
      writeOff, dropped := |disk|, 0;
      readOff := LoadOffset(offsets, |disk|);
      queue := if Image(q, disk, offsets) then Reopen(q) else EMPTY_QUEUE;
      ticket := None;
    }

    /** Appends a record and enforces the cap. An append that the disk refuses, or
        that no 64-bit offset could address, changes nothing. */
    method Write(r: Record, diskFault: bool) returns (droppedNow: Option<nat>)
      requires Valid()
      modifies this
      ensures Valid()
      ensures ticket == old(ticket) && offsetFile == old(offsetFile)
      ensures droppedNow.None? <==> diskFault || old(writeOff) + |Encode(Clip(r))| >= MAX_OFFSET
      ensures droppedNow.None? ==> unchanged(this)
      ensures droppedNow.Some? ==>
        && queue == Append(old(queue), Clip(r), maxBytes)
        && droppedNow.value == |queue.fates| - |old(queue).fates|
        && dropped == old(dropped) + droppedNow.value
        && old(file) + Encode(Clip(r)) == file
        && writeOff == old(writeOff) + |Encode(Clip(r))|
    {
      var rec := Marshal(r);
      if diskFault || writeOff + rec.Length >= MAX_OFFSET {
        assert rec.Length == |rec[..]|;
        return None;
      }
      var before := dropped;
      AppendedImage(queue, Clip(r), file, offsetFile);
      file := file + rec[..];
      writeOff := writeOff + rec.Length;
      queue := queue.(log := queue.log + [Clip(r)]);
      EnforceCap();
      return Some(dropped - before);
    }

    /** Drops the oldest pending records until the cap holds. */
    method EnforceCap()
      requires Valid()
      modifies `readOff, `dropped, `queue
      ensures Valid()
      ensures queue == Trim(old(queue), maxBytes)
      ensures dropped == old(dropped) + (|queue.fates| - |old(queue).fates|)
    {
      ghost var q := queue;
      while writeOff - readOff > maxBytes
        invariant writeOff == |file|
        invariant CapState(q, queue, maxBytes, file, offsetFile, ticket, readOff)
        invariant dropped == old(dropped) + (|queue.fates| - |q.fates|)
        decreases |queue.log| - |queue.fates|
      {
        var size := HeadSize(q);
        if size.None? || size.value == 0 {
          break;
        }
        readOff := readOff + size.value;
        dropped := dropped + 1;
        queue := AfterDrop(queue);
      }
      CapDone(q, queue, maxBytes, file, offsetFile, ticket, readOff);
    }

    /** The size of the record at the read offset. While the cap is exceeded it is that
        of the head of the queue, and moving over it is one more step of the trimming. */
    method HeadSize(ghost q: Queue) returns (size: Option<nat>)
      requires CapState(q, queue, maxBytes, file, offsetFile, ticket, readOff)
      requires |file| - readOff > maxBytes
      ensures size.None? <==> queue.Pending() == []
      ensures size.Some? ==>
        && size.value > 0 && |queue.fates| < |queue.log|
        && CapState(q, AfterDrop(queue), maxBytes, file, offsetFile, ticket, readOff + size.value)
    {
      CapStep(q, queue, maxBytes, file, offsetFile, ticket, readOff);
      size := RecordSizeAt(file, readOff);
    }

    /** The locked part of a read: where the next record would start, if there is one. */
    method BeginRead() returns (startOff: Option<nat>)
      requires Valid()
      modifies `ticket
      ensures Valid()
      ensures startOff.None? <==> queue.Pending() == []
      ensures startOff.Some? ==> ticket == Some(|queue.fates|) && startOff.value == readOff
    {
      UndeliveredBytes();
      if readOff >= writeOff {
        ticket := None;
        return None;
      }
      ticket := Some(|queue.fates|);
      startOff := Some(readOff);
    }

    /** The unlocked part of a read: any number of writes may have happened since
        BeginRead, and the cap may even have dropped the record meanwhile. */
    method FinishRead(startOff: nat) returns (rec: ReadResult)
      requires Valid()
      requires ticket.Some? && startOff == Position(queue, ticket.value)
      ensures rec == Got(queue.log[ticket.value], |Encode(queue.log[ticket.value])|, startOff)
    {
      RecordLiesAtPosition(queue, file, ticket.value);
      DecodeEncoded(file, startOff, queue.log[ticket.value]);
      rec := DecodeAt(file, startOff);
    }

    /** Acknowledges the record that the reader took. */
    method Acknowledge(startOff: nat, size: nat)
      requires Valid() && ticket.Some?
      requires startOff == Position(queue, ticket.value)
      requires size == |Encode(queue.log[ticket.value])|
      modifies this
      ensures Valid()
      ensures queue == Commit(old(queue), old(ticket).value)
      ensures ticket == None && dropped == old(dropped)
      ensures queue.Pending() == [] ==> file == [] && readOff == writeOff == 0
      ensures queue.Pending() != [] ==> file == old(file)
    {
      CommitImage(queue, file, ticket.value);
      ghost var p := CommittedOffset(queue, ticket.value);
      queue, ticket := Commit(queue, ticket.value), None;
      if readOff == startOff {
        readOff := readOff + size;
      }
      assert readOff == p;
      if readOff >= writeOff {
        Compact();
      } else {
        offsetFile := Some(LittleEndian(readOff, 8));
      }
      assert Stores(queue, None, file, offsetFile, readOff, writeOff);
    }

    /** Any number of writes, some of which may fail. */
    method WriteAll(rs: seq<Record>, faults: seq<bool>) returns (written: seq<Record>)
      requires Valid() && |faults| == |rs|
      modifies this
      ensures Valid() && ticket == old(ticket)
      ensures Wrote(old(queue), old(writeOff), maxBytes, ticket, rs, faults, written, queue, writeOff)
    {
      if rs == [] {
        return [];
      }
      var n := |rs| - 1;
      written := WriteAll(rs[..n], faults[..n]);
      ghost var q, end := queue, writeOff;
      var droppedNow := Write(rs[n], faults[n]);
      if droppedNow.Some? {
        WroteOne(old(queue), old(writeOff), maxBytes, ticket, rs, faults, written, q, end, queue, writeOff);
        written := written + [rs[n]];
      } else {
        WroteNone(old(queue), old(writeOff), maxBytes, ticket, rs, faults, written, q, end);
      }
    }

    /** One turn of the send loop, while writers go on before the record is read and
        while it is sent: whatever they write, and even if the cap drops the record in
        the meantime, what is sent is the record that was the head when the turn began,
        and only that one is acknowledged. */
    method Deliver(reading: seq<Record>, sending: seq<Record>, faults: seq<bool>, accepted: bool)
      returns (sent: Option<Record>, written: seq<Record>)
      requires Valid() && |faults| == |reading| + |sending|
      modifies this
      ensures Valid()
      ensures sent.None? <==> old(queue).Pending() == []
      ensures sent.Some? ==> sent.value == old(queue).Pending()[0]
      ensures var (first, off) := AcceptedOf(old(writeOff), reading, faults[..|reading|]);
        written == if sent.None? then first else first + AcceptedOf(off, sending, faults[|reading|..]).0
      ensures var q := AppendAll(old(queue), written, maxBytes);
        queue == if sent.Some? && accepted then Commit(q, |old(queue).fates|) else q
    {
      var startOff := BeginRead();
      written := WriteAll(reading, faults[..|reading|]);
      if startOff.None? {
        return None, written;
      }
      var rec := FinishRead(startOff.value);
      var more := WriteAll(sending, faults[|reading|..]);
      AppendAllConcat(old(queue), written, more, maxBytes);
      written := written + more;
      if accepted {
        Acknowledge(rec.startOff, rec.size);
      }
      return Some(rec.record), written;
    }

    method Compact()
      modifies `file, `offsetFile, `readOff, `writeOff
      ensures file == [] && readOff == writeOff == 0 && offsetFile == Some(LittleEndian(0, 8))
    {
      file := [];
      readOff, writeOff := 0, 0;
      offsetFile := Some(LittleEndian(0, 8));
    }

    method PendingBytes() returns (n: nat)
      requires Valid()
      ensures n == |EncodeAll(queue.Pending())|
    {
      UndeliveredBytes();
      n := writeOff - readOff;
    }
  }

  lemma {:induction false} AppendedOnDisk(q: Queue, r: Record, file: Bytes)
    requires OnDisk(q, file) && Fits(r)
    ensures OnDisk(q.(log := q.log + [r]), file + Encode(r))
  {
    assert (q.log + [r])[q.start..] == q.log[q.start..] + [r];
    EncodeAllSnoc(q.log[q.start..], r);
  }

  lemma {:induction false} AppendKeepsPosition(q: Queue, r: Record, n: nat)
    requires q.start <= n <= |q.log|
    ensures Position(q.(log := q.log + [r]), n) == Position(q, n)
  {
    assert (q.log + [r])[q.start..n] == q.log[q.start..n];
  }

  lemma {:induction false} AppendKeepsTicket(q: Queue, r: Record, maxBytes: int, n: nat)
    requires q.Valid() && Fits(r) && q.start <= n <= |q.log|
    ensures Position(Append(q, r, maxBytes), n) == Position(q, n)
  {
    assert (q.log + [r])[q.start..n] == q.log[q.start..n];
  }

  lemma {:induction false} AppendedImage(q: Queue, r: Record, file: Bytes, offsetFile: Option<Bytes>)
    requires Image(q, file, offsetFile) && Fits(r) && |file| + |Encode(r)| < MAX_OFFSET
    ensures Image(q.(log := q.log + [r]), file + Encode(r), offsetFile)
    ensures Position(q.(log := q.log + [r]), |q.fates|) == Position(q, |q.fates|)
  {
    AppendedOnDisk(q, r, file);
    AppendKeepsPosition(q, r, q.saved);
    AppendKeepsPosition(q, r, |q.fates|);
  }

  /** The head of the queue leaves it: the read offset moves over one record. */
  lemma {:induction false} HeadRemoved(q: Queue, file: Bytes)
    requires OnDisk(q, file) && |q.fates| < |q.log|
    ensures RecordSizeAt(file, Position(q, |q.fates|)) == Some(|Encode(q.log[|q.fates|])|)
    ensures Position(q, |q.fates| + 1) == Position(q, |q.fates|) + |Encode(q.log[|q.fates|])|
    ensures Position(q, |q.fates| + 1) <= |file|
  {
    RecordLiesAtPosition(q, file, |q.fates|);
    RecordSizeOfEncoded(file, Position(q, |q.fates|), q.log[|q.fates|]);
  }

  /** The head of the queue is dropped. */
  function AfterDrop(q: Queue): Queue
  {
    q.(fates := q.fates + [Dropped])
  }

  /** `now` is `q` on the way to its trimmed form, and is what the spool holds. */
  ghost predicate CapState(q: Queue, now: Queue, maxBytes: int,
                           file: Bytes, offsetFile: Option<Bytes>, ticket: Option<nat>, readOff: nat)
  {
    && q.Valid() && |q.fates| <= |now.fates|
    && Stores(now, ticket, file, offsetFile, readOff, |file|)
    && Trim(now, maxBytes) == Trim(q, maxBytes)
  }

  lemma {:induction false} NothingBeyondEnd(file: Bytes)
    ensures RecordSizeAt(file, |file|) == None
  {
  }

  lemma {:induction false} CapStep(q: Queue, now: Queue, maxBytes: int,
                                   file: Bytes, offsetFile: Option<Bytes>, ticket: Option<nat>, readOff: nat)
    requires CapState(q, now, maxBytes, file, offsetFile, ticket, readOff)
    requires |file| - readOff > maxBytes
    ensures var size := RecordSizeAt(file, readOff);
      if now.Pending() == [] then size == None
      else
        && size.Some? && size.value > 0
        && CapState(q, AfterDrop(now), maxBytes, file, offsetFile, ticket, readOff + size.value)
  {
    PendingOnDisk(now, file);
    if now.Pending() == [] {
      NothingBeyondEnd(file);
    } else {
      HeadRemoved(now, file);
      DropKeepsImage(now, file, offsetFile);
    }
  }

  /** Dropping the head moves no byte: only the read offset changes. */
  lemma {:induction false} DropKeepsImage(q: Queue, file: Bytes, offsetFile: Option<Bytes>)
    requires Image(q, file, offsetFile) && |q.fates| < |q.log|
    ensures var q' := q.(fates := q.fates + [Dropped]);
      Image(q', file, offsetFile) && Position(q', |q'.fates|) == Position(q, |q.fates| + 1)
  {
    assert Position(q.(fates := q.fates + [Dropped]), q.saved) == Position(q, q.saved);
  }

  lemma {:induction false} CapDone(q: Queue, now: Queue, maxBytes: int,
                                   file: Bytes, offsetFile: Option<Bytes>, ticket: Option<nat>, readOff: nat)
    requires CapState(q, now, maxBytes, file, offsetFile, ticket, readOff)
    requires now.Pending() == [] || |file| - readOff <= maxBytes
    ensures Trim(q, maxBytes) == now
  {
    PendingOnDisk(now, file);
  }

  /** The read offset after an acknowledgement. */
  ghost function CommittedOffset(q: Queue, ticket: nat): nat
    requires q.start <= |q.fates| <= |q.log| && q.start <= ticket < |q.log|
  {
    if Position(q, |q.fates|) == Position(q, ticket)
    then Position(q, |q.fates|) + |Encode(q.log[ticket])| else Position(q, |q.fates|)
  }

  lemma {:induction false} CommittedHead(q: Queue, file: Bytes, ticket: nat)
    requires OnDisk(q, file) && TicketOnDisk(q, Some(ticket))
    ensures CommittedOffset(q, ticket) == Position(q, |Commit(q, ticket).fates|)
  {
    if |q.fates| == ticket {
      HeadRemoved(q, file);
      assert Commit(q, ticket).fates == q.fates + [Delivered];
    } else {
      PositionMonotone(q, ticket, |q.fates|);
      assert Commit(q, ticket).fates == q.fates;
    }
  }

  lemma {:induction false} SavedImage(q: Queue, file: Bytes)
    requires OnDisk(q, file) && |file| < MAX_OFFSET && q.saved == |q.fates|
    ensures var p := Position(q, |q.fates|);
      && p <= |file| && (p == |file| <==> q.Pending() == [])
      && Image(q, file, Some(LittleEndian(p, 8)))
  {
    PendingOnDisk(q, file);
  }

  /** What an acknowledgement makes of the disk image. */
  lemma {:induction false} CommitImage(q: Queue, file: Bytes, ticket: nat)
    requires OnDisk(q, file) && |file| < MAX_OFFSET && TicketOnDisk(q, Some(ticket))
    ensures var p, q' := CommittedOffset(q, ticket), Commit(q, ticket);
      && (p >= |file| <==> q'.Pending() == [])
      && (p >= |file| ==> Stores(q', None, [], Some(LittleEndian(0, 8)), 0, 0))
      && (p < |file| ==> Stores(q', None, file, Some(LittleEndian(p, 8)), p, |file|))
  {
    CommittedHead(q, file, ticket);
    var fates := Commit(q, ticket).fates;
    SavedImage(Queue(q.log, fates, q.start, |fates|), file);
  }

  lemma {:induction false} ReopenedImage(q: Queue, file: Bytes, offsetFile: Option<Bytes>)
    requires Image(q, file, offsetFile)
    ensures Image(Reopen(q), file, offsetFile)
    ensures Position(Reopen(q), |Reopen(q).fates|) == Position(q, q.saved)
  {
  }

}
