/** The on-disk record format of the forwarder's spool: three length-prefixed
    fields, lengths little-endian, the first two 16 bits wide and the last 32. */
module Framing {
  type Byte = n: int | 0 <= n < 256
  type Bytes = seq<Byte>

  import opened Wrappers

  datatype Record = Record(path: Bytes, contentType: Bytes, body: Bytes)

  const LIMIT16: nat := 0x1_0000
  const LIMIT32: nat := 0x1_0000_0000

  // ---------------------------------------------------------------- integers

  function Pow256(width: nat): (p: nat)
    ensures p > 0
  {
    if width == 0 then 1 else 256 * Pow256(width - 1)
  }

  function LittleEndian(n: nat, width: nat): (b: Bytes)
    ensures |b| == width
  {
    if width == 0 then [] else [n % 256] + LittleEndian(n / 256, width - 1)
  }

  function FromLittleEndian(b: Bytes): nat
  {
    if b == [] then 0 else b[0] + 256 * FromLittleEndian(b[1..])
  }

  lemma {:induction false} LittleEndianRoundTrip(n: nat, width: nat)
    requires n < Pow256(width)
    ensures FromLittleEndian(LittleEndian(n, width)) == n
  {
    if width > 0 {
      var b := LittleEndian(n, width);
      LittleEndianRoundTrip(n / 256, width - 1);
      assert b[1..] == LittleEndian(n / 256, width - 1);
    }
  }

  lemma LowestDigit(d: Byte, rest: nat)
    ensures (d + 256 * rest) % 256 == d && (d + 256 * rest) / 256 == rest
  {
  }

  lemma {:induction false} LittleEndianOnto(b: Bytes)
    ensures LittleEndian(FromLittleEndian(b), |b|) == b
  {
    if b != [] {
      LittleEndianOnto(b[1..]);
      LowestDigit(b[0], FromLittleEndian(b[1..]));
      assert LittleEndian(FromLittleEndian(b), |b|) == [b[0]] + b[1..];
    }
  }

  // ---------------------------------------------------------------- encoding

  predicate Fits(r: Record)
  {
    |r.path| < LIMIT16 && |r.contentType| < LIMIT16 && |r.body| < LIMIT32
  }

  /** What the fixed-width length conversions keep of a record: each field is cut
      to its length modulo the width of its prefix. */
  function Clip(r: Record): (c: Record)
    ensures Fits(c)
    ensures c == r <==> Fits(r)
  {
    Record(r.path[..|r.path| % LIMIT16],
           r.contentType[..|r.contentType| % LIMIT16],
           r.body[..|r.body| % LIMIT32])
  }

  /** One length-prefixed field. */
  function Field(content: Bytes, width: nat): (b: Bytes)
    ensures |b| == width + |content|
  {
    LittleEndian(|content|, width) + content
  }

  function Encode(r: Record): (b: Bytes)
    ensures |b| == 8 + |r.path| + |r.contentType| + |r.body|
  {
    Field(r.path, 2) + (Field(r.contentType, 2) + Field(r.body, 4))
  }

  function EncodeAll(rs: seq<Record>): Bytes
  {
    if rs == [] then [] else Encode(rs[0]) + EncodeAll(rs[1..])
  }

  lemma {:induction false} ConcatAssociative(a: Bytes, b: Bytes, c: Bytes)
    ensures a + (b + c) == (a + b) + c
  {
  }

  lemma {:induction false} EncodeAllConcat(a: seq<Record>, b: seq<Record>)
    ensures EncodeAll(a + b) == EncodeAll(a) + EncodeAll(b)
  {
    if a == [] {
      assert a + b == b;
    } else {
      EncodeAllConcat(a[1..], b);
      assert (a + b)[1..] == a[1..] + b;
      ConcatAssociative(Encode(a[0]), EncodeAll(a[1..]), EncodeAll(b));
    }
  }

  lemma {:induction false} EncodeAllSplit(rs: seq<Record>, i: nat)
    requires i <= |rs|
    ensures EncodeAll(rs) == EncodeAll(rs[..i]) + EncodeAll(rs[i..])
  {
    var a, b := rs[..i], rs[i..];
    assert a + b == rs;
    EncodeAllConcat(a, b);
  }

  lemma {:induction false} EncodeAllBetween(rs: seq<Record>, a: nat, b: nat, c: nat)
    requires a <= b <= c <= |rs|
    ensures EncodeAll(rs[a..c]) == EncodeAll(rs[a..b]) + EncodeAll(rs[b..c])
  {
    assert rs[a..b] + rs[b..c] == rs[a..c];
    EncodeAllConcat(rs[a..b], rs[b..c]);
  }

  lemma {:induction false} EncodeAllRest(rs: seq<Record>, a: nat, b: nat)
    requires a <= b <= |rs|
    ensures EncodeAll(rs[a..]) == EncodeAll(rs[a..b]) + EncodeAll(rs[b..])
  {
    assert rs[a..b] + rs[b..] == rs[a..];
    EncodeAllConcat(rs[a..b], rs[b..]);
  }

  lemma {:induction false} EncodeAllEmpty(rs: seq<Record>)
    ensures |EncodeAll(rs)| == 0 <==> rs == []
  {
  }

  // ---------------------------------------------------------------- decoding

  /** Positional read of exactly `count` bytes; a short read is an error. */
  function ReadAt(file: Bytes, pos: nat, count: nat): Option<Bytes>
  {
    if pos + count <= |file| then Some(file[pos..pos + count]) else None
  }

  /** The size of the record at `off`, from its three length prefixes alone. */
  function RecordSizeAt(file: Bytes, off: nat): Option<nat>
  {
    match ReadAt(file, off, 2)
    case None => None
    case Some(p) =>
      var pLen := FromLittleEndian(p);
      match ReadAt(file, off + 2 + pLen, 2)
      case None => None
      case Some(c) =>
        var cLen := FromLittleEndian(c);
        match ReadAt(file, off + 2 + pLen + 2 + cLen, 4)
        case None => None
        case Some(b) => Some(2 + pLen + 2 + cLen + 4 + FromLittleEndian(b))
  }

  datatype ReadResult = Empty | Got(record: Record, size: nat, startOff: nat) | Fault

  /** Decodes the record at `off`. End of file at the first prefix means that there
      is nothing to read; anywhere later it is a fault. */
  function DecodeAt(file: Bytes, off: nat): ReadResult
  {
    match ReadAt(file, off, 2)
    case None => Empty
    case Some(p) =>
      var pos1 := off + 2 + FromLittleEndian(p);
      match (ReadAt(file, off + 2, FromLittleEndian(p)), ReadAt(file, pos1, 2))
      case (Some(path), Some(c)) =>
        var pos2 := pos1 + 2 + FromLittleEndian(c);
        (match (ReadAt(file, pos1 + 2, FromLittleEndian(c)), ReadAt(file, pos2, 4))
         case (Some(ct), Some(b)) =>
           (match ReadAt(file, pos2 + 4, FromLittleEndian(b))
            case Some(body) => Got(Record(path, ct, body), pos2 + 4 + FromLittleEndian(b) - off, off)
            case None => Fault)
         case _ => Fault)
      case _ => Fault
  }

  /** `bytes` occurs in `file` at `off`. */
  ghost predicate Holds(file: Bytes, off: nat, bytes: Bytes)
  {
    off + |bytes| <= |file| && file[off..off + |bytes|] == bytes
  }

  lemma {:induction false} HoldsConcat(file: Bytes, off: nat, a: Bytes, b: Bytes)
    requires Holds(file, off, a + b)
    ensures Holds(file, off, a) && Holds(file, off + |a|, b)
  {
    var whole := file[off..off + |a + b|];
    assert whole[..|a|] == a && whole[|a|..] == b;
    assert whole[..|a|] == file[off..off + |a|];
    assert whole[|a|..] == file[off + |a|..off + |a| + |b|];
  }

  lemma {:induction false} HoldsMiddle(a: Bytes, b: Bytes, c: Bytes)
    ensures Holds(a + (b + c), |a|, b)
  {
    HoldsConcat(a + (b + c), 0, a, b + c);
    HoldsConcat(a + (b + c), |a|, b, c);
  }

  /** Record `n` of a file of records lies after the encodings of those before it. */
  lemma {:induction false} EncodeAllIndex(rs: seq<Record>, n: nat)
    requires n < |rs|
    ensures Holds(EncodeAll(rs), |EncodeAll(rs[..n])|, Encode(rs[n]))
    ensures EncodeAll(rs[..n + 1]) == EncodeAll(rs[..n]) + Encode(rs[n])
  {
    EncodeAllSplit(rs, n);
    assert EncodeAll(rs[n..]) == Encode(rs[n]) + EncodeAll(rs[n..][1..]);
    HoldsMiddle(EncodeAll(rs[..n]), Encode(rs[n]), EncodeAll(rs[n..][1..]));
    EncodeAllSnoc(rs[..n], rs[n]);
    assert rs[..n + 1] == rs[..n] + [rs[n]];
  }

  lemma {:induction false} EncodeAllSnoc(rs: seq<Record>, r: Record)
    ensures EncodeAll(rs + [r]) == EncodeAll(rs) + Encode(r)
  {
    EncodeAllConcat(rs, [r]);
    EncodeAllSingle(r);
  }

  lemma {:induction false} EncodeAllSingle(r: Record)
    ensures EncodeAll([r]) == Encode(r)
  {
    assert [r][1..] == [];
    ConcatEmpty(Encode(r));
  }

  lemma {:induction false} ConcatEmpty(a: Bytes)
    ensures a + [] == a
  {
  }

  /** An encoded field can be read back at its place: its prefix, then its content. */
  ghost predicate FieldReadable(file: Bytes, off: nat, content: Bytes, width: nat)
  {
    && ReadAt(file, off, width) == Some(LittleEndian(|content|, width))
    && ReadAt(file, off + width, |content|) == Some(content)
  }

  lemma {:induction false} FieldParts(file: Bytes, off: nat, content: Bytes, width: nat)
    requires Holds(file, off, Field(content, width))
    ensures FieldReadable(file, off, content, width)
  {
    HoldsConcat(file, off, LittleEndian(|content|, width), content);
  }

  /** Where each field of an encoded record lies. */
  lemma {:induction false} EncodedFields(file: Bytes, off: nat, r: Record)
    requires Holds(file, off, Encode(r))
    ensures FieldReadable(file, off, r.path, 2)
    ensures FieldReadable(file, off + 2 + |r.path|, r.contentType, 2)
    ensures FieldReadable(file, off + 4 + |r.path| + |r.contentType|, r.body, 4)
  {
    var p, c, b := Field(r.path, 2), Field(r.contentType, 2), Field(r.body, 4);
    HoldsConcat(file, off, p, c + b);
    HoldsConcat(file, off + |p|, c, b);
    FieldParts(file, off, r.path, 2);
    FieldParts(file, off + |p|, r.contentType, 2);
    FieldParts(file, off + |p| + |c|, r.body, 4);
  }

  lemma {:induction false} PrefixLengths(r: Record)
    requires Fits(r)
    ensures FromLittleEndian(LittleEndian(|r.path|, 2)) == |r.path|
    ensures FromLittleEndian(LittleEndian(|r.contentType|, 2)) == |r.contentType|
    ensures FromLittleEndian(LittleEndian(|r.body|, 4)) == |r.body|
  {
    assert Pow256(1) == 256 && Pow256(2) == LIMIT16 && Pow256(3) == 0x100_0000 && Pow256(4) == LIMIT32;
    LittleEndianRoundTrip(|r.path|, 2);
    LittleEndianRoundTrip(|r.contentType|, 2);
    LittleEndianRoundTrip(|r.body|, 4);
  }

  lemma {:induction false} RecordSizeOfEncoded(file: Bytes, off: nat, r: Record)
    requires Fits(r) && Holds(file, off, Encode(r))
    ensures RecordSizeAt(file, off) == Some(|Encode(r)|)
  {
    EncodedFields(file, off, r);
    PrefixLengths(r);
  }

  /** Decoding is a left inverse of encoding, wherever in a file the record lies. */
  lemma {:induction false} DecodeEncoded(file: Bytes, off: nat, r: Record)
    requires Fits(r) && Holds(file, off, Encode(r))
    ensures DecodeAt(file, off) == Got(r, |Encode(r)|, off)
  {
    EncodedFields(file, off, r);
    PrefixLengths(r);
  }

  /** A record written anywhere in a file is read back exactly when its fields fit
      their prefixes. An oversized record is read back clipped, and whatever follows
      it in the file is undisturbed. */
  lemma {:induction false} RoundTripIffFits(before: Bytes, r: Record, after: Bytes)
    ensures var got := DecodeAt(before + (Encode(Clip(r)) + after), |before|);
      && got == Got(Clip(r), |Encode(Clip(r))|, |before|)
      && (got.record == r <==> Fits(r))
  {
    HoldsMiddle(before, Encode(Clip(r)), after);
    DecodeEncoded(before + (Encode(Clip(r)) + after), |before|, Clip(r));
  }

  // ---------------------------------------------------------------- marshalling

  /** The effect of Go's copy(buf[off:], src): as many bytes as both sides have. */
  function Overwrite(s: Bytes, off: nat, src: Bytes): (t: Bytes)
    requires off <= |s|
    ensures |t| == |s|
  {
    var m := if |src| <= |s| - off then |src| else |s| - off;
    s[..off] + src[..m] + s[off + m..]
  }

  method Copy(buf: array<Byte>, off: nat, src: Bytes)
    requires off <= buf.Length
    modifies buf
    ensures buf[..] == Overwrite(old(buf[..]), off, src)
  {
    var m := if |src| <= buf.Length - off then |src| else buf.Length - off;
    for i := 0 to m
      invariant buf[..] == old(buf[..])[..off] + src[..i] + old(buf[..])[off + i..]
    {
      buf[off + i] := src[i];
    }
  }

  /** `buf` starts with `done`. */
  ghost predicate Starts(buf: Bytes, done: Bytes)
  {
    |done| <= |buf| && buf[..|done|] == done
  }

  /** Writing a field after a finished prefix extends the finished prefix. */
  lemma {:induction false} OverwriteExtends(s: Bytes, done: Bytes, src: Bytes, kept: nat)
    requires |done| + kept <= |s| && kept <= |src| && Starts(s, done)
    ensures Starts(Overwrite(s, |done|, src), done + src[..kept])
  {
    var m := if |src| <= |s| - |done| then |src| else |s| - |done|;
    var t := Overwrite(s, |done|, src);
    forall i | 0 <= i < |done| + kept
      ensures t[i] == (done + src[..kept])[i]
    {
      if i < |done| {
        assert t[i] == s[..|done|][i];
      } else {
        assert t[i] == src[..m][i - |done|];
      }
    }
  }

  /** One length-prefixed field put into the buffer: PutUint of the clipped length,
      then a copy of the unclipped content. Returns the position after the field. */
  method PutField(buf: array<Byte>, n: nat, content: Bytes, width: nat, kept: nat, ghost done: Bytes)
    returns (next: nat)
    requires n == |done| && Starts(buf[..], done)
    requires kept <= |content| && n + width + kept <= buf.Length
    modifies buf
    ensures next == n + width + kept
    ensures Starts(buf[..], done + Field(content[..kept], width))
  {
    ghost var prefix := LittleEndian(kept, width);
    OverwriteExtends(buf[..], done, prefix, width);
    Copy(buf, n, LittleEndian(kept, width));
    assert prefix[..width] == prefix;
    OverwriteExtends(buf[..], done + prefix, content, kept);
    Copy(buf, n + width, content);
    ConcatAssociative(done, prefix, content[..kept]);
    next := n + width + kept;
  }

  /** The record buffer built before an append. A field longer than its prefix can
      say first spills over the fields after it; those overwrite the spill, so the
      buffer is always the well-formed encoding of the clipped record. */
  method Marshal(r: Record) returns (rec: array<Byte>)
    ensures fresh(rec)
    ensures rec[..] == Encode(Clip(r))
  {
    var pLen, cLen, bLen := |r.path| % LIMIT16, |r.contentType| % LIMIT16, |r.body| % LIMIT32;
    var total := 2 + pLen + 2 + cLen + 4 + bLen;
    rec := new Byte[total](_ => 0);
    ghost var p, c, b := Field(r.path[..pLen], 2), Field(r.contentType[..cLen], 2), Field(r.body[..bLen], 4);
    var n := PutField(rec, 0, r.path, 2, pLen, []);
    assert [] + p == p;
    n := PutField(rec, n, r.contentType, 2, cLen, p);
    n := PutField(rec, n, r.body, 4, bLen, p + c);
    ConcatAssociative(p, c, b);
    assert rec[..] == rec[..][..n];
  }
}
