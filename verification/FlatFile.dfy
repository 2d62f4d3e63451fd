/**
  The flattened format a kdump is written in: a stream of records, each a file offset with bytes, that a
  reader replays in order; and the cache through which descriptors and page data reach it.
 */
module FlatFile {
  import opened Words
  import opened Seals
  import opened Writes

  /** MakedumpfileDataHeader and the bytes behind it. */
  datatype Record = Record(offset: nat, data: seq<Byte>)

  function ByteIn(r: Record, p: nat): Byte
    requires r.offset <= p < r.offset + |r.data|
  {
    r.data[p - r.offset]
  }

  /** The file that replaying the records in order rebuilds. */
  ghost function Replay(rs: seq<Record>): map<nat, Byte> {
    if rs == [] then map[]
    else
      var r := rs[|rs| - 1];
      Replay(rs[..|rs| - 1]) + (map p: nat | r.offset <= p < r.offset + |r.data| :: ByteIn(r, p))
  }

  /** The byte at an offset: that of the last record that covers it, or -1. */
  ghost function ByteAt(rs: seq<Record>, p: nat): int {
    if rs == [] then -1
    else
      var r := rs[|rs| - 1];
      if r.offset <= p < r.offset + |r.data| then r.data[p - r.offset] else ByteAt(rs[..|rs| - 1], p)
  }

  lemma {:induction false} ReplayBytes(rs: seq<Record>, p: nat)
    ensures ByteAt(rs, p) == if p in Replay(rs) then Replay(rs)[p] else -1
  {
    if rs != [] {
      ReplayBytes(rs[..|rs| - 1], p);
    }
  }

  ghost predicate HoldsByte(rs: seq<Record>, at: nat, data: seq<Byte>, i: nat)
    requires i < |data|
  {
    ByteAt(rs, at + i) == data[i]
  }

  /** The rebuilt file has the bytes at the offset. */
  ghost predicate Holds(rs: seq<Record>, at: nat, data: seq<Byte>) {
    forall i: nat | i < |data| :: HoldsByte(rs, at, data, i)
  }

  /** Two stretches of a file do not overlap. */
  predicate Apart(a: nat, alen: nat, b: nat, blen: nat) {
    a + alen <= b || b + blen <= a
  }

  lemma ByteAtNext(rs: seq<Record>, r: Record, p: nat)
    ensures ByteAt(rs + [r], p) == if r.offset <= p < r.offset + |r.data| then r.data[p - r.offset] else ByteAt(rs, p)
  {
    assert (rs + [r])[..|rs|] == rs;
  }

  /** A record elsewhere leaves the bytes alone. */
  lemma HoldsKept(rs: seq<Record>, r: Record, at: nat, data: seq<Byte>)
    requires Holds(rs, at, data) && Apart(at, |data|, r.offset, |r.data|)
    ensures Holds(rs + [r], at, data)
  {
    var rs' := rs + [r];
    forall i: nat | i < |data| ensures HoldsByte(rs', at, data, i) {
      assert HoldsByte(rs, at, data, i);
      ByteAtNext(rs, r, at + i);
    }
  }

  lemma HoldsNew(rs: seq<Record>, r: Record)
    ensures Holds(rs + [r], r.offset, r.data)
  {
    var rs' := rs + [r];
    forall i: nat | i < |r.data| ensures HoldsByte(rs', r.offset, r.data, i) {
      ByteAtNext(rs, r, r.offset + i);
    }
  }

  lemma HoldsConcat(rs: seq<Record>, at: nat, a: seq<Byte>, b: seq<Byte>)
    requires Holds(rs, at, a) && Holds(rs, at + |a|, b)
    ensures Holds(rs, at, a + b)
  {
    var ab := a + b;
    forall i: nat | i < |ab| ensures HoldsByte(rs, at, ab, i) {
      if i < |a| {
        assert HoldsByte(rs, at, a, i);
      } else {
        assert HoldsByte(rs, at + |a|, b, i - |a|);
      }
    }
  }

  lemma HoldsPart(rs: seq<Record>, at: nat, data: seq<Byte>, lo: nat, hi: nat)
    requires Holds(rs, at, data) && lo <= hi <= |data|
    ensures Holds(rs, at + lo, data[lo..hi])
  {
    var at', part := at + lo, data[lo..hi];
    forall i: nat | i < |part| ensures HoldsByte(rs, at', part, i) {
      assert HoldsByte(rs, at, data, lo + i);
    }
  }

  /** The later records all lie between `lo` and `hi`. */
  ghost predicate Grown(rs: seq<Record>, rs': seq<Record>, lo: nat, hi: nat) {
    rs <= rs' && forall i | |rs| <= i < |rs'| :: lo <= rs'[i].offset && rs'[i].offset + |rs'[i].data| <= hi
  }

  lemma GrownTwice(rs1: seq<Record>, rs2: seq<Record>, rs3: seq<Record>, lo: nat, mid: nat, hi: nat)
    requires Grown(rs1, rs2, lo, mid) && Grown(rs2, rs3, lo, hi) && mid <= hi
    ensures Grown(rs1, rs3, lo, hi)
  {
    forall i | |rs1| <= i < |rs3| ensures lo <= rs3[i].offset && rs3[i].offset + |rs3[i].data| <= hi {
      if i < |rs2| {
        assert rs3[i] == rs2[i];
      }
    }
  }

  /** What ends before `lo` is kept. */
  lemma {:induction false} HoldsGrown(rs: seq<Record>, rs': seq<Record>, lo: nat, hi: nat, at: nat, data: seq<Byte>)
    requires Grown(rs, rs', lo, hi) && Holds(rs, at, data) && at + |data| <= lo
    ensures Holds(rs', at, data)
    decreases |rs'|
  {
    if |rs| < |rs'| {
      var n := |rs'| - 1;
      HoldsGrown(rs, rs'[..n], lo, hi, at, data);
      HoldsKept(rs'[..n], rs'[n], at, data);
      assert rs'[..n] + [rs'[n]] == rs';
    } else {
      assert rs' == rs;
    }
  }

  // Fixed-width integers.

  function Pow256(n: nat): nat {
    if n == 0 then 1 else 256 * Pow256(n - 1)
  }

  /** `n` bytes, least significant first. */
  function Little(x: nat, n: nat): (s: seq<Byte>)
    ensures |s| == n
  {
    if n == 0 then [] else [x % 256] + Little(x / 256, n - 1)
  }

  function FromLittle(s: seq<Byte>): nat {
    if s == [] then 0 else s[0] + 256 * FromLittle(s[1..])
  }

  lemma {:induction false} LittleRoundTrip(x: nat, n: nat)
    requires x < Pow256(n)
    ensures FromLittle(Little(x, n)) == x
  {
    if n > 0 {
      LittleRoundTrip(x / 256, n - 1);
      assert Little(x, n)[1..] == Little(x / 256, n - 1);
    }
  }

  function Flip<T>(s: seq<T>): (r: seq<T>)
    ensures |r| == |s| && forall i | 0 <= i < |s| :: r[i] == s[|s| - 1 - i]
  {
    seq(|s|, i requires 0 <= i < |s| => s[|s| - 1 - i])
  }

  /** cpu_to_dump32 and cpu_to_dump64 for a dump of either byte order. */
  function Encode(x: nat, n: nat, big: bool): (s: seq<Byte>)
    ensures |s| == n
  {
    if big then Flip(Little(x, n)) else Little(x, n)
  }

  function Decode(s: seq<Byte>, big: bool): nat {
    FromLittle(if big then Flip(s) else s)
  }

  lemma EncodeRoundTrip(x: nat, n: nat, big: bool)
    requires x < Pow256(n)
    ensures Decode(Encode(x, n, big), big) == x
  {
    LittleRoundTrip(x, n);
    assert Flip(Flip(Little(x, n))) == Little(x, n);
  }

  // The record stream as bytes.

  const END_FLAG: nat := 0xffff_ffff_ffff_ffff

  /** write_buffer: both header fields are big-endian. */
  function Flatten(r: Record): seq<Byte> {
    Encode(r.offset, 8, true) + Encode(|r.data|, 8, true) + r.data
  }

  ghost function FlattenAll(rs: seq<Record>): seq<Byte> {
    if rs == [] then Encode(END_FLAG, 8, true) + Encode(END_FLAG, 8, true)
    else Flatten(rs[0]) + FlattenAll(rs[1..])
  }

  /** A reader of the stream: stops at the end flag, and gives up on a truncated record. */
  function Parse(s: seq<Byte>): (rs: seq<Record>)
    decreases |s|
  {
    if |s| < 16 then []
    else
      var offset, size := Decode(s[..8], true), Decode(s[8..16], true);
      if offset == END_FLAG || 16 + size > |s| then []
      else [Record(offset, s[16..16 + size])] + Parse(s[16 + size..])
  }

  /** What was written is what a reader replays. */
  lemma {:induction false} FlattenRoundTrip(rs: seq<Record>)
    requires forall r | r in rs :: r.offset < END_FLAG && |r.data| < END_FLAG
    ensures Parse(FlattenAll(rs)) == rs
  {
    assert Pow256(8) == END_FLAG + 1 by {
      assert Pow256(4) == 0x1_0000_0000;
    }
    var s := FlattenAll(rs);
    if rs == [] {
      EncodeRoundTrip(END_FLAG, 8, true);
      assert s[..8] == Encode(END_FLAG, 8, true);
    } else {
      var r := rs[0];
      EncodeRoundTrip(r.offset, 8, true);
      EncodeRoundTrip(|r.data|, 8, true);
      assert s[..8] == Encode(r.offset, 8, true);
      assert s[8..16] == Encode(|r.data|, 8, true);
      assert s[16..16 + |r.data|] == r.data;
      assert s[16 + |r.data|..] == FlattenAll(rs[1..]);
      FlattenRoundTrip(rs[1..]);
    }
  }

  /** The dump file: the records it took so far. */
  class DumpFile {
    var records: seq<Record>
    /** How many more writes it takes. */
    var quota: nat

    constructor (quota: nat)
      ensures records == [] && this.quota == quota
    {
      records, this.quota := [], quota;
    }

    /** write_buffer. */
    method WriteBuffer(offset: nat, data: seq<Byte>) returns (ok: bool)
      modifies this
      ensures Spends(old(quota), quota, ok, 1)
      ensures records == if ok then old(records) + [Record(offset, data)] else old(records)
    {
      ok := quota > 0;
      if ok {
        quota := quota - 1;
        records := records + [Record(offset, data)];
      }
    }
  }

  /** DataCache: a buffer in front of the file for one growing stretch of it. */
  class DataCache {
    const file: DumpFile
    const buf: array<Byte>
    var dataSize: nat
    var offset: nat
    /** Where the stretch starts, and all that was put into it. */
    ghost const base: nat
    ghost var stream: seq<Byte>

    /** The state of the cache; proofs that go into it say `Opened(Cache, true)`. */
    ghost predicate Valid()
      reads this, buf, file
    {
      dataSize <= buf.Length && dataSize <= |stream| && forall b {:trigger Opened(Cache, b)} :: Opened(Cache, b) ==>
        Inside()
    }

    /** What already went to the file is at its place, and the rest is in the buffer. */
    ghost predicate Inside()
      reads this, buf, file
    {
      && dataSize <= buf.Length && dataSize <= |stream|
      && offset == base + |stream| - dataSize
      && buf[..dataSize] == stream[|stream| - dataSize..]
      && Holds(file.records, base, stream[..|stream| - dataSize])
    }

    /** prepare_data_cache. */
    constructor (file: DumpFile, bufSize: nat, offset: nat)
      ensures Valid() && stream == [] && base == offset && this.file == file && buf.Length == bufSize && fresh(buf)
      ensures dataSize == 0
    {
      this.file, this.offset, base, dataSize, stream := file, offset, offset, 0, [];
      buf := new Byte[bufSize](_ => 0);
      new;
      assert Inside();
    }

    /** The sync part of write_cache. */
    method Sync() returns (ok: bool)
      requires Valid()
      modifies this, file
      ensures Spends(old(file.quota), file.quota, ok, 1)
      ensures ok ==> Valid() && dataSize == 0 && stream == old(stream)
      ensures ok ==> file.records == old(file.records) + [Record(old(offset), old(buf[..dataSize]))]
    {
      assert Opened(Cache, true);
      ghost var before, done, rest := file.records, stream[..|stream| - dataSize], buf[..dataSize];
      ok := file.WriteBuffer(offset, buf[..dataSize]);
      if ok {
        HoldsKept(before, Record(offset, rest), base, done);
        HoldsNew(before, Record(offset, rest));
        HoldsConcat(file.records, base, done, rest);
        assert done + rest == stream;
        offset := offset + dataSize;
        dataSize := 0;
        assert stream[..|stream|] == stream;
      }
    }

    /** write_cache: the bytes join the stretch; a sync leaves nothing in the buffer. */
    method Write(data: seq<Byte>, sync: bool) returns (ok: bool)
      requires Valid() && |data| <= buf.Length && (sync ==> data == [])
      modifies this, buf, file
      ensures Spends(old(file.quota), file.quota, ok,
                     if sync then SyncWrites(old(dataSize)) else Flush(buf.Length, old(dataSize), |data|))
      ensures ok ==> Valid() && stream == old(stream) + data
      ensures ok ==> dataSize == if sync then 0 else Fill(buf.Length, old(dataSize), |data|)
      ensures ok ==> file.records == old(file.records)
                     || file.records == old(file.records) + [Record(old(offset), old(buf[..dataSize]))]
    {
      assert Opened(Cache, true);
      if (!sync && dataSize + |data| > buf.Length) || (sync && dataSize > 0) {
        ok := Sync();
        if !ok {
          return;
        }
      }
      if !sync {
        Append(data);
      }
      ok := true;
    }

    /** memcpy to the end of the buffer. */
    method Append(data: seq<Byte>)
      requires Valid() && dataSize + |data| <= buf.Length
      modifies this, buf
      ensures Valid() && stream == old(stream) + data && dataSize == old(dataSize) + |data|
    {
      assert Opened(Cache, true);
      ghost var kept, was := buf[..dataSize], stream;
      forall i | 0 <= i < |data| {
        buf[dataSize + i] := data[i];
      }
      stream := stream + data;
      assert buf[..dataSize + |data|] == kept + data;
      assert stream[..|stream| - (dataSize + |data|)] == was[..|was| - dataSize];
      dataSize := dataSize + |data|;
    }
  }
}
