/** The on-stream layout of a record store: the data stream holds the record
    bytes one after the other, and the index stream holds one 8-byte entry
    per record, the cumulative end offset of that record in the data stream,
    packed with `struct "Q"` (unsigned 64-bit, byte order fixed to
    little-endian here). */
module RecordFormat {
  import opened Common
  import opened Streams

  const EntrySize: nat := 8

  /** 2^64: the first value `struct.pack("Q", …)` refuses. */
  const Two64: nat := 0x1_0000_0000_0000_0000

  function Pow256(n: nat): (r: nat)
    ensures r > 0
  {
    if n == 0 then 1 else 256 * Pow256(n - 1)
  }

  /** The n low-order bytes of x, least significant first. */
  function EncodeLE(x: nat, n: nat): (r: seq<byte>)
    ensures |r| == n
  {
    if n == 0 then [] else [(x % 256) as byte] + EncodeLE(x / 256, n - 1)
  }

  /** The number whose little-endian bytes are s. */
  function DecodeLE(s: seq<byte>): nat
  {
    if s == [] then 0 else s[0] as nat + 256 * DecodeLE(s[1..])
  }

  lemma {:induction false} DecodeBound(s: seq<byte>)
    ensures DecodeLE(s) < Pow256(|s|)
  {
    if s != [] {
      DecodeBound(s[1..]);
    }
  }

  /** Decoding undoes encoding for every value that fits in n bytes. */
  lemma {:induction false} DecodeEncode(x: nat, n: nat)
    requires x < Pow256(n)
    ensures DecodeLE(EncodeLE(x, n)) == x
  {
    if n > 0 {
      DecodeEncode(x / 256, n - 1);
      assert EncodeLE(x, n)[1..] == EncodeLE(x / 256, n - 1);
    }
  }

  /** Encoding undoes decoding: every byte string is the encoding of its value. */
  lemma {:induction false} EncodeDecode(s: seq<byte>)
    ensures EncodeLE(DecodeLE(s), |s|) == s
  {
    if s != [] {
      EncodeDecode(s[1..]);
      var x := DecodeLE(s);
      ByteDigits(s[0] as nat, DecodeLE(s[1..]));
      assert EncodeLE(x, |s|) == [(x % 256) as byte] + EncodeLE(x / 256, |s| - 1);
      assert s == [s[0]] + s[1..];
    }
  }

  /** The low byte and the rest of `d + 256 * q`, for a byte `d`. */
  lemma ByteDigits(d: nat, q: nat)
    requires d < 256
    ensures (d + 256 * q) % 256 == d && (d + 256 * q) / 256 == q
  {
  }

  /** `struct.pack("Q", x)`: struct.error outside [0, 2^64). */
  function Pack(x: int): (r: Result<seq<byte>>)
    ensures r.Ok? <==> 0 <= x < Two64
    ensures r.Err? ==> r.error == StructRange
    ensures r.Ok? ==> |r.value| == EntrySize
  {
    if 0 <= x < Two64 then Ok(EncodeLE(x, EntrySize)) else Err(StructRange)
  }

  /** `struct.unpack("Q", v)[0]`: struct.error unless v has exactly 8 bytes. */
  function Unpack(v: seq<byte>): (r: Result<nat>)
    ensures r.Ok? <==> |v| == EntrySize
    ensures r.Err? ==> r.error == StructRange
  {
    if |v| == EntrySize then Ok(DecodeLE(v)) else Err(StructRange)
  }

  /** Unpacking a packed entry gives the value back. */
  lemma PackUnpack(x: int)
    requires 0 <= x < Two64
    ensures Pack(x).Ok? && Unpack(Pack(x).value) == Ok(x)
  {
    assert Pow256(8) == Two64;
    DecodeEncode(x, EntrySize);
  }

  /** Every 8-byte entry unpacks to a value below 2^64 that packs back to it. */
  lemma UnpackPack(v: seq<byte>)
    requires |v| == EntrySize
    ensures Unpack(v).Ok? && Unpack(v).value < Two64 && Pack(Unpack(v).value) == Ok(v)
  {
    DecodeBound(v);
    assert Pow256(8) == Two64;
    EncodeDecode(v);
  }

  /** `size = index_size // 8`. */
  function RecordCount(idx: seq<byte>): (n: nat)
    ensures EntrySize * n <= |idx| < EntrySize * (n + 1)
  {
    |idx| / EntrySize
  }

  /** Index entry i: the end offset of record i in the data stream. */
  function Entry(idx: seq<byte>, i: nat): nat
    requires i < RecordCount(idx)
  {
    DecodeLE(idx[EntrySize * i .. EntrySize * i + EntrySize])
  }

  /** Where record i starts: the previous entry, or 0 for the first record. */
  function EndBefore(idx: seq<byte>, i: nat): nat
    requires i <= RecordCount(idx)
  {
    if i == 0 then 0 else Entry(idx, i - 1)
  }

  /** The index a writer produces for records `rs`: entry k is the total
      size of records 0..k. */
  function IndexTo(rs: seq<seq<byte>>, k: nat): (idx: seq<byte>)
    requires k <= |rs|
    ensures |idx| == EntrySize * k
  {
    if k == 0 then [] else IndexTo(rs, k - 1) + EncodeLE(|ConcatTo(rs, k)|, EntrySize)
  }

  function IndexOf(rs: seq<seq<byte>>): (idx: seq<byte>)
    ensures |idx| == EntrySize * |rs| && RecordCount(idx) == |rs|
  {
    IndexTo(rs, |rs|)
  }

  /** The data stream a writer produces for records `rs`. */
  function DataOf(rs: seq<seq<byte>>): seq<byte>
  {
    Concat(rs)
  }

  /** Records whose total size fits the 64-bit entries. */
  predicate Fits(rs: seq<seq<byte>>)
  {
    |DataOf(rs)| < Two64
  }

  /** Writing one more record appends its bytes to the data and its end
      offset to the index. */
  lemma {:induction false} AppendRecord(rs: seq<seq<byte>>, x: seq<byte>)
    ensures DataOf(rs + [x]) == DataOf(rs) + x
    ensures IndexOf(rs + [x]) == IndexOf(rs) + EncodeLE(|DataOf(rs)| + |x|, EntrySize)
  {
    AppendData(rs, x);
    AppendIndex(rs, x);
  }

  /** The data half of AppendRecord. */
  lemma {:induction false} AppendData(rs: seq<seq<byte>>, x: seq<byte>)
    ensures ConcatTo(rs + [x], |rs|) == ConcatTo(rs, |rs|)
    ensures DataOf(rs + [x]) == DataOf(rs) + x
  {
    var ts := rs + [x];
    assert forall i :: 0 <= i < |rs| ==> ts[i] == rs[i];
    ConcatToSame(ts, rs, |rs|);
    assert DataOf(ts) == ConcatTo(ts, |rs| + 1) == ConcatTo(ts, |rs|) + x;
  }

  /** The index half of AppendRecord. */
  lemma {:induction false} AppendIndex(rs: seq<seq<byte>>, x: seq<byte>)
    ensures IndexOf(rs + [x]) == IndexOf(rs) + EncodeLE(|DataOf(rs)| + |x|, EntrySize)
  {
    var ts := rs + [x];
    var n := |rs|;
    assert forall i :: 0 <= i < n ==> ts[i] == rs[i];
    IndexToSame(ts, rs, n);
    AppendData(rs, x);
    assert |ConcatTo(ts, n + 1)| == |DataOf(rs)| + |x|;
    assert IndexOf(ts) == IndexTo(ts, n + 1) == IndexTo(ts, n) + EncodeLE(|ConcatTo(ts, n + 1)|, EntrySize);
  }

  lemma {:induction false} IndexToSame(a: seq<seq<byte>>, b: seq<seq<byte>>, k: nat)
    requires k <= |a| && k <= |b|
    requires forall i :: 0 <= i < k ==> a[i] == b[i]
    ensures IndexTo(a, k) == IndexTo(b, k)
  {
    if k > 0 {
      IndexToSame(a, b, k - 1);
      ConcatToSame(a, b, k);
    }
  }

  /** The first j entries of the index of the first k records. */
  lemma {:induction false} IndexToPrefix(rs: seq<seq<byte>>, j: nat, k: nat)
    requires j <= k <= |rs|
    ensures IndexTo(rs, k)[..EntrySize * j] == IndexTo(rs, j)
    decreases k - j
  {
    if j < k {
      IndexToPrefix(rs, j, k - 1);
      assert IndexTo(rs, k)[..EntrySize * (k - 1)] == IndexTo(rs, k - 1);
    }
  }

  /** The first k records take no more room than all of them. */
  lemma {:induction false} ConcatToBound(rs: seq<seq<byte>>, k: nat)
    requires k <= |rs|
    ensures |ConcatTo(rs, k)| <= |DataOf(rs)|
  {
    ConcatToLength(rs, k);
    ConcatLength(rs);
    PrefixMonotone(Sizes(rs), k, |rs|);
  }

  /** Entry i of a written index is the end of record i. */
  lemma {:induction false} EntryOf(rs: seq<seq<byte>>, i: nat)
    requires Fits(rs) && i < |rs|
    ensures Entry(IndexOf(rs), i) == |ConcatTo(rs, i + 1)|
  {
    IndexToPrefix(rs, i + 1, |rs|);
    var idx := IndexOf(rs);
    var pre := IndexTo(rs, i + 1);
    var e := |ConcatTo(rs, i + 1)|;
    assert pre == IndexTo(rs, i) + EncodeLE(e, EntrySize);
    assert idx[EntrySize * i .. EntrySize * i + EntrySize] == EncodeLE(e, EntrySize) by {
      assert idx[..EntrySize * (i + 1)] == pre;
    }
    ConcatToBound(rs, i + 1);
    assert Pow256(8) == Two64;
    DecodeEncode(e, EntrySize);
  }

  /** Record i of a written store spans the data offsets EndBefore .. Entry. */
  lemma {:induction false} RecordSpan(rs: seq<seq<byte>>, i: nat)
    requires Fits(rs) && i < |rs|
    ensures EndBefore(IndexOf(rs), i) + |rs[i]| == Entry(IndexOf(rs), i) <= |DataOf(rs)|
    ensures DataOf(rs)[EndBefore(IndexOf(rs), i) .. Entry(IndexOf(rs), i)] == rs[i]
  {
    EntryOf(rs, i);
    if i > 0 {
      EntryOf(rs, i - 1);
    }
    var start := EndBefore(IndexOf(rs), i);
    assert start == |ConcatTo(rs, i)|;
    assert |ConcatTo(rs, i + 1)| == start + |rs[i]|;
    ConcatToLength(rs, i);
    ConcatSlice(rs, i, 0, |rs[i]|);
    assert rs[i][0..|rs[i]|] == rs[i];
  }

  /** What the sequential `read` yields for record i when the data cursor
      sits at the end of record i - 1: the index entry gives the record's
      length `cur - last`; `read(-1)` reads the rest of the stream and a
      length below -1 is refused by the buffered reader; a short data read
      is corruption. */
  function RecordRead(idx: seq<byte>, dat: seq<byte>, i: nat): (r: Result<seq<byte>>)
    requires i < RecordCount(idx)
    ensures r.Ok? <==> EndBefore(idx, i) <= Entry(idx, i) <= |dat|
    ensures r.Ok? ==> r.value == dat[EndBefore(idx, i)..Entry(idx, i)]
    ensures r.Err? ==> r.error in {ReadLength, Broken}
  {
    RecordBytes(dat, EndBefore(idx, i), Entry(idx, i))
  }

  /** The data half of `read()`: record bytes from `last` to `cur`, read with
      `read(cur - last)` from position `last`. */
  function RecordBytes(dat: seq<byte>, last: nat, cur: nat): (r: Result<seq<byte>>)
    ensures r.Ok? <==> last <= cur <= |dat|
    ensures r.Ok? ==> r.value == dat[last..cur]
    ensures r.Err? ==> r.error in {ReadLength, Broken}
    ensures r.Err? ==> (r.error == ReadLength <==> cur - last < -1)
  {
    if cur - last < -1 then Err(ReadLength)
    else if cur < last then Err(Broken)
    else if cur > |dat| then Err(Broken)
    else Ok(dat[last..cur])
  }

  /** Sequential reads give back every record of a written store. */
  lemma {:induction false} ReadRoundTrip(rs: seq<seq<byte>>, i: nat)
    requires Fits(rs) && i < |rs|
    ensures RecordRead(IndexOf(rs), DataOf(rs), i) == Ok(rs[i])
  {
    RecordSpan(rs, i);
  }

  /** The index half of `pread(k)`: the two entries around record k from a
      16-byte index read at `(k - 1) * 8`, or for every k <= 0 the first
      entry from an 8-byte read at 0, which raises IndexError on an empty
      index stream and is corruption when shorter than 8 bytes. */
  function Bracket(idx: seq<byte>, k: int): (r: Result<(nat, nat)>)
    requires k < RecordCount(idx)
    ensures r.Err? <==> RecordCount(idx) == 0
    ensures r.Err? ==> r.error == (if |idx| == 0 then OutOfRange else Broken)
    ensures r.Ok? ==> r.value == (EndBefore(idx, Max(k, 0)), Entry(idx, Max(k, 0)))
  {
    if k > 0 then Ok((Entry(idx, k - 1), Entry(idx, k)))
    else if |idx| == 0 then Err(OutOfRange)
    else if |idx| < EntrySize then Err(Broken)
    else Ok((0, Entry(idx, 0)))
  }

  /** The data half of `pread(k)`: `pread(last, cur - last)` on the data
      stream, which raises IndexError when `last` is at or past its end and
      refuses a negative length; fewer bytes than `cur - last` is corruption. */
  function DataPread(dat: seq<byte>, last: nat, cur: nat): (r: Result<seq<byte>>)
    ensures r.Ok? <==> last < |dat| && last <= cur <= |dat|
    ensures r.Ok? ==> r.value == dat[last..cur]
    ensures r.Err? && last >= |dat| ==> r.error == OutOfRange
  {
    if last >= |dat| then Err(OutOfRange)
    else if cur - last < 0 then Err(NegativeCount)
    else if cur > |dat| then Err(Broken)
    else Ok(dat[last..cur])
  }

  /** `pread(k)` as written. */
  function PreadAsWritten(idx: seq<byte>, dat: seq<byte>, k: int): (r: Result<seq<byte>>)
    requires k < RecordCount(idx)
    ensures r.Ok? ==> 0 < RecordCount(idx) && |r.value| == Entry(idx, Max(k, 0)) - EndBefore(idx, Max(k, 0))
  {
    match Bracket(idx, k)
    case Err(e) => Err(e)
    case Ok(b) => DataPread(dat, b.0, b.1)
  }

  /** A store holding one empty record: `read` gives the empty record back,
      `pread(0)` as written raises IndexError, because the empty record ends
      exactly where the data stream ends. */
  lemma EmptyLastRecordOutOfRange()
    ensures RecordRead(IndexOf([[]]), DataOf([[]]), 0) == Ok([])
    ensures PreadAsWritten(IndexOf([[]]), DataOf([[]]), 0) == Err(OutOfRange)
  {
    var rs: seq<seq<byte>> := [[]];
    assert DataOf(rs) == [] by {
      assert ConcatTo(rs, 1) == ConcatTo(rs, 0) + [];
    }
    ReadRoundTrip(rs, 0);
  }

  /** `pread(k)` with an empty record answered without touching the data
      stream; otherwise as written. */
  function PreadRecord(idx: seq<byte>, dat: seq<byte>, k: int): (r: Result<seq<byte>>)
    requires k < RecordCount(idx)
    ensures RecordCount(idx) == 0 ==> r == Err(if |idx| == 0 then OutOfRange else Broken)
    ensures RecordCount(idx) > 0 ==>
      var last := EndBefore(idx, Max(k, 0)); var cur := Entry(idx, Max(k, 0));
      (r.Ok? <==> last == cur || (last <= cur <= |dat| && last < |dat|)) &&
      (r.Ok? ==> |r.value| == cur - last) &&
      (r.Ok? && cur <= |dat| ==> r.value == dat[last..cur])
  {
    match Bracket(idx, k)
    case Err(e) => Err(e)
    case Ok(b) => if b.0 == b.1 then Ok([]) else DataPread(dat, b.0, b.1)
  }

  /** Random access gives back every record of a written store, the empty
      last record included, and a non-positive k gives record 0. */
  lemma {:induction false} PreadRoundTrip(rs: seq<seq<byte>>, k: int)
    requires Fits(rs) && Max(k, 0) < |rs|
    ensures PreadRecord(IndexOf(rs), DataOf(rs), k) == Ok(rs[Max(k, 0)])
  {
    RecordSpan(rs, Max(k, 0));
  }

  /** In a written store every record starts within the data stream, the
      position just past the last record included. */
  lemma {:induction false} StartInData(rs: seq<seq<byte>>, pos: nat)
    requires Fits(rs) && pos <= |rs|
    ensures EndBefore(IndexOf(rs), pos) <= |DataOf(rs)|
  {
    if pos > 0 {
      RecordSpan(rs, pos - 1);
    }
  }

  /** A written store is consistent: its data stream ends where its last
      index entry says. */
  lemma {:induction false} WrittenConsistent(rs: seq<seq<byte>>)
    requires Fits(rs) && |rs| > 0
    ensures Entry(IndexOf(rs), |rs| - 1) == |DataOf(rs)|
  {
    EntryOf(rs, |rs| - 1);
  }
}
