/** `RawDataset`: a record store made of two trunked streams under one
    prefix, `index/` holding one 8-byte cumulative end offset per record and
    `data/` holding the record bytes.  The buffered readers and writers the
    code puts in front of the two controllers are modelled as direct access:
    a buffered read of n bytes is a run of raw reads until n bytes or a
    0-byte read, a buffered write is a run of raw writes until every byte is
    taken. */
module Dataset {
  import opened Common
  import opened Backend
  import opened Streams
  import opened Trunk
  import opened RecordFormat

  /** A backend that always delivers what is asked: one reply per attempt
      `readinto` may make. */
  function FullReplies(n: nat): (r: seq<Reply>)
    ensures |r| == DefaultMaxRetry + 1
    ensures forall i :: 0 <= i < |r| ==> r[i] == Bytes(n)
  {
    seq(DefaultMaxRetry + 1, i => Bytes(n))
  }

  /** One raw read of at most m bytes from a backend that delivers what is
      asked: it never fails, and it returns nothing only at the end of a
      trunk. */
  method ReadStep(c: TrunkController, m: nat) returns (chunk: seq<byte>)
    requires c.Valid() && c.readable && !c.closed && m > 0
    modifies c
    ensures c.trunks == old(c.trunks)
    ensures c.Valid() && !c.closed
    ensures c.numTrunks == old(c.numTrunks) && c.fileSizes == old(c.fileSizes) && c.size == old(c.size)
    ensures |chunk| <= m && c.tell == old(c.tell) + |chunk| <= c.size
    ensures chunk == c.Content()[old(c.tell)..c.tell]
    ensures c.Regular() && old(c.Normalised()) ==> c.Normalised()
    ensures |chunk| == 0 && c.Regular() && old(c.Normalised()) ==> c.tell == c.size
  {
    var replies := FullReplies(m);
    assert replies[0] == Bytes(m);
    assert !Stalls(replies, m, DefaultMaxRetry + 1);
    assert WouldBlock !in replies;
    var r := c.ReadInto(m, DefaultMaxRetry, replies);
    chunk := r.value.value;
    if |chunk| == 0 && c.Regular() && old(c.Normalised()) {
      assert Prefix(c.fileSizes, |c.fileSizes|) == Prefix(c.fileSizes, c.currFile) + c.fileSizes[c.currFile];
    }
  }

  /** `BufferedReader.read(n)` over a read-mode controller: raw reads until
      n bytes are in or a raw read returns 0 bytes.  The bytes are always
      the stream's from the position on; with every trunk but the last
      non-empty, a 0-byte read happens only at the end of the stream, so
      exactly min(n, bytes left) arrive. */
  method ReadFully(c: TrunkController, n: nat) returns (got: seq<byte>)
    requires c.Valid() && c.readable && !c.closed
    modifies c
    ensures c.trunks == old(c.trunks)
    ensures c.Valid() && !c.closed
    ensures c.numTrunks == old(c.numTrunks) && c.fileSizes == old(c.fileSizes) && c.size == old(c.size)
    ensures |got| <= n && c.tell == old(c.tell) + |got| <= c.size
    ensures got == c.Content()[old(c.tell)..c.tell]
    ensures c.Regular() && old(c.Normalised()) ==> |got| == Min(n, c.size - old(c.tell)) && c.Normalised()
  {
    got := [];
    var eof := false;
    ghost var t0 := c.tell;
    while |got| < n && !eof
      invariant c.Valid() && c.readable && !c.closed
      invariant c.numTrunks == old(c.numTrunks) && c.fileSizes == old(c.fileSizes) && c.size == old(c.size)
      invariant c.trunks == old(c.trunks)
      invariant |got| <= n && c.tell == t0 + |got| <= c.size
      invariant got == c.Content()[t0..c.tell]
      invariant c.Regular() && old(c.Normalised()) ==> c.Normalised()
      invariant eof && c.Regular() && old(c.Normalised()) ==> c.tell == c.size
      decreases n - |got|, if eof then 0 else 1
    {
      ghost var t := c.tell;
      var chunk := ReadStep(c, n - |got|);
      if |chunk| == 0 {
        eof := true;
      } else {
        SliceJoin(c.Content(), t0, t, c.tell);
        got := got + chunk;
      }
    }
  }

  /** One raw write: as much of b as fits in the last trunk; nothing only
      when that trunk was already full, and it rolls over. */
  method WriteStep(c: TrunkController, b: seq<byte>) returns (n: nat)
    requires c.Valid() && c.writable && !c.closed
    modifies c, c.storage
    ensures c.Valid() && !c.closed
    ensures n <= |b| && c.Content() == old(c.Content()) + b[..n] && c.size == old(c.size) + n
    ensures SameOutside(old(c.storage.objects), c.storage.objects, c.prefix)
    ensures old(c.Full()) ==> c.Full()
    ensures c.infileOffset < c.maxFileSize
    ensures n == 0 && |b| > 0 ==> old(c.infileOffset) == c.maxFileSize
  {
    var r := c.Write(b);
    n := r.value;
  }

  /** Taking n more bytes of b after the first i extends what was taken. */
  lemma {:induction false} TakeMore(s: seq<byte>, b: seq<byte>, i: nat, n: nat)
    requires i + n <= |b|
    ensures s + b[..i] + b[i..][..n] == s + b[..i + n]
  {
    assert b[..i] + b[i..][..n] == b[..i + n];
  }

  /** `BufferedWriter.write(b)` over a write-mode controller: raw writes
      until every byte is taken. */
  method WriteFully(c: TrunkController, b: seq<byte>)
    requires c.Valid() && c.writable && !c.closed
    modifies c, c.storage
    ensures c.Valid() && !c.closed
    ensures c.Content() == old(c.Content()) + b && c.size == old(c.size) + |b|
    ensures SameOutside(old(c.storage.objects), c.storage.objects, c.prefix)
    ensures old(c.Full()) ==> c.Full()
  {
    var i := 0;
    while i < |b|
      invariant 0 <= i <= |b| && c.Valid() && !c.closed
      invariant c.Content() == old(c.Content()) + b[..i] && c.size == old(c.size) + i
      invariant SameOutside(old(c.storage.objects), c.storage.objects, c.prefix)
      invariant old(c.Full()) ==> c.Full()
      decreases |b| - i, if c.infileOffset == c.maxFileSize then 1 else 0
    {
      ghost var before := c.storage.objects;
      var n := WriteStep(c, b[i..]);
      SameOutsideTrans(old(c.storage.objects), before, c.storage.objects, c.prefix);
      TakeMore(old(c.Content()), b, i, n);
      i := i + n;
    }
    assert b[..i] == b;
  }

  /** Two controllers of one dataset: distinct streams of one backend. */
  ghost predicate Pair(index: TrunkController, data: TrunkController)
    reads index, data, index.storage
  {
    index != data && index.storage == data.storage && index.prefix != data.prefix &&
    index.Valid() && data.Valid()
  }

  /** `BufferedWriter.write(b)` on one stream of a pair: the other stream,
      whose objects lie under another prefix, stays valid. */
  method WriteTo(c: TrunkController, other: TrunkController, b: seq<byte>)
    requires c != other && c.storage == other.storage && c.prefix != other.prefix
    requires c.Valid() && other.Valid() && c.writable && !c.closed
    modifies c, c.storage
    ensures c.Valid() && other.Valid() && !c.closed
    ensures c.Content() == old(c.Content()) + b
  {
    ghost var m0 := c.storage.objects;
    WriteFully(c, b);
    other.ValidElsewhere(m0, c.storage.objects, c.prefix);
  }

  /** The writes of `write(data)`: the record's bytes to the data stream,
      then `end`, packed, to the index stream; `struct.pack` refuses an end
      offset of 2^64 or more once the data is written. */
  method WriteRecord(index: TrunkController, data: TrunkController, d: seq<byte>, end: nat) returns (r: Result<()>)
    requires index != data && index.storage == data.storage && index.prefix != data.prefix
    requires index.Valid() && data.Valid() && index.writable && !index.closed && data.writable && !data.closed
    modifies index, data, index.storage
    ensures index.Valid() && data.Valid() && !index.closed && !data.closed
    ensures data.Content() == old(data.Content()) + d
    ensures if end < Two64
      then r == Ok(()) && index.Content() == old(index.Content()) + EncodeLE(end, EntrySize)
      else r == Err(StructRange) && index.Content() == old(index.Content())
  {
    WriteTo(data, index, d);
    var entry := Pack(end);
    if entry.Err? {
      return Err(StructRange);
    }
    WriteTo(index, data, entry.value);
    return Ok(());
  }

  /** `read(8)` of one index entry, unpacked: record t's end offset when
      the index stream stands at entry t. */
  method ReadEntry(index: TrunkController, ghost t: nat) returns (u: Result<nat>)
    requires index.Valid() && index.readable && !index.closed
    modifies index
    ensures index.trunks == old(index.trunks)
    ensures index.Valid() && !index.closed
    ensures index.numTrunks == old(index.numTrunks) && index.fileSizes == old(index.fileSizes)
    ensures index.size == old(index.size) && index.trunks == old(index.trunks)
    ensures u.Err? ==> u.error == StructRange
    ensures (index.Regular() && old(index.Normalised()) && old(index.tell) == EntrySize * t &&
             t < RecordCount(index.Content())) ==>
      u == Ok(Entry(index.Content(), t)) && index.tell == EntrySize * (t + 1) && index.Normalised()
  {
    var v := ReadFully(index, EntrySize);
    u := Unpack(v);
  }

  /** The data half of `read()`: `read(cur - last)` on the data stream,
      which refuses a length below -1 and reads everything left for -1;
      fewer bytes than asked is corruption. */
  method ReadBytes(data: TrunkController, last: nat, cur: nat) returns (r: Result<seq<byte>>)
    requires data.Valid() && data.readable && !data.closed
    modifies data
    ensures data.trunks == old(data.trunks)
    ensures data.Valid() && !data.closed
    ensures data.numTrunks == old(data.numTrunks) && data.fileSizes == old(data.fileSizes)
    ensures data.size == old(data.size) && data.trunks == old(data.trunks)
    ensures r.Err? && cur - last < -1 ==> unchanged(data)
    ensures data.Regular() && old(data.Normalised()) && old(data.tell) == last ==>
      r == RecordBytes(data.Content(), last, cur) && (r.Ok? ==> data.tell == cur && data.Normalised())
  {
    var length: int := cur - last;
    if length < -1 {
      return Err(ReadLength);
    }
    var ret: seq<byte>;
    if length == -1 {
      ret := ReadFully(data, data.size - data.tell);
    } else {
      ret := ReadFully(data, length);
    }
    if |ret| != length {
      return Err(Broken);
    }
    return Ok(ret);
  }

  /** Both streams stand where record t starts. */
  ghost predicate AtRecord(index: TrunkController, data: TrunkController, t: nat, last: nat)
    reads index, data
  {
    index.Regular() && index.Normalised() && data.Regular() && data.Normalised() &&
    t <= RecordCount(index.Content()) && index.tell == EntrySize * t &&
    last == EndBefore(index.Content(), t) && data.tell == last
  }

  /** `read()` past its checks: the index entry of record t, then the
      record's bytes from `last`; the record and its end offset. */
  method ReadRecord(index: TrunkController, data: TrunkController, ghost t: nat, last: nat)
    returns (r: Result<(seq<byte>, nat)>)
    requires index != data && index.Valid() && data.Valid()
    requires index.readable && !index.closed && data.readable && !data.closed
    modifies index, data
    ensures index.trunks == old(index.trunks) && data.trunks == old(data.trunks)
    ensures index.Valid() && !index.closed
    ensures index.numTrunks == old(index.numTrunks) && index.fileSizes == old(index.fileSizes)
    ensures index.size == old(index.size) && index.trunks == old(index.trunks)
    ensures data.Valid() && !data.closed
    ensures data.numTrunks == old(data.numTrunks) && data.fileSizes == old(data.fileSizes)
    ensures data.size == old(data.size) && data.trunks == old(data.trunks)
    ensures old(AtRecord(index, data, t, last)) && t < RecordCount(index.Content()) ==>
      (match RecordRead(index.Content(), data.Content(), t)
       case Ok(v) => r == Ok((v, Entry(index.Content(), t))) && AtRecord(index, data, t + 1, r.value.1)
       case Err(e) => r == Err(e))
  {
    var u := ReadEntry(index, t);
    if u.Err? {
      return Err(Broken);
    }
    var cur := u.value;
    var ret := ReadBytes(data, last, cur);
    if ret.Err? {
      return Err(ret.error);
    }
    return Ok((ret.value, cur));
  }

  /** The index half of `seek`: with the index stream moved to entry
      `pos - 1`, that entry read back and unpacked; the stream start and
      offset 0 for `pos == 0`. */
  method SeekIndex(index: TrunkController, pos: nat) returns (u: Result<nat>)
    requires index.Valid() && index.readable && !index.closed && pos <= RecordCount(index.Content())
    modifies index
    ensures index.trunks == old(index.trunks)
    ensures index.Valid() && !index.closed
    ensures index.numTrunks == old(index.numTrunks) && index.fileSizes == old(index.fileSizes)
    ensures index.size == old(index.size) && index.trunks == old(index.trunks)
    ensures u.Err? ==> u.error == StructRange
    ensures index.Regular() ==>
      u == Ok(EndBefore(index.Content(), pos)) && index.tell == EntrySize * pos && index.Normalised()
  {
    if pos > 0 {
      var s := index.Seek((pos - 1) * EntrySize, SEEK_SET);
      u := ReadEntry(index, pos - 1);
    } else {
      var s := index.Seek(0, SEEK_SET);
      u := Ok(0);
    }
  }

  /** The streams of `seek`: the index stream to record `pos`, then the
      data stream to where that record starts. */
  method SeekRecord(index: TrunkController, data: TrunkController, pos: nat) returns (u: Result<nat>)
    requires index != data && index.Valid() && data.Valid()
    requires index.readable && !index.closed && data.readable && !data.closed
    requires pos <= RecordCount(index.Content())
    modifies index, data
    ensures index.trunks == old(index.trunks) && data.trunks == old(data.trunks)
    ensures index.Valid() && !index.closed
    ensures index.numTrunks == old(index.numTrunks) && index.fileSizes == old(index.fileSizes)
    ensures index.size == old(index.size) && index.trunks == old(index.trunks)
    ensures data.Valid() && !data.closed
    ensures data.numTrunks == old(data.numTrunks) && data.fileSizes == old(data.fileSizes)
    ensures data.size == old(data.size) && data.trunks == old(data.trunks)
    ensures u.Err? ==> u.error == StructRange
    ensures index.Regular() && data.Regular() ==>
      u == Ok(EndBefore(index.Content(), pos)) &&
      (u.value <= |data.Content()| ==> AtRecord(index, data, pos, u.value))
  {
    u := SeekIndex(index, pos);
    if u.Err? {
      return;
    }
    var s := data.Seek(u.value, SEEK_SET);
  }

  /** The index half of `pread(k)`: a 16-byte index read at `(k - 1) * 8`
      split into two entries, or for k <= 0 an 8-byte read at 0; fewer
      bytes than asked is corruption. */
  method PreadIndex(index: TrunkController, k: int) returns (b: Result<(nat, nat)>)
    requires index.Valid() && index.readable && !index.closed && k < RecordCount(index.Content())
    ensures b == Bracket(index.Content(), k)
  {
    if k > 0 {
      var bf := index.Pread((k - 1) * EntrySize, 2 * EntrySize);
      var v := bf.value;
      if |v| != 2 * EntrySize {
        return Err(Broken);
      }
      ghost var idx := index.Content();
      assert v[..EntrySize] == idx[EntrySize * (k - 1) .. EntrySize * (k - 1) + EntrySize];
      assert v[EntrySize..] == idx[EntrySize * k .. EntrySize * k + EntrySize];
      var last := Unpack(v[..EntrySize]);
      var cur := Unpack(v[EntrySize..]);
      b := Ok((last.value, cur.value));
    } else {
      var bf := index.Pread(0, EntrySize);
      if bf.Err? {
        return Err(bf.error);
      }
      if |bf.value| != EntrySize {
        return Err(Broken);
      }
      var cur := Unpack(bf.value);
      b := Ok((0, cur.value));
    }
  }

  /** `pread(k)` past its checks, answering an empty record without
      touching the data stream. */
  method PreadAt(index: TrunkController, data: TrunkController, k: int) returns (r: Result<seq<byte>>)
    requires index.Valid() && index.readable && !index.closed
    requires data.Valid() && data.readable && !data.closed
    requires k < RecordCount(index.Content())
    ensures r == PreadRecord(index.Content(), data.Content(), k)
  {
    var b := PreadIndex(index, k);
    if b.Err? {
      return Err(b.error);
    }
    var last := b.value.0;
    var cur := b.value.1;
    if last == cur {
      return Ok([]);
    }
    var ret := data.Pread(last, cur as int - last as int);
    if ret.Err? {
      return Err(ret.error);
    }
    if |ret.value| != cur as int - last as int {
      return Err(Broken);
    }
    return ret;
  }

  /** The index stream's prefix: the dataset prefix with its '/' added
      when missing, then `index/`. */
  function IndexPrefix(prefix: string): (p: string)
    ensures NormalizePrefix(p) == p
  {
    NormalizePrefix(prefix) + "index/"
  }

  /** The data stream's prefix: the dataset prefix with its '/' added when
      missing, then `data/`. */
  function DataPrefix(prefix: string): (p: string)
    ensures NormalizePrefix(p) == p && p != IndexPrefix(prefix)
  {
    NormalizePrefix(prefix) + "data/"
  }

  /** The two controllers of a read-mode dataset: the index stream's
      first, then the data stream's; a missing stream is an empty dataset. */
  method OpenReaders(storage: Storage, prefix: string, maxFileSize: nat)
    returns (r: Result<(TrunkController, TrunkController)>)
    ensures r.Err? <==> TrunkPath(IndexPrefix(prefix), 0) !in storage.objects ||
                        TrunkPath(DataPrefix(prefix), 0) !in storage.objects
    ensures r.Err? ==> r.error == EmptyDataset
    ensures r.Ok? ==>
      var index := r.value.0; var data := r.value.1;
      fresh(index) && fresh(data) && index.storage == storage && data.storage == storage &&
      index.prefix == IndexPrefix(prefix) && data.prefix == DataPrefix(prefix) &&
      index.Valid() && data.Valid() && !index.closed && !data.closed &&
      index.readable && data.readable && index.tell == 0 && data.tell == 0 &&
      (index.Regular() ==> index.Normalised()) && (data.Regular() ==> data.Normalised())
  {
    var ri := TrunkController.OpenReader(storage, IndexPrefix(prefix), maxFileSize);
    if ri.Err? {
      return Err(ri.error);
    }
    var rd := TrunkController.OpenReader(storage, DataPrefix(prefix), maxFileSize);
    if rd.Err? {
      return Err(rd.error);
    }
    return Ok((ri.value, rd.value));
  }

  /** The two controllers of a write-mode dataset: the index stream's
      first, then the data stream's, each creating its trunk 0 when the
      stream is new. */
  method OpenWriters(storage: Storage, prefix: string, maxFileSize: nat)
    returns (index: TrunkController, data: TrunkController)
    requires maxFileSize > 0
    requires Appendable(storage.objects, IndexPrefix(prefix), maxFileSize)
    requires Appendable(storage.objects, DataPrefix(prefix), maxFileSize)
    modifies storage
    ensures fresh(index) && fresh(data) && index.storage == storage && data.storage == storage
    ensures index.prefix == IndexPrefix(prefix) && data.prefix == DataPrefix(prefix)
    ensures index.Valid() && data.Valid() && !index.closed && !data.closed
    ensures index.writable && data.writable && index.tell == 0 && data.tell == 0
    ensures TrunkPath(IndexPrefix(prefix), 0) !in old(storage.objects) ==> index.Content() == []
    ensures TrunkPath(DataPrefix(prefix), 0) !in old(storage.objects) ==> data.Content() == []
  {
    var ip := IndexPrefix(prefix);
    var dp := DataPrefix(prefix);
    ghost var m0 := storage.objects;
    index := TrunkController.OpenWriter(storage, ip, maxFileSize);
    ghost var m1 := storage.objects;
    if TrunkPath(ip, 0) !in m0 {
      UpdateSameOutside(m0, TrunkPath(ip, 0), [], ip);
      EmptyStream(index, m1);
    }
    AppendableElsewhere(m0, m1, dp, ip, maxFileSize);
    data := TrunkController.OpenWriter(storage, dp, maxFileSize);
    ghost var m2 := storage.objects;
    if TrunkPath(dp, 0) !in m1 {
      UpdateSameOutside(m1, TrunkPath(dp, 0), [], dp);
      EmptyStream(data, m2);
    } else {
      assert m2 == m1;
    }
    index.ValidElsewhere(m1, m2, dp);
  }

  /** A stream of one empty trunk holds no bytes. */
  lemma {:induction false} EmptyStream(c: TrunkController, m: map<Path, seq<byte>>)
    requires c.ValidIn(m) && c.numTrunks == 1 && TrunkData(m, c.prefix, 0) == []
    ensures c.Content() == []
  {
    assert c.trunks == [] + [[]];
    ConcatEmptyLast([]);
  }

  /** `read` lifted to the optional record `read` returns. */
  function Lift(r: Result<seq<byte>>): Result<Option<seq<byte>>>
  {
    match r
    case Ok(v) => Ok(Some(v))
    case Err(e) => Err(e)
  }

  class RawDataset {
    const index: TrunkController
    const data: TrunkController
    const readable: bool
    const writable: bool
    var closed: bool
    var tell: nat
    var size: nat
    var realDataSize: nat
    var lastReadPos: nat

    /** The index stream's bytes. */
    ghost function Index(): seq<byte>
      reads index
    {
      index.Content()
    }

    /** The data stream's bytes. */
    ghost function Data(): seq<byte>
      reads data
    {
      data.Content()
    }

    ghost predicate Valid()
      reads this, index, data, index.storage
    {
      index != data && index.storage == data.storage && index.prefix != data.prefix &&
      index.Valid() && data.Valid() &&
      index.readable == readable && data.readable == readable && writable == !readable &&
      index.closed == closed && data.closed == closed &&
      size == RecordCount(Index()) && realDataSize == |Data()| &&
      (readable ==> tell <= size)
    }

    /** Every trunk but the last of both streams holds data, as the writer
        leaves them. */
    ghost predicate Regular()
      reads this, index, data
    {
      index.Regular() && data.Regular()
    }

    /** Both stream cursors stand where record `tell` starts. */
    ghost predicate InSync()
      reads this, index, data
    {
      readable && AtRecord(index, data, tell, lastReadPos)
    }

    /** The two streams hold the records `rs` as a writer lays them out. */
    ghost predicate Holds(rs: seq<seq<byte>>)
      reads this, index, data
    {
      Index() == IndexOf(rs) && Data() == DataOf(rs)
    }

    constructor (index: TrunkController, data: TrunkController, readable: bool, size: nat, realDataSize: nat)
      ensures this.index == index && this.data == data && this.readable == readable
      ensures this.writable == !readable && !this.closed
      ensures this.size == size && this.realDataSize == realDataSize && this.tell == 0 && this.lastReadPos == 0
    {
      this.index := index;
      this.data := data;
      this.readable := readable;
      this.writable := !readable;
      this.closed := false;
      this.tell := 0;
      this.size := size;
      this.realDataSize := realDataSize;
      this.lastReadPos := 0;
    }

    /** `write(data)`: the record's bytes go to the data stream, then its
        cumulative end offset to the index stream.  An end offset of 2^64
        or more is refused by `struct.pack` after the data and both
        counters have already moved. */
    method Write(d: seq<byte>) returns (r: Result<()>)
      requires Valid()
      modifies this, index, data, index.storage
      ensures closed == old(closed) && tell == old(tell) && lastReadPos == old(lastReadPos)
      ensures r != Err(StructRange) ==> Valid()
      ensures old(closed) ==> r == Err(Closed) && unchanged(this, index, data, index.storage)
      ensures !old(closed) && !writable ==> r == Err(NotWritable) && unchanged(this, index, data, index.storage)
      ensures !old(closed) && writable ==>
        Data() == old(Data()) + d && realDataSize == old(realDataSize) + |d| && size == old(size) + 1 &&
        (if realDataSize < Two64
         then r == Ok(()) && Index() == old(Index()) + EncodeLE(realDataSize, EntrySize)
         else r == Err(StructRange) && Index() == old(Index()))
      ensures r.Ok? ==> forall rs :: old(Holds(rs)) ==> Holds(rs + [d])
    {
      if closed {
        return Err(Closed);
      }
      if !writable {
        return Err(NotWritable);
      }
      r := WriteNext(d);
      if r.Ok? {
        forall rs | old(Holds(rs))
          ensures Holds(rs + [d])
        {
          AppendRecord(rs, d);
        }
      }
    }

    /** `write(data)` once the checks pass.  The counters move before the
        writes here and after the data write in the code; nothing can fail
        in between, so the outcome is the same. */
    method WriteNext(d: seq<byte>) returns (r: Result<()>)
      requires Valid() && writable && !closed
      modifies this, index, data, index.storage
      ensures !closed && tell == old(tell) && lastReadPos == old(lastReadPos)
      ensures r.Ok? ==> Valid()
      ensures Data() == old(Data()) + d && realDataSize == old(realDataSize) + |d| && size == old(size) + 1
      ensures if realDataSize < Two64
        then r == Ok(()) && Index() == old(Index()) + EncodeLE(realDataSize, EntrySize)
        else r == Err(StructRange) && Index() == old(Index())
    {
      realDataSize := realDataSize + |d|;
      size := size + 1;
      r := WriteRecord(index, data, d, realDataSize);
    }

    /** `read()`: the next record, None at the end, and corruption when the
        index entry or the record's bytes come short. */
    method Read() returns (r: Result<Option<seq<byte>>>)
      requires Valid()
      modifies this, index, data
      ensures index.trunks == old(index.trunks) && data.trunks == old(data.trunks)
      ensures Valid()
      ensures closed == old(closed) && size == old(size) && Index() == old(Index()) && Data() == old(Data())
      ensures old(closed) ==> r == Err(Closed) && unchanged(this, index, data)
      ensures !old(closed) && !readable ==> r == Err(NotReadable) && unchanged(this, index, data)
      ensures !old(closed) && readable && old(tell) == size ==> r == Ok(None) && unchanged(this, index, data)
      ensures r.Ok? && r.value.Some? ==> tell == old(tell) + 1
      ensures !old(closed) && readable && old(tell) < size && old(InSync()) ==>
        r == Lift(RecordRead(Index(), Data(), old(tell))) && (r.Ok? ==> InSync())
      ensures !old(closed) && readable && old(tell) < size && old(InSync()) ==>
        forall rs :: Holds(rs) && Fits(rs) ==> r == Ok(Some(rs[old(tell)]))
    {
      if closed {
        return Err(Closed);
      }
      if !readable {
        return Err(NotReadable);
      }
      if tell == size {
        return Ok(None);
      }
      r := ReadNext();
      if old(InSync()) {
        forall rs | Holds(rs) && Fits(rs)
          ensures r == Ok(Some(rs[old(tell)]))
        {
          ReadRoundTrip(rs, old(tell));
        }
      }
    }

    /** `read()` once the checks pass: record `tell` and the new counters. */
    method ReadNext() returns (r: Result<Option<seq<byte>>>)
      requires Valid() && readable && !closed && tell < size
      modifies this, index, data
      ensures index.trunks == old(index.trunks) && data.trunks == old(data.trunks)
      ensures Valid() && !closed && size == old(size) && Index() == old(Index()) && Data() == old(Data())
      ensures r.Ok? ==> r.value.Some? && tell == old(tell) + 1
      ensures old(InSync()) ==> r == Lift(RecordRead(Index(), Data(), old(tell))) && (r.Ok? ==> InSync())
    {
      var rec := ReadRecord(index, data, tell, lastReadPos);
      if rec.Err? {
        return Err(rec.error);
      }
      lastReadPos := rec.value.1;
      tell := tell + 1;
      return Ok(Some(rec.value.0));
    }

    /** `seek(offset, whence)`: SEEK_END counts back from the record count,
        any other whence is refused, and the target is clamped to
        [0, size]; both stream cursors then move to the target record. */
    method Seek(offset: int, whence: int) returns (r: Result<nat>)
      requires Valid()
      modifies this, index, data
      ensures index.trunks == old(index.trunks) && data.trunks == old(data.trunks)
      ensures Valid()
      ensures closed == old(closed) && size == old(size) && Index() == old(Index()) && Data() == old(Data())
      ensures old(closed) ==> r == Err(Closed) && unchanged(this, index, data)
      ensures !old(closed) && !readable ==> r == Err(NotReadable) && unchanged(this, index, data)
      ensures !old(closed) && readable && whence !in {SEEK_SET, SEEK_CUR, SEEK_END} ==>
        r == Err(InvalidWhence) && unchanged(this, index, data)
      ensures !old(closed) && readable && whence in {SEEK_SET, SEEK_CUR, SEEK_END} ==>
        var pos := Clamp(Resolve(offset, whence, old(tell), size), 0, size);
        (r.Ok? ==> r.value == pos && tell == pos) && (r.Err? ==> r.error == StructRange) &&
        (Regular() ==> r.Ok? && (EndBefore(Index(), pos) <= |Data()| ==> InSync()))
      ensures !old(closed) && readable && whence in {SEEK_SET, SEEK_CUR, SEEK_END} ==>
        forall rs :: Holds(rs) && Fits(rs) && Regular() ==> InSync()
    {
      if closed {
        return Err(Closed);
      }
      if !readable {
        return Err(NotReadable);
      }
      if whence !in {SEEK_SET, SEEK_CUR, SEEK_END} {
        return Err(InvalidWhence);
      }
      var pos := Clamp(Resolve(offset, whence, tell, size), 0, size);
      r := SeekNext(pos);
      forall rs | Holds(rs) && Fits(rs) && Regular()
        ensures InSync()
      {
        StartInData(rs, pos);
      }
    }

    /** `seek` once the target record is known. */
    method SeekNext(pos: nat) returns (r: Result<nat>)
      requires Valid() && readable && !closed && pos <= size
      modifies this, index, data
      ensures index.trunks == old(index.trunks) && data.trunks == old(data.trunks)
      ensures Valid() && !closed && size == old(size) && Index() == old(Index()) && Data() == old(Data())
      ensures r.Ok? ==> r.value == pos && tell == pos
      ensures r.Err? ==> r.error == StructRange
      ensures Regular() ==> r.Ok? && (EndBefore(Index(), pos) <= |Data()| ==> InSync())
    {
      var u := SeekRecord(index, data, pos);
      if u.Err? {
        return Err(u.error);
      }
      lastReadPos := u.value;
      tell := pos;
      return Ok(pos);
    }

    /** `pread(k)`: record k without moving either cursor; k at or past the
        record count raises IndexError and every k <= 0 gives record 0. */
    method Pread(k: int) returns (r: Result<seq<byte>>)
      requires Valid()
      ensures closed ==> r == Err(Closed)
      ensures !closed && !readable ==> r == Err(NotReadable)
      ensures !closed && readable && k >= size ==> r == Err(OutOfRange)
      ensures !closed && readable && k < size ==> r == PreadRecord(Index(), Data(), k)
      ensures !closed && readable && k < size ==> forall rs :: Holds(rs) && Fits(rs) && |rs| > 0 ==> r == Ok(rs[Max(k, 0)])
    {
      if closed {
        return Err(Closed);
      }
      if !readable {
        return Err(NotReadable);
      }
      if k >= size {
        return Err(OutOfRange);
      }
      r := PreadAt(index, data, k);
      forall rs | Holds(rs) && Fits(rs) && |rs| > 0
        ensures r == Ok(rs[Max(k, 0)])
      {
        PreadRoundTrip(rs, k);
      }
    }

    /** `flush()`: a no-op for a reader, refused for a closed writer. */
    method Flush() returns (r: Result<()>)
      requires Valid()
      ensures r.Err? <==> writable && closed
      ensures r.Err? ==> r.error == Closed
    {
      if writable {
        if closed {
          return Err(Closed);
        }
        var a := index.Flush();
        var b := data.Flush();
      }
      return Ok(());
    }

    /** `close()`: closes both streams once; a second call does nothing. */
    method Close()
      requires Valid()
      modifies this, index, data
      ensures Valid() && closed
      ensures tell == old(tell) && size == old(size) && lastReadPos == old(lastReadPos)
      ensures Index() == old(Index()) && Data() == old(Data())
      ensures old(closed) ==> unchanged(this, index, data)
    {
      if !closed {
        index.Close();
        data.Close();
        closed := true;
      }
    }

    /** `size()`: the number of records the index stream holds. */
    function Size(): (n: nat)
      reads this, index, data, index.storage
      requires Valid()
      ensures n == RecordCount(Index())
    {
      size
    }

    /** `tell()`: the next record `read` returns. */
    function Tell(): (n: nat)
      reads this, index, data, index.storage
      requires Valid()
      ensures readable ==> n <= RecordCount(Index())
    {
      tell
    }

    /** `RawDataset(storage, prefix, mode)`: the two streams opened in the
        mode, the record count from the index stream's length and the data
        size from the data stream's; both cursors at record 0. */
    static method Open(storage: Storage, prefix: string, mode: string, maxFileSize: nat)
      returns (r: Result<RawDataset>)
      requires mode == "w" ==>
        maxFileSize > 0 &&
        Appendable(storage.objects, IndexPrefix(prefix), maxFileSize) &&
        Appendable(storage.objects, DataPrefix(prefix), maxFileSize)
      modifies storage
      ensures mode != "r" && mode != "w" ==> r == Err(UnknownMode)
      ensures mode != "w" ==> storage.objects == old(storage.objects)
      ensures mode == "r" ==>
        (r.Err? <==> TrunkPath(IndexPrefix(prefix), 0) !in storage.objects ||
                     TrunkPath(DataPrefix(prefix), 0) !in storage.objects)
      ensures mode == "r" && r.Err? ==> r.error == EmptyDataset
      ensures mode == "w" ==> r.Ok?
      ensures r.Ok? ==> fresh(r.value) && fresh(r.value.index) && fresh(r.value.data)
      ensures r.Ok? ==> r.value.Valid() && !r.value.closed && r.value.tell == 0
      ensures r.Ok? ==> r.value.readable == (mode == "r") && r.value.index.storage == storage
      ensures r.Ok? ==> r.value.index.prefix == IndexPrefix(prefix) && r.value.data.prefix == DataPrefix(prefix)
      ensures r.Ok? && mode == "r" && r.value.Regular() ==> r.value.InSync()
      ensures (r.Ok? && mode == "w" && TrunkPath(IndexPrefix(prefix), 0) !in old(storage.objects) &&
               TrunkPath(DataPrefix(prefix), 0) !in old(storage.objects)) ==> r.value.Holds([])
    {
      if mode != "r" && mode != "w" {
        return Err(UnknownMode);
      }
      var index: TrunkController, data: TrunkController;
      if mode == "r" {
        var s := OpenReaders(storage, prefix, maxFileSize);
        if s.Err? {
          return Err(s.error);
        }
        index, data := s.value.0, s.value.1;
      } else {
        index, data := OpenWriters(storage, prefix, maxFileSize);
      }
      var ds := new RawDataset(index, data, mode == "r", index.size / EntrySize, data.size);
      return Ok(ds);
    }
  }
}
