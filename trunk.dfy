/** `TrunkController`: one logical append-only byte stream stored as trunk
    objects `<prefix>0.blk, <prefix>1.blk, …` of at most `max_file_size`
    bytes each.  A controller is opened either for reading (sequential
    `readinto`/`seek` plus random `pread`) or for appending (`write`). */
module Trunk {
  import opened Common
  import opened Backend
  import opened Streams

  /** What one `readinto` on an open backend handle produces: a byte count
      (the handle never delivers more than was asked for or than the trunk
      still holds), or nothing yet on a non-blocking handle. */
  datatype Reply = Bytes(n: nat) | WouldBlock

  /** The first `count` replies all deliver no byte into a `bufLen`-byte buffer. */
  predicate Stalls(replies: seq<Reply>, bufLen: nat, count: nat)
    requires |replies| >= count
  {
    count == 0 ||
    (replies[0].Bytes? && Min(replies[0].n, bufLen) == 0 && Stalls(replies[1..], bufLen, count - 1))
  }

  /** Default retry budget of `readinto` for a short read before a trunk end. */
  const DefaultMaxRetry: nat := 3

  /** Default `max_file_size`: 128 MiB. */
  const DefaultMaxFileSize: nat := 128 * 1024 * 1024

  /** A prefix always ends with '/', so `<prefix><id>.blk` splits back into
      the prefix and the trunk id without ambiguity. */
  function NormalizePrefix(prefix: string): (r: string)
    ensures |r| > 0 && r[|r| - 1] == '/'
    ensures r == prefix || r == prefix + "/"
    ensures r == prefix <==> |prefix| > 0 && prefix[|prefix| - 1] == '/'
  {
    if |prefix| > 0 && prefix[|prefix| - 1] == '/' then prefix else prefix + "/"
  }

  function TrunkData(objects: map<Path, seq<byte>>, prefix: string, i: nat): seq<byte>
  {
    ObjectData(objects, TrunkPath(prefix, i))
  }

  function TrunksOf(objects: map<Path, seq<byte>>, prefix: string, n: nat): (ts: seq<seq<byte>>)
    ensures |ts| == n
    ensures forall i :: 0 <= i < n ==> ts[i] == TrunkData(objects, prefix, i)
  {
    seq(n, i requires 0 <= i < n => TrunkData(objects, prefix, i))
  }

  ghost predicate Present(objects: map<Path, seq<byte>>, prefix: string, n: nat)
  {
    forall i: nat :: i < n ==> TrunkPath(prefix, i) in objects
  }

  /** `n` is what probing `0.blk, 1.blk, …` with `filesize` finds: trunks
      0 .. n-1 exist and trunk n is the first missing one. */
  ghost predicate IsProbeCount(objects: map<Path, seq<byte>>, prefix: string, n: nat)
  {
    Present(objects, prefix, n) && TrunkPath(prefix, n) !in objects
  }

  /** Every trunk object under `prefix` has all its predecessors. */
  ghost predicate Contiguous(objects: map<Path, seq<byte>>, prefix: string)
  {
    forall q :: q in objects && q.prefix == prefix && q.id > 0 ==> TrunkPath(prefix, q.id - 1) in objects
  }

  /** No trunk object under `prefix` at or beyond id `n`. */
  ghost predicate NoneFrom(objects: map<Path, seq<byte>>, prefix: string, n: nat)
  {
    forall q :: q in objects && q.prefix == prefix ==> q.id < n
  }

  /** A stored stream that can be appended to with trunks of `maxFileSize`
      bytes: its trunks are numbered without gaps and the last one found by
      probing is not larger than one trunk. */
  ghost predicate Appendable(objects: map<Path, seq<byte>>, prefix: string, maxFileSize: nat)
  {
    Contiguous(objects, prefix) &&
    forall n: nat :: 0 < n && IsProbeCount(objects, prefix, n) ==> |TrunkData(objects, prefix, n - 1)| <= maxFileSize
  }

  lemma {:induction false} ContiguousDown(objects: map<Path, seq<byte>>, prefix: string, m: nat)
    requires Contiguous(objects, prefix) && TrunkPath(prefix, m) in objects
    ensures forall i: nat :: i <= m ==> TrunkPath(prefix, i) in objects
  {
    if m > 0 {
      assert TrunkPath(prefix, m).id > 0;
      ContiguousDown(objects, prefix, m - 1);
    }
  }

  /** With contiguous trunks, probing finds all of them. */
  lemma {:induction false} ProbeFindsAll(objects: map<Path, seq<byte>>, prefix: string, n: nat)
    requires Contiguous(objects, prefix) && IsProbeCount(objects, prefix, n)
    ensures NoneFrom(objects, prefix, n)
  {
    forall q | q in objects && q.prefix == prefix
      ensures q.id < n
    {
      assert q == TrunkPath(prefix, q.id);
      ContiguousDown(objects, prefix, q.id);
    }
  }

  lemma {:induction false} SubsetCard<T>(a: set<T>, b: set<T>)
    requires a <= b
    ensures |a| <= |b|
    decreases |b|
  {
    if b != {} {
      var x :| x in b;
      SubsetCard(a - {x}, b - {x});
    }
  }

  /** Trunk ids at or after `n` that exist under `prefix`: the probing loop's measure. */
  function IdsFrom(objects: map<Path, seq<byte>>, prefix: string, n: nat): set<Path>
  {
    set q | q in objects.Keys && q.prefix == prefix && q.id >= n
  }

  lemma {:induction false} IdsFromShrinks(objects: map<Path, seq<byte>>, prefix: string, n: nat)
    requires TrunkPath(prefix, n) in objects
    ensures |IdsFrom(objects, prefix, n + 1)| < |IdsFrom(objects, prefix, n)|
  {
    assert TrunkPath(prefix, n) in IdsFrom(objects, prefix, n);
    assert TrunkPath(prefix, n) !in IdsFrom(objects, prefix, n + 1);
    SubsetCard(IdsFrom(objects, prefix, n + 1), IdsFrom(objects, prefix, n) - {TrunkPath(prefix, n)});
  }

  /** The position `seek` resolves before clamping: relative to the
      cursor for SEEK_CUR, counted back from the end for SEEK_END, and the
      offset itself for SEEK_SET (the default) or any other whence. */
  function Resolve(offset: int, whence: int, tell: int, size: int): (pos: int)
    ensures whence == SEEK_CUR ==> pos - tell == offset
    ensures whence == SEEK_END ==> size - pos == offset
    ensures whence != SEEK_CUR && whence != SEEK_END ==> pos == offset
  {
    if whence == SEEK_CUR then tell + offset
    else if whence == SEEK_END then size - offset
    else offset
  }

  /** Where the read position goes for global position `pos`, scanning
      from trunk `k` with `rest` bytes still to skip: the first trunk whose
      end is not before the position, except that the end of a trunk with a
      successor becomes offset 0 of that successor.  The result splits the
      position into the start of its trunk plus an in-trunk offset, and
      stops at a trunk end only on the last trunk (or on an empty trunk). */
  function LocateFrom(fs: seq<nat>, rest: nat, k: nat): (p: (nat, nat))
    requires k < |fs| && Prefix(fs, k) + rest <= Sum(fs)
    ensures k <= p.0 < |fs| && p.1 <= fs[p.0] && Prefix(fs, p.0) + p.1 == Prefix(fs, k) + rest
    ensures p.1 == fs[p.0] ==> p.0 == |fs| - 1 || fs[p.0] == 0
    decreases |fs| - k
  {
    if rest > fs[k] then LocateFrom(fs, rest - fs[k], k + 1)
    else if rest == fs[k] && k + 1 < |fs| then (k + 1, 0)
    else (k, rest)
  }

  /** The read position `seek` sets for global position `pos`: trunk
      `p.0` at in-trunk offset `p.1`, with the earlier trunks' sizes plus
      the offset equal to `pos`. */
  function Locate(fs: seq<nat>, pos: nat): (p: (nat, nat))
    requires |fs| > 0 && pos <= Sum(fs)
    ensures p.0 < |fs| && p.1 <= fs[p.0] && Prefix(fs, p.0) + p.1 == pos
    ensures p.1 == fs[p.0] ==> p.0 == |fs| - 1 || fs[p.0] == 0
  {
    LocateFrom(fs, pos, 0)
  }

  /** Where the read position goes after `n` bytes of trunk `k` from `off`:
      a completed trunk with a successor moves to offset 0 of the successor. */
  function Advance(fs: seq<nat>, k: nat, off: nat, n: nat): (p: (nat, nat))
    requires k < |fs| && off + n <= fs[k]
    ensures p.0 < |fs| && p.1 <= fs[p.0] && Prefix(fs, p.0) + p.1 == Prefix(fs, k) + off + n
    ensures p.1 == fs[p.0] ==> p.0 == |fs| - 1 || fs[p.0] == 0
  {
    if off + n == fs[k] && k + 1 < |fs| then (k + 1, 0) else (k, off + n)
  }

  /** Bytes a..b of trunk k are the stream bytes at Prefix(fs, k) + a .. + b. */
  lemma {:induction false} TrunkSlice(ts: seq<seq<byte>>, fs: seq<nat>, k: nat, a: nat, b: nat)
    requires fs == Sizes(ts) && k < |ts| && a <= b <= fs[k]
    ensures Prefix(fs, k + 1) == Prefix(fs, k) + fs[k] <= Sum(fs) == |Concat(ts)|
    ensures Concat(ts)[Prefix(fs, k) + a .. Prefix(fs, k) + b] == ts[k][a..b]
  {
    ConcatSlice(ts, k, a, b);
    PrefixMonotone(fs, k + 1, |fs|);
    ConcatLength(ts);
  }

  /** One step of a span read: bytes o..ed of trunk k extend what was read
      from global offset `start` so far. */
  lemma {:induction false} SpanStep(ts: seq<seq<byte>>, fs: seq<nat>, start: nat, ret: seq<byte>, k: nat, o: nat, ed: nat)
    requires fs == Sizes(ts) && k < |ts| && o <= ed <= fs[k]
    requires Prefix(fs, k) + o == start + |ret| && start + |ret| <= |Concat(ts)|
    requires ret == Concat(ts)[start..start + |ret|]
    ensures Prefix(fs, k + 1) == Prefix(fs, k) + fs[k] <= Sum(fs) == |Concat(ts)|
    ensures ret + ts[k][o..ed] == Concat(ts)[start..start + |ret| + (ed - o)]
  {
    TrunkSlice(ts, fs, k, o, ed);
    SliceJoin(Concat(ts), start, start + |ret|, start + |ret| + (ed - o));
  }

  /** Appending to the last trunk object grows the last trunk only. */
  lemma {:induction false} AppendLast(objects: map<Path, seq<byte>>, prefix: string, n: nat, data: seq<byte>)
    requires 1 <= n && Present(objects, prefix, n)
    ensures var ts := TrunksOf(objects, prefix, n);
      TrunksOf(objects[TrunkPath(prefix, n - 1) := objects[TrunkPath(prefix, n - 1)] + data], prefix, n)
        == ts[n - 1 := ts[n - 1] + data]
  {
    assert TrunkPath(prefix, n - 1) in objects;
  }

  /** `ts` are the trunk objects 0, 1, … under `prefix`, all present. */
  ghost predicate Stored(objects: map<Path, seq<byte>>, prefix: string, ts: seq<seq<byte>>)
  {
    forall i :: 0 <= i < |ts| ==> TrunkPath(prefix, i) in objects && objects[TrunkPath(prefix, i)] == ts[i]
  }

  lemma {:induction false} PresentStored(objects: map<Path, seq<byte>>, prefix: string, n: nat)
    requires Present(objects, prefix, n)
    ensures Stored(objects, prefix, TrunksOf(objects, prefix, n))
  {
  }

  /** Creating trunk n empty adds an empty trunk at the end. */
  lemma {:induction false} OpenNext(objects: map<Path, seq<byte>>, prefix: string, n: nat)
    requires TrunkPath(prefix, n) !in objects
    ensures TrunksOf(objects[TrunkPath(prefix, n) := []], prefix, n + 1) == TrunksOf(objects, prefix, n) + [[]]
  {
    assert TrunkData(objects[TrunkPath(prefix, n) := []], prefix, n) == [];
  }

  /** Objects created or changed under another prefix leave a stream
      appendable. */
  lemma {:induction false} AppendableElsewhere(m1: map<Path, seq<byte>>, m2: map<Path, seq<byte>>, prefix: string,
                                               other: string, maxFileSize: nat)
    requires Appendable(m1, prefix, maxFileSize) && SameOutside(m1, m2, other) && other != prefix
    ensures Appendable(m2, prefix, maxFileSize)
  {
    forall q | q in m2 && q.prefix == prefix && q.id > 0
      ensures TrunkPath(prefix, q.id - 1) in m2
    {
      assert q in m1;
      assert TrunkPath(prefix, q.id - 1) in m1;
      assert TrunkPath(prefix, q.id - 1).prefix != other;
    }
    forall n: nat | 0 < n && IsProbeCount(m2, prefix, n)
      ensures |TrunkData(m2, prefix, n - 1)| <= maxFileSize
    {
      forall i: nat | i < n
        ensures TrunkPath(prefix, i) in m1
      {
        assert TrunkPath(prefix, i) in m2;
        assert TrunkPath(prefix, i).prefix != other;
      }
      assert TrunkPath(prefix, n).prefix != other;
      assert IsProbeCount(m1, prefix, n);
      assert TrunkPath(prefix, n - 1).prefix != other;
    }
  }

  /** The locate loop of `seek`: skip whole trunks while the rest of the
      position lies beyond them, then move a trunk-end position with a
      successor to the start of that successor. */
  method LocateLoop(fs: seq<nat>, nwPos: nat) returns (k: nat, restSize: nat)
    requires |fs| > 0 && nwPos <= Sum(fs)
    ensures (k, restSize) == Locate(fs, nwPos)
  {
    restSize := nwPos;
    k := 0;
    while restSize > fs[k]
      invariant k < |fs| && Prefix(fs, k) + restSize == nwPos
      invariant LocateFrom(fs, restSize, k) == Locate(fs, nwPos)
      decreases |fs| - k
    {
      restSize := restSize - fs[k];
      k := k + 1;
    }
    if restSize == fs[k] {
      if k + 1 < |fs| {
        k := k + 1;
        restSize := 0;
      }
    }
  }

  /** The first loop of `pread`: skip the trunks that end at or before
      `offset`.  None when the loop runs past the last trunk, where the code's
      `file_sizes[trunk_id]` raises IndexError. */
  method FindTrunk(fs: seq<nat>, offset: nat) returns (r: Option<(nat, nat)>)
    ensures r.None? <==> offset >= Sum(fs)
    ensures r.Some? ==> r.value.0 < |fs| && r.value.1 < fs[r.value.0]
    ensures r.Some? ==> Prefix(fs, r.value.0) + r.value.1 == offset
  {
    var off: nat := offset;
    var trunkId: nat := 0;
    while true
      invariant trunkId <= |fs| && off + Prefix(fs, trunkId) == offset
      decreases |fs| - trunkId
    {
      if trunkId >= |fs| {
        return None;
      }
      if !(off >= fs[trunkId] && trunkId < |fs|) {
        break;
      }
      off := off - fs[trunkId];
      trunkId := trunkId + 1;
    }
    PrefixMonotone(fs, trunkId + 1, |fs|);
    return Some((trunkId, off));
  }

  /** The span loop of `pread`: range reads of consecutive trunks from trunk
      `trunkId` at `off` until `length` bytes are read or the trunks run out.
      After a trunk is read to its end the next one is read from offset 0. */
  method ReadSpan(objects: map<Path, seq<byte>>, prefix: string, fs: seq<nat>, ghost ts: seq<seq<byte>>,
                  trunkId: nat, off: nat, length: nat)
    returns (ret: seq<byte>)
    requires fs == Sizes(ts)
    requires Stored(objects, prefix, ts)
    requires trunkId < |fs| && off <= fs[trunkId]
    ensures Prefix(fs, trunkId) + off <= Sum(fs) == |Concat(ts)|
    ensures var start := Prefix(fs, trunkId) + off;
      ret == Concat(ts)[start..Min(start + length, Sum(fs))]
  {
    ghost var content := Concat(ts);
    ghost var start := Prefix(fs, trunkId) + off;
    TrunkSlice(ts, fs, trunkId, off, off);
    var k: nat := trunkId;
    var o: nat := off;
    var restLength: nat := length;
    ret := [];
    while restLength > 0 && k < |fs|
      invariant k <= |fs| && restLength + |ret| == length && start + |ret| <= Sum(fs)
      invariant ret == content[start..start + |ret|]
      invariant restLength > 0 && k < |fs| ==> Prefix(fs, k) + o == start + |ret| && o <= fs[k]
      invariant restLength > 0 && k == |fs| ==> start + |ret| == Sum(fs)
      decreases |fs| - k
    {
      var ed: nat := fs[k];
      if o + restLength < ed {
        ed := o + restLength;
      }
      // the backend range read [o, ed) of trunk k
      var chunk := objects[TrunkPath(prefix, k)][o..ed];
      SpanStep(ts, fs, start, ret, k, o, ed);
      o := if ed == fs[k] then 0 else ed;
      ret := ret + chunk;
      restLength := restLength - |chunk|;
      k := k + 1;
    }
  }

  /** The span loop of `pread` exactly as written, counting the bytes it
      reads: the next in-trunk offset is `ed % file_sizes[trunk_id]`, which
      divides by zero on an empty trunk. */
  function SpanAsWritten(fs: seq<nat>, k: nat, o: nat, rest: nat): (r: Result<nat>)
    requires rest > 0 && k < |fs| ==> o <= fs[k]
    ensures r.Ok? ==> r.value <= rest
    decreases |fs| - k
  {
    if rest == 0 || k >= |fs| then Ok(0)
    else if fs[k] == 0 then Err(ZeroDivision)
    else
      var ed := if o + rest < fs[k] then o + rest else fs[k];
      match SpanAsWritten(fs, k + 1, ed % fs[k], rest - (ed - o))
      case Ok(m) => Ok(ed - o + m)
      case Err(e) => Err(e)
  }

  /** Without an empty trunk on the way the loop as written reads what the
      corrected one reads: `rest` bytes, or up to the end of the stream. */
  lemma {:induction false} SpanAsWrittenNonEmpty(fs: seq<nat>, k: nat, o: nat, rest: nat)
    requires k <= |fs| && (k < |fs| ==> o <= fs[k]) && (k == |fs| ==> o == 0)
    requires forall i :: k <= i < |fs| ==> fs[i] > 0
    ensures Prefix(fs, k) + o <= Sum(fs)
    ensures SpanAsWritten(fs, k, o, rest) == Ok(Min(rest, Sum(fs) - Prefix(fs, k) - o))
    decreases |fs| - k
  {
    if k < |fs| {
      PrefixMonotone(fs, k + 1, |fs|);
      if rest > 0 {
        if fs[k] <= o + rest {
          assert fs[k] % fs[k] == 0;
          SpanAsWrittenNonEmpty(fs, k + 1, 0, rest - (fs[k] - o));
          assert SpanAsWritten(fs, k, o, rest) == Ok(fs[k] - o + Min(rest - (fs[k] - o), Sum(fs) - Prefix(fs, k + 1)));
        } else {
          assert SpanAsWritten(fs, k + 1, (o + rest) % fs[k], 0) == Ok(0);
          assert SpanAsWritten(fs, k, o, rest) == Ok(rest);
        }
      }
    }
  }

  /** Two trunks of 16 and 0 bytes, the second left empty by a write that
      filled the first exactly: `pread(8, 16)` starts inside trunk 0 and
      reaches the empty trunk with 8 bytes still wanted, where the code
      divides by zero; the stream holds 8 bytes from offset 8 to return. */
  lemma EmptyTrunkDividesByZero()
    ensures var fs := [16, 0];
      Prefix(fs, 0) + 8 < Sum(fs) &&
      SpanAsWritten(fs, 0, 8, 16) == Err(ZeroDivision) &&
      Min(8 + 16, Sum(fs)) - 8 == 8
  {
    var fs: seq<nat> := [16, 0];
    assert Sum(fs) == 16 by {
      assert Prefix(fs, 1) == 16;
    }
    assert SpanAsWritten(fs, 2, 0, 8) == Ok(0);
    assert SpanAsWritten(fs, 1, 0, 8) == Err(ZeroDivision);
  }

  /** A read of `lw` bytes of trunk `k` from offset `off`: the stream bytes at
      the matching global offset. */
  method ReadTrunk(objects: map<Path, seq<byte>>, prefix: string, fs: seq<nat>, ghost ts: seq<seq<byte>>,
                   k: nat, off: nat, lw: nat)
    returns (got: seq<byte>)
    requires fs == Sizes(ts) && Stored(objects, prefix, ts)
    requires k < |fs| && off + lw <= fs[k]
    ensures |got| == lw && Prefix(fs, k) + off + lw <= |Concat(ts)|
    ensures got == Concat(ts)[Prefix(fs, k) + off .. Prefix(fs, k) + off + lw]
  {
    got := objects[TrunkPath(prefix, k)][off..off + lw];
    TrunkSlice(ts, fs, k, off, off + lw);
  }

  /** `pread` once the mode checks pass: locate the trunk holding `offset`
      (IndexError past the end), allocate the `length`-byte buffer (a negative
      length is refused), then read the span. */
  method PreadTrunks(objects: map<Path, seq<byte>>, prefix: string, fs: seq<nat>, ghost ts: seq<seq<byte>>,
                     offset: nat, length: int)
    returns (r: Result<seq<byte>>)
    requires fs == Sizes(ts) && Stored(objects, prefix, ts)
    ensures Sum(fs) == |Concat(ts)|
    ensures offset >= Sum(fs) ==> r == Err(OutOfRange)
    ensures offset < Sum(fs) && length < 0 ==> r == Err(NegativeCount)
    ensures offset < Sum(fs) && length >= 0 ==> r == Ok(Concat(ts)[offset..Min(offset + length, Sum(fs))])
  {
    ConcatLength(ts);
    var start := FindTrunk(fs, offset);
    if start.None? {
      return Err(OutOfRange);
    }
    if length < 0 {
      // bytearray(length)
      return Err(NegativeCount);
    }
    var data := ReadSpan(objects, prefix, fs, ts, start.value.0, start.value.1, length);
    return Ok(data);
  }

  class TrunkController {
    const storage: Storage
    const prefix: string
    const maxFileSize: nat
    const readable: bool
    const writable: bool
    var closed: bool
    var tell: nat
    var size: nat
    var fileSizes: seq<nat>
    var numTrunks: nat
    var infileOffset: nat
    var currFile: nat
    /** The trunk objects of this stream, as the backend holds them. */
    ghost var trunks: seq<seq<byte>>

    /** The logical stream: the trunks one after the other. */
    ghost function Content(): seq<byte>
      reads this
    {
      Concat(trunks)
    }

    /** The controller's fields agree with the trunk objects in `objects`. */
    ghost predicate ValidIn(objects: map<Path, seq<byte>>)
      reads this
    {
      readable != writable && 1 <= numTrunks &&
      Present(objects, prefix, numTrunks) &&
      trunks == TrunksOf(objects, prefix, numTrunks) && size == |Content()| &&
      (readable ==>
        fileSizes == Sizes(trunks) && size == Sum(fileSizes) &&
        currFile < numTrunks && infileOffset <= fileSizes[currFile] &&
        tell == Prefix(fileSizes, currFile) + infileOffset && tell <= size) &&
      (writable ==>
        maxFileSize > 0 && NoneFrom(objects, prefix, numTrunks) && tell == 0 &&
        infileOffset == |trunks[numTrunks - 1]| && infileOffset <= maxFileSize)
    }

    ghost predicate Valid()
      reads this, storage
    {
      ValidIn(storage.objects)
    }

    /** Changes to objects under another prefix leave the controller valid. */
    lemma {:induction false} ValidElsewhere(m1: map<Path, seq<byte>>, m2: map<Path, seq<byte>>, other: string)
      requires ValidIn(m1) && SameOutside(m1, m2, other) && other != prefix
      ensures ValidIn(m2)
    {
      assert TrunksOf(m1, prefix, numTrunks) == TrunksOf(m2, prefix, numTrunks) by {
        forall i | 0 <= i < numTrunks
          ensures TrunkData(m1, prefix, i) == TrunkData(m2, prefix, i)
        {
          assert TrunkPath(prefix, i).prefix != other;
        }
      }
      forall i: nat | i < numTrunks
        ensures TrunkPath(prefix, i) in m2
      {
        assert TrunkPath(prefix, i).prefix != other;
      }
      if writable {
        forall q | q in m2 && q.prefix == prefix
          ensures q.id < numTrunks
        {
          assert q in m1;
        }
      }
    }

    /** Every trunk but the last is exactly full: what appending produces. */
    ghost predicate Full()
      reads this
    {
      forall i :: 0 <= i < |trunks| - 1 ==> |trunks[i]| == maxFileSize
    }

    /** Every trunk but the last holds at least one byte. */
    ghost predicate Regular()
      reads this
    {
      forall i :: 0 <= i < |trunks| - 1 ==> |trunks[i]| > 0
    }

    /** The read position is never left at the end of a trunk that has a successor. */
    ghost predicate Normalised()
      reads this
    {
      readable && currFile < |fileSizes| ==> infileOffset < fileSizes[currFile] || currFile == numTrunks - 1
    }

    /** Reading from global position t0 (trunk c0, offset o0) delivered
        `got`: the stream bytes from t0 on, with the position now past them. */
    ghost predicate Delivered(t0: nat, c0: nat, o0: nat, got: seq<byte>)
      reads this
    {
      c0 < |fileSizes| && o0 + |got| <= fileSizes[c0] && t0 + |got| <= |Content()| &&
      got == Content()[t0..t0 + |got|] && tell == t0 + |got| &&
      (currFile, infileOffset) == Advance(fileSizes, c0, o0, |got|)
    }

    constructor (storage: Storage, prefix: string, maxFileSize: nat, readable: bool,
                 fileSizes: seq<nat>, numTrunks: nat, size: nat, infileOffset: nat, currFile: nat,
                 ghost trunks: seq<seq<byte>>)
      ensures this.storage == storage && this.prefix == prefix && this.maxFileSize == maxFileSize
      ensures this.readable == readable && this.writable == !readable && !this.closed
      ensures this.fileSizes == fileSizes && this.numTrunks == numTrunks && this.size == size
      ensures this.infileOffset == infileOffset && this.currFile == currFile && this.tell == 0
      ensures this.trunks == trunks
    {
      this.storage := storage;
      this.prefix := prefix;
      this.maxFileSize := maxFileSize;
      this.readable := readable;
      this.writable := !readable;
      this.closed := false;
      this.tell := 0;
      this.size := size;
      this.fileSizes := fileSizes;
      this.numTrunks := numTrunks;
      this.infileOffset := infileOffset;
      this.currFile := currFile;
      this.trunks := trunks;
    }

    /** The probing loop of the constructor: `filesize` of `0.blk, 1.blk, …`
        until the first missing trunk. */
    static method Probe(storage: Storage, p: string) returns (sizes: seq<nat>)
      ensures IsProbeCount(storage.objects, p, |sizes|)
      ensures forall i :: 0 <= i < |sizes| ==> sizes[i] == |storage.objects[TrunkPath(p, i)]|
    {
      sizes := [];
      var n: nat := 0;
      while true
        invariant |sizes| == n && Present(storage.objects, p, n)
        invariant forall i :: 0 <= i < n ==> sizes[i] == |storage.objects[TrunkPath(p, i)]|
        decreases |IdsFrom(storage.objects, p, n)|
      {
        var fileSize := storage.FileSize(TrunkPath(p, n));
        if fileSize.None? {
          break;
        }
        IdsFromShrinks(storage.objects, p, n);
        sizes := sizes + [fileSize.value];
        n := n + 1;
      }
    }

    /** The read-mode half of the constructor: probe, and fail on an empty dataset. */
    static method OpenReader(storage: Storage, p: string, maxFileSize: nat) returns (r: Result<TrunkController>)
      ensures r.Err? <==> TrunkPath(p, 0) !in storage.objects
      ensures r.Err? ==> r.error == EmptyDataset
      ensures r.Ok? ==> fresh(r.value) && r.value.Valid() && !r.value.closed && r.value.readable
      ensures r.Ok? ==> r.value.storage == storage && r.value.prefix == p && r.value.maxFileSize == maxFileSize
      ensures r.Ok? ==> r.value.tell == 0 && r.value.currFile == 0 && r.value.infileOffset == 0
      ensures r.Ok? ==> IsProbeCount(storage.objects, p, r.value.numTrunks)
      ensures r.Ok? && r.value.Regular() ==> r.value.Normalised()
      ensures r.Ok? && r.value.numTrunks == 1 ==> r.value.Full()
    {
      var sizes := Probe(storage, p);
      var n: nat := |sizes|;
      if n == 0 {
        return Err(EmptyDataset);
      }
      ghost var ts := TrunksOf(storage.objects, p, n);
      assert Sizes(ts) == sizes;
      ConcatLength(ts);
      var c := new TrunkController(storage, p, maxFileSize, true, sizes, n, Sum(sizes), 0, 0, ts);
      r := Ok(c);
    }

    /** The append-mode half of the constructor: probe, create trunk 0 of an
        empty dataset, and open the last trunk for append. */
    static method OpenWriter(storage: Storage, p: string, maxFileSize: nat) returns (c: TrunkController)
      requires maxFileSize > 0
      requires Appendable(storage.objects, p, maxFileSize)
      modifies storage
      ensures storage.objects == (if TrunkPath(p, 0) in old(storage.objects) then old(storage.objects)
                                  else old(storage.objects)[TrunkPath(p, 0) := []])
      ensures fresh(c) && c.Valid() && !c.closed && c.writable
      ensures c.storage == storage && c.prefix == p && c.maxFileSize == maxFileSize && c.tell == 0
      ensures TrunkPath(p, 0) in old(storage.objects) ==> IsProbeCount(old(storage.objects), p, c.numTrunks)
      ensures TrunkPath(p, 0) !in old(storage.objects) ==> c.numTrunks == 1
      ensures c.numTrunks == 1 ==> c.Full()
    {
      var sizes := Probe(storage, p);
      var n: nat := |sizes|;
      ghost var ts := TrunksOf(storage.objects, p, n);
      assert Sizes(ts) == sizes;
      ConcatLength(ts);
      ProbeFindsAll(storage.objects, p, n);
      if n == 0 {
        OpenNext(storage.objects, p, 0);
        storage.OpenAppend(TrunkPath(p, 0));
        c := new TrunkController(storage, p, maxFileSize, false, [0], 1, 0, 0, 0, [[]]);
      } else {
        storage.OpenAppend(TrunkPath(p, n - 1));
        c := new TrunkController(storage, p, maxFileSize, false, sizes, n, Sum(sizes), sizes[n - 1], n - 1, ts);
      }
    }

    /** `TrunkController(storage, prefix, mode, max_file_size)`. */
    static method Open(storage: Storage, prefix: string, mode: string, maxFileSize: nat)
      returns (r: Result<TrunkController>)
      requires mode == "w" ==> maxFileSize > 0 && Appendable(storage.objects, NormalizePrefix(prefix), maxFileSize)
      modifies storage
      ensures mode != "r" && mode != "w" ==> r == Err(UnknownMode)
      ensures mode != "w" ==> storage.objects == old(storage.objects)
      ensures mode == "r" ==> (r.Err? <==> TrunkPath(NormalizePrefix(prefix), 0) !in storage.objects)
      ensures mode == "r" && r.Err? ==> r.error == EmptyDataset
      ensures mode == "w" ==> r.Ok?
      ensures mode == "w" ==>
        storage.objects == (if TrunkPath(NormalizePrefix(prefix), 0) in old(storage.objects) then old(storage.objects)
                            else old(storage.objects)[TrunkPath(NormalizePrefix(prefix), 0) := []])
      ensures r.Ok? ==> fresh(r.value) && r.value.Valid() && !r.value.closed
      ensures r.Ok? ==> r.value.storage == storage && r.value.prefix == NormalizePrefix(prefix)
      ensures r.Ok? ==> r.value.maxFileSize == maxFileSize && r.value.readable == (mode == "r")
      ensures r.Ok? ==> r.value.tell == 0
      ensures r.Ok? && TrunkPath(NormalizePrefix(prefix), 0) in old(storage.objects) ==>
        IsProbeCount(old(storage.objects), NormalizePrefix(prefix), r.value.numTrunks)
      ensures r.Ok? && TrunkPath(NormalizePrefix(prefix), 0) !in old(storage.objects) ==> r.value.numTrunks == 1
      ensures r.Ok? && mode == "r" ==> r.value.currFile == 0 && r.value.infileOffset == 0
      ensures r.Ok? && mode == "r" && r.value.Regular() ==> r.value.Normalised()
      ensures r.Ok? && r.value.numTrunks == 1 ==> r.value.Full()
    {
      if mode != "r" && mode != "w" {
        return Err(UnknownMode);
      }
      var p := NormalizePrefix(prefix);
      if mode == "r" {
        r := OpenReader(storage, p, maxFileSize);
      } else {
        var c := OpenWriter(storage, p, maxFileSize);
        r := Ok(c);
      }
    }

    /** `readinto(buffer, max_retry)` with a buffer of `bufLen` bytes; the
        i-th attempt (the first, then each retry) gets `replies[i]` from the
        backend handle. */
    method ReadInto(bufLen: nat, maxRetry: nat, replies: seq<Reply>) returns (r: Result<Option<seq<byte>>>)
      requires Valid()
      requires |replies| > maxRetry
      modifies this
      decreases maxRetry
      ensures Valid()
      ensures numTrunks == old(numTrunks) && fileSizes == old(fileSizes) && size == old(size)
      ensures closed == old(closed) && trunks == old(trunks)
      ensures !readable ==> r == Err(NotReadable) && unchanged(this)
      ensures readable && closed ==> r == Err(Closed) && unchanged(this)
      ensures r.Ok? && r.value.None? ==> unchanged(this) && WouldBlock in replies
      ensures readable && !closed ==>
        (r.Err? <==> old(infileOffset) < old(fileSizes[currFile]) && Stalls(replies, bufLen, maxRetry + 1))
      ensures r.Err? ==> r.error in {NotReadable, Closed, NotAligned}
      ensures r.Ok? && r.value.Some? ==>
        |r.value.value| <= bufLen &&
        (|r.value.value| == 0 <==> old(infileOffset) == old(fileSizes[currFile])) &&
        Delivered(old(tell), old(currFile), old(infileOffset), r.value.value)
      ensures old(Regular() && Normalised()) ==> Normalised()
    {
      if !readable {
        return Err(NotReadable);
      }
      if closed {
        return Err(Closed);
      }
      match replies[0]
      case WouldBlock =>
        return Ok(None);
      case Bytes(m) =>
        var lw: nat := Min(Min(m, bufLen), fileSizes[currFile] - infileOffset);
        if infileOffset + lw < fileSizes[currFile] && lw == 0 {
          if maxRetry > 0 {
            r := ReadInto(bufLen, maxRetry - 1, replies[1..]);
            return;
          } else {
            return Err(NotAligned);
          }
        }
        var got := Consume(lw);
        return Ok(Some(got));
    }

    /** The successful half of `readinto`: `lw` bytes land in the buffer,
        the counters advance, and a completed trunk with a successor is
        left for offset 0 of that successor. */
    method Consume(lw: nat) returns (got: seq<byte>)
      requires Valid() && readable && infileOffset + lw <= fileSizes[currFile]
      modifies this
      ensures Valid()
      ensures numTrunks == old(numTrunks) && fileSizes == old(fileSizes) && size == old(size)
      ensures closed == old(closed) && trunks == old(trunks)
      ensures |got| == lw && Delivered(old(tell), old(currFile), old(infileOffset), got)
      ensures old(Regular() && Normalised()) ==> Normalised()
    {
      PresentStored(storage.objects, prefix, numTrunks);
      got := ReadTrunk(storage.objects, prefix, fileSizes, trunks, currFile, infileOffset, lw);
      var next := Advance(fileSizes, currFile, infileOffset, lw);
      tell := tell + lw;
      currFile := next.0;
      infileOffset := next.1;
    }

    /** `write(b)`: appends as much of `b` as fits in the current trunk and
        rolls to a fresh trunk when that trunk is exactly full. */
    method Write(b: seq<byte>) returns (r: Result<nat>)
      requires Valid()
      modifies this, storage
      ensures Valid()
      ensures !writable ==> r == Err(NotWritable) && unchanged(this) && unchanged(storage)
      ensures writable && closed ==> r == Err(Closed) && unchanged(this) && unchanged(storage)
      ensures closed == old(closed)
      ensures writable && !closed ==>
        r == Ok(Min(|b|, maxFileSize - old(infileOffset))) &&
        Content() == old(Content()) + b[..r.value] &&
        size == old(size) + r.value &&
        infileOffset < maxFileSize &&
        (if old(infileOffset) + r.value == maxFileSize
         then numTrunks == old(numTrunks) + 1 && infileOffset == 0
         else numTrunks == old(numTrunks) && infileOffset == old(infileOffset) + r.value) &&
        SameOutside(old(storage.objects), storage.objects, prefix)
      ensures old(Full()) ==> Full()
    {
      if !writable {
        return Err(NotWritable);
      }
      if closed {
        return Err(Closed);
      }
      var wrtLen: nat := Min(|b|, maxFileSize - infileOffset);
      AppendLastTrunk(b[..wrtLen]);
      if infileOffset == maxFileSize {
        ghost var objects := storage.objects;
        RollOver();
        SameOutsideTrans(old(storage.objects), objects, storage.objects, prefix);
      }
      return Ok(wrtLen);
    }

    /** The append half of `write`: `fp_write.append(b[:wrt_len])` and the
        counters that follow it. */
    method AppendLastTrunk(chunk: seq<byte>)
      requires Valid() && writable && infileOffset + |chunk| <= maxFileSize
      modifies this, storage
      ensures Valid()
      ensures closed == old(closed) && numTrunks == old(numTrunks)
      ensures Content() == old(Content()) + chunk && size == old(size) + |chunk|
      ensures infileOffset == old(infileOffset) + |chunk|
      ensures SameOutside(old(storage.objects), storage.objects, prefix)
      ensures old(Full()) ==> Full()
    {
      AppendLast(storage.objects, prefix, numTrunks, chunk);
      ConcatGrowLast(trunks, chunk);
      UpdateSameOutside(storage.objects, TrunkPath(prefix, numTrunks - 1), storage.objects[TrunkPath(prefix, numTrunks - 1)] + chunk, prefix);
      storage.Append(TrunkPath(prefix, numTrunks - 1), chunk);
      trunks := trunks[numTrunks - 1 := trunks[numTrunks - 1] + chunk];
      size := size + |chunk|;
      infileOffset := infileOffset + |chunk|;
    }

    /** The roll-over half of `write`: a trunk filled exactly is followed by
        a new, empty trunk opened for append. */
    method RollOver()
      requires Valid() && writable && infileOffset == maxFileSize
      modifies this, storage
      ensures Valid()
      ensures closed == old(closed) && size == old(size) && Content() == old(Content())
      ensures numTrunks == old(numTrunks) + 1 && infileOffset == 0
      ensures SameOutside(old(storage.objects), storage.objects, prefix)
      ensures old(Full()) ==> Full()
    {
      OpenNext(storage.objects, prefix, numTrunks);
      ConcatEmptyLast(trunks);
      UpdateSameOutside(storage.objects, TrunkPath(prefix, numTrunks), [], prefix);
      storage.OpenAppend(TrunkPath(prefix, numTrunks));
      trunks := trunks + [[]];
      numTrunks := numTrunks + 1;
      infileOffset := 0;
    }

    /** `seek(offset, whence)`: clamps to [0, size] and places the read
        position in the trunk that owns it. */
    method Seek(offset: int, whence: int := SEEK_SET) returns (r: Result<nat>)
      requires Valid()
      modifies this
      ensures Valid()
      ensures numTrunks == old(numTrunks) && fileSizes == old(fileSizes) && size == old(size)
      ensures closed == old(closed) && trunks == old(trunks)
      ensures !readable ==> r == Err(NotReadable) && unchanged(this)
      ensures readable && closed ==> r == Err(Closed) && unchanged(this)
      ensures readable && !closed ==>
        var pos := Clamp(Resolve(offset, whence, old(tell), size), 0, size);
        r == Ok(pos) && tell == pos && (currFile, infileOffset) == Locate(fileSizes, pos)
      ensures readable && !closed && Regular() ==> Normalised()
    {
      if !readable {
        return Err(NotReadable);
      }
      if closed {
        return Err(Closed);
      }
      var nwPos: nat := Clamp(Resolve(offset, whence, tell, size), 0, size);
      var k, restSize := LocateLoop(fileSizes, nwPos);
      currFile := k;
      infileOffset := restSize;
      tell := nwPos;
      return Ok(tell);
    }

    /** `pread(offset, length)`: up to `length` bytes of the logical stream
        from `offset`; the read position is not used.  A start offset past
        the end raises IndexError, so the code's `return b""` is never
        reached. */
    method Pread(offset: nat, length: int) returns (r: Result<seq<byte>>)
      requires Valid()
      ensures !readable ==> r == Err(NotReadable)
      ensures readable && closed ==> r == Err(Closed)
      ensures readable && !closed && offset >= size ==> r == Err(OutOfRange)
      ensures readable && !closed && offset < size && length < 0 ==> r == Err(NegativeCount)
      ensures readable && !closed && offset < size && length >= 0 ==>
        r == Ok(Content()[offset..Min(offset + length, size)])
    {
      if !readable {
        return Err(NotReadable);
      }
      if closed {
        return Err(Closed);
      }
      PresentStored(storage.objects, prefix, numTrunks);
      r := PreadTrunks(storage.objects, prefix, fileSizes, trunks, offset, length);
    }

    /** `flush()`: ignored in read mode; refused once closed in write mode. */
    method Flush() returns (r: Result<()>)
      ensures r.Err? <==> writable && closed
      ensures r.Err? ==> r.error == Closed
    {
      if !writable {
        return Ok(());
      }
      if closed {
        return Err(Closed);
      }
      return Ok(());
    }

    /** `close()`: idempotent; only the closed flag changes. */
    method Close()
      modifies this
      ensures closed
      ensures tell == old(tell) && size == old(size) && fileSizes == old(fileSizes)
      ensures numTrunks == old(numTrunks) && infileOffset == old(infileOffset) && currFile == old(currFile)
      ensures trunks == old(trunks)
      ensures old(closed) ==> unchanged(this)
    {
      if !closed {
        closed := true;
      }
    }
  }
}
