/** `SliceDatasetWrapper`: a fixed window `[start, end)` over a
    `RowDataset`, with its own cursor `cur` counted in the view's
    positions; every `seek` is passed on to the view and every `read`
    short of `end` reads the view's next record. */
module TorchSlice {
  import opened Common
  import opened RecordFormat
  import opened Row

  /** Where `seek` aims before clamping: whence 0 counts from `start`,
      1 from the cursor, anything else back from `end`. */
  function SliceTarget(offset: int, whence: int, start: int, cur: int, end: int): int
  {
    if whence == 0 then offset + start
    else if whence == 1 then cur + offset
    else end - offset
  }

  /** The cursor after one `read`: one step on while short of `end`. */
  function Advance(cur: int, end: int): int
  {
    if cur < end then cur + 1 else cur
  }

  /** Whether each of `n` successive reads from cursor `p` yields a record
      (true) or None (false). */
  function Answers(p: int, end: int, n: nat): (a: seq<bool>)
    ensures |a| == n
    decreases n
  {
    if n == 0 then [] else [p < end] + Answers(Advance(p, end), end, n - 1)
  }

  /** From cursor `p`, exactly the first `end - p` reads yield a record and
      every later one yields None. */
  lemma {:induction false} ExactlyRemaining(p: int, end: int, n: nat)
    ensures forall i :: 0 <= i < n ==> Answers(p, end, n)[i] == (i < end - p)
    decreases n
  {
    if n > 0 {
      ExactlyRemaining(Advance(p, end), end, n - 1);
      forall i | 0 < i < n
        ensures Answers(p, end, n)[i] == (i < end - p)
      {
        assert Answers(p, end, n)[i] == Answers(Advance(p, end), end, n - 1)[i - 1];
      }
    }
  }

  class SliceDataset {
    const view: RowDataset
    const start: int
    const end: int
    const length: int
    var cur: int

    ghost predicate Valid()
      reads this, view, view.ds, view.ds.index, view.ds.data, view.ds.index.storage
    {
      view.Valid() && length == end - start && end <= view.Size()
    }

    /** The wrapper's cursor lies in its proper window, which lies inside
        the view, and the view's own cursor stands at the same place. */
    ghost predicate Tracks()
      reads this, view
    {
      view.readable && 0 <= start <= cur <= end <= view.length && view.tell == cur
    }

    /** The field set-up of `__init__`: `end = start + length`, cut down to
        the view's length, and `length` shortened to match when it is. */
    constructor (view: RowDataset, start: int, length: int)
      requires view.Valid()
      ensures this.view == view && this.start == start && cur == start
      ensures this.end == Min(start + length, view.Size())
      ensures this.length == this.end - start && Valid()
    {
      this.view := view;
      this.start := start;
      var e := start + length;
      var l := length;
      if e > view.Size() {
        e := view.Size();
        l := e - start;
      }
      this.end := e;
      this.length := l;
      this.cur := start;
    }

    /** `SliceDatasetWrapper(ds, start, length)`: the fields, then
        `seek(0, 0)`; an error from the view's seek aborts construction. */
    static method Wrap(view: RowDataset, start: int, length: int) returns (r: Result<SliceDataset>)
      requires view.Valid()
      modifies view, view.ds, view.ds.index, view.ds.data
      ensures view.Valid() && view.ds.Index() == old(view.ds.Index()) && view.ds.Data() == old(view.ds.Data())
      ensures !view.readable ==> r == Err(NotReadable)
      ensures r.Ok? ==> fresh(r.value) && r.value.view == view && r.value.Valid() && r.value.start == start
      ensures r.Ok? ==> r.value.end == Min(start + length, old(view.Size()))
      ensures r.Ok? ==> r.value.Len() <= length && (start + length <= old(view.Size()) ==> r.value.Len() == length)
      ensures r.Ok? && view.readable && !old(view.ds.closed) && 0 <= start <= old(view.Size()) && 0 <= length ==>
        r.value.cur == start && r.value.Tracks()
      ensures (view.readable && !old(view.ds.closed) && 0 <= start <= old(view.Size()) && 0 <= length &&
               0 <= view.begin <= view.end && view.ds.Regular()) ==> r.Ok?
    {
      var w := new SliceDataset(view, start, length);
      var s := w.Seek(0, 0);
      if s.Err? {
        return Err(s.error);
      }
      return Ok(w);
    }

    /** `seek(offset, whence)`: the target clamped first up to `start`,
        then down to `end`, and the view moved there. */
    method Seek(offset: int, whence: int) returns (r: Result<()>)
      requires Valid()
      modifies this, view, view.ds, view.ds.index, view.ds.data
      ensures Valid() && view.ds.Index() == old(view.ds.Index()) && view.ds.Data() == old(view.ds.Data())
      ensures view.begin == old(view.begin) && view.end == old(view.end) && view.length == old(view.length)
      ensures view.ds.closed == old(view.ds.closed)
      ensures cur == Clamp(SliceTarget(offset, whence, start, old(cur), end), start, end)
      ensures start <= end ==> start <= cur <= end
      ensures !view.readable ==> r == Err(NotReadable)
      ensures view.readable && !old(view.ds.closed) && 0 <= start <= end ==> Tracks()
      ensures Tracks() && !view.ds.closed && 0 <= view.begin <= view.end && view.ds.Regular() ==>
        r.Ok? && forall rs :: view.ds.Holds(rs) && Fits(rs) ==> view.Aligned()
    {
      cur := Clamp(SliceTarget(offset, whence, start, cur, end), start, end);
      r := SeekView(view, cur);
    }

    /** `read()`: None once the cursor reaches `end`; otherwise the cursor
        moves on and the view's next record is the answer. */
    method Read() returns (r: Result<Option<seq<byte>>>)
      requires Valid()
      modifies this, view, view.ds, view.ds.index, view.ds.data
      ensures Valid() && view.ds.Index() == old(view.ds.Index()) && view.ds.Data() == old(view.ds.Data())
      ensures view.begin == old(view.begin) && view.end == old(view.end) && view.length == old(view.length)
      ensures view.ds.closed == old(view.ds.closed)
      ensures cur == Advance(old(cur), end)
      ensures r == Ok(None) <==> old(cur) >= end
      ensures old(cur) >= end ==> unchanged(view, view.ds, view.ds.index, view.ds.data)
      ensures old(Tracks()) && !old(view.ds.closed) ==> Tracks()
      ensures old(Tracks()) && !old(view.ds.closed) && old(view.Aligned()) && old(cur) < end ==>
        old(view.ds.tell) == view.begin + old(cur) &&
        (forall rs :: view.ds.Holds(rs) && Fits(rs) ==> r == Ok(Some(rs[old(view.ds.tell)]))) &&
        (r.Ok? ==> view.Aligned())
    {
      if cur >= end {
        return Ok(None);
      }
      r := ReadNext();
    }

    /** `read()` short of `end`. */
    method ReadNext() returns (r: Result<Option<seq<byte>>>)
      requires Valid() && cur < end
      modifies this, view, view.ds, view.ds.index, view.ds.data
      ensures Valid() && view.ds.Index() == old(view.ds.Index()) && view.ds.Data() == old(view.ds.Data())
      ensures view.begin == old(view.begin) && view.end == old(view.end) && view.length == old(view.length)
      ensures view.ds.closed == old(view.ds.closed) && cur == old(cur) + 1 && r != Ok(None)
      ensures old(Tracks()) && !old(view.ds.closed) ==> Tracks()
      ensures old(Tracks()) && !old(view.ds.closed) && old(view.Aligned()) ==>
        old(view.ds.tell) == view.begin + old(cur) &&
        (forall rs :: view.ds.Holds(rs) && Fits(rs) ==> r == Ok(Some(rs[old(view.ds.tell)]))) &&
        (r.Ok? ==> view.Aligned())
    {
      cur := cur + 1;
      r := ReadView(view);
    }

    /** `__len__`: the window's length, shortened when `end` was cut. */
    function Len(): (n: int)
      reads this, view, view.ds, view.ds.index, view.ds.data, view.ds.index.storage
      requires Valid()
      ensures n == end - start && start + n <= view.Size()
    {
      length
    }
  }

  /** The view's `seek(pos, 0)` as the wrapper issues it, with the error
      passed on. */
  method SeekView(view: RowDataset, pos: int) returns (r: Result<()>)
    requires view.Valid()
    modifies view, view.ds, view.ds.index, view.ds.data
    ensures view.Valid() && view.ds.Index() == old(view.ds.Index()) && view.ds.Data() == old(view.ds.Data())
    ensures view.begin == old(view.begin) && view.end == old(view.end) && view.length == old(view.length)
    ensures view.ds.closed == old(view.ds.closed)
    ensures !view.readable ==> r == Err(NotReadable)
    ensures view.readable && !view.ds.closed && 0 <= pos <= view.length ==> view.tell == pos
    ensures (view.readable && !view.ds.closed && 0 <= pos <= view.length && 0 <= view.begin <= view.end &&
             view.ds.Regular()) ==> r.Ok? && forall rs :: view.ds.Holds(rs) && Fits(rs) ==> view.Aligned()
  {
    var p := view.Seek(pos, SEEK_SET);
    r := if p.Ok? then Ok(()) else Err(p.error);
  }

  /** The view's `read()` as the wrapper issues it: its record, or its
      error passed on. */
  method ReadView(view: RowDataset) returns (r: Result<Option<seq<byte>>>)
    requires view.Valid()
    modifies view, view.ds, view.ds.index, view.ds.data
    ensures view.Valid() && view.ds.Index() == old(view.ds.Index()) && view.ds.Data() == old(view.ds.Data())
    ensures view.begin == old(view.begin) && view.end == old(view.end) && view.length == old(view.length)
    ensures view.ds.closed == old(view.ds.closed) && r != Ok(None)
    ensures view.readable && !view.ds.closed && old(view.tell) < view.length ==> view.tell == old(view.tell) + 1
    ensures view.readable && !view.ds.closed && old(view.Aligned()) && old(view.tell) < view.length ==>
      (forall rs :: view.ds.Holds(rs) && Fits(rs) ==> r == Ok(Some(rs[old(view.ds.tell)]))) &&
      (r.Ok? ==> view.Aligned())
  {
    var v := view.Read();
    r := if v.Ok? then Ok(Some(v.value)) else Err(v.error);
  }
}
