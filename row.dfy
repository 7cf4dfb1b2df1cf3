/** `RowDataset`: a window `[begin, end)` over the records of a
    `RawDataset`, with its own cursor `tell` counted from `begin`, views
    re-based by `slice`/`slice_`, and the bookkeeping of the relay that
    serves forked clients.  Records are the raw bytes the store holds; the
    serializer in front of them is not part of this model. */
module Row {
  import opened Common
  import opened Backend
  import opened Trunk
  import opened RecordFormat
  import opened Dataset

  /** The window `RowDataset(start, length)` opens over a store of `size`
      records: `begin` and `end = start + length` are each cut down to
      `size`, and only from above. */
  function Window(size: nat, start: int, length: int): (w: (int, int))
    ensures w.0 <= size && w.1 <= size
    ensures w.0 == start || (start > size && w.0 == size)
    ensures w.1 == start + length || (start + length > size && w.1 == size)
  {
    (Min(start, size), Min(start + length, size))
  }

  /** The `length` argument `slice`/`slice_` use when none is given: the
      rest of the view after `start`. */
  function SliceLength(viewLength: int, start: int, length: Option<int>): (l: int)
    ensures length.Some? ==> l == length.value
    ensures length.None? ==> start + l == viewLength
  {
    if length.Some? then length.value else viewLength - start
  }

  /** A slice inside its view stays where it was asked to be: its window is
      the parent's shifted by `start`, and ends within the parent. */
  lemma {:induction false} SliceInside(size: nat, a: int, la: int, s: int, l: int)
    requires 0 <= a && a + la <= size && 0 <= s && 0 <= l && s + l <= la
    ensures var p := Window(size, a, la); var w := Window(size, p.0 + s, l);
      w == (a + s, a + s + l) && p.0 <= w.0 <= w.1 <= p.1
  {
  }

  /** A slice without a length ends where its view ends, however far
      `start` goes, as long as it starts within the store. */
  lemma {:induction false} SliceKeepsEnd(size: nat, b: int, e: int, s: int)
    requires b <= size && e <= size && b + s <= size
    ensures Window(size, b + s, SliceLength(e - b, s, None)).1 == e
  {
  }

  /** A slice is clamped against the whole store, not against its view: a
      view of records [0, 3) of a 10-record store sliced at 1 for 5
      records reaches record 5. */
  lemma SliceEscapesView()
    ensures var p := Window(10, 0, 3); var w := Window(10, p.0 + 1, 5);
      p == (0, 3) && w == (1, 6) && w.1 > p.1
  {
  }

  /** `v.slice(5)` then `.slice(6, 2)` over a store of at least 13
      records: the first view runs from record 5 to the end, the second
      holds exactly records 11 and 12. */
  lemma {:induction false} SliceOfSlice(size: nat)
    requires size >= 13
    ensures var root := Window(size, 0, size - 0);
      var v := Window(size, root.0 + 5, SliceLength(root.1 - root.0, 5, None));
      var w := Window(size, v.0 + 6, SliceLength(v.1 - v.0, 6, Some(2)));
      v == (5, size) && v.1 - v.0 == size - 5 && w == (11, 13)
  {
  }

  /** The key `__getitem__` receives: an int, or anything else. */
  datatype Key = IntKey(k: int) | OtherKey

  class RowDataset {
    const storage: Storage
    const prefix: string
    const mode: string
    const maxFileSize: nat
    const ds: RawDataset
    const readable: bool
    const writable: bool
    var begin: int
    var end: int
    var length: int
    var tell: int
    /** The relay registry: live clients, the last serial handed out, the
        serials with a pipe pair, and whether the relay thread runs. */
    var clientCount: int
    var serial: int
    var pipes: set<int>
    var pipesBack: set<int>
    var relayRunning: bool

    ghost predicate Valid()
      reads this, ds, ds.index, ds.data, ds.index.storage
    {
      ds.Valid() && ds.index.storage == storage &&
      ds.index.prefix == IndexPrefix(prefix) && ds.data.prefix == DataPrefix(prefix) &&
      readable == ds.readable && writable == ds.writable &&
      (readable ==> mode == "r" && begin <= ds.size && end <= ds.size && length == end - begin)
    }

    /** The view's cursor and the store's agree: the store stands at record
        `begin + tell` of a proper window, with both stream cursors there. */
    ghost predicate Aligned()
      reads this, ds, ds.index, ds.data
    {
      readable && 0 <= begin && 0 <= tell <= length && ds.tell == begin + tell &&
      ds.Regular() && ds.InSync()
    }

    /** A fresh reader view of `RowDataset(start=…, length=…)`: its window
        over the store, the cursor at 0, and with a proper window over a
        written store the two cursors aligned at `begin`. */
    ghost predicate OpenedAt(start: Option<int>, length: Option<int>)
      reads this, ds, ds.index, ds.data
    {
      var s := if start.Some? then start.value else 0;
      var w := Window(ds.size, s, SliceLength(ds.size, s, length));
      begin == w.0 && end == w.1 && this.length == w.1 - w.0 && tell == 0 &&
      (0 <= begin <= end && ds.Regular() ==> forall rs :: ds.Holds(rs) && Fits(rs) ==> Aligned())
    }

    /** The registry's own consistency: one pipe pair per live client, under
        serials already handed out. */
    ghost predicate Registered()
      reads this
    {
      0 <= serial && clientCount == |pipes| && pipes == pipesBack && (forall id :: id in pipes ==> 1 <= id <= serial)
    }

    constructor (storage: Storage, prefix: string, mode: string, maxFileSize: nat, ds: RawDataset,
                 begin: int, end: int, length: int)
      ensures this.storage == storage && this.prefix == prefix && this.mode == mode
      ensures this.maxFileSize == maxFileSize && this.ds == ds
      ensures this.readable == ds.readable && this.writable == ds.writable
      ensures this.begin == begin && this.end == end && this.length == length && this.tell == 0
      ensures clientCount == 0 && serial == 0 && pipes == {} && pipesBack == {} && !relayRunning
    {
      this.storage := storage;
      this.prefix := prefix;
      this.mode := mode;
      this.maxFileSize := maxFileSize;
      this.ds := ds;
      this.readable := ds.readable;
      this.writable := ds.writable;
      this.begin := begin;
      this.end := end;
      this.length := length;
      this.tell := 0;
      this.clientCount := 0;
      this.serial := 0;
      this.pipes := {};
      this.pipesBack := {};
      this.relayRunning := false;
    }

    /** `RowDataset(storage, prefix, mode, start=…, length=…)`: the store,
        then for a reader the window with `start` 0 and the rest of the
        store by default, the cursor at 0 and the store moved to `begin`;
        a writer's length is the store's record count. */
    static method Open(storage: Storage, prefix: string, mode: string, start: Option<int>, length: Option<int>,
                       maxFileSize: nat)
      returns (r: Result<RowDataset>)
      requires mode == "w" ==>
        maxFileSize > 0 &&
        Appendable(storage.objects, IndexPrefix(prefix), maxFileSize) &&
        Appendable(storage.objects, DataPrefix(prefix), maxFileSize)
      modifies storage
      ensures mode != "r" && mode != "w" ==> r == Err(UnknownMode)
      ensures mode != "w" ==> storage.objects == old(storage.objects)
      ensures mode == "r" ==>
        ((TrunkPath(IndexPrefix(prefix), 0) !in storage.objects ||
          TrunkPath(DataPrefix(prefix), 0) !in storage.objects) ==> r == Err(EmptyDataset))
      ensures mode == "r" ==>
        ((TrunkPath(IndexPrefix(prefix), 0) in storage.objects &&
          TrunkPath(DataPrefix(prefix), 0) in storage.objects) ==> r.Ok? || r.error == StructRange)
      ensures mode == "w" ==> r.Ok?
      ensures r.Ok? ==> fresh(r.value) && r.value.Valid() && !r.value.ds.closed && r.value.tell == 0
      ensures r.Ok? ==> r.value.readable == (mode == "r") && r.value.storage == storage && r.value.prefix == prefix
      ensures r.Ok? && mode == "w" ==> r.value.length == r.value.ds.size
      ensures r.Ok? && mode == "r" ==> r.value.OpenedAt(start, length)
    {
      var o := RawDataset.Open(storage, prefix, mode, maxFileSize);
      if o.Err? {
        return Err(o.error);
      }
      var ds := o.value;
      if !ds.readable {
        var v := WriterView(storage, prefix, mode, maxFileSize, ds);
        return Ok(v);
      }
      r := OpenView(storage, prefix, mode, maxFileSize, ds, start, length);
    }

    /** The writer half of the constructor, once the store is open. */
    static method WriterView(storage: Storage, prefix: string, mode: string, maxFileSize: nat, ds: RawDataset)
      returns (v: RowDataset)
      requires ds.Valid() && ds.writable && !ds.closed && ds.index.storage == storage
      requires ds.index.prefix == IndexPrefix(prefix) && ds.data.prefix == DataPrefix(prefix)
      ensures fresh(v) && v.ds == ds && v.Valid() && v.writable && v.tell == 0 && v.length == ds.size
      ensures v.storage == storage && v.prefix == prefix
    {
      v := new RowDataset(storage, prefix, mode, maxFileSize, ds, 0, 0, ds.size);
    }

    /** The reader half of the constructor, once the store is open. */
    static method OpenView(storage: Storage, prefix: string, mode: string, maxFileSize: nat, ds: RawDataset,
                           start: Option<int>, length: Option<int>)
      returns (r: Result<RowDataset>)
      requires ds.Valid() && ds.readable && !ds.closed && ds.index.storage == storage
      requires ds.index.prefix == IndexPrefix(prefix) && ds.data.prefix == DataPrefix(prefix) && mode == "r"
      modifies ds, ds.index, ds.data
      ensures ds.Index() == old(ds.Index()) && ds.Data() == old(ds.Data()) && ds.size == old(ds.size)
      ensures r.Ok? ==> fresh(r.value) && r.value.ds == ds && r.value.Valid() && !ds.closed && r.value.tell == 0
      ensures r.Ok? ==> r.value.readable && r.value.storage == storage && r.value.prefix == prefix
      ensures r.Ok? ==> r.value.OpenedAt(start, length)
      ensures r.Err? ==> r.error == StructRange
      ensures ds.Regular() ==> r.Ok?
    {
      var s := if start.Some? then start.value else 0;
      var w := Window(ds.size, s, SliceLength(ds.size, s, length));
      var v := new RowDataset(storage, prefix, mode, maxFileSize, ds, w.0, w.1, w.1 - w.0);
      var p := SeekStore(ds, w.0);
      if p.Err? {
        return Err(p.error);
      }
      if 0 <= w.0 <= w.1 && ds.Regular() {
        assert ds.tell == v.begin + v.tell;
        forall rs | ds.Holds(rs) && Fits(rs)
          ensures v.Aligned()
        {
        }
      }
      return Ok(v);
    }

    /** `_read_raw()`: None once the cursor reaches the window's length;
        otherwise the cursor moves on and the store's next record is the
        answer. */
    method ReadRaw() returns (r: Result<Option<seq<byte>>>)
      requires Valid()
      modifies this, ds, ds.index, ds.data
      ensures ds.index.trunks == old(ds.index.trunks) && ds.data.trunks == old(ds.data.trunks)
      ensures Valid() && ds.closed == old(ds.closed)
      ensures begin == old(begin) && end == old(end) && length == old(length)
      ensures ds.Index() == old(ds.Index()) && ds.Data() == old(ds.Data())
      ensures !readable ==> r == Err(NotReadable) && unchanged(this, ds, ds.index, ds.data)
      ensures readable && old(ds.closed) ==> r == Err(Closed) && unchanged(this, ds, ds.index, ds.data)
      ensures readable && !old(ds.closed) && old(tell) == length ==>
        r == Ok(None) && unchanged(this, ds, ds.index, ds.data)
      ensures readable && !old(ds.closed) && old(tell) != length ==> tell == old(tell) + 1
      ensures readable && !old(ds.closed) && old(Aligned()) && old(tell) < length ==>
        r == Lift(RecordRead(ds.Index(), ds.Data(), old(ds.tell))) && (r.Ok? ==> Aligned()) &&
        forall rs :: ds.Holds(rs) && Fits(rs) ==> r == Ok(Some(rs[old(ds.tell)]))
    {
      if !readable {
        return Err(NotReadable);
      }
      if ds.closed {
        return Err(Closed);
      }
      if tell == length {
        return Ok(None);
      }
      r := ReadNext();
    }

    /** `_read_raw` past its checks: the cursor moves first, then the store
        reads. */
    method ReadNext() returns (r: Result<Option<seq<byte>>>)
      requires Valid() && readable && !ds.closed && tell != length
      modifies this, ds, ds.index, ds.data
      ensures ds.index.trunks == old(ds.index.trunks) && ds.data.trunks == old(ds.data.trunks)
      ensures Valid() && !ds.closed
      ensures begin == old(begin) && end == old(end) && length == old(length) && tell == old(tell) + 1
      ensures ds.Index() == old(ds.Index()) && ds.Data() == old(ds.Data())
      ensures old(Aligned()) && old(tell) < length ==>
        r == Lift(RecordRead(ds.Index(), ds.Data(), old(ds.tell))) && (r.Ok? ==> Aligned()) &&
        forall rs :: ds.Holds(rs) && Fits(rs) ==> r == Ok(Some(rs[old(ds.tell)]))
    {
      tell := tell + 1;
      r := ds.Read();
    }

    /** `read()`: the next record of the window, EOFError past its end. */
    method Read() returns (r: Result<seq<byte>>)
      requires Valid()
      modifies this, ds, ds.index, ds.data
      ensures ds.index.trunks == old(ds.index.trunks) && ds.data.trunks == old(ds.data.trunks)
      ensures Valid() && begin == old(begin) && end == old(end) && length == old(length)
      ensures ds.Index() == old(ds.Index()) && ds.Data() == old(ds.Data()) && ds.closed == old(ds.closed)
      ensures readable && !old(ds.closed) && old(tell) == length ==>
        r == Err(EndOfStream) && unchanged(this, ds, ds.index, ds.data)
      ensures readable && !old(ds.closed) && old(tell) != length ==> tell == old(tell) + 1
      ensures readable && !old(ds.closed) && old(Aligned()) && old(tell) < length ==>
        (forall rs :: ds.Holds(rs) && Fits(rs) ==> r == Ok(rs[old(ds.tell)])) && (r.Ok? ==> Aligned())
    {
      var v := ReadRaw();
      match v
      case Err(e) => r := Err(e);
      case Ok(None) => r := Err(EndOfStream);
      case Ok(Some(b)) => r := Ok(b);
    }

    /** `_pread_raw(k)`: None at or past the window's length, otherwise
        record `begin + k` of the store; the cursors do not move. */
    method PreadRaw(k: int) returns (r: Result<Option<seq<byte>>>)
      requires Valid()
      ensures !readable ==> r == Err(NotReadable)
      ensures readable && ds.closed ==> r == Err(Closed)
      ensures readable && !ds.closed && k >= length ==> r == Ok(None)
      ensures readable && !ds.closed && k < length ==> r == Lift(PreadRecord(ds.Index(), ds.Data(), k + begin))
      ensures readable && !ds.closed && 0 <= begin && 0 <= k < length ==>
        forall rs :: ds.Holds(rs) && Fits(rs) ==> r == Ok(Some(rs[begin + k]))
    {
      if !readable {
        return Err(NotReadable);
      }
      if ds.closed {
        return Err(Closed);
      }
      if k >= length {
        return Ok(None);
      }
      var v := ds.Pread(k + begin);
      r := Lift(v);
    }

    /** `pread(k)`: EOFError where `_pread_raw` gives None. */
    method Pread(k: int) returns (r: Result<seq<byte>>)
      requires Valid()
      ensures readable && !ds.closed && k >= length ==> r == Err(EndOfStream)
      ensures readable && !ds.closed && k < length ==> r == PreadRecord(ds.Index(), ds.Data(), k + begin)
    {
      var v := PreadRaw(k);
      match v
      case Err(e) => r := Err(e);
      case Ok(None) => r := Err(EndOfStream);
      case Ok(Some(b)) => r := Ok(b);
    }

    /** `ds[key]`: TypeError for a key that is not an int, IndexError past
        the window, otherwise `pread(key)`. */
    method GetItem(key: Key) returns (r: Result<seq<byte>>)
      requires Valid()
      ensures key.OtherKey? ==> r == Err(NotAnIndex)
      ensures key.IntKey? && readable && !ds.closed && key.k >= length ==> r == Err(OutOfRange)
      ensures key.IntKey? && readable && !ds.closed && key.k < length ==>
        r == PreadRecord(ds.Index(), ds.Data(), key.k + begin)
    {
      if key.OtherKey? {
        return Err(NotAnIndex);
      }
      r := Pread(key.k);
      if r == Err(EndOfStream) {
        r := Err(OutOfRange);
      }
    }

    /** `write(data)`: refused by a reader or once closed, otherwise the
        store's `write`. */
    method Write(d: seq<byte>) returns (r: Result<()>)
      requires Valid()
      modifies ds, ds.index, ds.data, ds.index.storage
      ensures !writable ==> r == Err(NotWritable) && unchanged(ds, ds.index, ds.data, ds.index.storage)
      ensures writable && old(ds.closed) ==> r == Err(Closed) && unchanged(ds, ds.index, ds.data, ds.index.storage)
      ensures writable && !old(ds.closed) ==> ds.Data() == old(ds.Data()) + d
      ensures r.Ok? ==> Valid() && forall rs :: old(ds.Holds(rs)) ==> ds.Holds(rs + [d])
    {
      if !writable {
        return Err(NotWritable);
      }
      if ds.closed {
        return Err(Closed);
      }
      r := ds.Write(d);
    }

    /** `seek(offset, whence)`: SET counts from `begin`, CUR from the
        cursor, END back from `end`; the target is clamped to the window,
        the cursor becomes its distance from `begin`, and the store seeks
        there.  An unknown whence leaves the target unassigned. */
    method Seek(offset: int, whence: int := SEEK_SET) returns (r: Result<nat>)
      requires Valid()
      modifies this, ds, ds.index, ds.data
      ensures ds.index.trunks == old(ds.index.trunks) && ds.data.trunks == old(ds.data.trunks)
      ensures Valid() && begin == old(begin) && end == old(end) && length == old(length)
      ensures ds.Index() == old(ds.Index()) && ds.Data() == old(ds.Data()) && ds.closed == old(ds.closed)
      ensures !readable ==> r == Err(NotReadable) && unchanged(this, ds, ds.index, ds.data)
      ensures readable && old(ds.closed) ==> r == Err(Closed) && unchanged(this, ds, ds.index, ds.data)
      ensures readable && !old(ds.closed) && whence !in {SEEK_SET, SEEK_CUR, SEEK_END} ==>
        r == Err(UnboundWhence) && unchanged(this, ds, ds.index, ds.data)
      ensures readable && !old(ds.closed) && whence in {SEEK_SET, SEEK_CUR, SEEK_END} ==>
        var target := Clamp(ViewTarget(offset, whence, begin, old(tell), end), begin, end);
        tell == target - begin && (r.Ok? ==> r.value == Clamp(target, 0, ds.size)) &&
        (0 <= begin <= end && ds.Regular() ==>
          r.Ok? && forall rs :: ds.Holds(rs) && Fits(rs) ==> Aligned())
    {
      if !readable {
        return Err(NotReadable);
      }
      if ds.closed {
        return Err(Closed);
      }
      if whence !in {SEEK_SET, SEEK_CUR, SEEK_END} {
        return Err(UnboundWhence);
      }
      var target := Clamp(ViewTarget(offset, whence, begin, tell, end), begin, end);
      tell := target - begin;
      r := SeekStore(ds, target);
    }

    /** `slice(start, length)`: a new view over the same store, opened at
        `begin + start` for `length` records, the rest of this view by
        default. */
    method Slice(start: int := 0, length: Option<int> := None) returns (r: Result<RowDataset>)
      requires Valid()
      modifies storage
      ensures storage.objects == old(storage.objects)
      ensures !readable ==> r == Err(NotReadable)
      ensures readable && ds.closed ==> r == Err(Closed)
      ensures readable && !ds.closed ==> r.Ok? || r.error in {EmptyDataset, StructRange}
      ensures r.Ok? ==> fresh(r.value) && r.value.Valid() && r.value.readable
      ensures r.Ok? ==> r.value.storage == storage && r.value.prefix == prefix
      ensures r.Ok? ==> r.value.OpenedAt(Some(begin + start), Some(SliceLength(this.length, start, length)))
    {
      if !readable {
        return Err(NotReadable);
      }
      if ds.closed {
        return Err(Closed);
      }
      var l := SliceLength(this.length, start, length);
      r := Open(storage, prefix, mode, Some(begin + start), Some(l), maxFileSize);
    }

    /** `slice_(start, length)`: this view re-based in place, clamped the
        same way, with the cursor back at 0 and the store moved to the new
        `begin`. */
    method SliceInPlace(start: int := 0, length: Option<int> := None) returns (r: Result<()>)
      requires Valid()
      modifies this, ds, ds.index, ds.data
      ensures Valid() && ds.Index() == old(ds.Index()) && ds.Data() == old(ds.Data())
      ensures !readable ==> r == Err(NotReadable) && unchanged(this, ds, ds.index, ds.data)
      ensures readable && old(ds.closed) ==> r == Err(Closed) && unchanged(this, ds, ds.index, ds.data)
      ensures readable && !old(ds.closed) ==>
        var b := Min(old(begin) + start, ds.size);
        begin == b && end == Min(b + SliceLength(old(this.length), start, length), ds.size) &&
        this.length == end - begin && tell == 0
      ensures readable && !old(ds.closed) && 0 <= begin <= end && ds.Regular() ==>
        r.Ok? && forall rs :: ds.Holds(rs) && Fits(rs) ==> Aligned()
    {
      if !readable {
        return Err(NotReadable);
      }
      if ds.closed {
        return Err(Closed);
      }
      r := Rebase(start, length);
    }

    /** `slice_` past its checks. */
    method Rebase(start: int, length: Option<int>) returns (r: Result<()>)
      requires Valid() && readable && !ds.closed
      modifies this, ds, ds.index, ds.data
      ensures Valid() && ds.Index() == old(ds.Index()) && ds.Data() == old(ds.Data()) && !ds.closed
      ensures var b := Min(old(begin) + start, ds.size);
        begin == b && end == Min(b + SliceLength(old(this.length), start, length), ds.size) &&
        this.length == end - begin && tell == 0
      ensures 0 <= begin <= end && ds.Regular() ==> r.Ok? && forall rs :: ds.Holds(rs) && Fits(rs) ==> Aligned()
    {
      var b := Min(begin + start, ds.size);
      var e := Min(b + SliceLength(this.length, start, length), ds.size);
      begin, end, this.length, tell := b, e, e - b, 0;
      var p := SeekStore(ds, b);
      if p.Err? {
        return Err(p.error);
      }
      return Ok(());
    }

    /** `size()` and `len()`: the window's length for a reader, the record
        count at open for a writer. */
    function Size(): (n: int)
      reads this, ds, ds.index, ds.data, ds.index.storage
      requires Valid()
      ensures readable ==> n == end - begin && n <= ds.size - begin
    {
      length
    }

    /** `tell()`: the cursor, counted from `begin`. */
    method Tell() returns (r: Result<int>)
      requires Valid()
      ensures !readable ==> r == Err(NotReadable)
      ensures readable ==> r == Ok(tell)
      ensures Aligned() ==> r.Ok? && 0 <= r.value <= Size() && begin + r.value == ds.tell
    {
      if !readable {
        return Err(NotReadable);
      }
      return Ok(tell);
    }

    /** `close()` and `flush()` pass through to the store. */
    method Close()
      requires Valid()
      modifies ds, ds.index, ds.data
      ensures Valid() && ds.closed && ds.Index() == old(ds.Index()) && ds.Data() == old(ds.Data())
      ensures old(ds.closed) ==> unchanged(ds, ds.index, ds.data)
    {
      ds.Close();
    }

    method Flush() returns (r: Result<()>)
      requires Valid()
      ensures r.Err? <==> writable && ds.closed
      ensures r.Err? ==> r.error == Closed
    {
      r := ds.Flush();
    }

    /** `_reduce_dataset()`: one more client, under a fresh serial with its
        own pipe pair; the relay starts if it is not running. */
    method Reduce() returns (id: int)
      modifies this
      ensures clientCount == old(clientCount) + 1 && serial == old(serial) + 1 && id == serial
      ensures pipes == old(pipes) + {id} && pipesBack == old(pipesBack) + {id} && relayRunning
      ensures begin == old(begin) && end == old(end) && length == old(length) && tell == old(tell)
      ensures old(Registered()) ==> Registered() && id !in old(pipes)
    {
      ghost var before := Registered();
      clientCount := clientCount + 1;
      serial := serial + 1;
      id := serial;
      if before {
        assert id !in old(pipes) by {
          assert forall j :: j in old(pipes) ==> j <= old(serial);
        }
      }
      pipes := pipes + {id};
      pipesBack := pipesBack + {id};
      if !relayRunning {
        relayRunning := true;
      }
    }

    /** The relay's "exit" command: the client count drops first, then the
        pipe pair of `id` goes; an unknown `id` raises KeyError with the
        count already lowered. */
    method Exit(id: int) returns (r: Result<()>)
      modifies this
      ensures clientCount == old(clientCount) - 1 && serial == old(serial) && relayRunning == old(relayRunning)
      ensures begin == old(begin) && end == old(end) && length == old(length) && tell == old(tell)
      ensures id in old(pipes) && id in old(pipesBack) ==>
        r == Ok(()) && pipes == old(pipes) - {id} && pipesBack == old(pipesBack) - {id}
      ensures !(id in old(pipes) && id in old(pipesBack)) ==>
        r == Err(MissingSession) && pipes == old(pipes) && pipesBack == old(pipesBack)
      ensures old(Registered()) && id in old(pipes) ==> Registered()
      ensures old(Registered()) && id !in old(pipes) ==> clientCount == |pipes| - 1
    {
      clientCount := clientCount - 1;
      if id !in pipes || id !in pipesBack {
        return Err(MissingSession);
      }
      pipes := pipes - {id};
      pipesBack := pipesBack - {id};
      return Ok(());
    }

    /** The relay's check before each round: with no client left it stops,
        asserting that no pipe is left, and resets the serial. */
    method RelayCheck() returns (r: Result<bool>)
      modifies this
      ensures clientCount == old(clientCount) && pipes == old(pipes) && pipesBack == old(pipesBack)
      ensures begin == old(begin) && end == old(end) && length == old(length) && tell == old(tell)
      ensures old(clientCount) != 0 ==> r == Ok(false) && unchanged(this)
      ensures old(clientCount) == 0 ==> !relayRunning
      ensures old(clientCount) == 0 && pipes == {} ==> r == Ok(true) && serial == 0
      ensures old(clientCount) == 0 && pipes != {} ==> r == Err(RelayNotEmpty) && serial == old(serial)
      ensures old(Registered()) ==> r != Err(RelayNotEmpty) && Registered()
    {
      if clientCount != 0 {
        return Ok(false);
      }
      relayRunning := false;
      if pipes != {} {
        return Err(RelayNotEmpty);
      }
      serial := 0;
      return Ok(true);
    }
  }

  /** The store's `seek(pos, SEEK_SET)` as the views issue it on an open
      reader: the store lands on `pos` clamped to its records, and on a
      written store the two stream cursors agree there. */
  method SeekStore(ds: RawDataset, pos: int) returns (r: Result<nat>)
    requires ds.Valid() && ds.readable && !ds.closed
    modifies ds, ds.index, ds.data
    ensures ds.index.trunks == old(ds.index.trunks) && ds.data.trunks == old(ds.data.trunks)
    ensures ds.Valid() && !ds.closed && ds.size == old(ds.size)
    ensures ds.Index() == old(ds.Index()) && ds.Data() == old(ds.Data())
    ensures r.Ok? ==> r.value == Clamp(pos, 0, ds.size) && ds.tell == r.value
    ensures r.Err? ==> r.error == StructRange
    ensures ds.Regular() ==> r.Ok? && forall rs :: ds.Holds(rs) && Fits(rs) ==> ds.InSync()
  {
    r := ds.Seek(pos, SEEK_SET);
  }

  /** Where `seek` aims before clamping, for the three whence values. */
  function ViewTarget(offset: int, whence: int, begin: int, tell: int, end: int): int
  {
    if whence == SEEK_SET then begin + offset
    else if whence == SEEK_CUR then tell + begin + offset
    else end - offset
  }
}
