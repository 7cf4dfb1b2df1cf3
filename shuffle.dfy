/** `ShuffleIterator`: a pool of at most `buffer_size` records, filled in
    order from the start of a view; each `next()` hands out the record in
    a randomly chosen slot and refills that slot from the view, or, once
    the view is exhausted, moves the last slot into it and drops the last
    slot.  The generator seeded with `epoch + seed` is modelled as its
    stream of 53-bit draws. */
module Shuffle {
  import opened Common
  import opened RecordFormat
  import opened Row

  type Rec = seq<byte>

  /** `random()` returns `draw / 2**53` for a 53-bit draw. */
  const DrawRange: nat := 0x20_0000_0000_0000

  /** The slot `int(random() * n)` picks for a draw. */
  function Pick(draw: nat, n: nat): (idx: nat)
    ensures n > 0 ==> idx < n
  {
    var d := draw % DrawRange;
    if n > 0 then ScaledBelow(d, n, DrawRange); d * n / DrawRange else 0
  }

  /** A fraction `d / range` below 1 scaled by `n` floors to below `n`. */
  lemma {:induction false} ScaledBelow(d: nat, n: nat, range: nat)
    requires d < range && n > 0
    ensures d * n / range < n
  {
    assert d * n / range * range <= d * n;
    assert range * n - d * n == (range - d) * n > 0;
    MulCancel(d * n / range, n, range);
  }

  /** The pool's slots and the records the view has yet to give. */
  datatype Pool = Pool(slots: seq<Rec>, rest: seq<Rec>)

  /** The pool the constructor loads from `src`: the first `buffer_size`
      records, or all of them when there are fewer. */
  function Preload(src: seq<Rec>, bufferSize: int): (p: Pool)
    ensures p.slots + p.rest == src && |p.slots| == Min(Max(bufferSize, 0), |src|)
  {
    var n := Min(Max(bufferSize, 0), |src|);
    Pool(src[..n], src[n..])
  }

  /** The slot update of `next()` once slot `idx` is handed out: the slot
      takes the record read from upstream, or, when the read hit the end,
      the last slot's record while the last slot goes. */
  function Refilled(slots: seq<Rec>, idx: nat, got: Option<Rec>): (next: seq<Rec>)
    requires idx < |slots|
    ensures |next| == if got.Some? then |slots| else |slots| - 1
  {
    if got.Some? then slots[idx := got.value]
    else slots[idx := slots[|slots| - 1]][..|slots| - 1]
  }

  /** One `next()` with a draw: None on an empty pool; otherwise the record
      in the picked slot, which is then refilled from the next upstream
      record, if any. */
  function Step(p: Pool, draw: nat): (s: (Option<Rec>, Pool))
    ensures s.0.None? <==> |p.slots| == 0
    ensures s.0.None? ==> s.1 == p
    ensures s.0.Some? ==> s.0.value == p.slots[Pick(draw, |p.slots|)]
    ensures s.0.Some? && |p.rest| > 0 ==>
      |s.1.slots| == |p.slots| && s.1.slots[Pick(draw, |p.slots|)] == p.rest[0] && s.1.rest == p.rest[1..]
    ensures s.0.Some? && |p.rest| == 0 ==> |s.1.slots| == |p.slots| - 1 && s.1.rest == []
  {
    if |p.slots| == 0 then (None, p)
    else
      var idx := Pick(draw, |p.slots|);
      if |p.rest| > 0 then (Some(p.slots[idx]), Pool(Refilled(p.slots, idx, Some(p.rest[0])), p.rest[1..]))
      else (Some(p.slots[idx]), Pool(Refilled(p.slots, idx, None), []))
  }

  /** All records still held or still to come, as a multiset. */
  function Held(p: Pool): multiset<Rec>
  {
    multiset(p.slots) + multiset(p.rest)
  }

  /** Overwriting one slot swaps one record for another in the multiset. */
  lemma {:induction false} UpdateSwaps(s: seq<Rec>, i: nat, v: Rec)
    requires i < |s|
    ensures multiset(s[i := v]) + multiset{s[i]} == multiset(s) + multiset{v}
  {
    assert s == s[..i] + [s[i]] + s[i + 1..];
    assert s[i := v] == s[..i] + [v] + s[i + 1..];
  }

  /** The head of a sequence and its tail make up the whole. */
  lemma {:induction false} HeadTail(s: seq<Rec>)
    requires |s| > 0
    ensures multiset(s) == multiset{s[0]} + multiset(s[1..])
  {
    assert s == [s[0]] + s[1..];
  }

  /** Dropping the last slot loses exactly its record. */
  lemma {:induction false} DropLast(s: seq<Rec>)
    requires |s| > 0
    ensures multiset(s[..|s| - 1]) + multiset{s[|s| - 1]} == multiset(s)
  {
    assert s == s[..|s| - 1] + [s[|s| - 1]];
  }

  /** A step hands out one record and loses nothing else. */
  lemma {:induction false} StepKeepsAll(p: Pool, draw: nat)
    requires |p.slots| > 0
    ensures Held(Step(p, draw).1) + multiset{Step(p, draw).0.value} == Held(p)
  {
    var idx := Pick(draw, |p.slots|);
    var x := p.slots[idx];
    if |p.rest| > 0 {
      var next := Refilled(p.slots, idx, Some(p.rest[0]));
      RefilledSwaps(p.slots, idx, Some(p.rest[0]));
      HeadTail(p.rest);
      Swap(multiset(next), multiset{x}, multiset(p.slots), multiset{p.rest[0]}, multiset(p.rest[1..]));
    } else {
      RefilledSwaps(p.slots, idx, None);
    }
  }

  /** Multiset bookkeeping for a step that reads: the record out and the
      record in trade places. */
  lemma Swap(next: multiset<Rec>, out: multiset<Rec>, slots: multiset<Rec>, read: multiset<Rec>, rest: multiset<Rec>)
    requires next + out == slots + read
    ensures next + rest + out == slots + (read + rest)
  {
    forall e | true
      ensures (next + rest + out)[e] == (slots + (read + rest))[e]
    {
      assert (next + out)[e] == (slots + read)[e];
    }
  }

  /** Multiset bookkeeping for a step at the end: the moved record
      cancels out. */
  lemma Cancel(kept: multiset<Rec>, out: multiset<Rec>, slots: multiset<Rec>, last: multiset<Rec>)
    requires kept + last + out == slots + last
    ensures kept + out == slots
  {
    forall e | true
      ensures (kept + out)[e] == slots[e]
    {
      assert (kept + last + out)[e] == (slots + last)[e];
    }
  }

  /** The slot update loses the handed-out record and gains the one read,
      if any. */
  lemma {:induction false} RefilledSwaps(slots: seq<Rec>, idx: nat, got: Option<Rec>)
    requires idx < |slots|
    ensures got.Some? ==> multiset(Refilled(slots, idx, got)) + multiset{slots[idx]} == multiset(slots) + multiset{got.value}
    ensures got.None? ==> multiset(Refilled(slots, idx, got)) + multiset{slots[idx]} == multiset(slots)
  {
    if got.Some? {
      UpdateSwaps(slots, idx, got.value);
    } else {
      MoveLast(slots, idx);
    }
  }

  /** Moving the last slot's record into slot `idx` and dropping the last
      slot loses exactly the record that was in slot `idx`. */
  lemma {:induction false} MoveLast(slots: seq<Rec>, idx: nat)
    requires idx < |slots|
    ensures multiset(slots[idx := slots[|slots| - 1]][..|slots| - 1]) + multiset{slots[idx]} == multiset(slots)
  {
    var n := |slots|;
    var moved := slots[idx := slots[n - 1]];
    var kept, out, last := multiset(moved[..n - 1]), multiset{slots[idx]}, multiset{slots[n - 1]};
    UpdateSwaps(slots, idx, slots[n - 1]);
    assert multiset(moved) + out == multiset(slots) + last;
    DropLast(moved);
    assert kept + last == multiset(moved) by {
      assert moved[n - 1] == slots[n - 1];
    }
    Cancel(kept, out, multiset(slots), last);
  }

  /** A pool with free slots only once nothing is left upstream: the shape
      every pool loaded with a positive `buffer_size` keeps. */
  ghost predicate Primed(p: Pool)
  {
    |p.slots| > 0 || |p.rest| == 0
  }

  /** What one call of `next()` per draw in `ds` returns from pool `p`,
      and the pool they leave; a call on an empty pool returns nothing
      and changes nothing. */
  function Run(p: Pool, ds: seq<nat>): (r: (seq<Rec>, Pool))
    ensures |r.0| <= |ds| && |r.1.slots| <= |p.slots|
    ensures |r.1.slots| + |r.1.rest| + |r.0| == |p.slots| + |p.rest|
    decreases |ds|
  {
    if |ds| == 0 then ([], p)
    else
      var r := Run(p, ds[..|ds| - 1]);
      var s := Step(r.1, ds[|ds| - 1]);
      if s.0.None? then r else (r.0 + [s.0.value], s.1)
  }

  /** Whatever the calls hand out, together with what is left, is what
      there was: no record is duplicated or lost. */
  lemma {:induction false} RunKeepsAll(p: Pool, ds: seq<nat>)
    ensures multiset(Run(p, ds).0) + Held(Run(p, ds).1) == Held(p)
    decreases |ds|
  {
    if |ds| > 0 {
      var r := Run(p, ds[..|ds| - 1]);
      RunKeepsAll(p, ds[..|ds| - 1]);
      if |r.1.slots| > 0 {
        var s := Step(r.1, ds[|ds| - 1]);
        StepKeepsAll(r.1, ds[|ds| - 1]);
        assert multiset(r.0 + [s.0.value]) == multiset(r.0) + multiset{s.0.value};
        Regroup(multiset(r.0 + [s.0.value]), multiset(r.0), multiset{s.0.value}, Held(s.1), Held(r.1), Held(p));
      }
    }
  }

  /** Multiset bookkeeping for one more call: what was handed out grows by
      the record the pool lost. */
  lemma Regroup(out': multiset<Rec>, out: multiset<Rec>, x: multiset<Rec>, held': multiset<Rec>,
                held: multiset<Rec>, total: multiset<Rec>)
    requires out' == out + x && held' + x == held && out + held == total
    ensures out' + held' == total
  {
  }

  /** From a primed pool, each of the first `|held|` calls hands out one
      record and the pool stays primed. */
  lemma {:induction false} RunCounts(p: Pool, ds: seq<nat>)
    requires Primed(p) && |ds| <= |p.slots| + |p.rest|
    ensures var r := Run(p, ds);
      |r.0| == |ds| && |r.1.slots| + |r.1.rest| == |p.slots| + |p.rest| - |ds| && Primed(r.1)
    decreases |ds|
  {
    if |ds| > 0 {
      RunCounts(p, ds[..|ds| - 1]);
      var r := Run(p, ds[..|ds| - 1]);
    }
  }

  /** A full iteration over a view loaded with a positive `buffer_size`
      emits each of its records exactly once and leaves the pool empty, so
      the next call stops. */
  lemma {:induction false} FullIteration(src: seq<Rec>, bufferSize: int, ds: seq<nat>)
    requires bufferSize > 0 && |ds| == |src|
    ensures var t := Run(Preload(src, bufferSize), ds);
      multiset(t.0) == multiset(src) && t.1.slots == [] && t.1.rest == []
  {
    var p := Preload(src, bufferSize);
    RunCounts(p, ds);
    RunKeepsAll(p, ds);
    assert multiset(p.slots + p.rest) == Held(p);
  }

  /** With `buffer_size` at most 0 nothing is loaded and every call
      stops, whatever the view holds. */
  lemma {:induction false} EmptyBufferEmitsNothing(src: seq<Rec>, bufferSize: int, ds: seq<nat>)
    requires bufferSize <= 0
    ensures Run(Preload(src, bufferSize), ds).0 == []
    decreases |ds|
  {
    if |ds| > 0 {
      EmptyBufferEmitsNothing(src, bufferSize, ds[..|ds| - 1]);
    }
  }

  /** A pool stays primed through any number of calls. */
  lemma {:induction false} RunStaysPrimed(p: Pool, ds: seq<nat>)
    requires Primed(p)
    ensures Primed(Run(p, ds).1)
    decreases |ds|
  {
    if |ds| > 0 {
      RunStaysPrimed(p, ds[..|ds| - 1]);
      var r := Run(p, ds[..|ds| - 1]);
    }
  }

  /** One more call that finds records in the pool extends the run by the
      record it hands out. */
  lemma {:induction false} RunOneMore(p: Pool, ds: seq<nat>, d: nat, out: seq<Rec>, q: Pool)
    requires Run(p, ds) == (out, q) && |q.slots| > 0
    ensures Run(p, ds + [d]) == (out + [Step(q, d).0.value], Step(q, d).1)
  {
    assert (ds + [d])[..|ds|] == ds;
  }

  /** The first `n` draws of the generator. */
  function DrawsUpTo(draws: nat -> nat, n: nat): (ds: seq<nat>)
    ensures |ds| == n && forall i :: 0 <= i < n ==> ds[i] == draws(i)
  {
    if n == 0 then [] else DrawsUpTo(draws, n - 1) + [draws(n - 1)]
  }

  class ShuffleIterator {
    const view: RowDataset
    /** The generator seeded with `epoch + seed`, as its stream of draws. */
    const draws: nat -> nat
    const bufferSize: int
    /** The records the view's store holds. */
    ghost const records: seq<Rec>
    var pool: seq<Rec>
    /** Draws used so far. */
    var step: nat
    ghost var emitted: seq<Rec>

    ghost predicate Valid()
      reads this, view, view.ds, view.ds.index, view.ds.data, view.ds.index.storage
    {
      view.Valid() && |pool| <= Max(bufferSize, 0)
    }

    /** The view's window of the store. */
    ghost function Window(): seq<Rec>
      reads this, view
      requires 0 <= view.begin <= view.end <= |records|
    {
      records[view.begin..view.end]
    }

    /** The view reads its window of `records` faithfully, and the
        iterator is exactly where the calls so far, with the draws so far,
        leave a pool loaded from that window. */
    ghost predicate Sound()
      reads this, view, view.ds, view.ds.index, view.ds.data, view.ds.index.storage
    {
      Valid() && Tracks(view, records, bufferSize, draws, step, emitted, pool)
    }

    constructor (view: RowDataset, draws: nat -> nat, bufferSize: int, ghost records: seq<Rec>, pool: seq<Rec>,
                 ghost sound: bool)
      requires view.Valid() && |pool| <= Max(bufferSize, 0)
      requires sound ==> Tracks(view, records, bufferSize, draws, 0, [], pool)
      ensures this.view == view && this.draws == draws && this.bufferSize == bufferSize
      ensures this.records == records && this.pool == pool && step == 0 && emitted == []
      ensures Valid() && (sound ==> Sound())
    {
      this.view := view;
      this.draws := draws;
      this.bufferSize := bufferSize;
      this.records := records;
      this.pool := pool;
      this.step := 0;
      this.emitted := [];
    }

    /** `ShuffleIterator(ds, epoch, seed, buffer_size)`: the generator
        seeded with `epoch + seed`, the view rewound, and the pool loaded
        with up to `buffer_size` records in order; an error from the view
        other than end-of-stream aborts construction. */
    static method Start(view: RowDataset, epoch: int, seed: int, bufferSize: int, gen: int -> (nat -> nat),
                        ghost records: seq<Rec>)
      returns (r: Result<ShuffleIterator>)
      requires view.Valid()
      modifies view, view.ds, view.ds.index, view.ds.data
      ensures view.Valid()
      ensures !view.readable ==> r == Err(NotReadable)
      ensures r.Ok? ==> fresh(r.value) && r.value.Valid() && r.value.view == view && r.value.records == records
      ensures r.Ok? ==> r.value.draws == gen(epoch + seed) && r.value.bufferSize == bufferSize
      ensures r.Ok? ==> r.value.step == 0 && r.value.emitted == []
      ensures old(Serves(view, records)) ==>
        r.Ok? && r.value.Sound() && r.value.pool == Preload(r.value.Window(), bufferSize).slots
    {
      ghost var sound := Serves(view, records);
      if sound {
        ServesWindow(view, records);
      }
      ghost var w := if sound then records[view.begin..view.end] else [];
      var pool, e := Load(view, bufferSize, records, w, sound);
      if e.Err? {
        return Err(e.error);
      }
      Begin(sound, view, records, w, bufferSize, gen(epoch + seed), pool);
      var it := new ShuffleIterator(view, gen(epoch + seed), bufferSize, records, pool, sound);
      return Ok(it);
    }

    /** `next()`: StopIteration on an empty pool; otherwise the record in
        the slot the next draw picks, with the slot refilled from the view,
        or, at the view's end, given the last slot's record while the last
        slot goes. */
    method Next() returns (r: Result<Rec>)
      requires Valid()
      modifies this, view, view.ds, view.ds.index, view.ds.data
      ensures Valid() && |pool| <= old(|pool|)
      ensures old(|pool|) == 0 ==> r == Err(Exhausted) && unchanged(this)
      ensures old(|pool|) > 0 ==> step == old(step) + 1
      ensures r.Ok? ==> r.value == old(pool)[Pick(draws(old(step)), old(|pool|))] && emitted == old(emitted) + [r.value]
      ensures old(Sound()) ==> Sound() && (r.Ok? <==> old(|pool|) > 0)
      ensures old(Sound()) && bufferSize > 0 && r.Err? ==> multiset(emitted) == multiset(Window())
    {
      if |pool| == 0 {
        if Sound() && bufferSize > 0 {
          Drained(this);
        }
        return Err(Exhausted);
      }
      ghost var sound := Sound();
      r := Draw(sound, if sound then Window() else []);
    }

    /** `next()` on a non-empty pool. */
    method Draw(ghost sound: bool, ghost w: seq<Rec>) returns (r: Result<Rec>)
      requires Valid() && |pool| > 0
      requires sound ==> Sound() && w == records[view.begin..view.end]
      modifies this, view, view.ds, view.ds.index, view.ds.data
      ensures Valid() && |pool| <= old(|pool|) && step == old(step) + 1
      ensures r.Ok? ==> r.value == old(pool)[Pick(draws(old(step)), old(|pool|))] && emitted == old(emitted) + [r.value]
      ensures sound ==> Sound() && r.Ok?
    {
      ghost var t := view.tell;
      var idx := Pick(draws(step), |pool|);
      var ret := pool[idx];
      var v := ReadUpstream(view, records, w, sound, view.tell);
      if v.Err? && v.error != EndOfStream {
        Skip();
        return Err(v.error);
      }
      var got := if v.Ok? then Some(v.value) else None;
      var next := Refilled(pool, idx, got);
      Advance(sound, w, bufferSize, draws, step, emitted, pool, t, got, view.tell);
      Commit(next, ret, sound, w);
      Track(sound, view, records, w, bufferSize, draws, step, emitted, pool);
      r := Ok(ret);
    }

    /** The iterator's own update after a failed read: the draw is used,
        the pool stays. */
    method Skip()
      requires Valid()
      modifies this
      ensures Valid() && step == old(step) + 1 && pool == old(pool) && emitted == old(emitted)
    {
      step := step + 1;
    }

    /** The iterator's own update after a read that did not fail: the
        draw is used, the pool is the refilled one, and the record goes
        out. */
    method Commit(next: seq<Rec>, ret: Rec, ghost sound: bool, ghost w: seq<Rec>)
      requires view.Valid() && |next| <= Max(bufferSize, 0)
      requires sound ==> Yields(view, records, w)
      modifies this
      ensures step == old(step) + 1 && pool == next && emitted == old(emitted) + [ret]
      ensures Valid() && (sound ==> Yields(view, records, w))
    {
      step := step + 1;
      pool := next;
      emitted := emitted + [ret];
    }
  }

  /** After `n` draws from a pool loaded from window `w`, the calls have
      handed out `out`, the pool holds `pool`, and the view stands at `t`. */
  ghost predicate Replays(w: seq<Rec>, bufferSize: int, draws: nat -> nat, n: nat, out: seq<Rec>, pool: seq<Rec>, t: int)
  {
    0 <= t <= |w| && Run(Preload(w, bufferSize), DrawsUpTo(draws, n)) == (out, Pool(pool, w[t..]))
  }

  /** The view reads its window of `rs` faithfully, and the calls so far
      are replayed from that window. */
  ghost predicate Tracks(view: RowDataset, rs: seq<Rec>, bufferSize: int, draws: nat -> nat, n: nat, out: seq<Rec>,
                         pool: seq<Rec>)
    reads view, view.ds, view.ds.index, view.ds.data
  {
    0 <= view.begin <= view.end <= |rs| && Yields(view, rs, rs[view.begin..view.end]) &&
    Replays(rs[view.begin..view.end], bufferSize, draws, n, out, pool, view.tell)
  }

  lemma Track(sound: bool, view: RowDataset, rs: seq<Rec>, w: seq<Rec>, bufferSize: int, draws: nat -> nat, n: nat,
              out: seq<Rec>, pool: seq<Rec>)
    requires sound ==> Yields(view, rs, w) && Replays(w, bufferSize, draws, n, out, pool, view.tell)
    ensures sound ==> Tracks(view, rs, bufferSize, draws, n, out, pool)
  {
  }

  /** A freshly loaded pool replays no calls yet. */
  lemma Begin(sound: bool, view: RowDataset, rs: seq<Rec>, w: seq<Rec>, bufferSize: int, draws: nat -> nat,
              pool: seq<Rec>)
    requires sound ==> Yields(view, rs, w) && view.tell <= |w| && Preload(w, bufferSize) == Pool(pool, w[view.tell..])
    ensures sound ==> Tracks(view, rs, bufferSize, draws, 0, [], pool) && pool == Preload(w, bufferSize).slots
  {
  }

  /** A call on a non-empty pool, whose read from the view found the
      window's next record or its end, extends the replay by one draw. */
  lemma Advance(sound: bool, w: seq<Rec>, bufferSize: int, draws: nat -> nat, n: nat, out: seq<Rec>, pool: seq<Rec>,
                t: int, got: Option<Rec>, t': int)
    requires sound ==> Replays(w, bufferSize, draws, n, out, pool, t) && |pool| > 0
    requires sound && got.Some? ==> t < |w| && got.value == w[t] && t' == t + 1
    requires sound && got.None? ==> t == |w| && t' == t
    ensures sound ==> (|pool| > 0 &&
      var idx := Pick(draws(n), |pool|);
      Replays(w, bufferSize, draws, n + 1, out + [pool[idx]], Refilled(pool, idx, got), t'))
  {
    if sound {
      var q := Pool(pool, w[t..]);
      if got.Some? {
        assert q.rest[0] == got.value && q.rest[1..] == w[t'..];
      } else {
        assert q.rest == [] == w[t'..];
      }
      RunOneMore(Preload(w, bufferSize), DrawsUpTo(draws, n), draws(n), out, q);
    }
  }

  /** The same seed and epoch over the same records give the same
      shuffle: two sound iterators over equal windows with equal
      `buffer_size`, after the same draws, have emitted the same records
      and hold the same pool. */
  lemma SameDrawsSameOutput(a: ShuffleIterator, b: ShuffleIterator)
    requires a.Sound() && b.Sound()
    requires a.Window() == b.Window() && a.bufferSize == b.bufferSize
    requires DrawsUpTo(a.draws, a.step) == DrawsUpTo(b.draws, b.step)
    ensures a.emitted == b.emitted && a.pool == b.pool
  {
    var w := a.Window();
    var r := Run(Preload(w, a.bufferSize), DrawsUpTo(a.draws, a.step));
    assert r == (a.emitted, Pool(a.pool, w[a.view.tell..]));
    assert r == (b.emitted, Pool(b.pool, w[b.view.tell..]));
  }

  /** An exhausted sound iterator with a positive `buffer_size` has handed
      out every record of its window exactly once. */
  lemma Drained(it: ShuffleIterator)
    requires it.Sound() && it.bufferSize > 0 && |it.pool| == 0
    ensures multiset(it.emitted) == multiset(it.Window())
  {
    var p := Preload(it.Window(), it.bufferSize);
    var ds := DrawsUpTo(it.draws, it.step);
    assert Run(p, ds) == (it.emitted, Pool(it.pool, it.Window()[it.view.tell..]));
    RunStaysPrimed(p, ds);
    RunKeepsAll(p, ds);
    assert multiset(p.slots + p.rest) == Held(p);
  }

  /** A readable, open view with a proper window over a store that holds
      the records `rs` in regular trunks. */
  ghost predicate Serves(view: RowDataset, rs: seq<Rec>)
    reads view, view.ds, view.ds.index, view.ds.data
  {
    view.readable && !view.ds.closed && view.ds.Holds(rs) && Fits(rs) &&
    0 <= view.begin <= view.end && view.ds.Regular()
  }

  /** Such a view's window lies inside the store. */
  lemma ServesWindow(view: RowDataset, rs: seq<Rec>)
    requires view.Valid() && Serves(view, rs)
    ensures view.end <= |rs|
  {
  }

  /** The view reads the records `rs` faithfully from where it stands. */
  ghost predicate Feeds(view: RowDataset, rs: seq<Rec>)
    reads view, view.ds, view.ds.index, view.ds.data
  {
    view.readable && !view.ds.closed && view.Aligned() && view.ds.Holds(rs) && Fits(rs)
  }

  /** The view reads faithfully from a store holding `rs`, and `w` is its
      window of `rs`. */
  ghost predicate Yields(view: RowDataset, rs: seq<Rec>, w: seq<Rec>)
    reads view, view.ds, view.ds.index, view.ds.data
  {
    Feeds(view, rs) && 0 <= view.begin <= view.end <= |rs| && w == rs[view.begin..view.end]
  }

  /** `seek(0)` on the view. */
  method Rewind(view: RowDataset, ghost rs: seq<Rec>, ghost sound: bool) returns (r: Result<nat>)
    requires view.Valid()
    requires sound ==> Serves(view, rs)
    modifies view, view.ds, view.ds.index, view.ds.data
    ensures view.Valid() && view.begin == old(view.begin) && view.end == old(view.end)
    ensures !view.readable ==> r == Err(NotReadable)
    ensures sound ==> r.Ok? && view.tell == 0 && Feeds(view, rs)
  {
    r := view.Seek(0, SEEK_SET);
  }

  /** The view's `read()` as the pool sees it: over a store holding `rs`,
      the next record of the window `w`, or end-of-stream at its end. */
  method ReadUpstream(view: RowDataset, ghost rs: seq<Rec>, ghost w: seq<Rec>, ghost sound: bool, ghost t: int)
    returns (r: Result<Rec>)
    requires view.Valid()
    requires sound ==> Yields(view, rs, w) && t == view.tell
    modifies view, view.ds, view.ds.index, view.ds.data
    ensures view.Valid() && view.begin == old(view.begin) && view.end == old(view.end)
    ensures sound ==> Yields(view, rs, w)
    ensures sound && r.Err? ==> r.error == EndOfStream && view.tell == t == |w|
    ensures sound && r.Ok? ==> t < |w| && r.value == w[t] && view.tell == t + 1
  {
    ghost var at := view.ds.tell;
    WindowAt(sound, rs, w, view.begin, view.end, t, at);
    r := view.Read();
    if sound && view.tell != t {
      assert view.ds.Holds(rs) && Fits(rs);
    }
  }

  /** Record `t` of the window `w` is record `begin + t` of the store. */
  lemma WindowAt(sound: bool, rs: seq<Rec>, w: seq<Rec>, begin: int, end: int, t: int, at: int)
    requires sound ==> 0 <= begin <= end <= |rs| && w == rs[begin..end] && at == begin + t && 0 <= t <= end - begin
    ensures sound ==> |w| == end - begin
    ensures sound && t < |w| ==> 0 <= at < |rs| && rs[at] == w[t]
  {
  }

  /** The state of the loading loop: over a faithful view, `pool` holds
      the window's records up to where the view stands. */
  ghost predicate Filling(view: RowDataset, rs: seq<Rec>, w: seq<Rec>, sound: bool, pool: seq<Rec>)
    reads view, view.ds, view.ds.index, view.ds.data, view.ds.index.storage
  {
    view.Valid() && (sound ==> Yields(view, rs, w) && view.tell == |pool| <= |w| && pool == w[..|pool|])
  }

  /** `pool.append(ds.read())`: the pool grows by the next upstream
      record, or stays as it is when the read fails. */
  method ReadInto(view: RowDataset, ghost rs: seq<Rec>, ghost w: seq<Rec>, ghost sound: bool, pool: seq<Rec>)
    returns (r: Result<()>, grown: seq<Rec>)
    requires Filling(view, rs, w, sound, pool)
    modifies view, view.ds, view.ds.index, view.ds.data
    ensures Filling(view, rs, w, sound, grown) && view.begin == old(view.begin) && view.end == old(view.end)
    ensures r.Ok? ==> |grown| == |pool| + 1
    ensures r.Err? ==> grown == pool
    ensures sound && r.Err? ==> r.error == EndOfStream && |pool| == |w|
  {
    var v := ReadUpstream(view, rs, w, sound, view.tell);
    if v.Err? {
      return Err(v.error), pool;
    }
    Extend(sound, w, pool, v.value);
    grown := pool + [v.value];
    r := Ok(());
  }

  /** The window's next record extends a pool holding the window's start. */
  lemma Extend(sound: bool, w: seq<Rec>, pool: seq<Rec>, x: Rec)
    requires sound ==> |pool| < |w| && pool == w[..|pool|] && x == w[|pool|]
    ensures sound ==> pool + [x] == w[..|pool| + 1]
  {
    if sound {
      assert w[..|pool| + 1] == w[..|pool|] + [w[|pool|]];
    }
  }

  /** The loading loop of the constructor: up to `buffer_size` reads,
      stopping early at end-of-stream. */
  method Fill(view: RowDataset, bufferSize: int, ghost rs: seq<Rec>, ghost w: seq<Rec>, ghost sound: bool)
    returns (pool: seq<Rec>, r: Result<()>)
    requires Filling(view, rs, w, sound, [])
    modifies view, view.ds, view.ds.index, view.ds.data
    ensures Filling(view, rs, w, sound, pool) && view.begin == old(view.begin) && view.end == old(view.end)
    ensures |pool| <= Max(bufferSize, 0)
    ensures sound ==> r.Ok? && (|pool| < bufferSize ==> |pool| == |w|)
  {
    pool := [];
    r := Ok(());
    var i := 0;
    while i < bufferSize
      invariant Filling(view, rs, w, sound, pool) && view.begin == old(view.begin) && view.end == old(view.end)
      invariant 0 <= i && |pool| == i <= Max(bufferSize, 0)
      decreases bufferSize - i
    {
      var e, grown := ReadInto(view, rs, w, sound, pool);
      if e.Err? {
        if e.error == EndOfStream {
          break;
        }
        return pool, e;
      }
      pool := grown;
      i := i + 1;
    }
  }

  /** The constructor's work on the view: `seek(0)`, then the loading loop;
      over a faithful view the pool and the unread rest of the window are
      what `Preload` makes of the window. */
  method Load(view: RowDataset, bufferSize: int, ghost rs: seq<Rec>, ghost w: seq<Rec>, ghost sound: bool)
    returns (pool: seq<Rec>, r: Result<()>)
    requires view.Valid()
    requires sound ==> Serves(view, rs) && view.end <= |rs| && w == rs[view.begin..view.end]
    modifies view, view.ds, view.ds.index, view.ds.data
    ensures view.Valid() && view.begin == old(view.begin) && view.end == old(view.end) && |pool| <= Max(bufferSize, 0)
    ensures !view.readable ==> r == Err(NotReadable)
    ensures sound ==> r.Ok? && Yields(view, rs, w) && view.tell <= |w| && Preload(w, bufferSize) == Pool(pool, w[view.tell..])
  {
    var s := Rewind(view, rs, sound);
    if s.Err? {
      return [], Err(s.error);
    }
    pool, r := Fill(view, bufferSize, rs, w, sound);
    if sound {
      PreloadLoaded(w, bufferSize, pool);
    }
  }

  /** A pool loaded in order from the start of a window, as far as the
      buffer or the window allows, is the window's preloaded pool. */
  lemma PreloadLoaded(w: seq<Rec>, bufferSize: int, pool: seq<Rec>)
    requires |pool| <= |w| && pool == w[..|pool|]
    requires |pool| <= Max(bufferSize, 0) && (|pool| < bufferSize ==> |pool| == |w|)
    ensures Preload(w, bufferSize) == Pool(pool, w[|pool|..])
  {
  }
}
