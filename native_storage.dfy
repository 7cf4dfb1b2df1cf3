/** The native local trunk store: fixed-size trunks packed
    `trunks_per_file` to a block file, and a metadata record saying how
    many trunks there are and how full the last one is.  The block files'
    bytes and the metadata file are not part of this model: each operation
    yields where in which block file it would read or write. */
module NativeStorage {
  import opened Common

  const Two32: int := 0x1_0000_0000

  /** `uint32_t`. */
  newtype uint32 = x: int | 0 <= x < 0x1_0000_0000

  /** `LocalMetaInfo`. */
  datatype MetaInfo = MetaInfo(numTrunks: uint32, lastTrunkSize: uint32, maxTrunkSize: uint32, trunksPerFile: uint32)

  /** `DEFAULT_TRUNK_SIZE` and the default `trunks_per_file`. */
  const DefaultTrunkSize: uint32 := 32 * 1024 * 1024
  const DefaultTrunksPerFile: uint32 := 4

  /** `x + 1` in `uint32_t`: 2^32 - 1 wraps to 0. */
  function Inc(x: uint32): (y: uint32)
    ensures x as int < Two32 - 1 ==> y as int == x as int + 1
    ensures x as int == Two32 - 1 ==> y == 0
  {
    ((x as int + 1) % Two32) as uint32
  }

  /** The guard of `write`: the trunk to write is the next one
      (`num_trunks`) or the last one (`num_trunks == trunk_id + 1`). */
  predicate Accepts(m: MetaInfo, trunkId: uint32)
  {
    m.numTrunks == trunkId || m.numTrunks == Inc(trunkId)
  }

  /** With at least one trunk, `write` takes exactly the last trunk and
      the next one. */
  lemma {:induction false} AcceptsLastOrNext(m: MetaInfo, trunkId: uint32)
    requires m.numTrunks > 0
    ensures Accepts(m, trunkId) <==> trunkId == m.numTrunks || trunkId as int == m.numTrunks as int - 1
  {
    if trunkId as int == Two32 - 1 {
      assert Inc(trunkId) == 0;
    }
  }

  /** A position in the block files: file `<file>.block`, byte `offset`. */
  datatype Place = Place(file: nat, offset: nat)

  /** Where trunk `t` starts, as the code computes it: the product
      `(t % trunks_per_file) * max_trunk_size` is a `uint32_t` and wraps.
      It stays in the file of the intended placement, and agrees with it
      whenever the product fits in 32 bits. */
  function PlacementAsWritten(t: uint32, trunksPerFile: uint32, maxTrunkSize: uint32): (p: Place)
    requires trunksPerFile > 0
    ensures p.offset < Two32
    ensures p.file == Placement(t, trunksPerFile, maxTrunkSize).file
    ensures (t as int % trunksPerFile as int) * maxTrunkSize as int < Two32 ==>
      p == Placement(t, trunksPerFile, maxTrunkSize)
  {
    Place(t as int / trunksPerFile as int, ((t as int % trunksPerFile as int) * maxTrunkSize as int) % Two32)
  }

  /** With 2^31-byte trunks four to a file, trunks 0 and 2 land on the same
      bytes of the same file. */
  lemma WrapCollides()
    ensures PlacementAsWritten(0, 4, 0x8000_0000) == PlacementAsWritten(2, 4, 0x8000_0000)
  {
  }

  /** Where trunk `t` starts: in file `t / trunks_per_file`, after the
      `t % trunks_per_file` trunks before it in that file, computed without
      wrapping. */
  function Placement(t: uint32, trunksPerFile: uint32, maxTrunkSize: uint32): (p: Place)
    requires trunksPerFile > 0
    ensures p.offset + maxTrunkSize as int <= trunksPerFile as int * maxTrunkSize as int
  {
    var slot := t as int % trunksPerFile as int;
    Common.MulLe(maxTrunkSize as int, slot + 1, trunksPerFile as int);
    Place(t as int / trunksPerFile as int, slot * maxTrunkSize as int)
  }

  /** Distinct trunks occupy disjoint byte ranges. */
  lemma {:induction false} PlacementDisjoint(t1: uint32, t2: uint32, trunksPerFile: uint32, maxTrunkSize: uint32)
    requires trunksPerFile > 0 && t1 != t2
    ensures var p1, p2 := Placement(t1, trunksPerFile, maxTrunkSize), Placement(t2, trunksPerFile, maxTrunkSize);
      p1.file != p2.file || p1.offset + maxTrunkSize as int <= p2.offset || p2.offset + maxTrunkSize as int <= p1.offset
  {
    var n, m := trunksPerFile as int, maxTrunkSize as int;
    if t1 as int / n == t2 as int / n {
      SameFileOtherSlot(t1 as int, t2 as int, n);
      SlotsApart(t1 as int % n, t2 as int % n, m);
    }
  }

  /** Two trunks in the same file sit in different slots. */
  lemma {:induction false} SameFileOtherSlot(a: nat, b: nat, n: nat)
    requires n > 0 && a != b && a / n == b / n
    ensures a % n != b % n
  {
    assert a == a / n * n + a % n && b == b / n * n + b % n;
  }

  /** Different slots of `m` bytes do not overlap. */
  lemma {:induction false} SlotsApart(a: nat, b: nat, m: nat)
    requires a != b
    ensures a * m + m <= b * m || b * m + m <= a * m
  {
    if a < b {
      Common.MulLe(m, a + 1, b);
    } else {
      Common.MulLe(m, b + 1, a);
    }
  }

  /** The trunk id can be read back from its placement. */
  lemma {:induction false} PlacementIdentifies(t: uint32, trunksPerFile: uint32, maxTrunkSize: uint32)
    requires trunksPerFile > 0 && maxTrunkSize > 0
    ensures var p := Placement(t, trunksPerFile, maxTrunkSize);
      p.file * trunksPerFile as int + p.offset / maxTrunkSize as int == t as int
  {
    var n := trunksPerFile as int;
    Common.QuotientExact(t as int % n, maxTrunkSize as int);
  }

  /** The native `LocalStorage`: its metadata record. */
  class LocalStorage {
    var meta: MetaInfo

    /** Trunks can be placed: `trunks_per_file` is not 0. */
    ghost predicate Valid()
      reads this
    {
      meta.trunksPerFile > 0
    }

    /** Opening a base directory: a fresh one gets one empty trunk and the
        given sizes; an existing one keeps the metadata it stored. */
    constructor (stored: Option<MetaInfo>, maxTrunkSize: uint32, trunksPerFile: uint32)
      requires stored.None? ==> trunksPerFile > 0
      requires stored.Some? ==> stored.value.trunksPerFile > 0
      ensures Valid()
      ensures stored.None? ==> meta == MetaInfo(1, 0, maxTrunkSize, trunksPerFile)
      ensures stored.Some? ==> meta == stored.value
    {
      if stored.None? {
        meta := MetaInfo(1, 0, maxTrunkSize, trunksPerFile);
      } else {
        meta := stored.value;
      }
    }

    /** `get_trunk_size()` */
    function TrunkSize(): uint32
      reads this
    {
      meta.maxTrunkSize
    }

    /** `get_trunk_num()` */
    function TrunkNum(): uint32
      reads this
    {
      meta.numTrunks
    }

    /** `last_trunk_size()` */
    function LastTrunkSize(): uint32
      reads this
    {
      meta.lastTrunkSize
    }

    /** `read(trunk_id, dest)`: where the whole trunk is read from; only
        existing trunks can be read. */
    method Read(trunkId: uint32) returns (r: Result<Place>)
      requires Valid()
      ensures r.Err? <==> trunkId >= meta.numTrunks
      ensures r.Err? ==> r.error == TrunkIdError
      ensures r.Ok? ==> r.value == Placement(trunkId, meta.trunksPerFile, meta.maxTrunkSize)
    {
      if trunkId >= meta.numTrunks {
        return Err(TrunkIdError);
      }
      r := Ok(Placement(trunkId, meta.trunksPerFile, meta.maxTrunkSize));
    }

    /** `pread(trunk_id, offset, length, dest)`: where the read starts; the
        trunk must exist and the offset must lie inside a trunk. */
    method Pread(trunkId: uint32, offset: uint32) returns (r: Result<Place>)
      requires Valid()
      ensures trunkId >= meta.numTrunks ==> r == Err(TrunkIdError)
      ensures trunkId < meta.numTrunks && offset >= meta.maxTrunkSize ==> r == Err(InvalidOffset)
      ensures r.Ok? <==> trunkId < meta.numTrunks && offset < meta.maxTrunkSize
      ensures r.Ok? ==> var p := Placement(trunkId, meta.trunksPerFile, meta.maxTrunkSize);
        r.value.file == p.file && p.offset <= r.value.offset < p.offset + meta.maxTrunkSize as int &&
        r.value.offset - p.offset == offset as int
    {
      if trunkId >= meta.numTrunks {
        return Err(TrunkIdError);
      }
      if offset >= meta.maxTrunkSize {
        return Err(InvalidOffset);
      }
      var p := Placement(trunkId, meta.trunksPerFile, meta.maxTrunkSize);
      r := Ok(Place(p.file, p.offset + offset as int));
    }

    /** `write(trunk_id, src, length)`: where the trunk is written; writing
        the next trunk adds it, and either accepted write sets the last
        trunk's size.  Any other trunk id is refused and nothing changes. */
    method Write(trunkId: uint32, length: uint32) returns (r: Result<Place>)
      requires Valid()
      modifies this
      ensures Valid()
      ensures !Accepts(old(meta), trunkId) ==> r == Err(TrunkIdError) && meta == old(meta)
      ensures Accepts(old(meta), trunkId) ==>
        r == Ok(Placement(trunkId, meta.trunksPerFile, meta.maxTrunkSize)) &&
        meta.numTrunks == (if old(meta.numTrunks) == trunkId then Inc(trunkId) else old(meta.numTrunks)) &&
        meta.lastTrunkSize == length
      ensures meta.maxTrunkSize == old(meta.maxTrunkSize) && meta.trunksPerFile == old(meta.trunksPerFile)
    {
      if meta.numTrunks != trunkId && meta.numTrunks != Inc(trunkId) {
        return Err(TrunkIdError);
      }
      r := Ok(Placement(trunkId, meta.trunksPerFile, meta.maxTrunkSize));
      if meta.numTrunks == trunkId {
        meta := meta.(numTrunks := Inc(meta.numTrunks), lastTrunkSize := length);
      } else {
        meta := meta.(lastTrunkSize := length);
      }
    }
  }
}
