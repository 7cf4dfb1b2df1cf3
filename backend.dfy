/** The storage backend as the row layer sees it: a mutable map from object
    path to bytes, probed with `filesize`, opened for append (which creates the
    object) and appended to.  Trunk objects are named `<prefix><id>.blk`; the
    model keeps the two parts of that name instead of formatting a string. */
module Backend {
  import opened Common

  datatype Path = TrunkPath(prefix: string, id: nat)

  /** The bytes of an object, or nothing when it does not exist. */
  function ObjectData(objects: map<Path, seq<byte>>, p: Path): seq<byte>
  {
    if p in objects then objects[p] else []
  }

  /** `m2` differs from `m1` at most on objects under `prefix`. */
  ghost predicate SameOutside(m1: map<Path, seq<byte>>, m2: map<Path, seq<byte>>, prefix: string)
  {
    forall p: Path :: p.prefix != prefix ==> (p in m1 <==> p in m2) && ObjectData(m1, p) == ObjectData(m2, p)
  }

  lemma {:induction false} UpdateSameOutside(m: map<Path, seq<byte>>, p: Path, v: seq<byte>, prefix: string)
    requires p.prefix == prefix
    ensures SameOutside(m, m[p := v], prefix)
  {
  }

  lemma {:induction false} SameOutsideTrans(m1: map<Path, seq<byte>>, m2: map<Path, seq<byte>>, m3: map<Path, seq<byte>>, prefix: string)
    requires SameOutside(m1, m2, prefix) && SameOutside(m2, m3, prefix)
    ensures SameOutside(m1, m3, prefix)
  {
  }

  class Storage {
    var objects: map<Path, seq<byte>>

    constructor (objects: map<Path, seq<byte>>)
      ensures this.objects == objects
    {
      this.objects := objects;
    }

    /** `filesize(path)`: the object's length, or None when it is absent. */
    function FileSize(p: Path): (r: Option<nat>)
      reads this
      ensures r.Some? <==> p in objects
      ensures r.Some? ==> r.value == |objects[p]|
    {
      if p in objects then Some(|objects[p]|) else None
    }

    /** `open(path, "a")`: creates the object when it is missing. */
    method OpenAppend(p: Path)
      modifies this
      ensures p in objects
      ensures objects == if p in old(objects) then old(objects) else old(objects)[p := []]
    {
      if p !in objects {
        objects := objects[p := []];
      }
    }

    /** `append(data)` on a handle opened for append on `p`. */
    method Append(p: Path, data: seq<byte>)
      requires p in objects
      modifies this
      ensures objects == old(objects)[p := old(objects)[p] + data]
    {
      objects := objects[p := objects[p] + data];
    }
  }
}
