/** The offset arithmetic of a logical stream made of consecutive trunks:
    the stream is the concatenation of the trunks, and a global offset is the
    total size of the earlier trunks plus an offset inside one trunk. */
module Streams {
  import opened Common

  /** Total of the first k sizes: the global offset where trunk k starts. */
  function Prefix(s: seq<nat>, k: nat): nat
    requires k <= |s|
  {
    if k == 0 then 0 else Prefix(s, k - 1) + s[k - 1]
  }

  function Sum(s: seq<nat>): nat
  {
    Prefix(s, |s|)
  }

  /** The first k trunks one after the other. */
  function ConcatTo(ts: seq<seq<byte>>, k: nat): seq<byte>
    requires k <= |ts|
  {
    if k == 0 then [] else ConcatTo(ts, k - 1) + ts[k - 1]
  }

  /** The logical stream: all trunks one after the other. */
  function Concat(ts: seq<seq<byte>>): seq<byte>
  {
    ConcatTo(ts, |ts|)
  }

  function Sizes(ts: seq<seq<byte>>): (r: seq<nat>)
    ensures |r| == |ts|
    ensures forall i :: 0 <= i < |ts| ==> r[i] == |ts[i]|
  {
    seq(|ts|, i requires 0 <= i < |ts| => |ts[i]|)
  }

  lemma {:induction false} PrefixMonotone(s: seq<nat>, i: nat, j: nat)
    requires i <= j <= |s|
    ensures Prefix(s, i) <= Prefix(s, j)
    decreases j - i
  {
    if i < j {
      PrefixMonotone(s, i, j - 1);
    }
  }

  lemma {:induction false} ConcatToLength(ts: seq<seq<byte>>, k: nat)
    requires k <= |ts|
    ensures |ConcatTo(ts, k)| == Prefix(Sizes(ts), k)
  {
    if k > 0 {
      ConcatToLength(ts, k - 1);
    }
  }

  lemma {:induction false} ConcatLength(ts: seq<seq<byte>>)
    ensures |Concat(ts)| == Sum(Sizes(ts))
  {
    ConcatToLength(ts, |ts|);
  }

  /** The first k trunks of two trunk lists that agree on them concatenate alike. */
  lemma {:induction false} ConcatToSame(a: seq<seq<byte>>, b: seq<seq<byte>>, k: nat)
    requires k <= |a| && k <= |b|
    requires forall i :: 0 <= i < k ==> a[i] == b[i]
    ensures ConcatTo(a, k) == ConcatTo(b, k)
  {
    if k > 0 {
      ConcatToSame(a, b, k - 1);
    }
  }

  /** Within the first j trunks, bytes a..b of trunk k sit right after the
      earlier trunks. */
  lemma {:induction false} ConcatToSlice(ts: seq<seq<byte>>, j: nat, k: nat, a: nat, b: nat)
    requires k < j <= |ts| && a <= b <= |ts[k]|
    ensures |ConcatTo(ts, k)| + b <= |ConcatTo(ts, j)|
    ensures ConcatTo(ts, j)[|ConcatTo(ts, k)| + a .. |ConcatTo(ts, k)| + b] == ts[k][a..b]
  {
    var p := |ConcatTo(ts, k)|;
    var x := ConcatTo(ts, j - 1);
    if j == k + 1 {
      assert (x + ts[k])[p + a .. p + b] == ts[k][a..b];
    } else {
      ConcatToSlice(ts, j - 1, k, a, b);
      assert (x + ts[j - 1])[p + a .. p + b] == x[p + a .. p + b];
    }
  }

  /** The stream bytes of trunk k, from in-trunk offset a to b, sit at
      global offsets Prefix(sizes, k) + a .. + b. */
  lemma {:induction false} ConcatSlice(ts: seq<seq<byte>>, k: nat, a: nat, b: nat)
    requires k < |ts| && a <= b <= |ts[k]|
    ensures Prefix(Sizes(ts), k) + b <= |Concat(ts)|
    ensures Concat(ts)[Prefix(Sizes(ts), k) + a .. Prefix(Sizes(ts), k) + b] == ts[k][a..b]
  {
    ConcatToLength(ts, k);
    ConcatToSlice(ts, |ts|, k, a, b);
    assert Concat(ts) == ConcatTo(ts, |ts|);
  }

  lemma {:induction false} SliceJoin(s: seq<byte>, a: nat, b: nat, c: nat)
    requires a <= b <= c <= |s|
    ensures s[a..c] == s[a..b] + s[b..c]
  {
  }

  /** Appending to the last trunk appends to the stream. */
  lemma {:induction false} ConcatGrowLast(ts: seq<seq<byte>>, x: seq<byte>)
    requires ts != []
    ensures Concat(ts[|ts| - 1 := ts[|ts| - 1] + x]) == Concat(ts) + x
  {
    ConcatToSame(ts[|ts| - 1 := ts[|ts| - 1] + x], ts, |ts| - 1);
  }

  /** An empty trunk at the end adds nothing to the stream. */
  lemma {:induction false} ConcatEmptyLast(ts: seq<seq<byte>>)
    ensures Concat(ts + [[]]) == Concat(ts)
  {
    ConcatToSame(ts + [[]], ts, |ts|);
  }
}
