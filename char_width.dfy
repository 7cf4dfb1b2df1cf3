/** The terminal width of a code point, as the command-line viewer
    measures rows: a step function given by a table of upper bounds. */
module Display {

  /** `widths`: each entry is an inclusive upper bound on the code point
      and the width of every code point from the previous bound up to it. */
  const Widths: seq<(int, int)> := [
    (126,    1), (159,    0), (687,     1), (710,   0), (711,   1),
    (727,    0), (733,    1), (879,     0), (1154,  1), (1161,  0),
    (4347,   1), (4447,   2), (7467,    1), (7521,  0), (8369,  1),
    (8426,   0), (9000,   1), (9002,    2), (11021, 1), (12350, 2),
    (12351,  1), (12438,  2), (12442,   0), (19893, 2), (19967, 1),
    (55203,  2), (63743,  1), (64106,   2), (65039, 1), (65059, 0),
    (65131,  2), (65279,  1), (65376,   2), (65500, 1), (65510, 2),
    (120831, 1), (262141, 2), (1114109, 1)
  ]

  /** A width table as the lookup needs it: neighbouring bounds increase
      and every width is 0, 1 or 2. */
  ghost predicate Shaped(t: seq<(int, int)>)
  {
    (forall i :: 0 <= i < |t| - 1 ==> t[i].0 < t[i + 1].0) &&
    (forall i :: 0 <= i < |t| ==> 0 <= t[i].1 <= 2)
  }

  /** The same conditions checked entry by entry from position `k` on. */
  predicate ShapedFrom(t: seq<(int, int)>, k: nat)
    decreases |t| - k
  {
    k >= |t| || (0 <= t[k].1 <= 2 && (k + 1 == |t| || t[k].0 < t[k + 1].0) && ShapedFrom(t, k + 1))
  }

  /** A table that passes the check from `k` on is shaped from `k` on. */
  lemma {:induction false} ShapedFromAll(t: seq<(int, int)>, k: nat)
    requires ShapedFrom(t, k)
    ensures forall i :: k <= i < |t| - 1 ==> t[i].0 < t[i + 1].0
    ensures forall i :: k <= i < |t| ==> 0 <= t[i].1 <= 2
    decreases |t| - k
  {
    if k < |t| {
      ShapedFromAll(t, k + 1);
    }
  }

  /** The table passes the check, evaluated one entry at a time from the
      last entry back to the first. */
  lemma TableChecked()
    ensures ShapedFrom(Widths, 0)
  {
    assert ShapedFrom(Widths, 37);
    assert ShapedFrom(Widths, 36);
    assert ShapedFrom(Widths, 35);
    assert ShapedFrom(Widths, 34);
    assert ShapedFrom(Widths, 33);
    assert ShapedFrom(Widths, 32);
    assert ShapedFrom(Widths, 31);
    assert ShapedFrom(Widths, 30);
    assert ShapedFrom(Widths, 29);
    assert ShapedFrom(Widths, 28);
    assert ShapedFrom(Widths, 27);
    assert ShapedFrom(Widths, 26);
    assert ShapedFrom(Widths, 25);
    assert ShapedFrom(Widths, 24);
    assert ShapedFrom(Widths, 23);
    assert ShapedFrom(Widths, 22);
    assert ShapedFrom(Widths, 21);
    assert ShapedFrom(Widths, 20);
    assert ShapedFrom(Widths, 19);
    assert ShapedFrom(Widths, 18);
    assert ShapedFrom(Widths, 17);
    assert ShapedFrom(Widths, 16);
    assert ShapedFrom(Widths, 15);
    assert ShapedFrom(Widths, 14);
    assert ShapedFrom(Widths, 13);
    assert ShapedFrom(Widths, 12);
    assert ShapedFrom(Widths, 11);
    assert ShapedFrom(Widths, 10);
    assert ShapedFrom(Widths, 9);
    assert ShapedFrom(Widths, 8);
    assert ShapedFrom(Widths, 7);
    assert ShapedFrom(Widths, 6);
    assert ShapedFrom(Widths, 5);
    assert ShapedFrom(Widths, 4);
    assert ShapedFrom(Widths, 3);
    assert ShapedFrom(Widths, 2);
    assert ShapedFrom(Widths, 1);
  }

  /** The table is shaped, starts at 126 with width 1 and ends at
      1114109. */
  lemma TableShape()
    ensures Shaped(Widths) && |Widths| > 0
    ensures Widths[0] == (126, 1) && Widths[|Widths| - 1].0 == 1114109
  {
    TableChecked();
    ShapedFromAll(Widths, 0);
  }

  /** The bounds of a shaped table increase strictly across the whole
      table. */
  lemma {:induction false} Increasing(t: seq<(int, int)>, i: nat, j: nat)
    requires Shaped(t) && i < j < |t|
    ensures t[i].0 < t[j].0
    decreases j - i
  {
    if i + 1 < j {
      Increasing(t, i + 1, j);
    }
  }

  /** No bound of a shaped table exceeds the last one. */
  lemma BelowLast(t: seq<(int, int)>, i: nat)
    requires Shaped(t) && i < |t|
    ensures t[i].0 <= t[|t| - 1].0
  {
    if i < |t| - 1 {
      Increasing(t, i, |t| - 1);
    }
  }

  /** The position the scan of the table stops at: the first entry from
      `from` on whose bound is at least `o`, or the end of the table. */
  function FirstAtLeast(t: seq<(int, int)>, o: int, from: nat): (i: nat)
    requires from <= |t|
    ensures from <= i <= |t|
    ensures forall j :: from <= j < i ==> t[j].0 < o
    ensures i < |t| ==> o <= t[i].0
    decreases |t| - from
  {
    if from == |t| then from
    else if o <= t[from].0 then from
    else FirstAtLeast(t, o, from + 1)
  }

  /** The lookup over a table: 0 for 0x0e and 0x0f, otherwise the width of
      the first entry whose bound is at least `o`, and 1 past the table. */
  function WidthIn(t: seq<(int, int)>, o: int): (w: int)
    requires Shaped(t)
    ensures o == 0x0e || o == 0x0f ==> w == 0
    ensures |t| > 0 && o > t[|t| - 1].0 && o != 0x0e && o != 0x0f ==> w == 1
    ensures 0 <= w <= 2
  {
    if o == 0x0e || o == 0x0f then 0
    else
      var i := FirstAtLeast(t, o, 0);
      if i < |t| then BelowLast(t, i); t[i].1 else 1
  }

  /** `char_width(o)` */
  function CharWidth(o: int): (w: int)
    ensures o == 0x0e || o == 0x0f ==> w == 0
    ensures o > 1114109 ==> w == 1
    ensures 0 <= w <= 2
  {
    TableShape();
    WidthIn(Widths, o)
  }

  /** Away from 0x0e and 0x0f, a code point inside the `i`-th interval of
      a shaped table, above the previous bound and up to its own, has the
      `i`-th width. */
  lemma {:induction false} WidthInInterval(t: seq<(int, int)>, o: int, i: nat)
    requires Shaped(t) && i < |t| && (i == 0 || t[i - 1].0 < o) && o <= t[i].0
    requires o != 0x0e && o != 0x0f
    ensures WidthIn(t, o) == t[i].1
  {
    var k := FirstAtLeast(t, o, 0);
    if k < i {
      Increasing(t, k, i - 1);
    }
  }

  /** `char_width` is the table's step function: inside the `i`-th
      interval it is the `i`-th width. */
  lemma CharWidthInInterval(o: int, i: nat)
    requires i < |Widths| && (i == 0 || Widths[i - 1].0 < o) && o <= Widths[i].0
    requires o != 0x0e && o != 0x0f
    ensures CharWidth(o) == Widths[i].1
  {
    TableShape();
    WidthInInterval(Widths, o, i);
  }

  /** Every code point up to 126 other than 0x0e and 0x0f is one column
      wide. */
  lemma AsciiIsNarrow(o: int)
    requires o <= 126 && o != 0x0e && o != 0x0f
    ensures CharWidth(o) == 1
  {
    TableShape();
    WidthInInterval(Widths, o, 0);
  }
}
