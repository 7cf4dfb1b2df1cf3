/** The version manifests of the local storage: one `meta.json` per row
    dataset and per object store, holding the latest version and the list
    of versions.  The files themselves and the directory copies are not
    part of this model; the manifests are a map from dataset to its
    manifest. */
module Manifest {
  import opened Common

  /** The contents of `meta.json`. */
  datatype Meta = Meta(latest: Option<string>, versions: seq<string>)

  /** The manifest written for a dataset created by the first write. */
  const Fresh: Meta := Meta(None, [])

  /** Where a dataset lives: `<namespace>/<key>`. */
  datatype Key = Key(namespace: string, key: string)

  /** No version is listed twice. */
  ghost predicate Distinct(s: seq<string>)
  {
    forall i, j :: 0 <= i < j < |s| ==> s[i] != s[j]
  }

  /** A manifest as the storage keeps it: the latest version is one of the
      listed ones, each listed once. */
  ghost predicate Consistent(m: Meta)
  {
    (m.latest.Some? ==> m.latest.value in m.versions) && Distinct(m.versions)
  }

  /** The version a request names: `"latest"` stands for the manifest's
      latest version, which must exist; any other name stands for itself. */
  function Resolve(m: Meta, version: string): (r: Result<string>)
    ensures version != "latest" ==> r == Ok(version)
    ensures version == "latest" ==> (r.Ok? <==> m.latest.Some?)
    ensures r.Err? ==> r.error == NoLatestVersion
  {
    if version != "latest" then Ok(version)
    else if m.latest.None? then Err(NoLatestVersion)
    else Ok(m.latest.value)
  }

  /** A consistent manifest resolves `"latest"` to a listed version. */
  lemma LatestIsListed(m: Meta)
    requires Consistent(m) && m.latest.Some?
    ensures Resolve(m, "latest").Ok? && Resolve(m, "latest").value in m.versions
  {
  }

  /** The manifest after a write of version `v`: `v` becomes the latest
      and is appended to the list unless it is already there. */
  function Record(m: Meta, v: string): (m': Meta)
    ensures m'.latest == Some(v) && v in m'.versions
    ensures v in m.versions ==> m'.versions == m.versions
    ensures v !in m.versions ==> m'.versions == m.versions + [v]
  {
    Meta(Some(v), if v in m.versions then m.versions else m.versions + [v])
  }

  /** Recording a version keeps a manifest consistent: no version is ever
      listed twice, and nothing listed is dropped. */
  lemma {:induction false} RecordKeepsConsistent(m: Meta, v: string)
    requires Consistent(m)
    ensures Consistent(Record(m, v))
    ensures forall x :: x in m.versions ==> x in Record(m, v).versions
  {
    var s := Record(m, v).versions;
    if v !in m.versions {
      forall i, j | 0 <= i < j < |s|
        ensures s[i] != s[j]
      {
        if j == |s| - 1 {
          assert s[i] == m.versions[i] && s[j] == v;
        } else {
          assert s[i] == m.versions[i] && s[j] == m.versions[j];
        }
      }
    }
  }

  /** Writing the same version twice leaves the manifest as one write
      does. */
  lemma RecordIdempotent(m: Meta, v: string)
    ensures Record(Record(m, v), v) == Record(m, v)
  {
  }

  /** The version written last is the one a read of `"latest"` opens, and
      a read of it finds it listed. */
  lemma LastWrittenIsDefault(m: Meta, v: string)
    ensures Resolve(Record(m, v), "latest") == Ok(v)
    ensures v in Record(m, v).versions
  {
  }

  /** `"%d" % n`: the decimal digits of `n`, without leading zeros. */
  function Decimal(n: nat): (s: string)
    ensures |s| > 0 && (|s| > 1 ==> s[0] != '0')
    ensures forall i :: 0 <= i < |s| ==> '0' <= s[i] <= '9'
  {
    if n < 10 then [Digit(n)] else Decimal(n / 10) + [Digit(n % 10)]
  }

  function Digit(d: nat): (c: char)
    requires d < 10
    ensures '0' <= c <= '9'
  {
    (48 + d) as char
  }

  /** The number a string of decimal digits spells. */
  function Value(s: string): nat
    requires forall i :: 0 <= i < |s| ==> '0' <= s[i] <= '9'
  {
    if |s| == 0 then 0 else Value(s[..|s| - 1]) * 10 + (s[|s| - 1] as int - 48)
  }

  /** Reading back the digits of `n` gives `n`: distinct numbers have
      distinct version names. */
  lemma {:induction false} DecimalRoundTrip(n: nat)
    ensures Value(Decimal(n)) == n
  {
    var s := Decimal(n);
    if n >= 10 {
      DecimalRoundTrip(n / 10);
      assert s[..|s| - 1] == Decimal(n / 10);
    }
  }

  /** If the names of all numbers in `ks` are listed, there are at least
      as many entries as numbers. */
  lemma {:induction false} NamesFit(ks: set<nat>, versions: seq<string>)
    requires forall k :: k in ks ==> Decimal(k) in versions
    ensures |ks| <= |versions|
    decreases |versions|
  {
    if |versions| == 0 {
      assert ks == {};
    } else {
      var last := versions[|versions| - 1];
      var front := versions[..|versions| - 1];
      var rest := set k | k in ks && Decimal(k) != last;
      forall k | k in rest
        ensures Decimal(k) in front
      {
        NotLastInFront(versions, Decimal(k));
      }
      NamesFit(rest, front);
      OneNamed(ks, rest, last);
    }
  }

  /** A listed name other than the last entry is listed before it. */
  lemma {:induction false} NotLastInFront(versions: seq<string>, x: string)
    requires x in versions && x != versions[|versions| - 1]
    ensures x in versions[..|versions| - 1]
  {
    var i :| 0 <= i < |versions| && versions[i] == x;
    assert versions[..|versions| - 1][i] == x;
  }

  /** At most one number has a given decimal name: leaving out the
      numbers named `name` leaves out at most one. */
  lemma {:induction false} OneNamed(ks: set<nat>, rest: set<nat>, name: string)
    requires forall k :: k in rest <==> k in ks && Decimal(k) != name
    ensures |ks| <= |rest| + 1
  {
    var gone := ks - rest;
    assert ks == rest + gone && rest * gone == {};
    if gone != {} {
      var k :| k in gone;
      forall k' | k' in gone
        ensures k' == k
      {
        DecimalRoundTrip(k);
        DecimalRoundTrip(k');
      }
      assert gone == {k};
    }
    assert |ks| == |rest| + |gone|;
  }

  /** The auto-version loop of `saveDirectory`: counting up from 0 until a
      decimal name is not listed, which yields the smallest free one. */
  method AutoVersion(versions: seq<string>) returns (cnt: nat, version: string)
    ensures version == Decimal(cnt) && version !in versions
    ensures forall k :: 0 <= k < cnt ==> Decimal(k) in versions
    ensures cnt <= |versions|
  {
    cnt := 0;
    ghost var seen: set<nat> := {};
    while Decimal(cnt) in versions
      invariant forall k :: 0 <= k < cnt ==> Decimal(k) in versions
      invariant (forall x: nat :: x in seen <==> x < cnt) && |seen| == cnt
      invariant cnt <= |versions|
      decreases |versions| - cnt
    {
      assert cnt !in seen;
      seen := seen + {cnt};
      cnt := cnt + 1;
      NamesFit(seen, versions);
    }
    version := Decimal(cnt);
  }

  /** The meta.json files of a `LocalStorage`: one per row dataset under
      `row/` and one per object store under `obj/`. */
  class LocalStorage {
    var rows: map<Key, Meta>
    var objects: map<Key, Meta>

    /** Every manifest is consistent. */
    ghost predicate Valid()
      reads this
    {
      (forall k :: k in rows ==> Consistent(rows[k])) &&
      (forall k :: k in objects ==> Consistent(objects[k]))
    }

    /** A storage over the manifests already on disk. */
    constructor (rows: map<Key, Meta>, objects: map<Key, Meta>)
      ensures this.rows == rows && this.objects == objects
    {
      this.rows := rows;
      this.objects := objects;
    }

    /** `open(namespace, key, mode, version)`: the version whose directory
        the dataset opens.  A missing dataset is created, with a fresh
        manifest, only by a mode holding "w"; that manifest stays even if
        the version then fails to resolve.  A write records the version;
        a read needs it listed. */
    method Open(k: Key, mode: string, version: string) returns (r: Result<string>)
      modifies this
      ensures objects == old(objects)
      ensures k !in old(rows) && 'w' !in mode ==> r == Err(MissingDataset) && rows == old(rows)
      ensures k in old(rows) || 'w' in mode ==>
        var m := if k in old(rows) then old(rows)[k] else Fresh;
        var v := Resolve(m, version);
        if v.Err? then r == v && rows == old(rows)[k := m]
        else
          var m' := if 'w' in mode then Record(m, v.value) else m;
          rows == old(rows)[k := m'] &&
          r == (if 'r' in mode && v.value !in m'.versions then Err(UnknownVersion) else v)
      ensures old(Valid()) ==> Valid()
    {
      if k !in rows {
        if 'w' !in mode {
          return Err(MissingDataset);
        }
        rows := rows[k := Fresh];
      }
      var m := rows[k];
      ghost var before := rows;
      var v := Resolve(m, version);
      if v.Err? {
        return v;
      }
      if 'w' in mode {
        RecordKeepsConsistentIf(m, v.value, old(Valid()) && Consistent(m));
        m := Record(m, v.value);
        rows := rows[k := m];
      }
      if 'r' in mode && v.value !in m.versions {
        return Err(UnknownVersion);
      }
      r := v;
    }

    /** `loadDirectory(namespace, key, local_path, version)`: the version
        whose directory is copied out; nothing changes. */
    method LoadDirectory(k: Key, version: string) returns (r: Result<string>)
      ensures k !in objects ==> r == Err(MissingDataset)
      ensures k in objects && Resolve(objects[k], version).Err? ==> r == Err(NoLatestVersion)
      ensures r.Ok? <==> (k in objects && Resolve(objects[k], version).Ok? &&
                          Resolve(objects[k], version).value in objects[k].versions)
      ensures r.Ok? ==> r == Resolve(objects[k], version)
      ensures r.Err? && k in objects && Resolve(objects[k], version).Ok? ==> r == Err(UnknownVersion)
    {
      if k !in objects {
        return Err(MissingDataset);
      }
      var m := objects[k];
      r := Resolve(m, version);
      if r.Ok? && r.value !in m.versions {
        r := Err(UnknownVersion);
      }
    }

    /** `saveDirectory(namespace, key, local_path, version)`: the version
        the directory is stored under, recorded as the latest.  With no
        version given it is the smallest number whose decimal name is not
        yet listed. */
    method SaveDirectory(k: Key, version: Option<string>) returns (r: Result<string>)
      modifies this
      ensures rows == old(rows)
      ensures var m := if k in old(objects) then old(objects)[k] else Fresh;
        (version.None? ==> (r.Ok? && r.value !in m.versions &&
                            exists n: nat :: r.value == Decimal(n) && forall j :: 0 <= j < n ==> Decimal(j) in m.versions)) &&
        (version.Some? ==> r == Resolve(m, version.value)) &&
        (r.Ok? ==> objects == old(objects)[k := Record(m, r.value)]) &&
        (r.Err? ==> objects == old(objects)[k := m])
      ensures r.Ok? ==> objects[k].latest == Some(r.value) && r.value in objects[k].versions
      ensures old(Valid()) ==> Valid()
    {
      if k !in objects {
        objects := objects[k := Fresh];
      }
      var m := objects[k];
      var v: string;
      if version.None? {
        var cnt;
        cnt, v := AutoVersion(m.versions);
      } else {
        v := version.value;
      }
      if v == "latest" {
        var res := Resolve(m, v);
        if res.Err? {
          return res;
        }
        v := res.value;
      }
      RecordKeepsConsistentIf(m, v, old(Valid()) && Consistent(m));
      objects := objects[k := Record(m, v)];
      r := Ok(v);
    }
  }

  /** `RecordKeepsConsistent` under a condition the caller carries along. */
  lemma RecordKeepsConsistentIf(m: Meta, v: string, c: bool)
    requires c ==> Consistent(m)
    ensures c ==> Consistent(Record(m, v))
  {
    if c {
      RecordKeepsConsistent(m, v);
    }
  }
}
