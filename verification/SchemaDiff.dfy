/**
 Schema-version diffs over the migration manifest, and when they compose.
 */
module SchemaDiff {
  import opened Types

  datatype SchemaChange = SchemaChange(version: u32, kind: string, description: string)

  datatype Diff = Diff(fromVersion: u32, toVersion: u32, changes: seq<SchemaChange>, empty: bool)

  type Manifest = seq<SchemaChange>

  /** The changes with `lo < version <= hi`, in manifest order. */
  function Changes(m: Manifest, lo: u32, hi: u32): seq<SchemaChange> {
    if m == [] then []
    else (if lo < m[0].version <= hi then [m[0]] else []) + Changes(m[1..], lo, hi)
  }

  function Between(m: Manifest, a: u32, b: u32): Diff {
    var lo, hi := if a <= b then a else b, if a <= b then b else a;
    Diff(lo, hi, Changes(m, lo, hi), Changes(m, lo, hi) == [])
  }

  method CompareSchemaVersions(m: Manifest, fromVersion: u32, toVersion: u32) returns (d: Diff)
    ensures d == Between(m, fromVersion, toVersion)
  {
    var lo, hi := toVersion, fromVersion;
    if fromVersion <= toVersion {
      lo, hi := fromVersion, toVersion;
    }
    var changes := [];
    for i := 0 to |m|
      invariant changes == Changes(m[..i], lo, hi)
    {
      assert m[..i + 1] == m[..i] + [m[i]];
      ChangesConcat(m[..i], [m[i]], lo, hi);
      if m[i].version > lo && m[i].version <= hi {
        changes := changes + [m[i]];
      }
    }
    assert m[..|m|] == m;
    return Diff(lo, hi, changes, |changes| == 0);
  }

  lemma {:induction false} ChangesConcat(a: Manifest, b: Manifest, lo: u32, hi: u32)
    ensures Changes(a + b, lo, hi) == Changes(a, lo, hi) + Changes(b, lo, hi)
  {
    if a == [] {
      assert a + b == b;
    } else {
      assert (a + b)[1..] == a[1..] + b;
      ChangesConcat(a[1..], b, lo, hi);
    }
  }

  lemma {:induction false} ChangeCount(m: Manifest, lo: u32, hi: u32, x: SchemaChange)
    ensures multiset(Changes(m, lo, hi))[x] == if lo < x.version <= hi then multiset(m)[x] else 0
  {
    if m != [] {
      ChangeCount(m[1..], lo, hi, x);
      assert m == [m[0]] + m[1..];
    }
  }

  lemma {:induction false} NoChangesIff(m: Manifest, lo: u32, hi: u32)
    ensures Changes(m, lo, hi) == [] <==> forall i :: 0 <= i < |m| ==> !(lo < m[i].version <= hi)
  {
    if m != [] {
      NoChangesIff(m[1..], lo, hi);
      assert forall i :: 0 < i < |m| ==> m[i] == m[1..][i - 1];
    }
  }

  /** The diff names the lower and the higher version, holds an entry exactly if it is
      above the one and up to the other, as often as the manifest lists it, and is
      marked empty iff there are none. */
  lemma DiffIsExact(m: Manifest, a: u32, b: u32, x: SchemaChange)
    ensures var d := Between(m, a, b);
            && (if a <= b then d.fromVersion == a && d.toVersion == b else d.fromVersion == b && d.toVersion == a)
            && multiset(d.changes)[x] == (if d.fromVersion < x.version <= d.toVersion then multiset(m)[x] else 0)
            && (d.empty <==> forall i :: 0 <= i < |m| ==> !(d.fromVersion < m[i].version <= d.toVersion))
  {
    var lo, hi := if a <= b then a else b, if a <= b then b else a;
    ChangeCount(m, lo, hi, x);
    NoChangesIff(m, lo, hi);
  }

  /** The order of the arguments does not matter. */
  lemma SwappingIsHarmless(m: Manifest, a: u32, b: u32)
    ensures Between(m, a, b) == Between(m, b, a)
  {
  }

  // ---- Composition ----

  /** Ascending versions; entries at version 0 are below every range and free. */
  predicate Sorted(m: Manifest) {
    forall i, j :: 0 <= i < j < |m| && 0 < m[i].version && 0 < m[j].version ==> m[i].version <= m[j].version
  }

  predicate ComposesAt(m: Manifest, a: u32, b: u32, c: u32) {
    Changes(m, a, c) == Changes(m, a, b) + Changes(m, b, c)
  }

  lemma {:induction false} NoneInRange(m: Manifest, lo: u32, hi: u32)
    requires forall i :: 0 <= i < |m| ==> m[i].version == 0 || m[i].version > hi
    ensures Changes(m, lo, hi) == []
  {
    if m != [] {
      NoneInRange(m[1..], lo, hi);
    }
  }

  lemma {:induction false} SortedComposes(m: Manifest, a: u32, b: u32, c: u32)
    requires Sorted(m) && a <= b <= c
    ensures ComposesAt(m, a, b, c)
  {
    if m != [] {
      SortedComposes(m[1..], a, b, c);
      if b < m[0].version <= c {
        forall i | 0 <= i < |m[1..]| ensures m[1..][i].version == 0 || m[1..][i].version > b {
          assert m[1..][i] == m[i + 1];
        }
        NoneInRange(m[1..], a, b);
      }
    }
  }

  lemma {:induction false} ChangesInRange(m: Manifest, lo: u32, hi: u32)
    ensures forall x :: x in Changes(m, lo, hi) ==> lo < x.version <= hi
  {
    if m != [] {
      ChangesInRange(m[1..], lo, hi);
    }
  }

  /** The diff keeps the order of the manifest. */
  lemma ChangesKeepOrder(m: Manifest, i: nat, j: nat, lo: u32, hi: u32) returns (p: nat, q: nat)
    requires i < j < |m| && lo < m[i].version <= hi && lo < m[j].version <= hi
    ensures p < q < |Changes(m, lo, hi)|
    ensures Changes(m, lo, hi)[p] == m[i] && Changes(m, lo, hi)[q] == m[j]
  {
    assert m == m[..j] + m[j..];
    ChangesConcat(m[..j], m[j..], lo, hi);
    assert m[..j] == m[..i] + m[i..j];
    ChangesConcat(m[..i], m[i..j], lo, hi);
    p, q := |Changes(m[..i], lo, hi)|, |Changes(m[..j], lo, hi)|;
    assert Changes(m[i..j], lo, hi)[0] == m[i];
    assert Changes(m[j..], lo, hi)[0] == m[j];
  }

  lemma LateIsNotFirst(first: seq<SchemaChange>, second: seq<SchemaChange>, b: u32, p: nat, q: nat)
    requires forall x :: x in first ==> x.version <= b
    requires forall x :: x in second ==> x.version > b
    requires p < q < |first + second| && (first + second)[q].version <= b
    ensures (first + second)[p].version <= b
  {
    assert forall k :: |first| <= k < |first + second| ==> (first + second)[k] in second;
    assert (first + second)[p] in first;
  }

  lemma UnsortedFails(m: Manifest, i: nat, j: nat)
    requires i < j < |m| && 0 < m[j].version < m[i].version
    ensures !ComposesAt(m, m[j].version - 1, m[j].version, m[i].version)
  {
    var a, b, c := m[j].version - 1, m[j].version, m[i].version;
    if ComposesAt(m, a, b, c) {
      ghost var p, q := ChangesKeepOrder(m, i, j, a, c);
      ChangesInRange(m, a, b);
      ChangesInRange(m, b, c);
      LateIsNotFirst(Changes(m, a, b), Changes(m, b, c), b, p, q);
    }
  }

  /** Diffs compose over every intermediate version iff the manifest is ascending. */
  lemma ComposesIffSorted(m: Manifest)
    ensures (forall a: u32, b: u32, c: u32 :: a <= b <= c ==> ComposesAt(m, a, b, c)) <==> Sorted(m)
  {
    if Sorted(m) {
      forall a: u32, b: u32, c: u32 | a <= b <= c ensures ComposesAt(m, a, b, c) {
        SortedComposes(m, a, b, c);
      }
    } else {
      var i, j :| 0 <= i < j < |m| && 0 < m[i].version && 0 < m[j].version && m[i].version > m[j].version;
      UnsortedFails(m, i, j);
    }
  }

  /** Whatever the order of the manifest, no change is lost or repeated. */
  lemma {:induction false} ComposesAsMultiset(m: Manifest, a: u32, b: u32, c: u32)
    requires a <= b <= c
    ensures multiset(Changes(m, a, c)) == multiset(Changes(m, a, b)) + multiset(Changes(m, b, c))
  {
    if m != [] {
      ComposesAsMultiset(m[1..], a, b, c);
    }
  }

  predicate Ascending(chain: seq<u32>) {
    forall i, j :: 0 <= i < j < |chain| ==> chain[i] <= chain[j]
  }

  /** The diffs of the steps of an upgrade path, one after the other. */
  function StepByStep(m: Manifest, chain: seq<u32>): seq<SchemaChange> {
    if |chain| < 2 then [] else Changes(m, chain[0], chain[1]) + StepByStep(m, chain[1..])
  }

  /** Upgrading step by step along any ascending path shows what one comparison of
      its ends shows. */
  lemma {:induction false} ChainComposes(m: Manifest, chain: seq<u32>)
    requires Sorted(m) && Ascending(chain) && chain != []
    ensures StepByStep(m, chain) == Changes(m, chain[0], chain[|chain| - 1])
  {
    if |chain| == 1 {
      EmptyRange(m, chain[0]);
    } else {
      ChainComposes(m, chain[1..]);
      SortedComposes(m, chain[0], chain[1], chain[|chain| - 1]);
    }
  }

  lemma {:induction false} EmptyRange(m: Manifest, v: u32)
    ensures Changes(m, v, v) == []
  {
    if m != [] {
      EmptyRange(m[1..], v);
    }
  }
}
