/** The per-scan data point set: a TreeSet ordered by ascending m/z alone.
    Iterating it yields strictly ascending m/z, and adding a point whose m/z
    is already present leaves the set as it was. */
module PointSet {
  import opened CameraTypes

  /** Strictly ascending m/z: the iteration order of the set. */
  predicate Ascending(s: seq<DataPoint>) {
    forall i, j :: 0 <= i < j < |s| ==> s[i].mz < s[j].mz
  }

  /** Some point of `s` has m/z `mz`. */
  predicate HasMz(s: seq<DataPoint>, mz: real) {
    exists q :: q in s && q.mz == mz
  }

  /** No two points share an m/z. */
  predicate DistinctMz(xs: seq<DataPoint>) {
    forall i, j :: 0 <= i < j < |xs| ==> xs[i].mz != xs[j].mz
  }

  /** The earlier points of `xs` all differ from `xs[i]` in m/z. */
  predicate FirstOfMz(xs: seq<DataPoint>, i: int)
    requires 0 <= i < |xs|
  {
    forall j :: 0 <= j < i ==> xs[j].mz != xs[i].mz
  }

  /** TreeSet.add: the point goes in at its m/z position, unless a point with
      the same m/z is already present, in which case nothing changes. */
  function Insert(s: seq<DataPoint>, p: DataPoint): (r: seq<DataPoint>)
    requires Ascending(s)
    ensures Ascending(r)
    ensures HasMz(s, p.mz) ==> r == s
    ensures !HasMz(s, p.mz) ==> |r| == |s| + 1
    ensures forall q :: q in r <==> q in s || (q == p && !HasMz(s, p.mz))
  {
    if s == [] then [p]
    else if p.mz < s[0].mz then
      BelowFirst(s, p.mz);
      [p] + s
    else if p.mz == s[0].mz then s
    else
      var t := Insert(s[1..], p);
      AboveFirst(s, p, t);
      [s[0]] + t
  }

  /** An m/z below the first entry is not in the set. */
  lemma BelowFirst(s: seq<DataPoint>, mz: real)
    requires Ascending(s) && s != [] && mz < s[0].mz
    ensures !HasMz(s, mz)
  {
    forall q | q in s ensures q.mz != mz {
      var k :| 0 <= k < |s| && s[k] == q;
      assert s[0].mz <= s[k].mz;
    }
  }

  /** Inserting above the first entry happens in the tail. */
  lemma AboveFirst(s: seq<DataPoint>, p: DataPoint, t: seq<DataPoint>)
    requires Ascending(s) && s != [] && s[0].mz < p.mz
    requires forall q :: q in t <==> q in s[1..] || (q == p && !HasMz(s[1..], p.mz))
    ensures HasMz(s, p.mz) <==> HasMz(s[1..], p.mz)
    ensures forall k :: 0 <= k < |t| ==> s[0].mz < t[k].mz
  {
    assert s == [s[0]] + s[1..];
    if HasMz(s, p.mz) {
      var q :| q in s && q.mz == p.mz;
      assert q in s[1..];
    }
    forall k | 0 <= k < |t| ensures s[0].mz < t[k].mz {
      assert t[k] in t;
      if t[k] != p {
        var j :| 0 <= j < |s[1..]| && s[1..][j] == t[k];
        assert s[j + 1] == t[k];
      }
    }
  }

  /** Adding a point puts its m/z in the set and takes none out. */
  lemma InsertHasMz(s: seq<DataPoint>, p: DataPoint, mz: real)
    requires Ascending(s)
    ensures HasMz(Insert(s, p), mz) <==> HasMz(s, mz) || mz == p.mz
  {
    var r := Insert(s, p);
    if HasMz(s, mz) {
      var q :| q in s && q.mz == mz;
      assert q in r;
    } else if mz == p.mz {
      assert p in r;
    }
  }

  /** The set obtained by adding the points of `xs` in order to an empty set. */
  function TreeOf(xs: seq<DataPoint>): (r: seq<DataPoint>)
    ensures Ascending(r)
    ensures |r| <= |xs|
    ensures forall q :: q in r ==> q in xs
  {
    if xs == [] then []
    else
      assert xs == xs[..|xs| - 1] + [xs[|xs| - 1]];
      Insert(TreeOf(xs[..|xs| - 1]), xs[|xs| - 1])
  }

  /** The set has an entry at m/z `mz` exactly when some added point has it. */
  lemma {:induction false} TreeOfHasMz(xs: seq<DataPoint>, mz: real)
    ensures HasMz(TreeOf(xs), mz) <==> exists x :: x in xs && x.mz == mz
  {
    if xs != [] {
      var ys := xs[..|xs| - 1];
      var p := xs[|xs| - 1];
      assert xs == ys + [p];
      TreeOfHasMz(ys, mz);
      InsertHasMz(TreeOf(ys), p, mz);
      if exists x :: x in xs && x.mz == mz {
        var x :| x in xs && x.mz == mz;
        if x != p {
          assert x in ys;
        }
      }
      if HasMz(TreeOf(ys), mz) {
        var x :| x in ys && x.mz == mz;
        assert x in xs;
      }
    }
  }

  /** The set holds one point per added point exactly when the added points
      have pairwise distinct m/z; otherwise it holds fewer. */
  lemma {:induction false} TreeOfExact(xs: seq<DataPoint>)
    ensures |TreeOf(xs)| == |xs| <==> DistinctMz(xs)
  {
    if xs != [] {
      var ys := xs[..|xs| - 1];
      var p := xs[|xs| - 1];
      assert xs == ys + [p];
      TreeOfExact(ys);
      TreeOfHasMz(ys, p.mz);
      if DistinctMz(xs) {
        assert DistinctMz(ys);
        assert !HasMz(TreeOf(ys), p.mz) by {
          forall y | y in ys ensures y.mz != p.mz {
            var k :| 0 <= k < |ys| && ys[k] == y;
            assert xs[k] == y;
          }
        }
      }
      if |TreeOf(xs)| == |xs| {
        assert |TreeOf(ys)| == |ys|;
        assert !HasMz(TreeOf(ys), p.mz);
        forall i, j | 0 <= i < j < |xs| ensures xs[i].mz != xs[j].mz {
          if j == |xs| - 1 {
            assert ys[i] in ys;
          } else {
            assert ys[i] == xs[i] && ys[j] == xs[j];
          }
        }
      }
    }
  }

  /** `q` was added at index `i` and no earlier point had its m/z. */
  predicate AddedFirst(xs: seq<DataPoint>, q: DataPoint, i: int) {
    0 <= i < |xs| && xs[i] == q && FirstOfMz(xs, i)
  }

  /** Being first at an m/z does not depend on the points added later. */
  lemma FirstInPrefix(xs: seq<DataPoint>, q: DataPoint, i: int)
    requires 0 <= i < |xs| - 1
    ensures AddedFirst(xs, q, i) <==> AddedFirst(xs[..|xs| - 1], q, i)
  {
    assert forall j :: 0 <= j <= i ==> xs[j] == xs[..|xs| - 1][j];
  }

  /** Step of TreeOfKeepsFirst: a kept point was added first at its m/z. */
  lemma KeptWasFirst(xs: seq<DataPoint>, q: DataPoint, k: int)
    requires xs != [] && q in TreeOf(xs)
    requires q in TreeOf(xs[..|xs| - 1]) ==> 0 <= k < |xs| - 1 && AddedFirst(xs[..|xs| - 1], q, k)
    ensures exists i :: AddedFirst(xs, q, i)
  {
    var ys := xs[..|xs| - 1];
    var n := |xs| - 1;
    if q in TreeOf(ys) {
      FirstInPrefix(xs, q, k);
      assert AddedFirst(xs, q, k);
    } else {
      assert q == xs[n] && !HasMz(TreeOf(ys), q.mz);
      TreeOfHasMz(ys, q.mz);
      forall j | 0 <= j < n ensures xs[j].mz != xs[n].mz {
        assert ys[j] in ys;
      }
      assert AddedFirst(xs, q, n);
    }
  }

  /** Step of TreeOfKeepsFirst: a point added first at its m/z is kept. */
  lemma FirstIsKept(xs: seq<DataPoint>, q: DataPoint, i: int)
    requires AddedFirst(xs, q, i)
    requires i < |xs| - 1 ==> q in TreeOf(xs[..|xs| - 1])
    ensures q in TreeOf(xs)
  {
    var ys := xs[..|xs| - 1];
    var n := |xs| - 1;
    assert xs == ys + [xs[n]];
    if i == n {
      forall y | y in ys ensures y.mz != q.mz {
        var k :| 0 <= k < |ys| && ys[k] == y;
        assert xs[k] == y;
      }
      TreeOfHasMz(ys, q.mz);
    }
  }

  /** A point is in the set exactly when it was added and no earlier added
      point had its m/z: the first point added at an m/z is the one kept. */
  lemma {:induction false} TreeOfKeepsFirst(xs: seq<DataPoint>, q: DataPoint)
    ensures q in TreeOf(xs) <==> exists i :: AddedFirst(xs, q, i)
  {
    if xs != [] {
      var ys := xs[..|xs| - 1];
      TreeOfKeepsFirst(ys, q);
      if q in TreeOf(xs) {
        if q in TreeOf(ys) {
          var k :| AddedFirst(ys, q, k);
          KeptWasFirst(xs, q, k);
        } else {
          KeptWasFirst(xs, q, 0);
        }
      }
      if exists i :: AddedFirst(xs, q, i) {
        var i :| AddedFirst(xs, q, i);
        if i < |xs| - 1 {
          FirstInPrefix(xs, q, i);
        }
        FirstIsKept(xs, q, i);
      }
    }
  }
}
