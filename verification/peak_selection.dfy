/**
 * Ranking of the candidate peaks of one segment: `list.sort(key=magnitude, reverse=True)`,
 * a stable descending sort, followed by keeping the first three.
 */
module PeakSelection {
  import opened Segmentation

  /** A (bin frequency, magnitude) pair, one per candidate frequency. */
  datatype Peak = Peak(freq: real, mag: real)

  /** Non-increasing by magnitude. */
  predicate SortedByMagnitude(ps: seq<Peak>) {
    forall i, j :: 0 <= i < j < |ps| ==> ps[i].mag >= ps[j].mag
  }

  /** The peaks of `ps` whose magnitude is exactly `m`, in their order in `ps`. */
  function WithMagnitude(ps: seq<Peak>, m: real): seq<Peak> {
    if |ps| == 0 then []
    else (if ps[0].mag == m then [ps[0]] else []) + WithMagnitude(ps[1..], m)
  }

  /** Stability: every group of equal magnitude keeps its relative order. */
  ghost predicate KeepsTiesInOrder(sorted: seq<Peak>, original: seq<Peak>) {
    forall m :: WithMagnitude(sorted, m) == WithMagnitude(original, m)
  }

  /** Places `p` ahead of the first peak that is not strictly larger: after strictly larger ones, before ties. */
  function Insert(p: Peak, ps: seq<Peak>): (r: seq<Peak>)
    ensures |r| == |ps| + 1
    ensures multiset(r) == multiset{p} + multiset(ps)
  {
    if |ps| == 0 || p.mag >= ps[0].mag then [p] + ps
    else
      assert ps == [ps[0]] + ps[1..];
      [ps[0]] + Insert(p, ps[1..])
  }

  /** Inserting into a sorted list keeps it sorted. */
  lemma {:induction false} InsertKeepsSorted(p: Peak, ps: seq<Peak>)
    requires SortedByMagnitude(ps)
    ensures SortedByMagnitude(Insert(p, ps))
  {
    if |ps| > 0 && p.mag < ps[0].mag {
      var rest := Insert(p, ps[1..]);
      InsertKeepsSorted(p, ps[1..]);
      var r := [ps[0]] + rest;
      assert r == Insert(p, ps);
      forall j | 0 <= j < |rest|
        ensures ps[0].mag >= rest[j].mag
      {
        assert rest[j] in multiset(rest);
        if rest[j] != p {
          assert rest[j] in multiset(ps[1..]);
          var k :| 0 <= k < |ps[1..]| && ps[1..][k] == rest[j];
          assert ps[k + 1] == rest[j];
        }
      }
      forall i, j | 0 <= i < j < |r|
        ensures r[i].mag >= r[j].mag
      {
        if i == 0 {
          assert r[j] == rest[j - 1];
        } else {
          assert r[i] == rest[i - 1] && r[j] == rest[j - 1];
        }
      }
    }
  }

  /** Inserting `p` in front of later peaks puts it first among its ties and leaves the other groups alone. */
  lemma {:induction false} InsertKeepsTies(p: Peak, ps: seq<Peak>, m: real)
    ensures WithMagnitude(Insert(p, ps), m) == WithMagnitude([p] + ps, m)
  {
    if |ps| == 0 || p.mag >= ps[0].mag {
    } else {
      InsertKeepsTies(p, ps[1..], m);
      var r := Insert(p, ps);
      assert r == [ps[0]] + Insert(p, ps[1..]);
      assert r[1..] == Insert(p, ps[1..]);
      assert ([p] + ps)[1..] == ps;
      assert ([p] + ps[1..])[1..] == ps[1..];
    }
  }

  /** The stable descending sort, as an insertion sort from the back of the list. */
  function SortByMagnitude(ps: seq<Peak>): (r: seq<Peak>)
    ensures |r| == |ps|
    ensures multiset(r) == multiset(ps)
    ensures SortedByMagnitude(r)
  {
    if |ps| == 0 then []
    else
      assert ps == [ps[0]] + ps[1..];
      var rest := SortByMagnitude(ps[1..]);
      InsertKeepsSorted(ps[0], rest);
      Insert(ps[0], rest)
  }

  /** The sort is stable: equal magnitudes come out in candidate order. */
  lemma {:induction false} SortKeepsTiesInOrder(ps: seq<Peak>)
    ensures KeepsTiesInOrder(SortByMagnitude(ps), ps)
  {
    if |ps| > 0 {
      SortKeepsTiesInOrder(ps[1..]);
      forall m
        ensures WithMagnitude(SortByMagnitude(ps), m) == WithMagnitude(ps, m)
      {
        var rest := SortByMagnitude(ps[1..]);
        InsertKeepsTies(ps[0], rest, m);
        assert ([ps[0]] + rest)[1..] == rest;
        assert ps == [ps[0]] + ps[1..];
      }
    }
  }

  /** No element occurs twice. */
  predicate NoDuplicates<T(==)>(s: seq<T>) {
    forall i, j :: 0 <= i < j < |s| ==> s[i] != s[j]
  }

  /** A sequence has no duplicates exactly when every multiplicity is at most one. */
  lemma {:induction false} NoDuplicatesByMultiplicity<T>(s: seq<T>)
    ensures NoDuplicates(s) <==> forall x :: multiset(s)[x] <= 1
  {
    if |s| > 0 {
      var t := s[1..];
      assert s == [s[0]] + t;
      assert multiset(s) == multiset{s[0]} + multiset(t);
      NoDuplicatesByMultiplicity(t);
      if NoDuplicates(s) {
        assert NoDuplicates(t) by {
          forall i, j | 0 <= i < j < |t|
            ensures t[i] != t[j]
          {
            assert t[i] == s[i + 1] && t[j] == s[j + 1];
          }
        }
        assert s[0] !in t;
      }
      if forall x :: multiset(s)[x] <= 1 {
        assert forall x :: multiset(t)[x] <= 1 by {
          forall x
            ensures multiset(t)[x] <= 1
          {
            assert multiset(s)[x] >= multiset(t)[x];
          }
        }
        assert multiset(t)[s[0]] == 0 by {
          assert multiset(s)[s[0]] == 1 + multiset(t)[s[0]];
        }
        forall i, j | 0 <= i < j < |s|
          ensures s[i] != s[j]
        {
          if i == 0 {
            assert s[j] == t[j - 1];
            assert s[j] in multiset(t);
          } else {
            assert s[i] == t[i - 1] && s[j] == t[j - 1];
          }
        }
      }
    }
  }

  /** Reordering keeps a duplicate-free sequence duplicate-free. */
  lemma PermutationKeepsNoDuplicates<T>(a: seq<T>, b: seq<T>)
    requires multiset(a) == multiset(b) && NoDuplicates(a)
    ensures NoDuplicates(b)
  {
    NoDuplicatesByMultiplicity(a);
    NoDuplicatesByMultiplicity(b);
  }

  /** The peaks kept by the selection, strongest first. */
  function Kept(ps: seq<Peak>, count: nat): (kept: seq<Peak>)
    ensures |kept| == Min(count, |ps|)
  {
    SortByMagnitude(ps)[..Min(count, |ps|)]
  }

  /** `[f[0] for f in top_frequencies[:count]]` after the sort: the frequencies of the kept peaks. */
  function TopFrequencies(ps: seq<Peak>, count: nat): (fs: seq<real>)
    ensures |fs| == Min(count, |ps|)
    ensures forall i :: 0 <= i < |fs| ==> exists p :: p in ps && p.freq == fs[i]
  {
    var kept := Kept(ps, count);
    var fs := seq(|kept|, i requires 0 <= i < |kept| => kept[i].freq);
    assert forall i :: 0 <= i < |fs| ==> exists p :: p in ps && p.freq == fs[i] by {
      forall i | 0 <= i < |fs|
        ensures exists p :: p in ps && p.freq == fs[i]
      {
        var sorted := SortByMagnitude(ps);
        assert kept[i] == sorted[i];
        assert sorted[i] in multiset(sorted);
      }
    }
    fs
  }

  /**
   * The selection keeps `min(count, |ps|)` of the candidate peaks, and every kept peak is at least
   * as strong as every dropped one.
   */
  lemma KeptAreStrongest(ps: seq<Peak>, count: nat)
    ensures multiset(Kept(ps, count)) <= multiset(ps)
    ensures forall p, q :: p in Kept(ps, count) && q in multiset(ps) - multiset(Kept(ps, count)) ==> p.mag >= q.mag
  {
    var sorted := SortByMagnitude(ps);
    var n := Min(count, |ps|);
    var kept := sorted[..n];
    var dropped := sorted[n..];
    assert sorted == kept + dropped;
    assert multiset(ps) == multiset(kept) + multiset(dropped);
    forall p, q | p in kept && q in multiset(ps) - multiset(kept)
      ensures p.mag >= q.mag
    {
      assert q in multiset(dropped);
      KeptOutranksDropped(sorted, n, p, q);
    }
  }

  lemma KeptOutranksDropped(sorted: seq<Peak>, n: nat, p: Peak, q: Peak)
    requires SortedByMagnitude(sorted) && n <= |sorted|
    requires p in sorted[..n] && q in sorted[n..]
    ensures p.mag >= q.mag
  {
    var i :| 0 <= i < n && sorted[..n][i] == p;
    var j :| 0 <= j < |sorted| - n && sorted[n..][j] == q;
    assert sorted[i] == p && sorted[n + j] == q;
  }
}
