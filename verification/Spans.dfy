/**
  Spans of time in which a device is busy, as closed intervals over the reals with whole
  end points, and what it means for a list of them to be the merged form of a set.
 */
module Spans {
  datatype Span = Span(dt: nat, ct: nat)

  ghost predicate Has(s: Span, x: real) {
    s.dt as real <= x <= s.ct as real
  }

  ghost predicate Covers(ss: seq<Span>, x: real) {
    exists i :: 0 <= i < |ss| && Has(ss[i], x)
  }

  /** In order, not inverted, and with room between neighbours. */
  ghost predicate Merged(ss: seq<Span>) {
    && (forall i :: 0 <= i < |ss| ==> ss[i].dt <= ss[i].ct)
    && (forall i, j :: 0 <= i < j < |ss| ==> ss[i].ct < ss[j].dt)
  }

  /** A point between two neighbours belongs to no span. */
  lemma GapUncovered(ss: seq<Span>, i: nat, x: real)
    requires Merged(ss) && i <= |ss|
    requires i > 0 ==> (ss[i - 1].ct as real) < x
    requires i < |ss| ==> x < ss[i].dt as real
    ensures !Covers(ss, x)
  {
    forall j | 0 <= j < |ss| ensures !Has(ss[j], x) {
      if j < i {
        assert ss[j].ct <= ss[i - 1].ct;
      } else {
        assert ss[i].dt <= ss[j].dt;
      }
    }
  }

  /** Between the end of a span and any later point there is a point that no span covers. */
  lemma GapBehind(ss: seq<Span>, i: nat, y: real) returns (z: real)
    requires Merged(ss) && i < |ss| && (ss[i].ct as real) < y
    ensures (ss[i].ct as real) < z <= y && !Covers(ss, z)
  {
    z := y;
    if i + 1 < |ss| && ss[i + 1].dt as real <= y {
      z := (ss[i].ct as real + ss[i + 1].dt as real) / 2.0;
    }
    GapUncovered(ss, i + 1, z);
  }

  /** The spans of a merged list are the connected components of what it covers. */
  lemma Components(ss: seq<Span>, x: real, y: real)
    requires Merged(ss) && x <= y
    ensures (forall z :: x <= z <= y ==> Covers(ss, z)) <==>
      (exists i :: 0 <= i < |ss| && Has(ss[i], x) && Has(ss[i], y))
  {
    if forall z :: x <= z <= y ==> Covers(ss, z) {
      assert Covers(ss, x);
      var i :| 0 <= i < |ss| && Has(ss[i], x);
      if !Has(ss[i], y) {
        var z := GapBehind(ss, i, y);
      }
    }
    forall i, z | 0 <= i < |ss| && Has(ss[i], x) && Has(ss[i], y) && x <= z <= y ensures Covers(ss, z) {
      assert Has(ss[i], z);
    }
  }

  ghost predicate SameCover(a: seq<Span>, b: seq<Span>) {
    forall x :: Covers(a, x) <==> Covers(b, x)
  }

  /** `after` covers what `before` does, and the points of `s`, and no more. */
  ghost predicate Adds(before: seq<Span>, s: Span, after: seq<Span>) {
    forall x :: Covers(after, x) <==> Covers(before, x) || Has(s, x)
  }

  /** A merged list that covers as much as another starts as the other does. */
  lemma SameFirst(a: seq<Span>, b: seq<Span>)
    requires Merged(a) && Merged(b) && SameCover(a, b) && a != []
    ensures b != [] && a[0] == b[0]
  {
    assert Has(a[0], a[0].dt as real) && Covers(a, a[0].dt as real);
    assert b != [] by {
      assert Covers(b, a[0].dt as real);
    }
    assert Has(b[0], b[0].dt as real) && Covers(b, b[0].dt as real);
    FirstStarts(a, b);
    FirstStarts(b, a);
    FirstEnds(a, b);
    FirstEnds(b, a);
  }

  lemma FirstStarts(a: seq<Span>, b: seq<Span>)
    requires Merged(a) && Merged(b) && SameCover(a, b) && a != [] && b != []
    ensures a[0].dt <= b[0].dt
  {
    assert Has(b[0], b[0].dt as real) && Covers(b, b[0].dt as real);
    if b[0].dt < a[0].dt {
      GapUncovered(a, 0, b[0].dt as real);
    }
  }

  lemma FirstEnds(a: seq<Span>, b: seq<Span>)
    requires Merged(a) && Merged(b) && SameCover(a, b) && a != [] && b != [] && a[0].dt == b[0].dt
    ensures a[0].ct <= b[0].ct
  {
    if b[0].ct < a[0].ct {
      var z := GapBehind(b, 0, a[0].ct as real);
      assert Has(a[0], z);
    }
  }

  lemma RestSameCover(a: seq<Span>, b: seq<Span>)
    requires Merged(a) && Merged(b) && SameCover(a, b) && a != [] && b != [] && a[0] == b[0]
    ensures SameCover(a[1..], b[1..])
  {
    forall x ensures Covers(a[1..], x) <==> Covers(b[1..], x) {
      RestCovers(a, x);
      RestCovers(b, x);
    }
  }

  lemma RestCovers(a: seq<Span>, x: real)
    requires Merged(a) && a != []
    ensures Covers(a[1..], x) <==> Covers(a, x) && !Has(a[0], x)
  {
    if Covers(a, x) && !Has(a[0], x) {
      var i :| 0 <= i < |a| && Has(a[i], x);
      assert a[1..][i - 1] == a[i];
    }
    if Covers(a[1..], x) {
      var i :| 0 <= i < |a[1..]| && Has(a[1..][i], x);
      assert Has(a[i + 1], x);
      assert a[0].ct < a[i + 1].dt;
    }
  }

  /** There is one merged list for what is covered: however it was arrived at, the list is the same. */
  lemma {:induction false} MergedIsCanonical(a: seq<Span>, b: seq<Span>)
    requires Merged(a) && Merged(b) && SameCover(a, b)
    ensures a == b
  {
    if a == [] {
      if b != [] {
        SameFirst(b, a);
      }
    } else {
      SameFirst(a, b);
      RestSameCover(a, b);
      MergedIsCanonical(a[1..], b[1..]);
      assert a == [a[0]] + a[1..] && b == [b[0]] + b[1..];
    }
  }

  // ---------- total length ----------

  ghost function TotalLength(ss: seq<Span>): int {
    if ss == [] then 0 else (ss[0].ct - ss[0].dt) + TotalLength(ss[1..])
  }

  /** How many unit cells (k, k + 1) below `n` have their middle covered. */
  ghost function CoveredCells(ss: seq<Span>, n: nat): nat {
    if n == 0 then 0 else CoveredCells(ss, n - 1) + if Covers(ss, (n - 1) as real + 0.5) then 1 else 0
  }

  lemma {:induction false} CellsOfFirst(ss: seq<Span>, n: nat)
    requires Merged(ss) && ss != []
    ensures var s := ss[0];
      CoveredCells(ss, n) == CoveredCells(ss[1..], n)
        + if n <= s.dt then 0 else if n <= s.ct then n - s.dt else s.ct - s.dt
  {
    if n > 0 {
      CellsOfFirst(ss, n - 1);
      RestCovers(ss, (n - 1) as real + 0.5);
    }
  }

  /** The total length is the measure of the union, counted cell by cell. */
  lemma {:induction false} TotalLengthIsMeasure(ss: seq<Span>, n: nat)
    requires Merged(ss) && (ss != [] ==> ss[|ss| - 1].ct <= n)
    ensures TotalLength(ss) == CoveredCells(ss, n)
  {
    if ss == [] {
      NoCells(n);
    } else {
      CellsOfFirst(ss, n);
      assert |ss| > 1 ==> ss[1..][|ss| - 2] == ss[|ss| - 1];
      TotalLengthIsMeasure(ss[1..], n);
    }
  }

  lemma {:induction false} NoCells(n: nat)
    ensures CoveredCells([], n) == 0
  {
    if n > 0 {
      NoCells(n - 1);
    }
  }
}
