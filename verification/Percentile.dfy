// The interpolating percentile of the load tests (bin/load_tests/concurrent_message_starts.py),
// in exact reals. Sorting is Python's: a parameter, known by what it returns.
module Percentile {
  import opened Basics

  ghost predicate IsSorted(s: seq<real>) {
    forall i, j | 0 <= i <= j < |s| :: s[i] <= s[j]
  }

  ghost predicate Sorts(sort: seq<real> -> seq<real>, values: seq<real>) {
    IsSorted(sort(values)) && multiset(sort(values)) == multiset(values)
  }

  function Blend(a: real, b: real, weight: real): real {
    a * (1.0 - weight) + b * weight
  }

  function Position(last: int, fraction: real): real {
    last as real * fraction
  }

  /** The value at a fractional position, interpolated between its neighbours. */
  function Interpolated(ordered: seq<real>, position: real): real
    requires ordered != [] && 0.0 <= position <= (|ordered| - 1) as real
  {
    var lower := position.Floor;
    var upper := if lower + 1 <= |ordered| - 1 then lower + 1 else |ordered| - 1;
    Blend(ordered[lower], ordered[upper], position - lower as real)
  }

  /** `percentile`; None where it raises. */
  function Percentile(sort: seq<real> -> seq<real>, values: seq<real>, fraction: real): Option<real>
    requires 0.0 <= fraction <= 1.0
  {
    var ordered := sort(values);
    if ordered == [] then None
    else
      PositionRises(|ordered| - 1, fraction, fraction);
      Some(Interpolated(ordered, Position(|ordered| - 1, fraction)))
  }

  lemma {:induction false} ScaleRises(k: real, f: real, f': real)
    requires 0.0 <= k && 0.0 <= f <= f' <= 1.0
    ensures 0.0 <= k * f <= k * f' <= k
  {
    assert k * (f' - f) >= 0.0 && k * (1.0 - f') >= 0.0;
  }

  lemma {:induction false} PositionRises(last: int, f: real, f': real)
    requires 0 <= last && 0.0 <= f <= f' <= 1.0
    ensures 0.0 <= Position(last, f) <= Position(last, f') <= last as real
  {
    ScaleRises(last as real, f, f');
  }

  lemma {:induction false} BlendRises(a: real, b: real, w: real, w': real)
    requires a <= b && 0.0 <= w <= w' <= 1.0
    ensures a <= Blend(a, b, w) <= Blend(a, b, w') <= b
  {
    var d := b - a;
    ScaleRises(d, w, w');
    assert Blend(a, b, w) == a + d * w;
    assert Blend(a, b, w') == a + d * w';
  }

  lemma {:induction false} SortedIsUnique(a: seq<real>, b: seq<real>)
    requires IsSorted(a) && IsSorted(b) && multiset(a) == multiset(b)
    ensures a == b
  {
    assert |multiset(a)| == |multiset(b)|;
    if a != [] {
      SmallestFirst(a, b);
      RestsMatch(a, b);
      SortedIsUnique(a[1..], b[1..]);
      assert a == [a[0]] + a[1..] && b == [b[0]] + b[1..];
    }
  }

  lemma {:induction false} SmallestFirst(a: seq<real>, b: seq<real>)
    requires a != [] && b != [] && IsSorted(a) && IsSorted(b) && multiset(a) == multiset(b)
    ensures a[0] == b[0]
  {
    SameMembers(a, b, a[0]);
    SameMembers(a, b, b[0]);
  }

  lemma {:induction false} RestsMatch(a: seq<real>, b: seq<real>)
    requires a != [] && b != [] && a[0] == b[0] && multiset(a) == multiset(b)
    ensures multiset(a[1..]) == multiset(b[1..])
  {
    assert a == [a[0]] + a[1..] && b == [b[0]] + b[1..];
    assert multiset(a[1..]) == multiset(a) - multiset{a[0]};
    assert multiset(b[1..]) == multiset(b) - multiset{b[0]};
  }

  lemma {:induction false} SameMembers(a: seq<real>, b: seq<real>, v: real)
    requires multiset(a) == multiset(b)
    ensures v in a <==> v in b
  {
    assert v in a <==> v in multiset(a);
    assert v in b <==> v in multiset(b);
  }

  /** Interpolation rises with the position, also across the points of the data. */
  lemma {:induction false} InterpolatedRises(ordered: seq<real>, p: real, p': real)
    requires ordered != [] && IsSorted(ordered) && 0.0 <= p <= p' <= (|ordered| - 1) as real
    ensures ordered[0] <= Interpolated(ordered, p) <= Interpolated(ordered, p') <= ordered[|ordered| - 1]
  {
    hide Blend;
    var n := |ordered| - 1;
    var i, j := p.Floor, p'.Floor;
    var i', j' := if i + 1 <= n then i + 1 else n, if j + 1 <= n then j + 1 else n;
    var w, w' := p - i as real, p' - j as real;
    BlendRises(ordered[i], ordered[i'], w, if i == j then w' else w);
    BlendRises(ordered[j], ordered[j'], w', w');
    assert i < j ==> i' <= j;
  }

  /** The percentile lies within the values, rises with the fraction and does not depend on the order of
      the values; the call raises only without values. */
  lemma {:induction false} PercentileIsMonotone(
      sort: seq<real> -> seq<real>, values: seq<real>, values': seq<real>, f: real, f': real)
    requires Sorts(sort, values) && Sorts(sort, values') && multiset(values) == multiset(values')
    requires 0.0 <= f <= f' <= 1.0
    ensures Percentile(sort, values, f) == Percentile(sort, values', f)
    ensures Percentile(sort, values, f) == None <==> values == []
    ensures values != [] ==>
              && Percentile(sort, values, f).value <= Percentile(sort, values, f').value
              && (exists v | v in values :: v <= Percentile(sort, values, f).value)
              && (exists v | v in values :: Percentile(sort, values, f').value <= v)
  {
    hide Interpolated, Position;
    var ordered := sort(values);
    SortedIsUnique(ordered, sort(values'));
    assert |multiset(ordered)| == |multiset(values)|;
    if values != [] {
      hide IsSorted;
      var last := |ordered| - 1;
      PositionRises(last, f, f');
      InterpolatedRises(ordered, Position(last, f), Position(last, f'));
      SameMembers(ordered, values, ordered[0]);
      SameMembers(ordered, values, ordered[last]);
    }
  }

  /** The fractions 0 and 1 give the smallest and the largest value. */
  lemma {:induction false} PercentileEnds(sort: seq<real> -> seq<real>, values: seq<real>)
    requires values != [] && Sorts(sort, values)
    ensures Percentile(sort, values, 0.0).Some? && Percentile(sort, values, 1.0).Some?
    ensures Percentile(sort, values, 0.0).value in values && Percentile(sort, values, 1.0).value in values
    ensures forall v | v in values ::
              Percentile(sort, values, 0.0).value <= v <= Percentile(sort, values, 1.0).value
  {
    var ordered := sort(values);
    assert |multiset(ordered)| == |multiset(values)|;
    var last := |ordered| - 1;
    assert Percentile(sort, values, 0.0).value == ordered[0];
    assert Percentile(sort, values, 1.0).value == ordered[last];
    hide Percentile;
    forall v | v in values
      ensures ordered[0] <= v <= ordered[last]
    {
      SameMembers(ordered, values, v);
    }
    SameMembers(ordered, values, ordered[0]);
    SameMembers(ordered, values, ordered[last]);
  }

  /** The point on the line from `a` to `b` that is `weight` of the way along. */
  ghost function OnLine(a: real, b: real, weight: real): real {
    a + weight * (b - a)
  }

  /** Interpolation at a point gives the point, and between two points it moves in a straight line. */
  lemma {:induction false} InterpolatedBetween(ordered: seq<real>, k: nat, weight: real)
    requires k + 1 < |ordered| && 0.0 <= weight <= 1.0
    ensures k as real + weight <= (|ordered| - 1) as real
    ensures Interpolated(ordered, k as real + weight) == OnLine(ordered[k], ordered[k + 1], weight)
  {
    if weight == 1.0 {
      assert (k as real + weight).Floor == k + 1;
      BlendAt(ordered[k], ordered[k + 1], weight);
      BlendAt(ordered[k + 1], ordered[if k + 2 <= |ordered| - 1 then k + 2 else |ordered| - 1], 0.0);
    } else {
      assert (k as real + weight).Floor == k;
      BlendAt(ordered[k], ordered[k + 1], weight);
    }
    hide Blend, OnLine;
  }

  lemma {:induction false} BlendAt(a: real, b: real, weight: real)
    ensures Blend(a, b, weight) == OnLine(a, b, weight)
    ensures OnLine(a, b, 1.0) == b
    ensures weight == 0.0 ==> Blend(a, b, weight) == a
  {
  }

  /** The k-th of n ordered values lies at the fraction k / (n - 1), and between two of them the
      percentile moves in a straight line. */
  lemma {:induction false} PercentileBetween(
      sort: seq<real> -> seq<real>, values: seq<real>, k: nat, weight: real, fraction: real)
    requires Sorts(sort, values) && k + 1 < |values| && 0.0 <= weight <= 1.0
    requires fraction == (k as real + weight) / (|values| - 1) as real
    ensures |sort(values)| == |values| && 0.0 <= fraction <= 1.0
    ensures Percentile(sort, values, fraction)
            == Some(OnLine(sort(values)[k], sort(values)[k + 1], weight))
  {
    hide Interpolated, IsSorted, OnLine;
    var ordered := sort(values);
    assert |multiset(ordered)| == |multiset(values)|;
    InterpolatedBetween(ordered, k, weight);
    PositionBetween(|ordered| - 1, k as real + weight, fraction);
    hide Position;
    assert Percentile(sort, values, fraction) == Some(Interpolated(ordered, Position(|ordered| - 1, fraction)));
  }

  lemma {:induction false} PositionBetween(last: int, position: real, fraction: real)
    requires 0.0 <= position <= last as real && 0 < last && fraction == position / last as real
    ensures 0.0 <= fraction <= 1.0 && Position(last, fraction) == position
  {
    Ratio(position, last as real);
  }

  lemma {:induction false} Ratio(x: real, n: real)
    requires 0.0 <= x <= n && n > 0.0
    ensures 0.0 <= x / n <= 1.0 && n * (x / n) == x
  {
  }
}
