/**
 * extract_features: 21 hand landmarks to a 63-element vector, centred on the
 * wrist (landmark 0) and divided by the largest wrist distance.
 *
 * The Euclidean norm (`np.linalg.norm`, a square root) cannot be computed in
 * Dafny's reals, so it is a parameter `norm`; the lemmas that need its
 * meaning assume `IsNorm(norm)`: non-negative, zero exactly at the origin and
 * positively homogeneous. The Euclidean norm has these properties, so every
 * lemma below holds for it (and for any other norm).
 */
module Features {
  import opened Common

  datatype Point = Point(x: real, y: real, z: real)

  const LandmarkCount: nat := 21
  const FeatureLength: nat := 63
  const Origin: Point := Point(0.0, 0.0, 0.0)

  function Minus(p: Point, q: Point): Point { Point(p.x - q.x, p.y - q.y, p.z - q.z) }
  function Plus(p: Point, q: Point): Point { Point(p.x + q.x, p.y + q.y, p.z + q.z) }
  function Times(c: real, p: Point): Point { Point(c * p.x, c * p.y, c * p.z) }
  function DivideBy(p: Point, d: real): Point
    requires d != 0.0
  {
    Point(p.x / d, p.y / d, p.z / d)
  }

  /** `norm` is non-negative, vanishes exactly at the origin and scales with a positive factor. */
  ghost predicate IsNorm(norm: Point -> real)
  {
    && (forall p :: norm(p) >= 0.0 && (norm(p) == 0.0 <==> p == Origin))
    && (forall c: real, p :: c > 0.0 ==> norm(Times(c, p)) == c * norm(p))
  }

  /** Coordinate `k` (0 = x, 1 = y, 2 = z) of a point. */
  function Coordinate(p: Point, k: nat): real
    requires k < 3
  {
    if k == 0 then p.x else if k == 1 then p.y else p.z
  }

  /** The output point `i`: entries 3i, 3i+1, 3i+2 of a feature vector. */
  function PointAt(f: seq<real>, i: nat): Point
    requires 3 * i + 2 < |f|
  {
    Point(f[3 * i], f[3 * i + 1], f[3 * i + 2])
  }

  /** `landmarks - wrist`. */
  function Centered(lm: seq<Point>): (c: seq<Point>)
    requires |lm| > 0
    ensures |c| == |lm|
  {
    seq(|lm|, i requires 0 <= i < |lm| => Minus(lm[i], lm[0]))
  }

  /** `np.linalg.norm(centered, axis=1)`. */
  function Distances(c: seq<Point>, norm: Point -> real): (d: seq<real>)
    ensures |d| == |c|
  {
    seq(|c|, i requires 0 <= i < |c| => norm(c[i]))
  }

  /** `np.max`. */
  function Max(s: seq<real>): real
    requires |s| > 0
    decreases |s|
  {
    if |s| == 1 then s[0]
    else
      var m := Max(s[1..]);
      if s[0] > m then s[0] else m
  }

  /** `Max` is an element no smaller than any other. */
  lemma {:induction false} MaxIsLargest(s: seq<real>)
    requires |s| > 0
    ensures Max(s) in s
    ensures forall j :: 0 <= j < |s| ==> s[j] <= Max(s)
    decreases |s|
  {
    if |s| > 1 {
      MaxIsLargest(s[1..]);
      assert forall j :: 1 <= j < |s| ==> s[j] == s[1..][j - 1];
    }
  }

  /** `max_dist`: the largest distance of a landmark from the wrist. */
  function MaxDistance(lm: seq<Point>, norm: Point -> real): real
    requires |lm| > 0
  {
    Max(Distances(Centered(lm), norm))
  }

  /** `centered / max_dist`. */
  function Scaled(c: seq<Point>, d: real): (n: seq<Point>)
    requires d != 0.0
    ensures |n| == |c|
  {
    seq(|c|, i requires 0 <= i < |c| => DivideBy(c[i], d))
  }

  /** The normalised landmarks before flattening. */
  function Normalized(lm: seq<Point>, norm: Point -> real): (n: seq<Point>)
    requires |lm| > 0
    ensures |n| == |lm|
  {
    var c := Centered(lm);
    var d := MaxDistance(lm, norm);
    if d > 0.0 then Scaled(c, d) else c
  }

  /** Row-major `flatten` of a list of points. */
  function Flatten(ps: seq<Point>): (f: seq<real>)
    ensures |f| == 3 * |ps|
  {
    seq(3 * |ps|, j requires 0 <= j < 3 * |ps| => Coordinate(ps[j / 3], j % 3))
  }

  /** The detector reported something: a landmark list that is present and not empty. */
  predicate Detected(lm: Option<seq<Point>>)
  {
    lm.Some? && |lm.value| > 0
  }

  /** Exactly 21 landmarks: anything else (`None`, empty, incomplete) is "no hand". */
  predicate IsHand(lm: Option<seq<Point>>)
  {
    lm.Some? && |lm.value| == LandmarkCount
  }

  function Extract(lm: Option<seq<Point>>, norm: Point -> real): (f: seq<real>)
    ensures |f| == FeatureLength
    ensures !IsHand(lm) ==> forall j :: 0 <= j < |f| ==> f[j] == 0.0
  {
    if IsHand(lm) then Flatten(Normalized(lm.value, norm))
    else seq(FeatureLength, _ => 0.0)
  }

  // ---------------------------------------------------------------------
  // Layout

  lemma FlattenAt(ps: seq<Point>, i: nat, k: nat)
    requires i < |ps| && k < 3
    ensures 3 * i + k < |Flatten(ps)| && Flatten(ps)[3 * i + k] == Coordinate(ps[i], k)
  {
    assert (3 * i + k) / 3 == i;
    assert (3 * i + k) % 3 == k;
  }

  /** Entry 3i+k of the features is coordinate k of landmark i, centred on the wrist
      and divided by the largest wrist distance when that is positive. */
  lemma ExtractLayout(lm: seq<Point>, norm: Point -> real, i: nat, k: nat)
    requires |lm| == LandmarkCount && i < LandmarkCount && k < 3
    ensures var d := MaxDistance(lm, norm);
            var c := Minus(lm[i], lm[0]);
            Extract(Some(lm), norm)[3 * i + k] == Coordinate(if d > 0.0 then DivideBy(c, d) else c, k)
  {
    FlattenAt(Normalized(lm, norm), i, k);
  }

  /** Output point i is the normalised landmark i. */
  lemma ExtractPointAt(lm: seq<Point>, norm: Point -> real, i: nat)
    requires |lm| == LandmarkCount && i < LandmarkCount
    ensures PointAt(Extract(Some(lm), norm), i) == Normalized(lm, norm)[i]
  {
    ExtractLayout(lm, norm, i, 0);
    ExtractLayout(lm, norm, i, 1);
    ExtractLayout(lm, norm, i, 2);
  }

  /** Normalisation sends the wrist to the origin. */
  lemma NormalizedWrist(lm: seq<Point>, norm: Point -> real)
    requires |lm| > 0
    ensures Normalized(lm, norm)[0] == Origin
  {
    var c := Centered(lm);
    assert c[0] == Origin;
    var d := MaxDistance(lm, norm);
    if d > 0.0 {
      DivideOrigin(d);
      assert Scaled(c, d)[0] == DivideBy(Origin, d);
    }
  }

  /** The wrist is always mapped to the origin: the first three features are zero. */
  lemma WristIsOrigin(lm: seq<Point>, norm: Point -> real)
    requires |lm| == LandmarkCount
    ensures Extract(Some(lm), norm)[..3] == [0.0, 0.0, 0.0]
  {
    var f := Extract(Some(lm), norm);
    ExtractPointAt(lm, norm, 0);
    NormalizedWrist(lm, norm);
    assert PointAt(f, 0) == Origin;
    assert f[..3] == [f[0], f[1], f[2]];
  }

  // ---------------------------------------------------------------------
  // Division by the largest distance

  lemma DivideByIsTimes(p: Point, d: real)
    requires d != 0.0
    ensures DivideBy(p, d) == Times(1.0 / d, p)
  {
  }

  lemma NormDivideBy(norm: Point -> real, p: Point, d: real)
    requires IsNorm(norm) && d > 0.0
    ensures norm(DivideBy(p, d)) == norm(p) / d
  {
    DivideByIsTimes(p, d);
    assert norm(Times(1.0 / d, p)) == (1.0 / d) * norm(p);
  }

  lemma DivideOrigin(d: real)
    requires d != 0.0
    ensures DivideBy(Origin, d) == Origin
  {
  }

  // ---------------------------------------------------------------------
  // Degenerate and non-degenerate hands

  /** The largest wrist distance is zero exactly when every landmark sits on the wrist. */
  lemma MaxDistanceZeroIff(lm: seq<Point>, norm: Point -> real)
    requires IsNorm(norm) && |lm| > 0
    ensures MaxDistance(lm, norm) >= 0.0
    ensures MaxDistance(lm, norm) == 0.0 <==> forall i :: 0 <= i < |lm| ==> lm[i] == lm[0]
  {
    var c := Centered(lm);
    var ds := Distances(c, norm);
    MaxIsLargest(ds);
    assert ds[0] == norm(c[0]) >= 0.0;
    forall i | 0 <= i < |lm| ensures (ds[i] == 0.0 <==> lm[i] == lm[0]) {
      assert c[i] == Origin <==> lm[i] == lm[0];
    }
  }

  /** A hand whose landmarks all coincide with the wrist yields the zero vector. */
  lemma DegenerateHandIsZero(lm: seq<Point>, norm: Point -> real)
    requires IsNorm(norm) && |lm| == LandmarkCount
    requires forall i :: 0 <= i < |lm| ==> lm[i] == lm[0]
    ensures forall j :: 0 <= j < FeatureLength ==> Extract(Some(lm), norm)[j] == 0.0
  {
    MaxDistanceZeroIff(lm, norm);
    forall j | 0 <= j < FeatureLength ensures Extract(Some(lm), norm)[j] == 0.0 {
      ExtractLayout(lm, norm, j / 3, j % 3);
      assert 3 * (j / 3) + j % 3 == j;
    }
  }

  lemma QuotientAtMostOne(a: real, d: real)
    requires 0.0 <= a <= d && d > 0.0
    ensures a / d <= 1.0
    ensures a == d ==> a / d == 1.0
  {
  }

  /** The norm of output point `i`: its wrist distance divided by the largest one. */
  lemma OutputNorm(lm: seq<Point>, norm: Point -> real, i: nat)
    requires IsNorm(norm) && |lm| == LandmarkCount && i < LandmarkCount
    ensures var d := MaxDistance(lm, norm);
            var n := norm(PointAt(Extract(Some(lm), norm), i));
            && (d > 0.0 ==> n == norm(Minus(lm[i], lm[0])) / d)
            && (d <= 0.0 ==> n == 0.0)
  {
    var c := Centered(lm);
    var d := MaxDistance(lm, norm);
    ExtractPointAt(lm, norm, i);
    if d > 0.0 {
      assert Normalized(lm, norm)[i] == DivideBy(c[i], d);
      NormDivideBy(norm, c[i], d);
    } else {
      MaxDistanceZeroIff(lm, norm);
      assert Normalized(lm, norm)[i] == c[i] == Origin;
    }
  }

  /** Every output point lies in the unit ball, and when the hand is not degenerate
      the farthest landmark lands exactly on the unit sphere. */
  lemma UnitBounded(lm: seq<Point>, norm: Point -> real)
    requires IsNorm(norm) && |lm| == LandmarkCount
    ensures forall i :: 0 <= i < LandmarkCount ==> norm(PointAt(Extract(Some(lm), norm), i)) <= 1.0
    ensures MaxDistance(lm, norm) > 0.0 <==>
              exists i :: 0 <= i < LandmarkCount && norm(PointAt(Extract(Some(lm), norm), i)) == 1.0
  {
    var f := Extract(Some(lm), norm);
    var ds := Distances(Centered(lm), norm);
    var d := MaxDistance(lm, norm);
    MaxDistanceZeroIff(lm, norm);
    MaxIsLargest(ds);
    forall i | 0 <= i < LandmarkCount ensures norm(PointAt(f, i)) <= 1.0 {
      OutputNorm(lm, norm, i);
      if d > 0.0 {
        assert ds[i] == norm(Minus(lm[i], lm[0]));
        QuotientAtMostOne(ds[i], d);
      }
    }
    if d > 0.0 {
      var i :| 0 <= i < |ds| && ds[i] == d;
      OutputNorm(lm, norm, i);
      QuotientAtMostOne(ds[i], d);
      assert norm(PointAt(f, i)) == 1.0;
    } else {
      forall i | 0 <= i < LandmarkCount ensures norm(PointAt(f, i)) != 1.0 {
        OutputNorm(lm, norm, i);
      }
    }
  }

  // ---------------------------------------------------------------------
  // Invariances

  function Translate(lm: seq<Point>, offset: Point): (t: seq<Point>)
    ensures |t| == |lm|
  {
    seq(|lm|, i requires 0 <= i < |lm| => Plus(lm[i], offset))
  }

  /** Moving the whole hand by the same offset does not change the features. */
  lemma TranslationInvariant(lm: seq<Point>, offset: Point, norm: Point -> real)
    ensures Extract(Some(Translate(lm, offset)), norm) == Extract(Some(lm), norm)
  {
    if |lm| == LandmarkCount {
      assert Centered(Translate(lm, offset)) == Centered(lm);
    }
  }

  /** The maximum of positive multiples is that multiple of the maximum. */
  lemma {:induction false} MaxTimes(s: seq<real>, t: seq<real>, c: real)
    requires |s| > 0 && |t| == |s| && c > 0.0
    requires forall j :: 0 <= j < |s| ==> t[j] == c * s[j]
    ensures Max(t) == c * Max(s)
    decreases |s|
  {
    if |s| > 1 {
      MaxTimes(s[1..], t[1..], c);
      MaxStep(c, s[0], Max(s[1..]));
    }
  }

  /** One step of `Max` commutes with a positive factor. */
  lemma MaxStep(c: real, a: real, m: real)
    requires c > 0.0
    ensures (if c * a > c * m then c * a else c * m) == c * (if a > m then a else m)
  {
    ScaleStrict(c, m, a);
  }

  lemma ScaleStrict(c: real, a: real, b: real)
    requires c > 0.0
    ensures c * a < c * b <==> a < b
  {
    if a < b {
      ScaleMonotone(c, a, b);
    } else {
      ScaleMonotone(c, b, a);
    }
  }

  lemma ScaleMonotone(c: real, a: real, b: real)
    requires c > 0.0 && a <= b
    ensures c * a <= c * b
  {
  }

  lemma QuotientCancel(x: real, c: real, d: real)
    requires c > 0.0 && d > 0.0
    ensures (c * x) / (c * d) == x / d
  {
    assert (c * x) / (c * d) * (c * d) == c * x;
    assert (x / d) * (c * d) == c * x;
  }

  lemma DivideTimes(p: Point, c: real, d: real)
    requires c > 0.0 && d > 0.0
    ensures DivideBy(Times(c, p), c * d) == DivideBy(p, d)
  {
    QuotientCancel(p.x, c, d);
    QuotientCancel(p.y, c, d);
    QuotientCancel(p.z, c, d);
  }

  /** The largest wrist distance of a hand whose every distance is `c` times larger. */
  lemma MaxDistanceScaled(lm: seq<Point>, lm': seq<Point>, c: real, norm: Point -> real)
    requires c > 0.0 && |lm| == |lm'| > 0
    requires forall i :: 0 <= i < |lm| ==> norm(Minus(lm'[i], lm'[0])) == c * norm(Minus(lm[i], lm[0]))
    ensures MaxDistance(lm', norm) == c * MaxDistance(lm, norm)
  {
    var ds0, ds1 := Distances(Centered(lm), norm), Distances(Centered(lm'), norm);
    assert forall j :: 0 <= j < |ds0| ==> ds1[j] == c * ds0[j];
    MaxTimes(ds0, ds1, c);
  }

  /** A stretched hand's normalised landmarks, when all landmarks sit on the wrist. */
  lemma NormalizedScaledDegenerate(lm: seq<Point>, lm': seq<Point>, c: real, norm: Point -> real)
    requires IsNorm(norm) && c > 0.0
    requires |lm| == |lm'| > 0
    requires forall i :: 0 <= i < |lm| ==> Minus(lm'[i], lm'[0]) == Times(c, Minus(lm[i], lm[0]))
    requires MaxDistance(lm, norm) == 0.0 && MaxDistance(lm', norm) == 0.0
    ensures Normalized(lm', norm) == Normalized(lm, norm)
  {
    MaxDistanceZeroIff(lm, norm);
    MaxDistanceZeroIff(lm', norm);
    var n0, n1 := Normalized(lm, norm), Normalized(lm', norm);
    forall i | 0 <= i < |lm| ensures n1[i] == n0[i] {
      assert lm[i] == lm[0] && lm'[i] == lm'[0];
    }
  }

  /** A stretched hand's normalised landmarks, when the largest distance is positive. */
  lemma NormalizedScaledProper(lm: seq<Point>, lm': seq<Point>, c: real, norm: Point -> real)
    requires c > 0.0
    requires |lm| == |lm'| > 0
    requires forall i :: 0 <= i < |lm| ==> Minus(lm'[i], lm'[0]) == Times(c, Minus(lm[i], lm[0]))
    requires MaxDistance(lm, norm) > 0.0 && MaxDistance(lm', norm) == c * MaxDistance(lm, norm)
    ensures Normalized(lm', norm) == Normalized(lm, norm)
  {
    var d := MaxDistance(lm, norm);
    var c0, c1 := Centered(lm), Centered(lm');
    var n0, n1 := Normalized(lm, norm), Normalized(lm', norm);
    assert n0 == Scaled(c0, d);
    assert c * d > 0.0 by { ScaleStrict(c, 0.0, d); }
    assert MaxDistance(lm', norm) == c * d > 0.0;
    assert n1 == Scaled(c1, MaxDistance(lm', norm));
    assert n1 == Scaled(c1, c * d);
    forall i | 0 <= i < |lm| ensures n1[i] == n0[i] {
      assert c1[i] == Times(c, c0[i]);
      DivideTimes(c0[i], c, d);
      assert n1[i] == DivideBy(c1[i], c * d);
    }
  }

  /** Stretching every wrist-relative offset by the same positive factor (the hand seen
      nearer or farther, wherever it is) does not change the features. */
  lemma ScaleInvariant(lm: seq<Point>, lm': seq<Point>, c: real, norm: Point -> real)
    requires IsNorm(norm) && c > 0.0
    requires |lm| == |lm'| == LandmarkCount
    requires forall i :: 0 <= i < |lm| ==> Minus(lm'[i], lm'[0]) == Times(c, Minus(lm[i], lm[0]))
    ensures Extract(Some(lm'), norm) == Extract(Some(lm), norm)
  {
    forall i | 0 <= i < |lm| ensures norm(Minus(lm'[i], lm'[0])) == c * norm(Minus(lm[i], lm[0])) {
      assert norm(Times(c, Minus(lm[i], lm[0]))) == c * norm(Minus(lm[i], lm[0]));
    }
    MaxDistanceScaled(lm, lm', c, norm);
    MaxDistanceZeroIff(lm, norm);
    if MaxDistance(lm, norm) > 0.0 {
      NormalizedScaledProper(lm, lm', c, norm);
    } else {
      NormalizedScaledDegenerate(lm, lm', c, norm);
    }
  }
}
