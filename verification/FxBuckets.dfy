/** The amount index across currencies: candidates are filed by their raw amounts but compared after conversion.
    For a rate `q` a converted amount `y` stands for the raw amount `q * y`. */
module FxBuckets {
  import opened Scoring
  import opened Wrappers
  import opened BucketIndex
  import opened AmountBuckets

  /** Every amount near a converted one is filed beside the raw one. */
  ghost predicate AlwaysAdjacentAt(pct: real, r: real, q: real) {
    forall t, y :: t > 0.0 && y > 0.0 && Near(r, t, y) ==> Adjacent(Bucket(pct, t), Bucket(pct, q * y))
  }

  // ----- The guard

  predicate UpTo(r: real, q: real, x: real) { q * (x - 1.0) <= x - r * x }

  predicate DownTo(r: real, q: real, x: real) { x - 1.0 <= q * (x - r * x) }

  /** In terms of the number of the last bucket: at most 1, or neither direction of the rate is too steep. */
  predicate RateCovers(pct: real, r: real, q: real) { pct > 0.0 && RateCoversUpTo(1.0 / pct, r, q) }

  predicate RateCoversUpTo(last: real, r: real, q: real) {
    last.Floor <= 1 || (UpTo(r, q, last.Floor as real) && DownTo(r, q, last.Floor as real))
  }

  // ----- Enough

  lemma Share(r: real, t: real, y: real)
    requires t > 0.0 && y > 0.0 && r >= 0.0 && Near(r, t, y)
    ensures t >= y - r * y && y >= t - r * t
  {
    assert r * y >= 0.0 && r * t >= 0.0;
  }

  lemma ShareBelowOne(r: real, q: real, x: real)
    requires q > 0.0 && x >= 2.0 && UpTo(r, q, x)
    ensures r < 1.0
  {
    var a, b := q * (x - 1.0), r * x;
    assert a > 0.0 by { Scale(0.0, x - 1.0, q); }
    assert a <= x - b;
    assert b < 1.0 * x;
    Scale(r, 1.0, x);
  }

  /** The guard at the last bucket holds at every lower one. */
  lemma LowerUp(r: real, q: real, l: real, x: real)
    requires q > 0.0 && r < 1.0 && 1.0 <= x <= l && UpTo(r, q, l)
    ensures UpTo(r, q, x)
  {
    var a, b := q * (x - 1.0), x - r * x;
    assert l * a == q * (x * l - l);
    assert x * (q * (l - 1.0)) == q * (x * l - x);
    assert q * (x * l - l) <= q * (x * l - x) by { assert q * (l - x) >= 0.0; }
    Times(x, q * (l - 1.0), l - r * l);
    assert x * (l - r * l) == l * b;
    assert l * a <= l * b;
    if a > b { Scale(b, a, l); }
  }

  lemma Times(x: real, a: real, b: real)
    requires x >= 0.0 && a <= b
    ensures x * a <= x * b
  {
    assert x * (b - a) >= 0.0;
  }

  lemma LowerDown(r: real, q: real, l: real, x: real)
    requires q > 0.0 && r < 1.0 && 1.0 <= x <= l && DownTo(r, q, l)
    ensures DownTo(r, q, x)
  {
    var a, b := x - 1.0, q * (x - r * x);
    assert l * a == x * l - l;
    assert x * (l - 1.0) == x * l - x;
    Times(x, l - 1.0, q * (l - r * l));
    assert x * (q * (l - r * l)) == l * b;
    assert l * a <= l * b;
    if a > b { Scale(b, a, l); }
  }

  lemma UpBound(r: real, q: real, t: real, y: real, x: real)
    requires q > 0.0 && r < 1.0 && t >= y - r * y && q * y >= x && UpTo(r, q, x)
    ensures t >= x - 1.0
  {
    var z := q * y;
    Times(q, y - r * y, t);
    assert q * (y - r * y) == z - r * z;
    Times(1.0 - r, x, z);
    assert (1.0 - r) * x == x - r * x && (1.0 - r) * z == z - r * z;
    var low, mid, high, top := q * (x - 1.0), x - r * x, z - r * z, q * t;
    assert low <= mid <= high <= top;
    Scale(t, x - 1.0, q);
    var u, v := t * q, (x - 1.0) * q;
    assert u == top && v == low;
    assert !(u < v);
  }

  lemma DownBound(r: real, q: real, t: real, y: real, x: real)
    requires q > 0.0 && r < 1.0 && y >= t - r * t && t >= x && DownTo(r, q, x)
    ensures q * y >= x - 1.0
  {
    Times(1.0 - r, x, t);
    assert (1.0 - r) * x == x - r * x && (1.0 - r) * t == t - r * t;
    Times(q, x - r * x, y);
  }

  /** A bucket number is within the amount and within the last bucket. */
  lemma BucketWithin(pct: real, v: real, n: int, x: real)
    requires pct > 0.0 && v > 0.0 && n == Bucket(pct, v) && x == n as real
    ensures 0 <= n <= (1.0 / pct).Floor && x <= v && x <= (1.0 / pct).Floor as real
  {
    BucketValue(pct, v);
    assert 1.0 / pct > 0.0;
  }

  /** An amount of at least `x - 1`, with `x` within the last bucket, is filed at `x - 1` or above. */
  lemma BucketAtLeast(pct: real, v: real, n: int, x: real)
    requires pct > 0.0 && v > 0.0 && x == n as real && v >= x - 1.0 && n <= (1.0 / pct).Floor
    ensures Bucket(pct, v) >= n - 1
  {
    BucketValue(pct, v);
  }

  lemma CoversOneSide(pct: real, r: real, q: real, t: real, y: real)
    requires RateCovers(pct, r, q) && q > 0.0 && r >= 0.0 && t > 0.0 && y > 0.0 && Near(r, t, y) && q * y > 0.0
    ensures Bucket(pct, t) >= Bucket(pct, q * y) - 1
  {
    var n := Bucket(pct, q * y);
    var x, l := n as real, (1.0 / pct).Floor as real;
    BucketWithin(pct, q * y, n, x);
    if n >= 2 {
      Share(r, t, y);
      ShareBelowOne(r, q, l);
      LowerUp(r, q, l, x);
      UpBound(r, q, t, y, x);
      BucketAtLeast(pct, t, n, x);
    } else {
      BucketWithin(pct, t, Bucket(pct, t), Bucket(pct, t) as real);
    }
  }

  lemma CoversOtherSide(pct: real, r: real, q: real, t: real, y: real)
    requires RateCovers(pct, r, q) && q > 0.0 && r >= 0.0 && t > 0.0 && y > 0.0 && Near(r, t, y) && q * y > 0.0
    ensures Bucket(pct, q * y) >= Bucket(pct, t) - 1
  {
    var n := Bucket(pct, t);
    var x, l := n as real, (1.0 / pct).Floor as real;
    BucketWithin(pct, t, n, x);
    if n >= 2 {
      Share(r, t, y);
      ShareBelowOne(r, q, l);
      LowerDown(r, q, l, x);
      DownBound(r, q, t, y, x);
      BucketAtLeast(pct, q * y, n, x);
    } else {
      BucketWithin(pct, q * y, Bucket(pct, q * y), Bucket(pct, q * y) as real);
    }
  }

  lemma RateCoversSuffices(pct: real, r: real, q: real)
    requires RateCovers(pct, r, q) && q > 0.0 && r >= 0.0
    ensures AlwaysAdjacentAt(pct, r, q)
  {
    forall t, y | t > 0.0 && y > 0.0 && Near(r, t, y) ensures Adjacent(Bucket(pct, t), Bucket(pct, q * y)) {
      assert q * y > 0.0;
      CoversOneSide(pct, r, q, t, y);
      CoversOtherSide(pct, r, q, t, y);
    }
  }

  // ----- Necessary

  /** Amounts that show the first direction to be too steep: `q * y` is the whole number `x`. */
  lemma TooSteepUp(r: real, q: real, x: real) returns (t: real, y: real)
    requires q > 0.0 && r >= 0.0 && x >= 2.0 && !UpTo(r, q, x)
    ensures 0.0 < t < x - 1.0 && y > 0.0 && q * y == x && Near(r, t, y)
  {
    y := x / q;
    assert q * y == x;
    assert y > 0.0;
    if y < x - 1.0 {
      t := y;
      assert r * y >= 0.0;
    } else {
      LowEnough(r, q, x, y);
      var low := Max(y - r * y, 0.0);
      t := (low + (x - 1.0)) / 2.0;
      assert Max(t, y) == y && Abs(t - y) == y - t;
    }
  }

  lemma LowEnough(r: real, q: real, x: real, y: real)
    requires q > 0.0 && q * y == x && !UpTo(r, q, x)
    ensures y - r * y < x - 1.0
  {
    var a, b := y - r * y, x - 1.0;
    assert q * a == x - r * x;
    var u, v := a * q, b * q;
    assert u == x - r * x && v == q * (x - 1.0);
    assert u < v;
    Scale(a, b, q);
  }

  /** Amounts that show the other direction to be too steep: `t` is the whole number `x`. */
  lemma TooSteepDown(r: real, q: real, x: real) returns (y: real)
    requires q > 0.0 && r >= 0.0 && x >= 2.0 && !DownTo(r, q, x)
    ensures y > 0.0 && 0.0 < q * y < x - 1.0 && Near(r, x, y)
  {
    var z := (x - 1.0) / q;
    assert q * z == x - 1.0;
    assert z > 0.0;
    if x < z {
      y := x;
      assert r * x >= 0.0;
    } else {
      LowEnoughDown(r, q, x, z);
      var low := Max(x - r * x, 0.0);
      y := (low + z) / 2.0;
      assert Max(x, y) == x && Abs(x - y) == x - y;
    }
    Scale(y, z, q);
    Scale(0.0, y, q);
    var u, v := y * q, z * q;
    assert u < v && u == q * y && v == x - 1.0;
  }

  lemma LowEnoughDown(r: real, q: real, x: real, z: real)
    requires q > 0.0 && q * z == x - 1.0 && !DownTo(r, q, x)
    ensures x - r * x < z
  {
    var a := x - r * x;
    var u, v := a * q, z * q;
    assert u == q * (x - r * x) && v == x - 1.0;
    assert u < v;
    Scale(a, z, q);
  }

  /** Less than `x - 1` is filed below `n - 1`, for a whole number `n` not above the last bucket. */
  lemma FiledBelow(pct: real, v: real, n: nat, x: real)
    requires n >= 2 && x == n as real && x * pct <= 1.0 && 0.0 < v < x - 1.0
    ensures Bucket(pct, v) < n - 1
  {
    BelowOne(pct, v, x);
    BucketValue(pct, v);
  }

  lemma SteepFails(pct: real, r: real, q: real, n: nat, x: real)
    requires q > 0.0 && r >= 0.0 && n >= 2 && x == n as real && x * pct <= 1.0 && !(UpTo(r, q, x) && DownTo(r, q, x))
    ensures !AlwaysAdjacentAt(pct, r, q)
  {
    WholeBucket(pct, n);
    if !UpTo(r, q, x) {
      var t, y := TooSteepUp(r, q, x);
      FiledBelow(pct, t, n, x);
      assert !Adjacent(Bucket(pct, t), Bucket(pct, q * y));
    } else {
      var y := TooSteepDown(r, q, x);
      FiledBelow(pct, q * y, n, x);
      assert !Adjacent(Bucket(pct, x), Bucket(pct, q * y));
    }
  }

  lemma LastFloor(last: real, r: real, q: real) returns (n: nat, x: real)
    requires !RateCoversUpTo(last, r, q)
    ensures n >= 2 && x == n as real && x <= last && !(UpTo(r, q, x) && DownTo(r, q, x))
  {
    n := last.Floor;
    x := n as real;
  }

  /** With no bucket width some whole number is steep for every rate. */
  lemma SteepSomewhere(r: real, q: real, x: real)
    requires q > 0.0 && r > 0.0 && x >= 2.0 && x > 1.0 / r
    ensures !(UpTo(r, q, x) && DownTo(r, q, x))
  {
    InverseBelow(r, x);
    var m := x - 1.0;
    if UpTo(r, q, x) && DownTo(r, q, x) {
      ShareBelowOne(r, q, x);
      var w := x - r * x;
      assert w < m;
      assert w > 0.0 by { Scale(r, 1.0, x); }
      if q >= 1.0 {
        Times(m, 1.0, q);
      } else {
        Times(w, q, 1.0);
      }
    }
  }

  /** For amounts up to a share `r` apart and a rate `q`, three buckets cover every amount exactly under the guard. */
  lemma RateCoversExactly(pct: real, r: real, q: real)
    requires q > 0.0 && r > 0.0
    ensures AlwaysAdjacentAt(pct, r, q) <==> RateCovers(pct, r, q)
  {
    if RateCovers(pct, r, q) {
      RateCoversSuffices(pct, r, q);
    } else if pct > 0.0 {
      var n, x := LastFloor(1.0 / pct, r, q);
      InverseAbove(pct, x);
      SteepFails(pct, r, q, n, x);
    } else {
      var n := WholeAbove(1.0 / r);
      SteepSomewhere(r, q, n as real);
      NotPositive(pct, n as real);
      SteepFails(pct, r, q, n, n as real);
    }
  }

  /** At the default width and the 20% of the gate, the index is complete for the rate 1 only. */
  lemma DefaultsCoverParityOnly(q: real)
    requires q > 0.0
    ensures AlwaysAdjacentAt(Defaults.bucketPct, GateShare(Defaults.amountToleranceFx), q) <==> q == 1.0
  {
    RateCoversExactly(0.20, 0.20, q);
    assert 1.0 / 0.20 == 5.0;
    assert RateCovers(0.20, 0.20, q) <==> UpTo(0.20, q, 5.0) && DownTo(0.20, q, 5.0);
  }

  // ----- The scorer

  /** The rate at which the scorer converts; 1 when none is usable. */
  function RateFor(w: World, tx: Tx, c: Candidate): (q: real)
    ensures q > 0.0
  {
    var rate := if IsFx(w, tx, c) && w.hasRates then UsableRate(w, w.normalize(c.currency), tx.date) else None;
    if rate.Some? then rate.value else 1.0
  }

  lemma FxScoreGate(a: real, b: real, tolerance: real)
    requires a >= 0.0 && b >= 0.0
    ensures Round3(AmountScore(a, b, tolerance, true)) >= 0.40 <==> a != 0.0 && b != 0.0 && Near(GateShare(tolerance), a, b)
  {
    if a != 0.0 && b != 0.0 {
      NearIsRatio(GateShare(tolerance), a, b);
    }
    assert Round3(0.0) == 0.0 && Round3(0.40) == 0.40 && Round3(0.55) == 0.55 && Round3(0.70) == 0.70 && Round3(0.85) == 0.85 && Round3(0.95) == 0.95;
  }

  /** For different currencies too the gate is nearness, after conversion. */
  lemma FxGate(cfg: Config, w: World, tx: Tx, c: Candidate, kind: Kind)
    requires IsFx(w, tx, c) && c.amount != 0.0
    ensures ScorePair(cfg, w, tx, c, kind).1.amount >= 0.40 <==>
            tx.amount != 0.0 && Near(GateShare(cfg.amountToleranceFx), Abs(tx.amount), Abs(c.amount) / RateFor(w, tx, c))
  {
    assert Abs(c.amount) / RateFor(w, tx, c) > 0.0;
    assert ComparedAmount(w, tx, c) == Abs(c.amount) / RateFor(w, tx, c);
    FxScoreGate(Abs(tx.amount), ComparedAmount(w, tx, c), cfg.amountToleranceFx);
  }

  /** Under the guard for its rate, a foreign candidate that a full scan would accept is reached through the index. */
  lemma FxIndexAgreesWithScan(cfg: Config, w: World, tx: Tx, items: seq<Candidate>, kind: Kind, i: nat)
    requires i < |items| && IsFx(w, tx, items[i]) && Accepted(cfg, w, tx, items[i], kind)
    requires RateCovers(cfg.bucketPct, GateShare(cfg.amountToleranceFx), RateFor(w, tx, items[i]))
    ensures i in Reach(cfg.bucketPct, items, Abs(tx.amount))
  {
    AcceptedIsNear(cfg, w, tx, items[i], kind);
    NearIsReached(cfg.bucketPct, GateShare(cfg.amountToleranceFx), RateFor(w, tx, items[i]), Abs(tx.amount), Abs(items[i].amount));
    ReachIsExact(cfg.bucketPct, items, Abs(tx.amount));
  }

  lemma AcceptedIsNear(cfg: Config, w: World, tx: Tx, c: Candidate, kind: Kind)
    requires IsFx(w, tx, c) && Accepted(cfg, w, tx, c, kind)
    ensures c.amount != 0.0 && tx.amount != 0.0
    ensures Near(GateShare(cfg.amountToleranceFx), Abs(tx.amount), Abs(c.amount) / RateFor(w, tx, c))
  {
    assert c.amount != 0.0;
    FxGate(cfg, w, tx, c, kind);
  }

  lemma NearIsReached(pct: real, r: real, q: real, t: real, amount: real)
    requires q > 0.0 && r >= 0.0 && t > 0.0 && amount > 0.0 && Near(r, t, amount / q) && RateCovers(pct, r, q)
    ensures Adjacent(Bucket(pct, t), Bucket(pct, amount))
  {
    Quotient(amount, q);
    AdjacentAt(pct, r, q, t, amount / q, amount);
  }

  lemma Quotient(amount: real, q: real)
    requires q > 0.0 && amount > 0.0
    ensures q * (amount / q) == amount && amount / q > 0.0
  {
  }

  lemma AdjacentAt(pct: real, r: real, q: real, t: real, y: real, amount: real)
    requires q > 0.0 && r >= 0.0 && t > 0.0 && y > 0.0 && amount > 0.0 && amount == q * y && Near(r, t, y) && RateCovers(pct, r, q)
    ensures Adjacent(Bucket(pct, t), Bucket(pct, amount))
  {
    CoversOneSide(pct, r, q, t, y);
    CoversOtherSide(pct, r, q, t, y);
  }
}
