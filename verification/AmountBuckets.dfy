/** The amount index that stands in for a full scan: candidates are filed by a bucket number and
    a transaction looks only at its own bucket and the two beside it. */
module AmountBuckets {
  import opened Scoring
  import opened Wrappers
  import opened BucketIndex

  function Bucket(pct: real, amount: real): int {
    var width := Max(amount * pct, 1.0);
    (amount / width).Floor
  }

  /** Above 1/pct every amount shares one bucket; below, the bucket is the whole part. */
  lemma BucketValue(pct: real, a: real)
    requires a > 0.0
    ensures a * pct >= 1.0 ==> pct > 0.0 && Bucket(pct, a) == (1.0 / pct).Floor && a >= 1.0 / pct
    ensures a * pct < 1.0 ==> Bucket(pct, a) == a.Floor
    ensures a * pct < 1.0 && pct > 0.0 ==> a < 1.0 / pct
  {
    if pct > 0.0 {
      var q := 1.0 / pct;
      assert q * pct == 1.0;
      Scale(a, q, pct);
      if a * pct >= 1.0 {
        assert q * (a * pct) == a;
        assert a / (a * pct) == q;
      }
    } else {
      Scale(pct, 0.0, a);
    }
  }

  /** The guard under which three buckets are enough for amounts up to a share `r` apart: the number of the
      last bucket is at most 1, or at most 1/r. */
  predicate Covers(pct: real, r: real)
    requires r > 0.0
  {
    pct > 0.0 && CoversUpTo(1.0 / pct, 1.0 / r)
  }

  predicate CoversUpTo(last: real, bound: real) { last.Floor <= 1 || last.Floor as real <= bound }

  /** An amount at most a share `r` below `b` is at least one less than any `n` up to `b` with r * n <= 1. */
  lemma NotFarBelow(r: real, a: real, b: real, n: real)
    requires 0.0 < a <= b && Near(r, a, b) && 1.0 <= n <= b && 0.0 <= r && n * r <= 1.0
    ensures a >= n - 1.0
  {
    assert a >= b - r * b;
    assert r <= 1.0 by { Scale(1.0, n, 1.0); assert n * r >= r; }
    assert (1.0 - r) * (b - n) >= 0.0;
    assert b - r * b >= n - n * r;
  }

  /** A whole number `n` up to the last bucket and a smaller amount near it. */
  lemma NotTwoBelow(r: real, a: real, b: real, n: int, last: real)
    requires r > 0.0 && CoversUpTo(last, 1.0 / r) && n <= last.Floor && n as real <= b && 0.0 < a <= b && Near(r, a, b)
    ensures a.Floor >= n - 1
  {
    if n > 1 {
      InverseAbove(r, n as real);
      NotFarBelow(r, a, b, n as real);
    }
  }

  lemma NearAmountsAreAdjacent(pct: real, r: real, a: real, b: real)
    requires r > 0.0 && Covers(pct, r) && 0.0 < a <= b && Near(r, a, b)
    ensures Adjacent(Bucket(pct, a), Bucket(pct, b))
  {
    BucketValue(pct, a);
    BucketValue(pct, b);
    var q := 1.0 / pct;
    if a * pct >= 1.0 {
      assert b * pct >= a * pct;
    } else {
      NotTwoBelow(r, a, b, Bucket(pct, b), q);
    }
  }

  ghost predicate AlwaysAdjacent(pct: real, r: real) {
    forall a, b :: a > 0.0 && b > 0.0 && Near(r, a, b) ==> Adjacent(Bucket(pct, a), Bucket(pct, b))
  }

  lemma BelowOne(pct: real, a: real, x: real)
    requires 0.0 < a < x && x * pct <= 1.0
    ensures a * pct < 1.0
  {
    if pct > 0.0 {
      Scale(a, x, pct);
      var u, v := a * pct, x * pct;
      assert u < v && v <= 1.0;
    } else {
      assert a * pct <= 0.0 by { assert a * (0.0 - pct) >= 0.0; }
    }
  }

  /** An amount more than one below `x` that is still at most a share `r` away. */
  lemma PickBelow(r: real, x: real) returns (a: real)
    requires x >= 2.0 && r * x > 1.0
    ensures 0.0 < a < x - 1.0 && Near(r, a, x)
  {
    var reach := r * x;
    var low := Max(x - reach, 0.0);
    a := (low + (x - 1.0)) / 2.0;
    assert Max(a, x) == x && Abs(a - x) == x - a;
  }

  lemma WholeBucket(pct: real, n: nat)
    requires n >= 1 && n as real * pct <= 1.0
    ensures Bucket(pct, n as real) == n
  {
    var x := n as real;
    BucketValue(pct, x);
    if x * pct >= 1.0 {
      var q := 1.0 / pct;
      assert q * pct == x * pct;
      assert (q - x) * pct == 0.0;
      assert q == x;
    }
  }

  /** An amount within reach of `n` that is filed two buckets lower. */
  lemma FarApart(pct: real, r: real, n: nat) returns (a: real)
    requires n >= 2 && TooFew(pct, r, n as real)
    ensures 0.0 < a && Near(r, a, n as real) && !Adjacent(Bucket(pct, a), Bucket(pct, n as real))
  {
    a := PickBelow(r, n as real);
    WholeBucket(pct, n);
    BelowOne(pct, a, n as real);
    BucketValue(pct, a);
    assert a.Floor < n - 1;
  }

  /** The three probed buckets cover every amount up to a share `r` apart, for every pair of amounts, exactly
      when the guard holds. */
  lemma SharesCoverExactly(pct: real, r: real)
    requires r > 0.0
    ensures AlwaysAdjacent(pct, r) <==> Covers(pct, r)
  {
    if Covers(pct, r) {
      forall a, b | a > 0.0 && b > 0.0 && Near(r, a, b) ensures Adjacent(Bucket(pct, a), Bucket(pct, b)) {
        if a <= b {
          NearAmountsAreAdjacent(pct, r, a, b);
        } else {
          NearAmountsAreAdjacent(pct, r, b, a);
        }
      }
    } else {
      var n, x := TooMany(pct, r);
      var a := FarApart(pct, r, n);
    }
  }

  /** A whole number `x` like this shows that three buckets are too few. */
  predicate TooFew(pct: real, r: real, x: real) { x >= 2.0 && r * x > 1.0 && x * pct <= 1.0 }

  lemma InverseAbove(pct: real, x: real)
    requires pct > 0.0 && x <= 1.0 / pct
    ensures x * pct <= 1.0
  {
    var q := 1.0 / pct;
    assert q * pct == 1.0;
    Scale(q, x, pct);
  }

  lemma InverseBelow(r: real, x: real)
    requires r > 0.0 && x > 1.0 / r
    ensures r * x > 1.0
  {
    var q := 1.0 / r;
    assert q * r == 1.0;
    Scale(q, x, r);
    var u, v := q * r, x * r;
    assert u < v && r * x == v;
  }

  lemma NotPositive(pct: real, x: real)
    requires pct <= 0.0 && x >= 0.0
    ensures x * pct <= 0.0
  {
    assert x * (0.0 - pct) >= 0.0;
  }

  lemma WholeAbove(q: real) returns (n: nat)
    ensures n >= 2 && n as real > q
  {
    n := if q < 0.0 then 2 else q.Floor + 2;
  }

  lemma TooManyWide(pct: real, r: real, x: real)
    requires pct > 0.0 && r > 0.0 && 2.0 <= x <= 1.0 / pct && x > 1.0 / r
    ensures TooFew(pct, r, x)
  {
    InverseAbove(pct, x);
    InverseBelow(r, x);
  }

  lemma TooManyFlat(pct: real, r: real, x: real)
    requires pct <= 0.0 && r > 0.0 && x >= 2.0 && x > 1.0 / r
    ensures TooFew(pct, r, x)
  {
    InverseBelow(r, x);
    NotPositive(pct, x);
  }

  lemma LastIsTooMany(q: real, bound: real) returns (n: nat, x: real)
    requires !CoversUpTo(q, bound)
    ensures x == n as real && 2.0 <= x <= q && x > bound
  {
    n := q.Floor;
    x := n as real;
  }

  lemma TooMany(pct: real, r: real) returns (n: nat, x: real)
    requires r > 0.0 && !Covers(pct, r)
    ensures n >= 2 && x == n as real && TooFew(pct, r, x)
  {
    if pct > 0.0 {
      n, x := LastIsTooMany(1.0 / pct, 1.0 / r);
      TooManyWide(pct, r, x);
    } else {
      n := WholeAbove(1.0 / r);
      x := n as real;
      TooManyFlat(pct, r, x);
    }
  }

  lemma BelowSix(q: real)
    ensures q < 6.0 <==> CoversUpTo(q, 5.0)
  {
    assert q < 6.0 <==> q.Floor <= 5;
  }

  /** For the 20% of the gate the guard is a width above one sixth. */
  lemma BucketsCoverExactly(pct: real)
    ensures AlwaysAdjacent(pct, 0.20) <==> pct > 1.0 / 6.0
  {
    SharesCoverExactly(pct, 0.20);
    assert 1.0 / 0.20 == 5.0;
    if pct > 0.0 {
      var q := 1.0 / pct;
      assert q * pct == 1.0;
      Scale(q, 6.0, pct);
      BelowSix(q);
    }
  }

  // ----- Filing candidates and looking them up

  function BucketOf(pct: real, c: Candidate): Option<int> {
    if c.amount == 0.0 then None else Some(Bucket(pct, Abs(c.amount)))
  }

  function Buckets(pct: real, items: seq<Candidate>): (r: seq<Option<int>>)
    ensures |r| == |items|
    ensures forall i :: 0 <= i < |items| ==> r[i] == BucketOf(pct, items[i])
  {
    seq(|items|, i requires 0 <= i < |items| => BucketOf(pct, items[i]))
  }

  /** The candidates a transaction of this amount gets to see. */
  function Reach(pct: real, items: seq<Candidate>, amount: real): seq<nat> {
    if amount == 0.0 then [] else Probe(Buckets(pct, items), Bucket(pct, amount))
  }

  lemma ReachIsExact(pct: real, items: seq<Candidate>, amount: real)
    ensures forall i :: i in Reach(pct, items, amount) <==>
              amount != 0.0 && 0 <= i < |items| && items[i].amount != 0.0 && Adjacent(Bucket(pct, Abs(items[i].amount)), Bucket(pct, amount))
    ensures NoRepeats(Reach(pct, items, amount)) && Within(Reach(pct, items, amount), |items|)
  {
    ProbeIsExact(Buckets(pct, items), Bucket(pct, amount));
    var r := Reach(pct, items, amount);
    forall i | 0 <= i < |r| ensures r[i] < |items| {
      assert r[i] in r;
    }
  }

  /** The index loses nothing a full scan would accept, for candidates in the transaction's currency. */
  lemma IndexAgreesWithScan(cfg: Config, w: World, tx: Tx, items: seq<Candidate>, kind: Kind, i: nat)
    requires i < |items| && !IsFx(w, tx, items[i])
    requires Covers(cfg.bucketPct, GateShare(cfg.amountToleranceNative))
    requires Accepted(cfg, w, tx, items[i], kind)
    ensures i in Reach(cfg.bucketPct, items, Abs(tx.amount))
  {
    AmountGate(cfg, w, tx, items[i], kind);
    SharesCoverExactly(cfg.bucketPct, GateShare(cfg.amountToleranceNative));
    ReachIsExact(cfg.bucketPct, items, Abs(tx.amount));
  }

  /** A world with one rate, in which every text is alike and every date the same. */
  const FlatWorld := World((s: string) => s, (s: string) => Some(0), (a: string, b: string) => 1.0, true, (c: string, d: string) => Some(3.0))
  const SmallTx := Tx("t", -1.0, "CHF", "d", "", "", "r", "", "", "")
  const EuroInvoice := Candidate("c", "", 3.0, "EUR", "d", "", "", "p", "r", "", "", "", "", "", "", "")

  lemma EuroInvoiceIsAccepted()
    ensures IsFx(FlatWorld, SmallTx, EuroInvoice) && Accepted(Defaults, FlatWorld, SmallTx, EuroInvoice, Invoice)
  {
    assert ComparedAmount(FlatWorld, SmallTx, EuroInvoice) == 1.0;
    var d, wt := Components(Defaults, FlatWorld, SmallTx, EuroInvoice, Invoice), WeightsFor(Defaults, FlatWorld, SmallTx, EuroInvoice, Invoice);
    assert d == Details(0.95, 1.0, 1.0, 1.0, 0.7);
    assert Weighted(wt, d) >= 0.4;
    Round3IsMonotone(0.4, Weighted(wt, d));
    assert Round3(0.4) == 0.4 && Round3(0.95) == 0.95;
  }

  /** Across currencies the raw amounts are filed, so an accepted candidate can be out of reach. */
  lemma FxCandidateCanBeMissed()
    ensures exists w, tx, c ::
              && IsFx(w, tx, c) && Accepted(Defaults, w, tx, c, Invoice)
              && 0 !in Reach(Defaults.bucketPct, [c], Abs(tx.amount))
  {
    EuroInvoiceIsAccepted();
    assert Bucket(0.20, 1.0) == 1 && Bucket(0.20, 3.0) == 3;
    ReachIsExact(0.20, [EuroInvoice], 1.0);
    assert 0 !in Reach(Defaults.bucketPct, [EuroInvoice], Abs(SmallTx.amount));
  }
}
