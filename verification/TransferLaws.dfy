/** Which pairs of transactions are taken for a transfer, in terms of their fields, and what an indexed id has
    for a counterpart. */
module TransferLaws {
  import opened Scoring
  import opened Wrappers
  import opened TransferIndex
  import MatchingEngine

  // ----- The gates

  /** One takes money in and the other pays it out. */
  predicate Opposite(a: Tx, b: Tx) { (a.amount > 0.0 && b.amount < 0.0) || (a.amount < 0.0 && b.amount > 0.0) }

  /** The product form of the gate. */
  lemma OppositeIsNegativeProduct(a: Tx, b: Tx)
    ensures Opposite(a, b) <==> a.amount * b.amount < 0.0
  {
    if a.amount > 0.0 { Scale(b.amount, 0.0, a.amount); Scale(0.0, b.amount, a.amount); }
    if a.amount < 0.0 { Scale(b.amount, 0.0, -a.amount); Scale(0.0, b.amount, -a.amount); }
  }

  function Gap(x: int, y: int): nat { if x >= y then x - y else y - x }

  /** Known dates are at most the tolerated number of days apart. */
  predicate CloseDays(cfg: Config, w: World, a: Tx, b: Tx) {
    match (w.parseDate(a.date), w.parseDate(b.date))
    case (Some(x), Some(y)) => Gap(x, y) <= cfg.transferDateToleranceDays
    case _ => true
  }

  predicate SameCurrency(w: World, a: Tx, b: Tx) { w.normalize(a.currency) == w.normalize(b.currency) }

  predicate RateOf(w: World, currency: string, date: string, q: real) { w.rate(currency, date) == Some(q) && q > 0.0 }

  /** The two amounts as they are compared: as they are within one currency or without rates; otherwise the second
      converted at its rate on the first one's date, or failing that the first at its own rate. */
  ghost predicate ComparedAs(w: World, a: Tx, b: Tx, x: real, y: real) {
    if SameCurrency(w, a, b) || !w.hasRates then x == Abs(a.amount) && y == Abs(b.amount)
    else if exists q :: RateOf(w, w.normalize(b.currency), a.date, q) then
      exists q :: RateOf(w, w.normalize(b.currency), a.date, q) && x == Abs(a.amount) && y == Abs(b.amount) / q
    else exists q :: RateOf(w, w.normalize(a.currency), a.date, q) && x == Abs(a.amount) / q && y == Abs(b.amount)
  }

  lemma ComparedExactly(w: World, a: Tx, b: Tx, x: real, y: real)
    ensures Compared(w, a, b) == Some((x, y)) <==> ComparedAs(w, a, b, x, y)
  {
    var p, q := UsableRate(w, w.normalize(b.currency), a.date), UsableRate(w, w.normalize(a.currency), a.date);
    assert p.Some? ==> RateOf(w, w.normalize(b.currency), a.date, p.value);
    assert q.Some? ==> RateOf(w, w.normalize(a.currency), a.date, q.value);
  }

  // ----- The score

  /** The part for the days: full on the same day, falling to a tenth beyond three or when a date is unknown. */
  lemma DaySteps(days: nat)
    ensures var s := DayScore(days);
            && (s == 1.0 <==> days == 0) && (s == 0.85 <==> days == 1) && (s == 0.60 <==> days == 2) && (s == 0.40 <==> days == 3)
            && (s == 0.10 <==> days > 3)
  {
  }

  function DayPart(w: World, a: Tx, b: Tx): real {
    match (w.parseDate(a.date), w.parseDate(b.date))
    case (Some(x), Some(y)) => DayScore(Gap(x, y))
    case _ => 0.10
  }

  /** 40% amount, 30% days, 30% text; across currencies the amount part is lowered by a tenth. */
  function Composite(w: World, a: Tx, b: Tx, diff: real): real {
    0.40 * (if SameCurrency(w, a, b) then 1.0 - diff else 0.90 * (1.0 - diff)) + 0.30 * DayPart(w, a, b) + 0.30 * w.similarity(TxText(a), TxText(b))
  }

  function Tolerance(cfg: Config, w: World, a: Tx, b: Tx): real {
    if SameCurrency(w, a, b) then cfg.transferAmountTolerance else 0.05
  }

  /** The pair is a transfer at this score: opposite signs, different accounts, close days, comparable amounts
      whose relative difference is tolerated, and a composite of at least 0.70. */
  ghost predicate IsTransfer(cfg: Config, w: World, a: Tx, b: Tx, score: real) {
    && Opposite(a, b) && a.accountId != b.accountId && CloseDays(cfg, w, a, b)
    && (exists x, y :: ComparedAs(w, a, b, x, y) && x > 0.0 && y > 0.0 && AtDifference(cfg, w, a, b, Abs(x - y) / Max(x, y), score))
  }

  ghost predicate AtDifference(cfg: Config, w: World, a: Tx, b: Tx, diff: real, score: real) {
    diff <= Tolerance(cfg, w, a, b) && score == Composite(w, a, b, diff) && score >= 0.70
  }

  lemma ComparedArePositive(w: World, a: Tx, b: Tx)
    requires a.amount != 0.0 && b.amount != 0.0 && Compared(w, a, b).Some?
    ensures Compared(w, a, b).value.0 > 0.0 && Compared(w, a, b).value.1 > 0.0
  {
    var p, q := UsableRate(w, w.normalize(b.currency), a.date), UsableRate(w, w.normalize(a.currency), a.date);
    if p.Some? { PositiveQuotient(Abs(b.amount), p.value); }
    if q.Some? { PositiveQuotient(Abs(a.amount), q.value); }
  }

  lemma PositiveQuotient(x: real, q: real)
    requires x > 0.0 && q > 0.0
    ensures x / q > 0.0
  {
  }

  lemma DaysAgree(cfg: Config, w: World, a: Tx, b: Tx)
    ensures (DaysApart(w, a, b).Some? ==> DaysApart(w, a, b).value <= cfg.transferDateToleranceDays) <==> CloseDays(cfg, w, a, b)
    ensures DayScore(if DaysApart(w, a, b).Some? then DaysApart(w, a, b).value else 99) == DayPart(w, a, b)
  {
  }

  lemma TransferScoreExactly(cfg: Config, w: World, a: Tx, b: Tx, score: real)
    ensures TransferScore(cfg, w, a, b) == Some(score) <==> IsTransfer(cfg, w, a, b, score)
  {
    DaysAgree(cfg, w, a, b);
    if Compared(w, a, b).Some? {
      var (x, y) := Compared(w, a, b).value;
      ComparedExactly(w, a, b, x, y);
      if Opposite(a, b) {
        ComparedArePositive(w, a, b);
      }
    }
    if IsTransfer(cfg, w, a, b, score) {
      var x, y :| ComparedAs(w, a, b, x, y) && x > 0.0 && y > 0.0 && AtDifference(cfg, w, a, b, Abs(x - y) / Max(x, y), score);
      ComparedExactly(w, a, b, x, y);
    }
  }

  /** Scores lie between 0.70 and 1, and across currencies between 0.70 and 0.96. */
  lemma TransferScoreBounds(cfg: Config, w: World, a: Tx, b: Tx, score: real)
    requires IsTransfer(cfg, w, a, b, score) && w.similarity(TxText(a), TxText(b)) <= 1.0
    ensures 0.70 <= score <= if SameCurrency(w, a, b) then 1.0 else 0.96
  {
    var x, y :| ComparedAs(w, a, b, x, y) && x > 0.0 && y > 0.0 && AtDifference(cfg, w, a, b, Abs(x - y) / Max(x, y), score);
    NonnegativeQuotient(Abs(x - y), Max(x, y));
    CompositeBounds(w, a, b, Abs(x - y) / Max(x, y));
  }

  lemma NonnegativeQuotient(x: real, q: real)
    requires x >= 0.0 && q > 0.0
    ensures x / q >= 0.0
  {
  }

  lemma CompositeBounds(w: World, a: Tx, b: Tx, diff: real)
    requires diff >= 0.0 && w.similarity(TxText(a), TxText(b)) <= 1.0
    ensures Composite(w, a, b, diff) <= if SameCurrency(w, a, b) then 1.0 else 0.96
  {
    assert DayPart(w, a, b) <= 1.0;
  }

  // ----- The index

  /** A link of `txs[i]`: the counterpart is the other of two transactions that are a transfer, the earlier first. */
  ghost predicate GenuineLink(cfg: Config, w: World, txs: seq<Tx>, i: nat, link: Link) {
    && i < |txs| && link.other < |txs|
    && Opposite(txs[i], txs[link.other]) && txs[i].accountId != txs[link.other].accountId
    && (exists score :: Round3(score) == link.score &&
          ((i < link.other && IsTransfer(cfg, w, txs[i], txs[link.other], score)) ||
           (link.other < i && IsTransfer(cfg, w, txs[link.other], txs[i], score))))
  }

  /** Every indexed id is that of a transaction with a genuine counterpart: on another account, of opposite sign. */
  lemma IndexedHasCounterpart(cfg: Config, w: World, txs: seq<Tx>, id: string)
    requires id in MatchingEngine.TransfersOf(cfg, w, txs)
    ensures exists i: nat :: i < |txs| && txs[i].id == id && GenuineLink(cfg, w, txs, i, MatchingEngine.TransfersOf(cfg, w, txs)[id])
  {
    var ids, score := MatchingEngine.Ids(txs), MatchingEngine.PairScoresOf(cfg, w, txs);
    var link := MatchingEngine.TransfersOf(cfg, w, txs)[id];
    StoredScoreIsMaximum(ids, score, id);
    var a: nat, b: nat :| LinksTo(ids, score, id, link, a, b);
    TransferScoreExactly(cfg, w, txs[a], txs[b], score(a, b).value);
    if ids[a] == id && link.other == b {
      assert GenuineLink(cfg, w, txs, a, link);
    } else {
      assert GenuineLink(cfg, w, txs, b, link);
    }
  }

  /** And every transaction of a transfer is indexed, with a score at least as high after rounding, when both have
      ids and the list is not too long. */
  lemma TransfersAreIndexed(cfg: Config, w: World, txs: seq<Tx>, i: nat, j: nat, score: real)
    requires i < j < |txs| <= 500 && txs[i].id != "" && txs[j].id != "" && IsTransfer(cfg, w, txs[i], txs[j], score)
    ensures var index := MatchingEngine.TransfersOf(cfg, w, txs);
            && txs[i].id in index && index[txs[i].id].score >= Round3(score)
            && txs[j].id in index && index[txs[j].id].score >= Round3(score)
  {
    var ids, f := MatchingEngine.Ids(txs), MatchingEngine.PairScoresOf(cfg, w, txs);
    TransferScoreExactly(cfg, w, txs[i], txs[j], score);
    StoredScoreIsMaximum(ids, f, txs[i].id);
    StoredScoreIsMaximum(ids, f, txs[j].id);
    assert Partners(ids, f, txs[i].id, i, j) && Partners(ids, f, txs[j].id, i, j);
  }
}
