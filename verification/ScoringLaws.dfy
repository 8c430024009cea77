/** What the scorer's numbers mean: the steps of each component, and the total as the one function that
    answers to each component with its configured weight. */
module ScoringLaws {
  import opened Scoring
  import opened Wrappers

  // ----- The amount component

  /** The relative difference the amount component is read off. */
  function Ratio(a: real, b: real): real
    requires a > 0.0 && b > 0.0
  {
    Abs(a - b) / Max(a, b)
  }

  /** The steps within one currency. */
  lemma AmountSteps(a: real, b: real, tolerance: real)
    requires a > 0.0 && b > 0.0
    ensures var s, x := AmountScore(a, b, tolerance, false), Ratio(a, b);
            && (s == 0.95 <==> x <= 0.02) && (s >= 0.85 <==> x <= Max(tolerance, 0.02)) && (s > 0.0 <==> x <= Max(tolerance, 0.20))
            && (s == 0.95 || s == 0.85 || s == 0.40 || s == 0.0)
  {
  }

  /** The steps across currencies; the fixed ones lie at 10, 15 and 20 percent. */
  lemma FxAmountSteps(a: real, b: real, tolerance: real)
    requires a > 0.0 && b > 0.0
    ensures var s, x := AmountScore(a, b, tolerance, true), Ratio(a, b);
            && (s == 0.95 <==> x <= 0.02) && (s >= 0.85 <==> x <= Max(tolerance, 0.02)) && (s >= 0.70 <==> x <= Max(tolerance, 0.10))
            && (s >= 0.55 <==> x <= Max(tolerance, 0.15)) && (s > 0.0 <==> x <= Max(tolerance, 0.20))
            && (s == 0.95 || s == 0.85 || s == 0.70 || s == 0.55 || s == 0.40 || s == 0.0)
  {
  }

  /** A missing amount scores nothing, and closer amounts never score less. */
  lemma AmountIsMonotone(a: real, b: real, c: real, d: real, tolerance: real, isFx: bool)
    requires a > 0.0 && b > 0.0 && c > 0.0 && d > 0.0 && Ratio(a, b) <= Ratio(c, d)
    ensures AmountScore(a, b, tolerance, isFx) >= AmountScore(c, d, tolerance, isFx)
    ensures AmountScore(0.0, b, tolerance, isFx) == 0.0 == AmountScore(a, 0.0, tolerance, isFx)
  {
  }

  // ----- The date component

  function DaysBetween(x: int, y: int): nat { if x >= y then x - y else y - x }

  lemma ExpenseDateSteps(x: int, y: int)
    ensures var s, n := DateScore(Some(x), Some(y), true), DaysBetween(x, y);
            && (s == 1.0 <==> n <= 1) && (s >= 0.90 <==> n <= 3) && (s >= 0.75 <==> n <= 7) && (s == 0.0 <==> n > 7)
            && (s == 1.0 || s == 0.90 || s == 0.75 || s == 0.0)
  {
  }

  lemma InvoiceDateSteps(x: int, y: int)
    ensures var s, n := DateScore(Some(x), Some(y), false), DaysBetween(x, y);
            && (s == 1.0 <==> n == 0) && (s >= 0.85 <==> n <= 3) && (s >= 0.70 <==> n <= 7) && (s >= 0.50 <==> n <= 30)
            && (s == 0.25 <==> n > 30) && (s == 1.0 || s == 0.85 || s == 0.70 || s == 0.50 || s == 0.25)
  {
  }

  /** Fewer days never score less; an unknown date scores a quarter. */
  lemma DateIsMonotone(x: int, y: int, x': int, y': int, isExpense: bool)
    requires DaysBetween(x, y) <= DaysBetween(x', y')
    ensures DateScore(Some(x), Some(y), isExpense) >= DateScore(Some(x'), Some(y'), isExpense)
    ensures DateScore(None, Some(y), isExpense) == DateScore(Some(x), None, isExpense) == DateScore(None, None, isExpense) == 0.25
  {
  }

  // ----- The currency component

  /** 1 for one currency; 0.7 for two that a rate joins or that are both main ones; 0.5 otherwise. */
  lemma CurrencySteps(w: World, tx: Tx, c: Candidate)
    ensures var s := CurrencyScore(w, tx, c);
            var a, b := w.normalize(tx.currency), w.normalize(c.currency);
            && (s == 1.0 <==> a == b)
            && (s == 0.7 <==> a != b && (Converts(w, tx, c) || (IsMain(a) && IsMain(b))))
            && (s == 0.5 <==> a != b && !Converts(w, tx, c) && !(IsMain(a) && IsMain(b)))
  {
  }

  predicate IsMain(currency: string) { currency == "CHF" || currency == "EUR" || currency == "USD" || currency == "GBP" }

  /** There are rates, and the one of the candidate's currency on the transaction's date is positive. */
  predicate Converts(w: World, tx: Tx, c: Candidate) {
    w.hasRates && w.rate(w.normalize(c.currency), tx.date).Some? && w.rate(w.normalize(c.currency), tx.date).value > 0.0
  }

  // ----- The text the transaction is compared by

  lemma {:induction false} JoinedConcat(a: seq<string>, b: seq<string>)
    ensures Joined(a + b) == if Joined(a) == "" then Joined(b) else if Joined(b) == "" then Joined(a) else Joined(a) + " " + Joined(b)
  {
    if a == [] {
      assert a + b == b;
    } else {
      assert (a + b)[1..] == a[1..] + b;
      JoinedConcat(a[1..], b);
      var x, y := Joined(a[1..]), Joined(b);
      if a[0] != "" && x != "" && y != "" {
        assert a[0] + " " + (x + " " + y) == (a[0] + " " + x) + " " + y;
      }
    }
  }

  lemma JoinedOne(s: string)
    ensures Joined([s]) == s && Joined([]) == ""
  {
    assert [s][1..] == [];
  }

  function WithGap(a: string, b: string): string { if a == "" then b else if b == "" then a else a + " " + b }

  /** Reference, payment reference, partner and description, with one space between those that are there. */
  lemma TextOfTx(tx: Tx)
    ensures TxText(tx) == WithGap(WithGap(tx.reference, tx.paymentRef), WithGap(tx.partnerName, tx.description))
  {
    var a, b, c, d := tx.reference, tx.paymentRef, tx.partnerName, tx.description;
    assert [a, b, c, d] == [a, b] + [c, d] && [a, b] == [a] + [b] && [c, d] == [c] + [d];
    JoinedConcat([a, b], [c, d]);
    JoinedConcat([a], [b]);
    JoinedConcat([c], [d]);
    JoinedOne(a);
    JoinedOne(b);
    JoinedOne(c);
    JoinedOne(d);
  }

  // ----- Which fields the components read

  /** An invoice, payable or receivable, is compared by partner name and by its first reference. */
  lemma InvoiceComponents(cfg: Config, w: World, tx: Tx, c: Candidate, kind: Kind)
    requires kind == Invoice || kind == ArInvoice
    ensures var d := Components(cfg, w, tx, c, kind);
            && d.text == w.similarity(TxText(tx), c.partnerName)
            && (c.ref != "" ==> d.reference == w.similarity(tx.reference + " " + tx.paymentRef, c.ref))
            && (c.ref == "" && c.paymentReference != "" ==> d.reference == w.similarity(tx.reference + " " + tx.paymentRef, c.paymentReference))
            && (c.ref == "" && c.paymentReference == "" && c.name != "" ==> d.reference == w.similarity(tx.reference + " " + tx.paymentRef, c.name))
            && (c.ref == "" && c.paymentReference == "" && c.name == "" ==> d.reference == 0.0)
            && (c.invoiceDate != "" ==> d.date == DateScore(w.parseDate(tx.date), w.parseDate(c.invoiceDate), false))
            && (c.invoiceDate == "" ==> d.date == DateScore(w.parseDate(tx.date), w.parseDate(c.date), false))
  {
  }

  /** An expense is compared by its description or caption, and has no reference. */
  lemma ExpenseComponents(cfg: Config, w: World, tx: Tx, c: Candidate)
    ensures var d := Components(cfg, w, tx, c, Expense);
            && (c.description != "" ==> d.text == w.similarity(TxText(tx), c.description))
            && (c.description == "" ==> d.text == w.similarity(TxText(tx), c.caption))
            && d.reference == 0.0
            && (c.expenseDate != "" ==> d.date == DateScore(w.parseDate(tx.date), w.parseDate(c.expenseDate), true))
            && (c.expenseDate == "" ==> d.date == DateScore(w.parseDate(tx.date), w.parseDate(c.date), true))
  {
  }

  /** Amounts are compared without sign, the candidate's converted at its rate, with the tolerance of the case. */
  lemma AmountComponent(cfg: Config, w: World, tx: Tx, c: Candidate, kind: Kind)
    ensures var d := Components(cfg, w, tx, c, kind);
            && (!IsFx(w, tx, c) ==> d.amount == AmountScore(Abs(tx.amount), Abs(c.amount), cfg.amountToleranceNative, false))
            && (IsFx(w, tx, c) && Converts(w, tx, c) ==>
                  d.amount == AmountScore(Abs(tx.amount), Abs(c.amount) / w.rate(w.normalize(c.currency), tx.date).value, cfg.amountToleranceFx, true))
            && (IsFx(w, tx, c) && !Converts(w, tx, c) ==>
                  d.amount == AmountScore(Abs(tx.amount), Abs(c.amount), cfg.amountToleranceFx, true))
            && d.currency == CurrencyScore(w, tx, c)
  {
  }

  // ----- The weights

  function Base(cfg: Config, kind: Kind): Weights {
    match kind
    case Expense => cfg.expenseWeights
    case _ => cfg.invoiceWeights
  }

  function Sum(w: Weights): real { w.amount + w.date + w.text + w.reference + w.currency }

  predicate Nonnegative(w: Weights) { w.amount >= 0.0 && w.date >= 0.0 && w.text >= 0.0 && w.reference >= 0.0 && w.currency >= 0.0 }

  /** Across currencies 15% of the amount's weight goes in equal parts to date and text. */
  lemma WeightsOfPair(cfg: Config, w: World, tx: Tx, c: Candidate, kind: Kind)
    ensures var b, v := Base(cfg, kind), WeightsFor(cfg, w, tx, c, kind);
            && (!IsFx(w, tx, c) ==> v == b)
            && (IsFx(w, tx, c) ==> v.amount == 0.85 * b.amount && v.date - b.date == v.text - b.text == 0.075 * b.amount
                                   && v.reference == b.reference && v.currency == b.currency)
            && Sum(v) == Sum(b) && (Nonnegative(b) ==> Nonnegative(v))
  {
  }

  /** The configured weights add up to one. */
  lemma DefaultsAddUp(kind: Kind)
    ensures Sum(Base(Defaults, kind)) == 1.0 && Nonnegative(Base(Defaults, kind))
  {
  }

  // ----- The total

  /** The total before rounding. */
  function Total(cfg: Config, w: World, tx: Tx, c: Candidate, kind: Kind): real {
    Weighted(WeightsFor(cfg, w, tx, c, kind), Components(cfg, w, tx, c, kind))
  }

  /** The score is the rounded total, and the details are the rounded components; no amount, no score. */
  lemma ScoreIsRoundedTotal(cfg: Config, w: World, tx: Tx, c: Candidate, kind: Kind)
    ensures var (score, details) := ScorePair(cfg, w, tx, c, kind);
            if c.amount == 0.0 then score == 0.0 && details == Details(0.0, 0.0, 0.0, 0.0, 0.0)
            else
              var d := Components(cfg, w, tx, c, kind);
              && score == Round3(Total(cfg, w, tx, c, kind))
              && details.amount == Round3(d.amount) && details.date == Round3(d.date) && details.text == Round3(d.text)
              && details.reference == Round3(d.reference) && details.currency == Round3(d.currency)
  {
  }

  // The sum of products over two lists, as a reference for the total.

  function Dot(ws: seq<real>, xs: seq<real>): real
    requires |ws| == |xs|
  {
    if ws == [] then 0.0 else ws[0] * xs[0] + Dot(ws[1..], xs[1..])
  }

  function Plus(ws: seq<real>): real { if ws == [] then 0.0 else ws[0] + Plus(ws[1..]) }

  function WeightList(v: Weights): seq<real> { [v.amount, v.date, v.text, v.reference, v.currency] }

  function DetailList(d: Details): seq<real> { [d.amount, d.date, d.text, d.reference, d.currency] }

  lemma DotStep(w: real, x: real, ws: seq<real>, xs: seq<real>)
    requires |ws| == |xs|
    ensures Dot([w] + ws, [x] + xs) == w * x + Dot(ws, xs) && Plus([w] + ws) == w + Plus(ws)
  {
    assert ([w] + ws)[1..] == ws && ([x] + xs)[1..] == xs;
  }

  lemma WeightedIsDot(v: Weights, d: Details)
    ensures Weighted(v, d) == Dot(WeightList(v), DetailList(d)) && Sum(v) == Plus(WeightList(v))
  {
    var w4, x4 := [v.currency] + [], [d.currency] + [];
    var w3, x3 := [v.reference] + w4, [d.reference] + x4;
    var w2, x2 := [v.text] + w3, [d.text] + x3;
    var w1, x1 := [v.date] + w2, [d.date] + x2;
    DotStep(v.currency, d.currency, [], []);
    DotStep(v.reference, d.reference, w4, x4);
    DotStep(v.text, d.text, w3, x3);
    DotStep(v.date, d.date, w2, x2);
    DotStep(v.amount, d.amount, w1, x1);
    assert WeightList(v) == [v.amount] + w1 && DetailList(d) == [d.amount] + x1;
  }

  lemma {:induction false} DotIsBetween(ws: seq<real>, xs: seq<real>, lo: real, hi: real)
    requires |ws| == |xs| && forall i :: 0 <= i < |ws| ==> ws[i] >= 0.0 && lo <= xs[i] <= hi
    ensures Mid(Plus(ws), Dot(ws, xs), lo, hi)
  {
    if ws != [] {
      DotIsBetween(ws[1..], xs[1..], lo, hi);
      BetweenStep(ws[0], xs[0], Plus(ws[1..]), Dot(ws[1..], xs[1..]), lo, hi);
    }
  }

  /** A sum of weight `p` lies between `lo` and `hi` times that weight. */
  predicate Mid(p: real, s: real, lo: real, hi: real) { p * lo <= s <= p * hi }

  lemma BetweenStep(q: real, x: real, p: real, s: real, lo: real, hi: real)
    requires q >= 0.0 && lo <= x <= hi && Mid(p, s, lo, hi)
    ensures Mid(q + p, q * x + s, lo, hi)
  {
    assert q * (x - lo) >= 0.0 && q * (hi - x) >= 0.0;
    assert (q + p) * lo == q * lo + p * lo && (q + p) * hi == q * hi + p * hi;
  }

  /** Nothing at zero, and rising with each component by that component's weight: this pins the total down. */
  lemma TotalIsLinear(v: Weights, d: Details, t: real)
    ensures Weighted(v, Details(0.0, 0.0, 0.0, 0.0, 0.0)) == 0.0
    ensures Weighted(v, d.(amount := d.amount + t)) - Weighted(v, d) == t * v.amount
    ensures Weighted(v, d.(date := d.date + t)) - Weighted(v, d) == t * v.date
    ensures Weighted(v, d.(text := d.text + t)) - Weighted(v, d) == t * v.text
    ensures Weighted(v, d.(reference := d.reference + t)) - Weighted(v, d) == t * v.reference
    ensures Weighted(v, d.(currency := d.currency + t)) - Weighted(v, d) == t * v.currency
  {
    assert v.amount * (d.amount + t) == v.amount * d.amount + t * v.amount;
    assert v.date * (d.date + t) == v.date * d.date + t * v.date;
    assert v.text * (d.text + t) == v.text * d.text + t * v.text;
    assert v.reference * (d.reference + t) == v.reference * d.reference + t * v.reference;
    assert v.currency * (d.currency + t) == v.currency * d.currency + t * v.currency;
  }

  /** The text of the candidate that is compared with the transaction's. */
  function TextOf(c: Candidate, kind: Kind): string {
    if kind == Expense then WithDefault(c.description, c.caption) else c.partnerName
  }

  function ReferenceOf(c: Candidate, kind: Kind): string {
    if kind == Expense then "" else WithDefault(c.ref, WithDefault(c.paymentReference, c.name))
  }

  function WithDefault(a: string, b: string): string { if a == "" then b else a }

  /** Raising the text similarity by `t`, all else equal, raises the total by `t` times the pair's text weight,
      within one currency and across (see `WeightsOfPair`). */
  lemma TextSlope(cfg: Config, w: World, w': World, tx: Tx, c: Candidate, kind: Kind, t: real)
    requires w' == w.(similarity := w'.similarity)
    requires w'.similarity(TxText(tx), TextOf(c, kind)) == w.similarity(TxText(tx), TextOf(c, kind)) + t
    requires w'.similarity(tx.reference + " " + tx.paymentRef, ReferenceOf(c, kind)) == w.similarity(tx.reference + " " + tx.paymentRef, ReferenceOf(c, kind))
    ensures Rises(Total(cfg, w, tx, c, kind), Total(cfg, w', tx, c, kind), t, WeightsFor(cfg, w, tx, c, kind).text)
  {
    TextShift(cfg, w, w', tx, c, kind, t);
    TextRises(WeightsFor(cfg, w, tx, c, kind), Components(cfg, w, tx, c, kind), Components(cfg, w', tx, c, kind), t);
  }

  /** `after` is `before` and `t` times the weight. */
  predicate Rises(before: real, after: real, t: real, weight: real) { after - before == t * weight }

  lemma TextRises(v: Weights, d: Details, d': Details, t: real)
    requires d' == d.(text := d.text + t)
    ensures Rises(Weighted(v, d), Weighted(v, d'), t, v.text)
  {
    TotalIsLinear(v, d, t);
  }

  lemma ReferenceRises(v: Weights, d: Details, d': Details, t: real)
    requires d' == d.(reference := d.reference + t)
    ensures Rises(Weighted(v, d), Weighted(v, d'), t, v.reference)
  {
    TotalIsLinear(v, d, t);
  }

  lemma TextShift(cfg: Config, w: World, w': World, tx: Tx, c: Candidate, kind: Kind, t: real)
    requires w' == w.(similarity := w'.similarity)
    requires w'.similarity(TxText(tx), TextOf(c, kind)) == w.similarity(TxText(tx), TextOf(c, kind)) + t
    requires w'.similarity(tx.reference + " " + tx.paymentRef, ReferenceOf(c, kind)) == w.similarity(tx.reference + " " + tx.paymentRef, ReferenceOf(c, kind))
    ensures var d := Components(cfg, w, tx, c, kind); Components(cfg, w', tx, c, kind) == d.(text := d.text + t)
    ensures WeightsFor(cfg, w', tx, c, kind) == WeightsFor(cfg, w, tx, c, kind)
  {
  }

  lemma ReferenceShift(cfg: Config, w: World, w': World, tx: Tx, c: Candidate, kind: Kind, t: real)
    requires w' == w.(similarity := w'.similarity) && ReferenceOf(c, kind) != ""
    requires w'.similarity(TxText(tx), TextOf(c, kind)) == w.similarity(TxText(tx), TextOf(c, kind))
    requires w'.similarity(tx.reference + " " + tx.paymentRef, ReferenceOf(c, kind)) == w.similarity(tx.reference + " " + tx.paymentRef, ReferenceOf(c, kind)) + t
    ensures var d := Components(cfg, w, tx, c, kind); Components(cfg, w', tx, c, kind) == d.(reference := d.reference + t)
    ensures WeightsFor(cfg, w', tx, c, kind) == WeightsFor(cfg, w, tx, c, kind)
  {
  }

  /** The same for the reference, which an invoice has and an expense has not. */
  lemma ReferenceSlope(cfg: Config, w: World, w': World, tx: Tx, c: Candidate, kind: Kind, t: real)
    requires w' == w.(similarity := w'.similarity) && ReferenceOf(c, kind) != ""
    requires w'.similarity(TxText(tx), TextOf(c, kind)) == w.similarity(TxText(tx), TextOf(c, kind))
    requires w'.similarity(tx.reference + " " + tx.paymentRef, ReferenceOf(c, kind)) == w.similarity(tx.reference + " " + tx.paymentRef, ReferenceOf(c, kind)) + t
    ensures Rises(Total(cfg, w, tx, c, kind), Total(cfg, w', tx, c, kind), t, WeightsFor(cfg, w, tx, c, kind).reference)
  {
    ReferenceShift(cfg, w, w', tx, c, kind, t);
    ReferenceRises(WeightsFor(cfg, w, tx, c, kind), Components(cfg, w, tx, c, kind), Components(cfg, w', tx, c, kind), t);
  }

  predicate Within(d: Details, lo: real, hi: real) {
    lo <= d.amount <= hi && lo <= d.date <= hi && lo <= d.text <= hi && lo <= d.reference <= hi && lo <= d.currency <= hi
  }

  /** With weights that add up to one the total lies between the least and the greatest component. */
  lemma TotalIsBetween(cfg: Config, w: World, tx: Tx, c: Candidate, kind: Kind, lo: real, hi: real)
    requires Nonnegative(Base(cfg, kind)) && Sum(Base(cfg, kind)) == 1.0 && Within(Components(cfg, w, tx, c, kind), lo, hi)
    ensures lo <= Total(cfg, w, tx, c, kind) <= hi
  {
    WeightsOfPair(cfg, w, tx, c, kind);
    WeightedIsBetween(WeightsFor(cfg, w, tx, c, kind), Components(cfg, w, tx, c, kind), lo, hi);
  }

  lemma WeightedIsBetween(v: Weights, d: Details, lo: real, hi: real)
    requires Nonnegative(v) && Sum(v) == 1.0 && Within(d, lo, hi)
    ensures lo <= Weighted(v, d) <= hi
  {
    DotIsBetween(WeightList(v), DetailList(d), lo, hi);
    WeightedIsDot(v, d);
    assert Mid(1.0, Weighted(v, d), lo, hi);
  }

  /** Similarities are between 0 and 1. */
  ghost predicate Bounded(w: World) { forall a, b :: 0.0 <= w.similarity(a, b) <= 1.0 }

  /** Then so is every score. */
  lemma ScoreIsBetweenZeroAndOne(cfg: Config, w: World, tx: Tx, c: Candidate, kind: Kind)
    requires Bounded(w) && Nonnegative(Base(cfg, kind)) && Sum(Base(cfg, kind)) == 1.0
    ensures 0.0 <= ScorePair(cfg, w, tx, c, kind).0 <= 1.0
  {
    if c.amount != 0.0 {
      ComponentsAreBetween(cfg, w, tx, c, kind);
      TotalIsBetween(cfg, w, tx, c, kind, 0.0, 1.0);
      Round3IsMonotone(0.0, Total(cfg, w, tx, c, kind));
      Round3IsMonotone(Total(cfg, w, tx, c, kind), 1.0);
      assert Round3(0.0) == 0.0 && Round3(1.0) == 1.0;
    }
  }

  lemma ComponentsAreBetween(cfg: Config, w: World, tx: Tx, c: Candidate, kind: Kind)
    requires Bounded(w)
    ensures Within(Components(cfg, w, tx, c, kind), 0.0, 1.0)
  {
    var d := Components(cfg, w, tx, c, kind);
    assert 0.0 <= w.similarity(TxText(tx), TextOf(c, kind)) <= 1.0;
    assert 0.0 <= w.similarity(tx.reference + " " + tx.paymentRef, ReferenceOf(c, kind)) <= 1.0;
  }

  // ----- Who a suggestion is about

  /** A candidate with an id is known by it, one without by its job id, and both by their kind. */
  lemma KeyOfCandidate(cfg: Config, w: World, tx: Tx, c: Candidate, kind: Kind)
    ensures var k := KeyOf(BuildSuggestion(cfg, w, tx, c, kind));
            k.kind == kind && (c.id != "" ==> k.ident == c.id) && (c.id == "" && c.jobId != "" ==> k.ident == c.jobId)
  {
  }

  /** Candidates with different ids, or of different kinds, are never taken for one another. */
  lemma KeysDiffer(cfg: Config, w: World, tx: Tx, tx': Tx, c: Candidate, c': Candidate, kind: Kind, kind': Kind)
    requires c.id != "" && c'.id != ""
    ensures KeyOf(BuildSuggestion(cfg, w, tx, c, kind)) == KeyOf(BuildSuggestion(cfg, w, tx', c', kind')) <==> c.id == c'.id && kind == kind'
  {
    KeyOfCandidate(cfg, w, tx, c, kind);
    KeyOfCandidate(cfg, w, tx', c', kind');
  }

  /** What is shown: the supplier of a payable invoice, the description of anything else, unless a display name
      is given; and the label is the display reference, else the invoice's name or the employee's, else that text. */
  lemma ShownTexts(cfg: Config, w: World, tx: Tx, c: Candidate, kind: Kind)
    ensures var s := BuildSuggestion(cfg, w, tx, c, kind);
            && (c.displayName != "" ==> s.partnerName == c.displayName)
            && (c.displayName == "" && kind == Invoice ==> s.partnerName == c.partnerName)
            && (c.displayName == "" && kind != Invoice ==> s.partnerName == c.description)
            && (c.displayRef != "" ==> s.id == c.displayRef)
            && (c.displayRef == "" && kind == Invoice && c.name != "" ==> s.id == c.name)
            && (c.displayRef == "" && kind != Invoice && c.employeeName != "" ==> s.id == c.employeeName)
            && (c.displayRef == "" && (if kind == Invoice then c.name else c.employeeName) == "" ==> s.id == s.partnerName)
            && s.score == ScorePair(cfg, w, tx, c, kind).0 && s.details == ScorePair(cfg, w, tx, c, kind).1
  {
  }
}
