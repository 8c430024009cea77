/** The deterministic scorer of the bank-matching engine. Text similarity, date parsing, currency
    normalisation and the FX table are not computed here: they are the functions of `World`. */
module Scoring {

  import opened Wrappers

  datatype Weights = Weights(amount: real, date: real, text: real, reference: real, currency: real)

  datatype Config = Config(
    invoiceWeights: Weights,
    expenseWeights: Weights,
    minDisplayThreshold: real,
    highConfidence: real,
    maxSuggestions: int,
    amountToleranceNative: real,
    amountToleranceFx: real,
    bucketPct: real,
    transferDateToleranceDays: int,
    transferAmountTolerance: real)

  const Defaults := Config(
    Weights(0.25, 0.25, 0.25, 0.15, 0.10), Weights(0.30, 0.30, 0.25, 0.00, 0.15),
    0.35, 0.85, 3, 0.05, 0.10, 0.20, 3, 0.02)

  /** What the engine is given: a date is a day number, a rate is looked up by currency and date. */
  datatype World = World(
    normalize: string -> string,
    parseDate: string -> Option<int>,
    similarity: (string, string) -> real,
    hasRates: bool,
    rate: (string, string) -> Option<real>)

  /** A bank transaction; missing text fields are "", a missing amount is 0. */
  datatype Tx = Tx(id: string, amount: real, currency: string, date: string, accountId: string, accountName: string,
                   reference: string, paymentRef: string, partnerName: string, description: string)

  datatype Kind = Invoice | Expense | ArInvoice

  datatype Candidate = Candidate(id: string, jobId: string, amount: real, currency: string,
                                 invoiceDate: string, expenseDate: string, date: string,
                                 partnerName: string, ref: string, paymentReference: string, name: string,
                                 description: string, caption: string,
                                 displayName: string, displayRef: string, employeeName: string)

  datatype Details = Details(amount: real, date: real, text: real, reference: real, currency: real)

  datatype Suggestion = Suggestion(kind: Kind, id: string, partnerName: string, internalId: string, score: real, details: Details)

  function Abs(x: real): real { if x < 0.0 then -x else x }

  function Max(x: real, y: real): real { if x >= y then x else y }

  function FirstOf(a: string, b: string): string { if a != "" then a else b }

  // ----- Rounding to thousandths, halves to even

  function RoundHalfEven(x: real): int {
    var f := x.Floor;
    var d := x - f as real;
    if d < 0.5 then f else if d > 0.5 then f + 1 else if f % 2 == 0 then f else f + 1
  }

  function Round3(x: real): real { RoundHalfEven(x * 1000.0) as real / 1000.0 }

  lemma Round3IsMonotone(x: real, y: real)
    requires x <= y
    ensures Round3(x) <= Round3(y)
  {
    var a, b := x * 1000.0, y * 1000.0;
    assert a <= b && a.Floor <= b.Floor;
    assert RoundHalfEven(a) <= RoundHalfEven(b);
  }

  lemma Round3IsIdempotent(x: real)
    ensures Round3(Round3(x)) == Round3(x)
  {
    var n := RoundHalfEven(x * 1000.0);
    assert Round3(x) * 1000.0 == n as real;
    assert RoundHalfEven(n as real) == n;
  }

  // ----- Component scores

  function AmountScore(expected: real, actual: real, tolerance: real, isFx: bool): real {
    if expected == 0.0 || actual == 0.0 then 0.0
    else
      var ratio := Abs(expected - actual) / Max(Abs(expected), Abs(actual));
      var fxTolerance := if isFx then 0.10 else tolerance;
      if ratio <= 0.02 then 0.95
      else if ratio <= tolerance then 0.85
      else if ratio <= fxTolerance then (if isFx then 0.70 else 0.60)
      else if ratio <= 0.15 && isFx then 0.55
      else if ratio <= 0.20 then 0.40
      else 0.0
  }

  function DateScore(a: Option<int>, b: Option<int>, isExpense: bool): real {
    if a.None? || b.None? then 0.25
    else
      var days := if a.value >= b.value then a.value - b.value else b.value - a.value;
      if isExpense then
        if days <= 1 then 1.0 else if days <= 3 then 0.90 else if days <= 7 then 0.75 else 0.0
      else
        if days == 0 then 1.0 else if days <= 3 then 0.85 else if days <= 7 then 0.70 else if days <= 30 then 0.50 else 0.25
  }

  function Joined(parts: seq<string>): string {
    if parts == [] then ""
    else
      var rest := Joined(parts[1..]);
      if parts[0] == "" then rest else if rest == "" then parts[0] else parts[0] + " " + rest
  }

  function TxText(tx: Tx): string { Joined([tx.reference, tx.paymentRef, tx.partnerName, tx.description]) }

  const MainCurrencies: set<string> := {"CHF", "EUR", "USD", "GBP"}

  const NoDetails := Details(0.0, 0.0, 0.0, 0.0, 0.0)

  /** A usable FX rate: known and positive. */
  function UsableRate(w: World, currency: string, date: string): Option<real> {
    var r := w.rate(currency, date);
    if r.Some? && r.value > 0.0 then r else None
  }

  /** AR invoices are scored with the invoice weights and fields. */
  predicate ScoredAsInvoice(kind: Kind) { kind != Expense }

  function FxWeights(w: Weights): Weights {
    var reduction := w.amount * 0.15;
    Weights(w.amount - reduction, w.date + reduction / 2.0, w.text + reduction / 2.0, w.reference, w.currency)
  }

  predicate IsFx(w: World, tx: Tx, c: Candidate) { w.normalize(tx.currency) != w.normalize(c.currency) }

  /** The candidate's amount in the transaction's currency, where a rate is known. */
  function ComparedAmount(w: World, tx: Tx, c: Candidate): real {
    var rate := if IsFx(w, tx, c) && w.hasRates then UsableRate(w, w.normalize(c.currency), tx.date) else None;
    if rate.Some? then Abs(c.amount) / rate.value else Abs(c.amount)
  }

  function CurrencyScore(w: World, tx: Tx, c: Candidate): real {
    var a, b := w.normalize(tx.currency), w.normalize(c.currency);
    if a == b then 1.0
    else if w.hasRates && UsableRate(w, b, tx.date).Some? then 0.7
    else if a in MainCurrencies && b in MainCurrencies then 0.7
    else 0.5
  }

  /** The five component scores before rounding. */
  function Components(cfg: Config, w: World, tx: Tx, c: Candidate, kind: Kind): Details {
    var inv, isFx := ScoredAsInvoice(kind), IsFx(w, tx, c);
    var tolerance := if isFx then cfg.amountToleranceFx else cfg.amountToleranceNative;
    var candDate := w.parseDate(FirstOf(if inv then c.invoiceDate else c.expenseDate, c.date));
    var candText := if inv then c.partnerName else FirstOf(c.description, c.caption);
    var candRef := if inv then FirstOf(c.ref, FirstOf(c.paymentReference, c.name)) else "";
    Details(
      AmountScore(Abs(tx.amount), ComparedAmount(w, tx, c), tolerance, isFx),
      DateScore(w.parseDate(tx.date), candDate, !inv),
      w.similarity(TxText(tx), candText),
      if candRef != "" then w.similarity(tx.reference + " " + tx.paymentRef, candRef) else 0.0,
      CurrencyScore(w, tx, c))
  }

  function WeightsFor(cfg: Config, w: World, tx: Tx, c: Candidate, kind: Kind): Weights {
    var base := if ScoredAsInvoice(kind) then cfg.invoiceWeights else cfg.expenseWeights;
    if IsFx(w, tx, c) then FxWeights(base) else base
  }

  function Weighted(w: Weights, d: Details): real {
    w.amount * d.amount + w.date * d.date + w.text * d.text + w.reference * d.reference + w.currency * d.currency
  }

  function ScorePair(cfg: Config, w: World, tx: Tx, c: Candidate, kind: Kind): (real, Details) {
    if c.amount == 0.0 then (0.0, NoDetails)
    else
      var d := Components(cfg, w, tx, c, kind);
      (Round3(Weighted(WeightsFor(cfg, w, tx, c, kind), d)),
       Details(Round3(d.amount), Round3(d.date), Round3(d.text), Round3(d.reference), Round3(d.currency)))
  }

  /** The two thresholds every suggestion has to pass. */
  predicate Accepted(cfg: Config, w: World, tx: Tx, c: Candidate, kind: Kind) {
    var (score, details) := ScorePair(cfg, w, tx, c, kind);
    score >= cfg.minDisplayThreshold && details.amount >= 0.40
  }

  function BuildSuggestion(cfg: Config, w: World, tx: Tx, c: Candidate, kind: Kind): Suggestion {
    var (score, details) := ScorePair(cfg, w, tx, c, kind);
    var title := FirstOf(c.displayName, if kind == Invoice then c.partnerName else c.description);
    var ref := FirstOf(c.displayRef, if kind == Invoice then c.name else c.employeeName);
    Suggestion(kind, FirstOf(ref, title), title, FirstOf(c.id, c.jobId), score, details)
  }

  function KindName(kind: Kind): string {
    match kind
    case Invoice => "invoice"
    case Expense => "expense"
    case ArInvoice => "ar_invoice"
  }

  /** What identifies a candidate across suggestions: its type and its internal id, or its label. */
  datatype Key = Key(kind: Kind, ident: string)

  function KeyOf(s: Suggestion): Key { Key(s.kind, FirstOf(s.internalId, s.id)) }

  /** The key as the source writes it; two keys are equal exactly when their texts are. */
  function KeyText(k: Key): string { KindName(k.kind) + ":" + k.ident }

  lemma KeyTextIsInjective(a: Key, b: Key)
    ensures KeyText(a) == KeyText(b) <==> a == b
  {
    var x, y := KindName(a.kind), KindName(b.kind);
    if KeyText(a) == KeyText(b) {
      assert KeyText(a)[0] == KeyText(b)[0];
      assert x == y;
      assert KeyText(a)[|x| + 1..] == a.ident && KeyText(b)[|y| + 1..] == b.ident;
    }
  }

  function ScoreOf(s: Suggestion): real { s.score }

  // ----- The amount gate

  lemma Scale(x: real, y: real, z: real)
    requires z > 0.0
    ensures x < y <==> x * z < y * z
  {
    assert (y - x) * z == y * z - x * z;
  }

  /** At most a share `r` apart, relative to the larger amount. */
  predicate Near(r: real, a: real, b: real) { Abs(a - b) <= r * Max(a, b) }

  lemma NearIsRatio(r: real, a: real, b: real)
    requires a > 0.0 && b > 0.0
    ensures Abs(a - b) / Max(a, b) <= r <==> Near(r, a, b)
  {
    RatioBound(Abs(a - b), Max(a, b), r);
  }

  lemma RatioBound(x: real, m: real, r: real)
    requires m > 0.0
    ensures x / m <= r <==> x <= r * m
  {
    var q := x / m;
    assert q * m == x;
    Scale(r, q, m);
  }

  /** The widest difference that still passes the gate: 20%, or the tolerance if that is more. */
  function GateShare(tolerance: real): (r: real)
    ensures r >= 0.20
  {
    Max(tolerance, 0.20)
  }

  lemma AmountScoreGate(a: real, b: real, tolerance: real)
    requires a >= 0.0 && b >= 0.0
    ensures Round3(AmountScore(a, b, tolerance, false)) >= 0.40 <==> a != 0.0 && b != 0.0 && Near(GateShare(tolerance), a, b)
  {
    if a != 0.0 && b != 0.0 {
      NearIsRatio(GateShare(tolerance), a, b);
    }
    assert Round3(0.0) == 0.0 && Round3(0.40) == 0.40 && Round3(0.60) == 0.60 && Round3(0.85) == 0.85 && Round3(0.95) == 0.95;
  }

  /** For one currency the 0.40 gate on the amount is exactly "both amounts are non-zero and no further apart
      than the gate allows". */
  lemma AmountGate(cfg: Config, w: World, tx: Tx, c: Candidate, kind: Kind)
    requires !IsFx(w, tx, c)
    ensures ScorePair(cfg, w, tx, c, kind).1.amount >= 0.40 <==>
            tx.amount != 0.0 && c.amount != 0.0 && Near(GateShare(cfg.amountToleranceNative), Abs(tx.amount), Abs(c.amount))
  {
    AmountScoreGate(Abs(tx.amount), Abs(c.amount), cfg.amountToleranceNative);
  }
}
