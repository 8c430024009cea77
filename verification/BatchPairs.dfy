/** Which pairs the batch scores: every transaction without a transfer against the lists for its sign. */
module BatchPairs {
  import opened Scoring
  import opened Wrappers
  import opened AmountBuckets
  import opened BucketIndex
  import opened FxBuckets
  import opened GreedyAssignment
  import opened MatchingEngine
  import Transfers = TransferIndex

  function ListOf(book: Book, kind: Kind): seq<Candidate> {
    match kind
    case Invoice => book.payable
    case Expense => book.expenses
    case ArInvoice => book.receivable
  }

  /** Money paid out meets payable invoices and expenses, money taken in meets receivable invoices. */
  predicate Meets(tx: Tx, kind: Kind) {
    match kind
    case Invoice => tx.amount < 0.0
    case Expense => tx.amount < 0.0
    case ArInvoice => tx.amount >= 0.0
  }

  /** The pair of this transaction and candidate: their suggestion under its key, at its score. */
  predicate IsPairOf(cfg: Config, w: World, p: Pair<Suggestion>, tx: Tx, c: Candidate, kind: Kind) {
    p.tx == tx.id && p.suggestion == BuildSuggestion(cfg, w, tx, c, kind) && p.cand == KeyOf(p.suggestion) && p.score == p.suggestion.score
  }

  /** A candidate of the list is offered to the transaction, and the pair is theirs. */
  ghost predicate FromCandidate(cfg: Config, w: World, book: Book, tx: Tx, p: Pair<Suggestion>, kind: Kind, i: nat) {
    && i < |ListOf(book, kind)| && Meets(tx, kind)
    && i in Offered(cfg, w, tx, ListOf(book, kind), kind) && IsPairOf(cfg, w, p, tx, ListOf(book, kind)[i], kind)
  }

  lemma PairsAtExactly(cfg: Config, w: World, tx: Tx, items: seq<Candidate>, kind: Kind, at: seq<nat>, p: Pair<Suggestion>)
    requires Within(at, |items|)
    ensures p in PairsAt(cfg, w, tx, items, kind, at) <==>
            exists i :: i in Hits(cfg, w, tx, items, kind, at) && IsPairOf(cfg, w, p, tx, items[i], kind)
  {
    var h, pairs := Hits(cfg, w, tx, items, kind, at), PairsAt(cfg, w, tx, items, kind, at);
    if p in pairs {
      var n :| 0 <= n < |pairs| && pairs[n] == p;
      assert h[n] in h && IsPairOf(cfg, w, p, tx, items[h[n]], kind);
    }
    if i :| i in h && IsPairOf(cfg, w, p, tx, items[i], kind) {
      var n :| 0 <= n < |h| && h[n] == i;
      assert pairs[n] == p;
    }
  }

  /** The pairs of one list are those of the candidates it offers. */
  lemma ListPairsExactly(cfg: Config, w: World, tx: Tx, book: Book, kind: Kind, p: Pair<Suggestion>)
    requires Meets(tx, kind)
    ensures p in PairsAt(cfg, w, tx, ListOf(book, kind), kind, Reached(cfg, tx, ListOf(book, kind))) <==>
            exists i: nat :: FromCandidate(cfg, w, book, tx, p, kind, i)
  {
    var items := ListOf(book, kind);
    var at := Reached(cfg, tx, items);
    PairsAtExactly(cfg, w, tx, items, kind, at, p);
    assert Offered(cfg, w, tx, items, kind) == Hits(cfg, w, tx, items, kind, at);
    if i :| i in Hits(cfg, w, tx, items, kind, at) && IsPairOf(cfg, w, p, tx, items[i], kind) {
      assert FromCandidate(cfg, w, book, tx, p, kind, i);
    }
  }

  ghost predicate FromSome(cfg: Config, w: World, book: Book, tx: Tx, p: Pair<Suggestion>) {
    exists kind, i: nat :: FromCandidate(cfg, w, book, tx, p, kind, i)
  }

  lemma TxPairsExactly(cfg: Config, w: World, tx: Tx, book: Book, p: Pair<Suggestion>)
    ensures p in PairsOfTx(cfg, w, tx, book) <==> FromSome(cfg, w, book, tx, p)
  {
    if tx.amount < 0.0 {
      ListPairsExactly(cfg, w, tx, book, Invoice, p);
      ListPairsExactly(cfg, w, tx, book, Expense, p);
    } else {
      ListPairsExactly(cfg, w, tx, book, ArInvoice, p);
    }
  }

  lemma {:induction false} InFlat<T>(parts: seq<seq<T>>, x: T)
    ensures x in Flat(parts) <==> exists n :: 0 <= n < |parts| && x in parts[n]
  {
    if parts != [] {
      InFlat(parts[..|parts| - 1], x);
    }
  }

  /** The pair comes from transaction `n`, which has no transfer. */
  ghost predicate FromTx(cfg: Config, w: World, txs: seq<Tx>, book: Book, transfers: Transfers.Index, p: Pair<Suggestion>, n: nat) {
    n < |txs| && txs[n].id !in transfers && FromSome(cfg, w, book, txs[n], p)
  }

  /** The pairs of the batch are exactly those of the transactions without a transfer and the candidates offered
      to them from the lists for their sign. */
  lemma AllPairsExactly(cfg: Config, w: World, txs: seq<Tx>, book: Book, transfers: Transfers.Index, p: Pair<Suggestion>)
    ensures p in AllPairs(cfg, w, txs, book, transfers) <==> exists n: nat :: FromTx(cfg, w, txs, book, transfers, p, n)
  {
    var parts := PairLists(cfg, w, txs, book, transfers);
    InFlat(parts, p);
    forall n | 0 <= n < |parts| ensures p in parts[n] <==> FromTx(cfg, w, txs, book, transfers, p, n) {
      TxPairsExactly(cfg, w, txs[n], book, p);
    }
  }

  // ----- Against the single-candidate path

  /** The index is complete for this transaction and candidate. */
  predicate Covered(cfg: Config, w: World, tx: Tx, c: Candidate) {
    if IsFx(w, tx, c) then RateCovers(cfg.bucketPct, GateShare(cfg.amountToleranceFx), RateFor(w, tx, c))
    else Covers(cfg.bucketPct, GateShare(cfg.amountToleranceNative))
  }

  lemma MeetsIsRightSign(tx: Tx, kind: Kind)
    ensures Meets(tx, kind) <==> RightSign(tx, kind)
  {
  }

  /** Where the index is complete, a candidate's pair is in the batch exactly when the arrival of the candidate
      alone would suggest it. */
  lemma OfferedIsSingle(cfg: Config, w: World, tx: Tx, book: Book, kind: Kind, i: nat)
    requires i < |ListOf(book, kind)| && Covered(cfg, w, tx, ListOf(book, kind)[i])
    ensures Meets(tx, kind) && i in Offered(cfg, w, tx, ListOf(book, kind), kind) <==> SingleAccepts(cfg, w, tx, ListOf(book, kind)[i], kind)
  {
    MeetsIsRightSign(tx, kind);
    if IsFx(w, tx, ListOf(book, kind)[i]) {
      FxBatchAgreesWithSingle(cfg, w, tx, ListOf(book, kind), kind, i);
    } else {
      BatchAgreesWithSingle(cfg, w, tx, ListOf(book, kind), kind, i);
    }
  }

  ghost predicate AllCovered(cfg: Config, w: World, txs: seq<Tx>, book: Book) {
    forall n: nat, kind, i: nat :: n < |txs| && i < |ListOf(book, kind)| ==> Covered(cfg, w, txs[n], ListOf(book, kind)[i])
  }

  ghost predicate FromSingle(cfg: Config, w: World, txs: seq<Tx>, book: Book, transfers: Transfers.Index, p: Pair<Suggestion>, n: nat, kind: Kind, i: nat) {
    && n < |txs| && txs[n].id !in transfers && i < |ListOf(book, kind)|
    && SingleAccepts(cfg, w, txs[n], ListOf(book, kind)[i], kind) && IsPairOf(cfg, w, p, txs[n], ListOf(book, kind)[i], kind)
  }

  /** Then the batch scores exactly the pairs the single-candidate path would, outside transfers. */
  lemma BatchPairsAreSingle(cfg: Config, w: World, txs: seq<Tx>, book: Book, transfers: Transfers.Index, p: Pair<Suggestion>)
    requires AllCovered(cfg, w, txs, book)
    ensures p in AllPairs(cfg, w, txs, book, transfers) <==> exists n: nat, kind, i: nat :: FromSingle(cfg, w, txs, book, transfers, p, n, kind, i)
  {
    AllPairsExactly(cfg, w, txs, book, transfers, p);
    if n: nat :| FromTx(cfg, w, txs, book, transfers, p, n) {
      var kind, i: nat :| FromCandidate(cfg, w, book, txs[n], p, kind, i);
      OfferedIsSingle(cfg, w, txs[n], book, kind, i);
      assert FromSingle(cfg, w, txs, book, transfers, p, n, kind, i);
    }
    if n: nat, kind, i: nat :| FromSingle(cfg, w, txs, book, transfers, p, n, kind, i) {
      OfferedIsSingle(cfg, w, txs[n], book, kind, i);
      assert FromCandidate(cfg, w, book, txs[n], p, kind, i);
      assert FromTx(cfg, w, txs, book, transfers, p, n);
    }
  }

  /** What the single path accepts: the right sign, a score at the display threshold and amounts through the gate. */
  lemma SingleAcceptsExactly(cfg: Config, w: World, tx: Tx, c: Candidate, kind: Kind)
    ensures SingleAccepts(cfg, w, tx, c, kind) <==>
            && c.amount != 0.0 && Meets(tx, kind) && ScorePair(cfg, w, tx, c, kind).0 >= cfg.minDisplayThreshold && tx.amount != 0.0
            && (if IsFx(w, tx, c) then Near(GateShare(cfg.amountToleranceFx), Abs(tx.amount), Abs(c.amount) / RateFor(w, tx, c))
                else Near(GateShare(cfg.amountToleranceNative), Abs(tx.amount), Abs(c.amount)))
  {
    if c.amount != 0.0 {
      if IsFx(w, tx, c) {
        FxGate(cfg, w, tx, c, kind);
      } else {
        AmountGate(cfg, w, tx, c, kind);
      }
    }
  }
}
