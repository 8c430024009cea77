/** The engine's two entry points: the batch run over all transactions, and the arrival of a single
    candidate. */
module MatchingEngine {
  import opened Scoring
  import opened Wrappers
  import opened AmountBuckets
  import opened BucketIndex
  import opened FxBuckets
  import opened GreedyAssignment
  import opened StableSort
  import opened TopMatches
  import Transfers = TransferIndex

  // ----- Phase 1: scored pairs

  predicate IsDebit(tx: Tx) { tx.amount < 0.0 }

  function PairOf(cfg: Config, w: World, tx: Tx, c: Candidate, kind: Kind): Pair<Suggestion> {
    var s := BuildSuggestion(cfg, w, tx, c, kind);
    Pair(tx.id, KeyOf(s), s.score, s)
  }

  /** The accepted ones among the candidates at the given positions. */
  function Hits(cfg: Config, w: World, tx: Tx, items: seq<Candidate>, kind: Kind, at: seq<nat>): (r: seq<nat>)
    requires Within(at, |items|)
    ensures Within(r, |items|)
    ensures forall i :: i in r <==> i in at && Accepted(cfg, w, tx, items[i], kind)
  {
    if at == [] then []
    else
      var n := |at| - 1;
      assert at == at[..n] + [at[n]];
      Hits(cfg, w, tx, items, kind, at[..n]) + (if Accepted(cfg, w, tx, items[at[n]], kind) then [at[n]] else [])
  }

  lemma {:induction false} HitsRepeatNothing(cfg: Config, w: World, tx: Tx, items: seq<Candidate>, kind: Kind, at: seq<nat>)
    requires NoRepeats(at) && Within(at, |items|)
    ensures NoRepeats(Hits(cfg, w, tx, items, kind, at))
  {
    if at != [] {
      var n := |at| - 1;
      var front := Hits(cfg, w, tx, items, kind, at[..n]);
      HitsRepeatNothing(cfg, w, tx, items, kind, at[..n]);
      forall i | 0 <= i < |front| ensures front[i] != at[n] {
        assert front[i] in front && front[i] in at[..n];
      }
    }
  }

  /** What the batch run offers a transaction from one list of candidates. */
  function Offered(cfg: Config, w: World, tx: Tx, items: seq<Candidate>, kind: Kind): seq<nat> {
    ReachIsExact(cfg.bucketPct, items, Abs(tx.amount));
    Hits(cfg, w, tx, items, kind, Reach(cfg.bucketPct, items, Abs(tx.amount)))
  }

  /** The candidates a direction of money can be matched with. */
  predicate RightSign(tx: Tx, kind: Kind) { kind == ArInvoice <==> !IsDebit(tx) }

  /** What the arrival of this candidate alone would do: no index, only the sign and the thresholds. */
  predicate SingleAccepts(cfg: Config, w: World, tx: Tx, c: Candidate, kind: Kind) {
    RightSign(tx, kind) && Accepted(cfg, w, tx, c, kind)
  }

  /** The batch run and the single-candidate run accept the same same-currency pairs. The score and the
      suggestion are those of `BuildSuggestion` in both, so they are equal; nothing is offered twice. */
  lemma BatchAgreesWithSingle(cfg: Config, w: World, tx: Tx, items: seq<Candidate>, kind: Kind, i: nat)
    requires Covers(cfg.bucketPct, GateShare(cfg.amountToleranceNative))
    requires i < |items| && !IsFx(w, tx, items[i])
    ensures RightSign(tx, kind) && i in Offered(cfg, w, tx, items, kind) <==> SingleAccepts(cfg, w, tx, items[i], kind)
    ensures NoRepeats(Offered(cfg, w, tx, items, kind))
  {
    var at := Reach(cfg.bucketPct, items, Abs(tx.amount));
    ReachIsExact(cfg.bucketPct, items, Abs(tx.amount));
    HitsRepeatNothing(cfg, w, tx, items, kind, at);
    if Accepted(cfg, w, tx, items[i], kind) {
      IndexAgreesWithScan(cfg, w, tx, items, kind, i);
    }
  }

  /** The same for a foreign currency, under the guard for the rate at which the candidate is converted. */
  lemma FxBatchAgreesWithSingle(cfg: Config, w: World, tx: Tx, items: seq<Candidate>, kind: Kind, i: nat)
    requires i < |items| && IsFx(w, tx, items[i])
    requires RateCovers(cfg.bucketPct, GateShare(cfg.amountToleranceFx), RateFor(w, tx, items[i]))
    ensures RightSign(tx, kind) && i in Offered(cfg, w, tx, items, kind) <==> SingleAccepts(cfg, w, tx, items[i], kind)
    ensures NoRepeats(Offered(cfg, w, tx, items, kind))
  {
    var at := Reach(cfg.bucketPct, items, Abs(tx.amount));
    ReachIsExact(cfg.bucketPct, items, Abs(tx.amount));
    HitsRepeatNothing(cfg, w, tx, items, kind, at);
    if Accepted(cfg, w, tx, items[i], kind) {
      FxIndexAgreesWithScan(cfg, w, tx, items, kind, i);
    }
  }

  /** The scored pairs of the accepted candidates, in the order they are met. */
  function PairsAt(cfg: Config, w: World, tx: Tx, items: seq<Candidate>, kind: Kind, at: seq<nat>): seq<Pair<Suggestion>>
    requires Within(at, |items|)
  {
    var h := Hits(cfg, w, tx, items, kind, at);
    seq(|h|, i requires 0 <= i < |h| => PairOf(cfg, w, tx, items[h[i]], kind))
  }

  function Reached(cfg: Config, tx: Tx, items: seq<Candidate>): (at: seq<nat>)
    ensures Within(at, |items|)
  {
    ReachIsExact(cfg.bucketPct, items, Abs(tx.amount));
    Reach(cfg.bucketPct, items, Abs(tx.amount))
  }

  lemma PairsNext(cfg: Config, w: World, tx: Tx, items: seq<Candidate>, kind: Kind, at: seq<nat>, n: nat)
    requires Within(at, |items|) && n < |at|
    ensures PairsAt(cfg, w, tx, items, kind, at[..n + 1])
         == PairsAt(cfg, w, tx, items, kind, at[..n])
            + if Accepted(cfg, w, tx, items[at[n]], kind) then [PairOf(cfg, w, tx, items[at[n]], kind)] else []
  {
    assert at[..n + 1][..n] == at[..n];
    var h, h' := Hits(cfg, w, tx, items, kind, at[..n]), Hits(cfg, w, tx, items, kind, at[..n + 1]);
    assert h' == h + if Accepted(cfg, w, tx, items[at[n]], kind) then [at[n]] else [];
  }

  method CollectAt(cfg: Config, w: World, tx: Tx, items: seq<Candidate>, kind: Kind, at: seq<nat>) returns (pairs: seq<Pair<Suggestion>>)
    requires Within(at, |items|)
    ensures pairs == PairsAt(cfg, w, tx, items, kind, at)
  {
    pairs := [];
    for n := 0 to |at|
      invariant pairs == PairsAt(cfg, w, tx, items, kind, at[..n])
    {
      PairsNext(cfg, w, tx, items, kind, at, n);
      if Accepted(cfg, w, tx, items[at[n]], kind) {
        pairs := pairs + [PairOf(cfg, w, tx, items[at[n]], kind)];
      }
    }
    assert at[..|at|] == at;
  }

  method Collect(cfg: Config, w: World, tx: Tx, items: seq<Candidate>, index: Index, kind: Kind) returns (pairs: seq<Pair<Suggestion>>)
    requires IsIndexOf(index, Buckets(cfg.bucketPct, items))
    ensures pairs == PairsAt(cfg, w, tx, items, kind, Reached(cfg, tx, items))
  {
    ghost var all := Reached(cfg, tx, items);
    var at: seq<nat> := [];
    var amount := Abs(tx.amount);
    if amount != 0.0 {
      at := Lookup(Buckets(cfg.bucketPct, items), index, Bucket(cfg.bucketPct, amount));
    }
    assert at == all;
    pairs := CollectAt(cfg, w, tx, items, kind, at);
  }

  datatype Book = Book(payable: seq<Candidate>, expenses: seq<Candidate>, receivable: seq<Candidate>)

  /** Money out is matched with payable invoices, then expenses; money in with receivable invoices. */
  function PairsOfTx(cfg: Config, w: World, tx: Tx, book: Book): seq<Pair<Suggestion>> {
    if IsDebit(tx) then
      PairsAt(cfg, w, tx, book.payable, Invoice, Reached(cfg, tx, book.payable))
      + PairsAt(cfg, w, tx, book.expenses, Expense, Reached(cfg, tx, book.expenses))
    else
      PairsAt(cfg, w, tx, book.receivable, ArInvoice, Reached(cfg, tx, book.receivable))
  }

  /** A transaction with a detected transfer is not scored. */
  function PairsUnlessTransfer(cfg: Config, w: World, tx: Tx, book: Book, transfers: Transfers.Index): seq<Pair<Suggestion>> {
    if tx.id in transfers then [] else PairsOfTx(cfg, w, tx, book)
  }

  function Flat<T>(parts: seq<seq<T>>): seq<T> {
    if parts == [] then [] else Flat(parts[..|parts| - 1]) + parts[|parts| - 1]
  }

  function PairLists(cfg: Config, w: World, txs: seq<Tx>, book: Book, transfers: Transfers.Index): (r: seq<seq<Pair<Suggestion>>>)
    ensures |r| == |txs| && forall i :: 0 <= i < |r| ==> r[i] == PairsUnlessTransfer(cfg, w, txs[i], book, transfers)
  {
    seq(|txs|, i requires 0 <= i < |txs| => PairsUnlessTransfer(cfg, w, txs[i], book, transfers))
  }

  /** All scored pairs, transaction by transaction. */
  function AllPairs(cfg: Config, w: World, txs: seq<Tx>, book: Book, transfers: Transfers.Index): seq<Pair<Suggestion>> {
    Flat(PairLists(cfg, w, txs, book, transfers))
  }

  /** Every pair carries the suggestion it was scored for, and passed the display threshold. */
  ghost predicate Sound(cfg: Config, p: Pair<Suggestion>) {
    ScoreOf(p.suggestion) == p.score && KeyOf(p.suggestion) == p.cand && p.score >= cfg.minDisplayThreshold
  }

  ghost predicate AllSound(cfg: Config, ps: seq<Pair<Suggestion>>) { forall i :: 0 <= i < |ps| ==> Sound(cfg, ps[i]) }

  lemma PairsAtAreSound(cfg: Config, w: World, tx: Tx, items: seq<Candidate>, kind: Kind, at: seq<nat>)
    requires Within(at, |items|)
    ensures AllSound(cfg, PairsAt(cfg, w, tx, items, kind, at))
  {
    var h := Hits(cfg, w, tx, items, kind, at);
    forall i | 0 <= i < |h| ensures Accepted(cfg, w, tx, items[h[i]], kind) {
      assert h[i] in h;
    }
  }

  lemma PairsOfTxAreSound(cfg: Config, w: World, tx: Tx, book: Book)
    ensures AllSound(cfg, PairsOfTx(cfg, w, tx, book))
  {
    PairsAtAreSound(cfg, w, tx, book.payable, Invoice, Reached(cfg, tx, book.payable));
    PairsAtAreSound(cfg, w, tx, book.expenses, Expense, Reached(cfg, tx, book.expenses));
    PairsAtAreSound(cfg, w, tx, book.receivable, ArInvoice, Reached(cfg, tx, book.receivable));
  }

  lemma {:induction false} FlatIsSound(cfg: Config, parts: seq<seq<Pair<Suggestion>>>)
    requires forall i :: 0 <= i < |parts| ==> AllSound(cfg, parts[i])
    ensures AllSound(cfg, Flat(parts))
  {
    if parts != [] {
      FlatIsSound(cfg, parts[..|parts| - 1]);
    }
  }

  lemma PairsAreSound(cfg: Config, w: World, txs: seq<Tx>, book: Book, transfers: Transfers.Index)
    ensures AllSound(cfg, AllPairs(cfg, w, txs, book, transfers))
  {
    var parts := PairLists(cfg, w, txs, book, transfers);
    forall i | 0 <= i < |parts| ensures AllSound(cfg, parts[i]) {
      PairsOfTxAreSound(cfg, w, txs[i], book);
    }
    FlatIsSound(cfg, parts);
  }

  // ----- The batch run

  datatype Result = Result(top: seq<Suggestion>, transfer: Option<Transfers.Link>)

  function Ids(txs: seq<Tx>): (r: seq<string>)
    ensures |r| == |txs| && forall i :: 0 <= i < |txs| ==> r[i] == txs[i].id
  {
    seq(|txs|, i requires 0 <= i < |txs| => txs[i].id)
  }

  function PairScoresOf(cfg: Config, w: World, txs: seq<Tx>): Transfers.PairScores {
    (a: nat, b: nat) => if a < |txs| && b < |txs| then Transfers.TransferScore(cfg, w, txs[a], txs[b]) else None
  }

  /** The index the double loop leaves; none for very long lists. */
  function TransfersOf(cfg: Config, w: World, txs: seq<Tx>): Transfers.Index {
    if |txs| > Transfers.MaxTransactions then map[]
    else Transfers.RecordAll(Ids(txs), Transfers.Meetings(Ids(txs), PairScoresOf(cfg, w, txs), |txs|))
  }

  function ResultFor(transfers: Transfers.Index, matches: Matches<Suggestion>, id: string): Result {
    if id in transfers then Result([], Some(transfers[id])) else Result(MatchesOf(matches, id), None)
  }

  method CollectTx(cfg: Config, w: World, tx: Tx, book: Book, invoices: Index, expenses: Index, receivables: Index)
    returns (pairs: seq<Pair<Suggestion>>)
    requires IsIndexOf(invoices, Buckets(cfg.bucketPct, book.payable))
    requires IsIndexOf(expenses, Buckets(cfg.bucketPct, book.expenses))
    requires IsIndexOf(receivables, Buckets(cfg.bucketPct, book.receivable))
    ensures pairs == PairsOfTx(cfg, w, tx, book)
  {
    if IsDebit(tx) {
      var a := Collect(cfg, w, tx, book.payable, invoices, Invoice);
      var b := Collect(cfg, w, tx, book.expenses, expenses, Expense);
      pairs := a + b;
    } else {
      pairs := Collect(cfg, w, tx, book.receivable, receivables, ArInvoice);
    }
  }

  method CollectAll(cfg: Config, w: World, txs: seq<Tx>, book: Book, transfers: Transfers.Index) returns (pairs: seq<Pair<Suggestion>>)
    ensures pairs == AllPairs(cfg, w, txs, book, transfers)
  {
    var invoices := BuildIndex(Buckets(cfg.bucketPct, book.payable));
    var expenses := BuildIndex(Buckets(cfg.bucketPct, book.expenses));
    var receivables := BuildIndex(Buckets(cfg.bucketPct, book.receivable));
    ghost var parts := PairLists(cfg, w, txs, book, transfers);
    pairs := [];
    for n := 0 to |txs|
      invariant pairs == Flat(parts[..n])
    {
      assert parts[..n + 1][..n] == parts[..n];
      var more: seq<Pair<Suggestion>> := [];
      if txs[n].id !in transfers {
        more := CollectTx(cfg, w, txs[n], book, invoices, expenses, receivables);
      }
      assert parts[n] == more;
      pairs := pairs + more;
    }
    assert parts[..|txs|] == parts;
  }

  method Report(ids: seq<string>, transfers: Transfers.Index, matches: Matches<Suggestion>) returns (results: map<string, Result>)
    ensures forall id :: id in results <==> id in ids
    ensures forall id :: id in results ==> results[id] == ResultFor(transfers, matches, id)
  {
    results := map[];
    for n := 0 to |ids|
      invariant forall id :: id in results <==> id in ids[..n]
      invariant forall id :: id in results ==> results[id] == ResultFor(transfers, matches, id)
    {
      results := results[ids[n] := ResultFor(transfers, matches, ids[n])];
      assert ids[..n + 1] == ids[..n] + [ids[n]];
    }
    assert ids[..|ids|] == ids;
  }

  /** The batch result: an id with a transfer has no suggestions; any other id has what the greedy
      pass over all scored pairs handed to it. */
  method ComputeSuggestions(cfg: Config, w: World, txs: seq<Tx>, book: Book)
    returns (results: map<string, Result>, transfers: Transfers.Index, pairs: seq<Pair<Suggestion>>)
    ensures transfers == TransfersOf(cfg, w, txs) && (|txs| > 500 ==> transfers == map[])
    ensures pairs == AllPairs(cfg, w, txs, book, transfers)
    ensures forall id :: id in results <==> id in Ids(txs)
    ensures forall id :: id in results && id in transfers ==> results[id] == Result([], Some(transfers[id]))
    ensures forall id :: id in results && id !in transfers ==>
              results[id] == Result(Picked(Sorted(pairs, PairScore), Outcome(pairs, cfg.maxSuggestions), id), None)
  {
    transfers := Transfers.BuildIndex(Ids(txs), PairScoresOf(cfg, w, txs));
    pairs := CollectAll(cfg, w, txs, book, transfers);
    var matches, _ := AssignGreedily(pairs, cfg.maxSuggestions);
    results := Report(Ids(txs), transfers, matches);
  }

  /** The batch result is at least half as good as any other exclusive assignment of its scored pairs. */
  lemma BatchIsHalfOptimal(cfg: Config, w: World, txs: seq<Tx>, book: Book, transfers: Transfers.Index, rival: seq<bool>)
    requires cfg.minDisplayThreshold >= 0.0
    requires var pairs := AllPairs(cfg, w, txs, book, transfers);
             |rival| == |pairs| && Fits(pairs, rival, cfg.maxSuggestions)
    ensures var pairs := AllPairs(cfg, w, txs, book, transfers);
            Total(pairs, rival) <= 2.0 * Total(Sorted(pairs, PairScore), Outcome(pairs, cfg.maxSuggestions))
  {
    PairsAreSound(cfg, w, txs, book, transfers);
    GreedyIsHalfOptimal(AllPairs(cfg, w, txs, book, transfers), cfg.maxSuggestions, rival);
  }

  // ----- A single new candidate

  /** The scores of one candidate, by transaction id; of several transactions with one id the last
      accepted one counts. */
  function SingleScores(cfg: Config, w: World, c: Candidate, kind: Kind, txs: seq<Tx>): map<string, Suggestion> {
    if txs == [] then map[]
    else
      var n := |txs| - 1;
      var before := SingleScores(cfg, w, c, kind, txs[..n]);
      if SingleAccepts(cfg, w, txs[n], c, kind) then before[txs[n].id := BuildSuggestion(cfg, w, txs[n], c, kind)] else before
  }

  method ScoreSingle(cfg: Config, w: World, c: Candidate, kind: Kind, txs: seq<Tx>) returns (scores: map<string, Suggestion>)
    ensures scores == SingleScores(cfg, w, c, kind, txs)
  {
    scores := map[];
    for n := 0 to |txs|
      invariant scores == SingleScores(cfg, w, c, kind, txs[..n])
    {
      assert txs[..n + 1][..n] == txs[..n];
      var tx := txs[n];
      if RightSign(tx, kind) && Accepted(cfg, w, tx, c, kind) {
        scores := scores[tx.id := BuildSuggestion(cfg, w, tx, c, kind)];
      }
    }
    assert txs[..|txs|] == txs;
  }

  /** With distinct ids, each transaction gets exactly its own verdict. */
  lemma {:induction false} SingleScoresAreOwn(cfg: Config, w: World, c: Candidate, kind: Kind, txs: seq<Tx>, i: nat)
    requires i < |txs| && forall a, b :: 0 <= a < b < |txs| ==> txs[a].id != txs[b].id
    ensures txs[i].id in SingleScores(cfg, w, c, kind, txs) <==> SingleAccepts(cfg, w, txs[i], c, kind)
    ensures SingleAccepts(cfg, w, txs[i], c, kind) ==> SingleScores(cfg, w, c, kind, txs)[txs[i].id] == BuildSuggestion(cfg, w, txs[i], c, kind)
  {
    var n := |txs| - 1;
    if i < n {
      SingleScoresAreOwn(cfg, w, c, kind, txs[..n], i);
    } else {
      NotBefore(cfg, w, c, kind, txs[..n], txs[n].id);
    }
  }

  lemma {:induction false} NotBefore(cfg: Config, w: World, c: Candidate, kind: Kind, txs: seq<Tx>, id: string)
    requires forall i :: 0 <= i < |txs| ==> txs[i].id != id
    ensures id !in SingleScores(cfg, w, c, kind, txs)
  {
    if txs != [] {
      NotBefore(cfg, w, c, kind, txs[..|txs| - 1], id);
    }
  }

  /** A transaction of the cached `to_process` list with its current suggestions. */
  datatype Entry = Entry(tx: Tx, top: Top)

  function Entered(e: Entry, scores: map<string, Suggestion>, k: int): Entry {
    if e.tx.id in scores then e.(top := Update(e.top, scores[e.tx.id], k)) else e
  }

  predicate Improves(e: Entry, scores: map<string, Suggestion>, k: int) {
    e.tx.id in scores && Changes(e.top, scores[e.tx.id], k)
  }

  function Transactions(entries: seq<Entry>): (r: seq<Tx>)
    ensures |r| == |entries| && forall i :: 0 <= i < |r| ==> r[i] == entries[i].tx
  {
    seq(|entries|, i requires 0 <= i < |entries| => entries[i].tx)
  }

  /** With distinct ids a transaction's list is updated with its own suggestion when the single path accepts it,
      and stays as it is otherwise; it is reported as improved exactly when it was updated and changed. */
  lemma ArrivalExactly(cfg: Config, w: World, c: Candidate, kind: Kind, entries: seq<Entry>, i: nat)
    requires i < |entries| && forall a, b :: 0 <= a < b < |entries| ==> entries[a].tx.id != entries[b].tx.id
    ensures var scores := SingleScores(cfg, w, c, kind, Transactions(entries));
            var tx, top, k := entries[i].tx, entries[i].top, cfg.maxSuggestions;
            && Entered(entries[i], scores, k).tx == tx
            && (SingleAccepts(cfg, w, tx, c, kind) ==>
                  && Entered(entries[i], scores, k).top == Update(top, BuildSuggestion(cfg, w, tx, c, kind), k)
                  && (Improves(entries[i], scores, k) <==> Changes(top, BuildSuggestion(cfg, w, tx, c, kind), k)))
            && (!SingleAccepts(cfg, w, tx, c, kind) ==> Entered(entries[i], scores, k).top == top && !Improves(entries[i], scores, k))
  {
    SingleScoresAreOwn(cfg, w, c, kind, Transactions(entries), i);
  }

  method UpdateEntry(e: Entry, scores: map<string, Suggestion>, k: int) returns (r: Entry, changed: bool)
    ensures r == Entered(e, scores, k) && changed == Improves(e, scores, k)
  {
    r, changed := e, false;
    if e.tx.id in scores {
      var top, replaced := UpdateTop(e.top, scores[e.tx.id], k);
      r, changed := e.(top := top), replaced;
    }
  }

  /** The cached list is updated in place; the positions that changed are returned in order. */
  method UpdateSuggestions(cfg: Config, w: World, entries: array<Entry>, c: Candidate, kind: Kind) returns (updated: seq<nat>)
    modifies entries
    ensures var scores := SingleScores(cfg, w, c, kind, Transactions(old(entries[..])));
            && (forall i :: 0 <= i < entries.Length ==> entries[i] == Entered(old(entries[i]), scores, cfg.maxSuggestions))
            && (forall i :: i in updated <==> 0 <= i < entries.Length && Improves(old(entries[i]), scores, cfg.maxSuggestions))
    ensures Ascending(updated)
  {
    var scores := ScoreSingle(cfg, w, c, kind, Transactions(entries[..]));
    updated := UpdateEntries(entries, scores, cfg.maxSuggestions);
  }

  method UpdateEntries(entries: array<Entry>, scores: map<string, Suggestion>, k: int) returns (updated: seq<nat>)
    modifies entries
    ensures forall i :: 0 <= i < entries.Length ==> entries[i] == Entered(old(entries[i]), scores, k)
    ensures forall i :: i in updated <==> 0 <= i < entries.Length && Improves(old(entries[i]), scores, k)
    ensures Ascending(updated)
  {
    ghost var goal, marks := AllEntered(entries[..], scores, k), AllImproves(entries[..], scores, k);
    updated := UpdateEach(entries, scores, k, goal, marks);
    MarkedIsExact(marks, entries.Length);
  }

  /** The update of one entry is the given one. */
  ghost predicate Becomes(e: Entry, scores: map<string, Suggestion>, k: int, goal: Entry, mark: bool) {
    goal == Entered(e, scores, k) && mark == Improves(e, scores, k)
  }

  ghost predicate AllBecome(was: seq<Entry>, scores: map<string, Suggestion>, k: int, goal: seq<Entry>, marks: seq<bool>) {
    |goal| == |marks| == |was| &&
    forall i {:trigger Becomes(was[i], scores, k, goal[i], marks[i])} :: 0 <= i < |was| ==> Becomes(was[i], scores, k, goal[i], marks[i])
  }

  method UpdateAt(e: Entry, scores: map<string, Suggestion>, k: int, ghost was: seq<Entry>, ghost goal: seq<Entry>, ghost marks: seq<bool>, n: nat)
    returns (r: Entry, changed: bool)
    requires AllBecome(was, scores, k, goal, marks) && n < |was| && e == was[n]
    ensures r == goal[n] && changed == marks[n]
  {
    assert Becomes(was[n], scores, k, goal[n], marks[n]);
    r, changed := UpdateEntry(e, scores, k);
  }

  method UpdateEach(entries: array<Entry>, scores: map<string, Suggestion>, k: int, ghost goal: seq<Entry>, ghost marks: seq<bool>)
    returns (updated: seq<nat>)
    requires AllBecome(entries[..], scores, k, goal, marks)
    modifies entries
    ensures entries[..] == goal && updated == Marked(marks, entries.Length)
  {
    updated := [];
    ghost var was := entries[..];
    for n := 0 to entries.Length
      invariant forall i :: 0 <= i < n ==> entries[i] == goal[i]
      invariant forall i :: n <= i < entries.Length ==> entries[i] == was[i]
      invariant updated == Marked(marks, n)
    {
      var e, changed := UpdateAt(entries[n], scores, k, was, goal, marks, n);
      entries[n] := e;
      if changed {
        updated := updated + [n];
      }
    }
  }

  /** The marked positions below `n`, in order. */
  ghost function Marked(marks: seq<bool>, n: nat): seq<nat>
    requires n <= |marks|
  {
    if n == 0 then [] else Marked(marks, n - 1) + if marks[n - 1] then [n - 1] else []
  }

  lemma {:induction false} MarkedIsExact(marks: seq<bool>, n: nat)
    requires n <= |marks|
    ensures Ascending(Marked(marks, n)) && forall i :: i in Marked(marks, n) <==> 0 <= i < n && marks[i]
  {
    if n > 0 {
      MarkedIsExact(marks, n - 1);
      var before := Marked(marks, n - 1);
      assert forall j :: 0 <= j < |before| ==> before[j] in before;
    }
  }

  ghost function AllEntered(entries: seq<Entry>, scores: map<string, Suggestion>, k: int): (r: seq<Entry>)
    ensures |r| == |entries| && forall i :: 0 <= i < |r| ==> r[i] == Entered(entries[i], scores, k)
  {
    seq(|entries|, i requires 0 <= i < |entries| => Entered(entries[i], scores, k))
  }

  ghost function AllImproves(entries: seq<Entry>, scores: map<string, Suggestion>, k: int): (r: seq<bool>)
    ensures |r| == |entries| && forall i :: 0 <= i < |r| ==> r[i] == Improves(entries[i], scores, k)
  {
    seq(|entries|, i requires 0 <= i < |entries| => Improves(entries[i], scores, k))
  }
}
