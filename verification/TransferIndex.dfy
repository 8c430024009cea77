/** Detection of transfers between two accounts: every pair of transactions is scored once and each
    transaction id keeps its best counterpart. */
module TransferIndex {
  import opened Scoring
  import opened Wrappers

  // ----- The pair score

  function DayScore(days: int): real {
    if days == 0 then 1.0 else if days == 1 then 0.85 else if days == 2 then 0.60 else if days <= 3 then 0.40 else 0.10
  }

  function DaysApart(w: World, a: Tx, b: Tx): Option<int> {
    var x, y := w.parseDate(a.date), w.parseDate(b.date);
    if x.Some? && y.Some? then Some(if x.value >= y.value then x.value - y.value else y.value - x.value) else None
  }

  /** The two amounts as compared, or None when the currencies differ and no rate is known. */
  function Compared(w: World, a: Tx, b: Tx): Option<(real, real)> {
    var curA, curB := w.normalize(a.currency), w.normalize(b.currency);
    if curA == curB || !w.hasRates then Some((Abs(a.amount), Abs(b.amount)))
    else
      var rate := UsableRate(w, curB, a.date);
      if rate.Some? then Some((Abs(a.amount), Abs(b.amount) / rate.value))
      else
        var rev := UsableRate(w, curA, a.date);
        if rev.Some? then Some((Abs(a.amount) / rev.value, Abs(b.amount))) else None
  }

  predicate PassesGates(cfg: Config, w: World, a: Tx, b: Tx) {
    && ((a.amount > 0.0 && b.amount < 0.0) || (a.amount < 0.0 && b.amount > 0.0))
    && a.accountId != b.accountId
    && (DaysApart(w, a, b).Some? ==> DaysApart(w, a, b).value <= cfg.transferDateToleranceDays)
  }

  /** The unrounded score of a qualifying pair, `a` standing before `b` in the list. */
  function TransferScore(cfg: Config, w: World, a: Tx, b: Tx): Option<real> {
    if !PassesGates(cfg, w, a, b) || Compared(w, a, b).None? then None
    else
      var (x, y) := Compared(w, a, b).value;
      var isFx := w.normalize(a.currency) != w.normalize(b.currency);
      var m := Max(x, y);
      var diff := Abs(x - y) / m;
      if diff > (if isFx then 0.05 else cfg.transferAmountTolerance) then None
      else
        var amountScore := if isFx then (1.0 - diff) * 0.90 else 1.0 - diff;
        var days := DaysApart(w, a, b);
        var score := 0.40 * amountScore + 0.30 * DayScore(if days.Some? then days.value else 99) + 0.30 * w.similarity(TxText(a), TxText(b));
        if score < 0.70 then None else Some(score)
  }

  // ----- The index

  /** A recorded counterpart: its position in the transaction list and the rounded score. */
  datatype Link = Link(other: nat, score: real)

  type Index = map<string, Link>

  datatype Two = Two(first: nat, second: nat)

  /** The qualifying pairs met so far, with their unrounded scores. */
  type Met = map<Two, real>

  function Put(index: Index, id: string, other: nat, score: real): Index {
    if id !in index || index[id].score < score then index[id := Link(other, Round3(score))] else index
  }

  ghost predicate Touches(ids: seq<string>, p: Two, id: string) {
    p.first < |ids| && p.second < |ids| && (ids[p.first] == id || ids[p.second] == id)
  }

  /** The link of `id` comes from the pair `p`. */
  ghost predicate LinkedBy(ids: seq<string>, met: Met, id: string, link: Link, p: Two) {
    && p in met && p.first < |ids| && p.second < |ids| && link.score == Round3(met[p])
    && ((ids[p.first] == id && link.other == p.second) || (ids[p.second] == id && link.other == p.first))
  }

  ghost predicate Sourced(ids: seq<string>, met: Met, id: string, link: Link) {
    exists p :: LinkedBy(ids, met, id, link, p)
  }

  ghost predicate Covers(index: Index, id: string, score: real) {
    id in index && Round3(score) <= index[id].score
  }

  /** An id is present exactly when a pair touches it, its link comes from one of them, and none of
      them has a larger rounded score. */
  ghost predicate IsBest(index: Index, ids: seq<string>, met: Met) {
    && (forall id :: id in index ==> Sourced(ids, met, id, index[id]))
    && (forall p, id :: p in met && Touches(ids, p, id) ==> Covers(index, id, met[p]))
  }

  lemma PutCovers(index: Index, id: string, other: nat, score: real)
    requires id in index ==> Round3(index[id].score) == index[id].score
    ensures Covers(Put(index, id, other, score), id, score)
    ensures id in index ==> Put(index, id, other, score)[id].score >= index[id].score
    ensures Round3(Put(index, id, other, score)[id].score) == Put(index, id, other, score)[id].score
  {
    Round3IsIdempotent(score);
    if id in index {
      var stored := index[id].score;
      if stored < score {
        Round3IsMonotone(stored, score);
      } else {
        Round3IsMonotone(score, stored);
      }
    }
  }

  lemma SourcedIsRounded(ids: seq<string>, met: Met, id: string, link: Link)
    requires Sourced(ids, met, id, link)
    ensures Round3(link.score) == link.score
  {
    var p :| LinkedBy(ids, met, id, link, p);
    Round3IsIdempotent(met[p]);
  }

  lemma SourcedMore(ids: seq<string>, met: Met, id: string, link: Link, p: Two, s: real)
    requires Sourced(ids, met, id, link) && p !in met
    ensures Sourced(ids, met[p := s], id, link)
  {
    var x :| LinkedBy(ids, met, id, link, x);
    assert LinkedBy(ids, met[p := s], id, link, x);
  }

  /** Recording one qualifying pair at both ends, as the loop body does. */
  function Record(index: Index, ids: seq<string>, p: Two, s: real): Index
    requires p.first < |ids| && p.second < |ids|
  {
    Put(Put(index, ids[p.first], p.second, s), ids[p.second], p.first, s)
  }

  lemma RecordSources(index: Index, ids: seq<string>, met: Met, p: Two, s: real, id: string)
    requires IsBest(index, ids, met) && p !in met && p.first < |ids| && p.second < |ids|
    requires id in Record(index, ids, p, s)
    ensures Sourced(ids, met[p := s], id, Record(index, ids, p, s)[id])
  {
    var link := Record(index, ids, p, s)[id];
    if id in index && link == index[id] {
      SourcedMore(ids, met, id, link, p, s);
    } else {
      assert LinkedBy(ids, met[p := s], id, link, p);
    }
  }

  lemma RecordCovers(index: Index, ids: seq<string>, p: Two, s: real)
    requires p.first < |ids| && p.second < |ids|
    requires forall id :: id in index ==> Round3(index[id].score) == index[id].score
    ensures Covers(Record(index, ids, p, s), ids[p.first], s) && Covers(Record(index, ids, p, s), ids[p.second], s)
    ensures forall id :: id in index ==> id in Record(index, ids, p, s) && Record(index, ids, p, s)[id].score >= index[id].score
  {
    PutCovers(index, ids[p.first], p.second, s);
    PutCovers(Put(index, ids[p.first], p.second, s), ids[p.second], p.first, s);
  }

  lemma RecordKeepsBest(index: Index, ids: seq<string>, met: Met, p: Two, s: real)
    requires IsBest(index, ids, met) && p !in met && p.first < |ids| && p.second < |ids|
    ensures IsBest(Record(index, ids, p, s), ids, met[p := s])
  {
    var end := Record(index, ids, p, s);
    forall id | id in end ensures Sourced(ids, met[p := s], id, end[id]) {
      RecordSources(index, ids, met, p, s, id);
    }
    forall id | id in index ensures Round3(index[id].score) == index[id].score {
      SourcedIsRounded(ids, met, id, index[id]);
    }
    RecordCovers(index, ids, p, s);
    forall q, id | q in met[p := s] && Touches(ids, q, id) ensures Covers(end, id, met[p := s][q]) {
      if q != p {
        assert Covers(index, id, met[q]);
      }
    }
  }

  /** `score(a, b)` for positions `a < b`. */
  type PairScores = (nat, nat) -> Option<real>

  ghost predicate Qualifies(ids: seq<string>, score: PairScores, a: nat, b: nat) {
    a < b < |ids| && score(a, b).Some? && ids[a] != "" && ids[b] != ""
  }

  /** `met` holds exactly the qualifying pairs whose first member is below `n`, at their scores. */
  ghost predicate MetBelow(met: Met, ids: seq<string>, score: PairScores, n: nat) {
    && (forall p :: p in met <==> p.first < n && Qualifies(ids, score, p.first, p.second))
    && (forall p :: p in met ==> score(p.first, p.second) == Some(met[p]))
  }

  ghost predicate MetRow(met: Met, met0: Met, ids: seq<string>, score: PairScores, i: nat, j: nat) {
    && (forall p :: p in met <==> p in met0 || (p.first == i && p.second < j && Qualifies(ids, score, p.first, p.second)))
    && (forall p :: p in met && p !in met0 ==> score(p.first, p.second) == Some(met[p]))
    && (forall p :: p in met0 && p in met ==> met[p] == met0[p])
  }

  // ----- The order of the double loop

  /** A qualifying pair with its unrounded score, as the loop meets it. */
  datatype Meeting = Meeting(pair: Two, score: real)

  predicate Meets(ids: seq<string>, score: PairScores, i: nat, j: nat) {
    i < |ids| && j < |ids| && score(i, j).Some? && ids[i] != "" && ids[j] != ""
  }

  /** What the loop meets at one pair of positions. */
  function MeetingAt(ids: seq<string>, score: PairScores, i: nat, j: nat): seq<Meeting> {
    if Meets(ids, score, i, j) then [Meeting(Two(i, j), score(i, j).value)] else []
  }

  /** The qualifying pairs of row `i` with a second member below `j`. */
  function RowMeetings(ids: seq<string>, score: PairScores, i: nat, j: nat): seq<Meeting> {
    if j <= i + 1 then [] else RowMeetings(ids, score, i, j - 1) + MeetingAt(ids, score, i, j - 1)
  }

  /** The qualifying pairs of the rows below `n`. */
  function Meetings(ids: seq<string>, score: PairScores, n: nat): seq<Meeting> {
    if n == 0 then [] else Meetings(ids, score, n - 1) + RowMeetings(ids, score, n - 1, |ids|)
  }

  function RecordMeeting(index: Index, ids: seq<string>, m: Meeting): Index {
    if m.pair.first < |ids| && m.pair.second < |ids| then Record(index, ids, m.pair, m.score) else index
  }

  /** The index after these meetings. */
  function RecordAll(ids: seq<string>, ms: seq<Meeting>): Index {
    if ms == [] then map[] else RecordMeeting(RecordAll(ids, ms[..|ms| - 1]), ids, ms[|ms| - 1])
  }

  /** The meetings as a map. */
  function MetOf(ms: seq<Meeting>): Met {
    if ms == [] then map[] else MetOf(ms[..|ms| - 1])[ms[|ms| - 1].pair := ms[|ms| - 1].score]
  }

  /** Pairs of positions in the list, none met twice. */
  predicate Fresh(ids: seq<string>, ms: seq<Meeting>) {
    ms != [] ==> Fresh(ids, ms[..|ms| - 1]) && FreshNext(ids, MetOf(ms[..|ms| - 1]), ms[|ms| - 1].pair)
  }

  predicate FreshNext(ids: seq<string>, met: Met, p: Two) {
    p.first < |ids| && p.second < |ids| && p !in met
  }

  lemma OneMoreMeeting(ids: seq<string>, ms: seq<Meeting>, m: Meeting)
    ensures MetOf(ms + [m]) == MetOf(ms)[m.pair := m.score]
    ensures Fresh(ids, ms) && FreshNext(ids, MetOf(ms), m.pair) ==> Fresh(ids, ms + [m])
    ensures RecordAll(ids, ms + [m]) == RecordMeeting(RecordAll(ids, ms), ids, m)
  {
    assert (ms + [m])[..|ms|] == ms;
  }

  /** What the meetings record is best for them. */
  lemma {:induction false} RecordAllIsBest(ids: seq<string>, ms: seq<Meeting>)
    requires Fresh(ids, ms)
    ensures IsBest(RecordAll(ids, ms), ids, MetOf(ms))
  {
    if ms != [] {
      var before, last := ms[..|ms| - 1], ms[|ms| - 1];
      RecordAllIsBest(ids, before);
      RecordKeepsBest(RecordAll(ids, before), ids, MetOf(before), last.pair, last.score);
    }
  }

  lemma MetRowNext(met: Met, met0: Met, ids: seq<string>, score: PairScores, i: nat, j: nat)
    requires i < j < |ids| && MetRow(met, met0, ids, score, i, j) && Below(met0, i)
    ensures Two(i, j) !in met
    ensures MetRow(if Meets(ids, score, i, j) then met[Two(i, j) := score(i, j).value] else met, met0, ids, score, i, j + 1)
  {
  }

  ghost predicate Below(met: Met, i: nat) {
    forall p :: p in met ==> p.first < i
  }

  /** The row's meetings after those before it. */
  function UpTo(ids: seq<string>, score: PairScores, i: nat, j: nat, before: seq<Meeting>): seq<Meeting> {
    before + RowMeetings(ids, score, i, j)
  }

  lemma UpToNext(ids: seq<string>, score: PairScores, i: nat, j: nat, before: seq<Meeting>)
    requires i < j
    ensures UpTo(ids, score, i, j + 1, before) == UpTo(ids, score, i, j, before) + MeetingAt(ids, score, i, j)
  {
  }

  lemma {:induction false} RowIsMet(ids: seq<string>, score: PairScores, i: nat, j: nat, before: seq<Meeting>)
    requires i < j <= |ids| && Fresh(ids, before) && Below(MetOf(before), i)
    ensures Fresh(ids, UpTo(ids, score, i, j, before))
    ensures MetRow(MetOf(UpTo(ids, score, i, j, before)), MetOf(before), ids, score, i, j)
  {
    if j == i + 1 {
      assert UpTo(ids, score, i, j, before) == before;
    } else {
      RowIsMet(ids, score, i, j - 1, before);
      RowStepIsMet(ids, score, i, j - 1, before, UpTo(ids, score, i, j - 1, before));
      UpToNext(ids, score, i, j - 1, before);
    }
  }

  lemma RowStepIsMet(ids: seq<string>, score: PairScores, i: nat, j: nat, before: seq<Meeting>, ms: seq<Meeting>)
    requires i < j < |ids| && Below(MetOf(before), i) && Fresh(ids, ms) && MetRow(MetOf(ms), MetOf(before), ids, score, i, j)
    ensures Fresh(ids, ms + MeetingAt(ids, score, i, j))
    ensures MetRow(MetOf(ms + MeetingAt(ids, score, i, j)), MetOf(before), ids, score, i, j + 1)
  {
    MetRowNext(MetOf(ms), MetOf(before), ids, score, i, j);
    if Meets(ids, score, i, j) {
      OneMoreMeeting(ids, ms, Meeting(Two(i, j), score(i, j).value));
    } else {
      assert ms + [] == ms;
    }
  }

  lemma MetBelowNext(met: Met, met0: Met, ids: seq<string>, score: PairScores, i: nat)
    requires i < |ids| && MetBelow(met0, ids, score, i) && MetRow(met, met0, ids, score, i, |ids|)
    ensures MetBelow(met, ids, score, i + 1)
  {
  }

  /** `ms` holds exactly the qualifying pairs of the rows below `n`, each once. */
  ghost predicate AllMet(ids: seq<string>, score: PairScores, ms: seq<Meeting>, n: nat) {
    Fresh(ids, ms) && MetBelow(MetOf(ms), ids, score, n)
  }

  lemma NextRowIsMet(ids: seq<string>, score: PairScores, i: nat, before: seq<Meeting>, ms: seq<Meeting>)
    requires i < |ids| && AllMet(ids, score, before, i) && ms == UpTo(ids, score, i, |ids|, before)
    ensures AllMet(ids, score, ms, i + 1)
  {
    RowIsMet(ids, score, i, |ids|, before);
    MetBelowNext(MetOf(ms), MetOf(before), ids, score, i);
  }

  /** The loop meets every qualifying pair, once. */
  lemma AllAreMet(ids: seq<string>, score: PairScores)
    ensures AllMet(ids, score, Meetings(ids, score, |ids|), |ids|)
  {
    NoneMet(ids, score);
    for n := 0 to |ids|
      invariant AllMet(ids, score, Meetings(ids, score, n), n)
    {
      AllMetNext(ids, score, n);
    }
  }

  lemma AllMetNext(ids: seq<string>, score: PairScores, n: nat)
    requires n < |ids| && AllMet(ids, score, Meetings(ids, score, n), n)
    ensures AllMet(ids, score, Meetings(ids, score, n + 1), n + 1)
  {
    MeetingsNext(ids, score, n);
    NextRowIsMet(ids, score, n, Meetings(ids, score, n), Meetings(ids, score, n + 1));
  }

  lemma NoneMet(ids: seq<string>, score: PairScores)
    ensures AllMet(ids, score, [], 0)
  {
  }

  lemma MeetingsNext(ids: seq<string>, score: PairScores, n: nat)
    ensures Meetings(ids, score, n + 1) == UpTo(ids, score, n, |ids|, Meetings(ids, score, n))
  {
  }

  // ----- The double loop

  const MaxTransactions := 500

  ghost predicate StepAt(states: seq<Index>, ids: seq<string>, score: PairScores, i: nat, j: nat) {
    i < |ids| && j < |ids| && j + 1 < |states| &&
    states[j + 1] == if Meets(ids, score, i, j) then Record(states[j], ids, Two(i, j), score(i, j).value) else states[j]
  }

  ghost predicate Steps(states: seq<Index>, ids: seq<string>, score: PairScores, i: nat) {
    |states| == |ids| + 1 &&
    forall j: nat {:trigger StepAt(states, ids, score, i, j)} :: i < j < |ids| ==> StepAt(states, ids, score, i, j)
  }

  /** One turn of the inner loop. */
  method ScanPair(ids: seq<string>, score: PairScores, i: nat, j: nat, index0: Index, ghost states: seq<Index>) returns (index: Index)
    requires i < j < |ids| && Steps(states, ids, score, i) && index0 == states[j]
    ensures index == states[j + 1]
  {
    assert StepAt(states, ids, score, i, j);
    index := index0;
    var s := score(i, j);
    if s.Some? && ids[i] != "" && ids[j] != "" {
      index := Record(index, ids, Two(i, j), s.value);
    }
  }

  method ScanRow(ids: seq<string>, score: PairScores, i: nat, index0: Index, ghost states: seq<Index>) returns (index: Index)
    requires i < |ids| && Steps(states, ids, score, i) && index0 == states[i + 1]
    ensures index == states[|ids|]
  {
    index := index0;
    for j := i + 1 to |ids|
      invariant index == states[j]
    {
      index := ScanPair(ids, score, i, j, index, states);
    }
  }

  /** The index along a row. */
  ghost function RowStates(ids: seq<string>, score: PairScores, i: nat, before: seq<Meeting>): (states: seq<Index>)
    ensures |states| == |ids| + 1 && forall j :: 0 <= j <= |ids| ==> states[j] == RecordAll(ids, UpTo(ids, score, i, j, before))
  {
    seq(|ids| + 1, j requires 0 <= j <= |ids| => RecordAll(ids, UpTo(ids, score, i, j, before)))
  }

  lemma RowSteps(ids: seq<string>, score: PairScores, i: nat, before: seq<Meeting>)
    requires i < |ids|
    ensures Steps(RowStates(ids, score, i, before), ids, score, i)
    ensures RowStates(ids, score, i, before)[i + 1] == RecordAll(ids, before)
  {
    assert UpTo(ids, score, i, i + 1, before) == before;
    forall j: nat | i < j < |ids| ensures StepAt(RowStates(ids, score, i, before), ids, score, i, j) {
      UpToNext(ids, score, i, j, before);
      RecordNext(ids, score, i, j, UpTo(ids, score, i, j, before));
    }
  }

  lemma RecordNext(ids: seq<string>, score: PairScores, i: nat, j: nat, ms: seq<Meeting>)
    requires i < |ids| && j < |ids|
    ensures RecordAll(ids, ms + MeetingAt(ids, score, i, j))
         == if Meets(ids, score, i, j) then Record(RecordAll(ids, ms), ids, Two(i, j), score(i, j).value) else RecordAll(ids, ms)
  {
    if Meets(ids, score, i, j) {
      OneMoreMeeting(ids, ms, Meeting(Two(i, j), score(i, j).value));
    } else {
      assert ms + [] == ms;
    }
  }

  /** The double loop over the list, skipped for very long lists. */
  method BuildIndex(ids: seq<string>, score: PairScores) returns (index: Index)
    ensures |ids| > MaxTransactions ==> index == map[]
    ensures |ids| <= MaxTransactions ==> index == RecordAll(ids, Meetings(ids, score, |ids|))
    ensures |ids| <= MaxTransactions ==> IsBest(index, ids, MetOf(Meetings(ids, score, |ids|)))
  {
    index := map[];
    if |ids| > MaxTransactions {
      return;
    }
    for i := 0 to |ids|
      invariant index == RecordAll(ids, Meetings(ids, score, i))
    {
      RowSteps(ids, score, i, Meetings(ids, score, i));
      index := ScanRow(ids, score, i, index, RowStates(ids, score, i, Meetings(ids, score, i)));
    }
    IndexIsBest(ids, score);
  }

  lemma IndexIsBest(ids: seq<string>, score: PairScores)
    ensures IsBest(RecordAll(ids, Meetings(ids, score, |ids|)), ids, MetOf(Meetings(ids, score, |ids|)))
    ensures MetBelow(MetOf(Meetings(ids, score, |ids|)), ids, score, |ids|)
  {
    AllAreMet(ids, score);
    RecordAllIsBest(ids, Meetings(ids, score, |ids|));
  }

  // ----- What that makes of the index

  /** The link is the qualifying pair `a, b` seen from `id`. */
  ghost predicate LinksTo(ids: seq<string>, score: PairScores, id: string, link: Link, a: nat, b: nat) {
    && Qualifies(ids, score, a, b) && Round3(score(a, b).value) == link.score
    && ((ids[a] == id && link.other == b) || (ids[b] == id && link.other == a))
  }

  /** An id is indexed exactly when some partner qualifies, and its stored score is the maximum of the
      rounded scores of its qualifying pairs. */
  lemma StoredScoreIsMaximum(ids: seq<string>, score: PairScores, id: string)
    ensures var index := RecordAll(ids, Meetings(ids, score, |ids|)); IsArgmax(index, ids, score, id)
  {
    IndexIsBest(ids, score);
    BestIsArgmax(RecordAll(ids, Meetings(ids, score, |ids|)), ids, score, MetOf(Meetings(ids, score, |ids|)), id);
  }

  /** A qualifying pair with `id` at one end. */
  ghost predicate Partners(ids: seq<string>, score: PairScores, id: string, a: nat, b: nat) {
    Qualifies(ids, score, a, b) && (ids[a] == id || ids[b] == id)
  }

  ghost predicate IsArgmax(index: Index, ids: seq<string>, score: PairScores, id: string) {
    && (id in index <==> exists a: nat, b: nat :: Partners(ids, score, id, a, b))
    && (forall a: nat, b: nat :: Partners(ids, score, id, a, b) ==> id in index && Round3(score(a, b).value) <= index[id].score)
    && (id in index ==> exists a: nat, b: nat :: LinksTo(ids, score, id, index[id], a, b))
  }

  lemma BestIsArgmax(index: Index, ids: seq<string>, score: PairScores, met: Met, id: string)
    requires IsBest(index, ids, met) && MetBelow(met, ids, score, |ids|)
    ensures IsArgmax(index, ids, score, id)
  {
    if id in index {
      assert Sourced(ids, met, id, index[id]);
      var p :| LinkedBy(ids, met, id, index[id], p);
      assert LinksTo(ids, score, id, index[id], p.first, p.second);
      assert Partners(ids, score, id, p.first, p.second);
    }
    forall a: nat, b: nat | Partners(ids, score, id, a, b)
      ensures id in index && Round3(score(a, b).value) <= index[id].score
    {
      assert Two(a, b) in met && Touches(ids, Two(a, b), id);
    }
  }

  /** No other pair of `id` reaches the rounded score of `p`. */
  ghost predicate StrictlyBest(ids: seq<string>, met: Met, id: string, p: Two)
    requires p in met
  {
    forall q :: q in met && Touches(ids, q, id) && q != p ==> Round3(met[q]) < Round3(met[p])
  }

  lemma OnlySource(index: Index, ids: seq<string>, met: Met, id: string, p: Two)
    requires IsBest(index, ids, met) && p in met && Touches(ids, p, id) && StrictlyBest(ids, met, id, p)
    ensures id in index && LinkedBy(ids, met, id, index[id], p)
  {
    assert Covers(index, id, met[p]);
    var q :| LinkedBy(ids, met, id, index[id], q);
    assert Touches(ids, q, id);
  }

  /** A pair that is strictly best for both ends is recorded at both ends. */
  lemma StrictBestIsMutual(index: Index, ids: seq<string>, met: Met, p: Two)
    requires IsBest(index, ids, met) && p in met && p.first < |ids| && p.second < |ids| && ids[p.first] != ids[p.second]
    requires StrictlyBest(ids, met, ids[p.first], p) && StrictlyBest(ids, met, ids[p.second], p)
    ensures ids[p.first] in index && index[ids[p.first]] == Link(p.second, Round3(met[p]))
    ensures ids[p.second] in index && index[ids[p.second]] == Link(p.first, Round3(met[p]))
  {
    OnlySource(index, ids, met, ids[p.first], p);
    OnlySource(index, ids, met, ids[p.second], p);
  }
}
