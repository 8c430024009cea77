/** The cross-reference of ERP bank transactions with the task manager: four
    lists that share one ERP index, each entry taken out when it is used. */
module BankReconciliation {
  import opened Wrappers

  /** A task-manager item with its transaction id (`blank` when it has none). */
  datatype Entry<K, A> = Entry(id: K, item: A)

  /** An item shown together with the ERP record it took. */
  datatype Match<K, A, R> = Match(id: K, item: A, record: R)

  /** A processed item; the ERP record is optional. */
  datatype Shown<K, A, R> = Shown(id: K, item: A, record: Option<R>)

  // ---- the index ----

  function Index<K(==), R>(rows: seq<(K, R)>): map<K, R> {
    if rows == [] then map[] else Index(rows[..|rows| - 1])[rows[|rows| - 1].0 := rows[|rows| - 1].1]
  }

  predicate Distinct<K(==)>(ks: seq<K>) {
    forall i, j :: 0 <= i < j < |ks| ==> ks[i] != ks[j]
  }

  predicate Lists<K(==), R>(order: seq<K>, m: map<K, R>) {
    Distinct(order) && (set k | k in order) == m.Keys
  }

  /** The keys in the order in which the index met them first. */
  function Order<K(==), R>(rows: seq<(K, R)>): seq<K> {
    if rows == [] then []
    else
      var before, k := Order(rows[..|rows| - 1]), rows[|rows| - 1].0;
      if k in before then before else before + [k]
  }

  method BuildIndex<K(==), R>(rows: seq<(K, R)>) returns (m: map<K, R>, order: seq<K>)
    ensures m == Index(rows) && order == Order(rows) && Lists(order, m)
  {
    m, order := map[], [];
    for n := 0 to |rows|
      invariant m == Index(rows[..n]) && order == Order(rows[..n]) && Lists(order, m)
    {
      assert rows[..n + 1][..n] == rows[..n];
      if rows[n].0 !in m {
        order := order + [rows[n].0];
      }
      m := m[rows[n].0 := rows[n].1];
    }
    assert rows[..|rows|] == rows;
  }

  // ---- taking records out of the index ----

  /** The ids that the items can take out. */
  function IdsOf<K(==), A>(items: seq<Entry<K, A>>, blank: K): set<K> {
    if items == [] then {}
    else
      var before, last := IdsOf(items[..|items| - 1], blank), items[|items| - 1];
      if last.id == blank then before else before + {last.id}
  }

  lemma {:induction false} IdsOfExactly<K, A>(items: seq<Entry<K, A>>, blank: K, k: K)
    ensures k in IdsOf(items, blank) <==> k != blank && exists i :: 0 <= i < |items| && items[i].id == k
  {
    if items != [] {
      var before := items[..|items| - 1];
      IdsOfExactly(before, blank, k);
      assert items == before + [items[|items| - 1]];
      if i :| 0 <= i < |before| && before[i].id == k {
        assert items[i].id == k;
      }
    }
  }

  function Left<K(==), A, R>(m: map<K, R>, items: seq<Entry<K, A>>, blank: K): map<K, R> {
    m - IdsOf(items, blank)
  }

  /** What the last item takes given the ones before it. */
  function Taken<K(==), A, R>(m: map<K, R>, before: seq<Entry<K, A>>, e: Entry<K, A>, blank: K): Option<R> {
    if e.id != blank && e.id in Left(m, before, blank) then Some(Left(m, before, blank)[e.id]) else None
  }

  /** The items that found a record, in order. */
  function Hits<K(==), A, R>(m: map<K, R>, items: seq<Entry<K, A>>, blank: K): seq<Match<K, A, R>> {
    if items == [] then []
    else
      var before, e := items[..|items| - 1], items[|items| - 1];
      var found := Taken(m, before, e, blank);
      Hits(m, before, blank) + if found.Some? then [Match(e.id, e.item, found.value)] else []
  }

  /** All items in order, each with what it found. */
  function Shows<K(==), A, R>(m: map<K, R>, items: seq<Entry<K, A>>, blank: K): seq<Shown<K, A, R>> {
    if items == [] then []
    else
      var before, e := items[..|items| - 1], items[|items| - 1];
      Shows(m, before, blank) + [Shown(e.id, e.item, Taken(m, before, e, blank))]
  }

  /** Items with an id that found nothing. */
  function Phantoms<K(==), A, R>(m: map<K, R>, items: seq<Entry<K, A>>, blank: K): nat {
    if items == [] then 0
    else
      var before, e := items[..|items| - 1], items[|items| - 1];
      Phantoms(m, before, blank) + if e.id != blank && Taken(m, before, e, blank).None? then 1 else 0
  }

  /** `erp_map.pop(id, None)` for one item with an id. */
  method Pop<K(==), A, R>(ghost m: map<K, R>, ghost done: seq<Entry<K, A>>, rest: map<K, R>, e: Entry<K, A>, blank: K)
    returns (found: Option<R>, rest': map<K, R>)
    requires rest == Left(m, done, blank)
    ensures found == Taken(m, done, e, blank)
    ensures rest' == Left(m, done + [e], blank)
  {
    assert (done + [e])[..|done|] == done;
    found, rest' := None, rest;
    if e.id != blank && e.id in rest {
      found, rest' := Some(rest[e.id]), rest - {e.id};
    }
    if e.id != blank {
      assert IdsOf(done + [e], blank) == IdsOf(done, blank) + {e.id};
      assert Left(m, done + [e], blank) == rest - {e.id};
    }
  }

  lemma OneMore<K, A, R>(m: map<K, R>, done: seq<Entry<K, A>>, e: Entry<K, A>, blank: K)
    ensures var found := Taken(m, done, e, blank);
            Hits(m, done + [e], blank) == Hits(m, done, blank) + (if found.Some? then [Match(e.id, e.item, found.value)] else []) &&
            Shows(m, done + [e], blank) == Shows(m, done, blank) + [Shown(e.id, e.item, found)] &&
            Phantoms(m, done + [e], blank) == Phantoms(m, done, blank) + if e.id != blank && found.None? then 1 else 0
  {
    assert (done + [e])[..|done|] == done;
  }

  // ---- the four loops ----

  /** The items of the batches one after the other, each with its batch. */
  function Tagged<K, B, A>(batch: B, items: seq<Entry<K, A>>): seq<Entry<K, (B, A)>> {
    seq(|items|, i requires 0 <= i < |items| => Entry(items[i].id, (batch, items[i].item)))
  }

  function AllTagged<K, B, A>(batches: seq<(B, seq<Entry<K, A>>)>): seq<Entry<K, (B, A)>> {
    if batches == [] then []
    else AllTagged(batches[..|batches| - 1]) + Tagged(batches[|batches| - 1].0, batches[|batches| - 1].1)
  }

  ghost predicate Matched<K, A, R>(m: map<K, R>, done: seq<Entry<K, A>>, blank: K, hits: seq<Match<K, A, R>>, rest: map<K, R>, phantoms: nat) {
    hits == Hits(m, done, blank) && rest == Left(m, done, blank) && phantoms == Phantoms(m, done, blank)
  }

  /** One turn of the loops that skip items without an id and phantoms. */
  method MatchNext<K(==), A, R>(ghost m: map<K, R>, ghost done: seq<Entry<K, A>>, blank: K, e: Entry<K, A>,
                                hits: seq<Match<K, A, R>>, rest: map<K, R>, phantoms: nat)
    returns (hits': seq<Match<K, A, R>>, rest': map<K, R>, phantoms': nat)
    requires Matched(m, done, blank, hits, rest, phantoms)
    ensures Matched(m, done + [e], blank, hits', rest', phantoms')
  {
    hits', rest', phantoms' := hits, rest, phantoms;
    OneMore(m, done, e, blank);
    var found, left := Pop(m, done, rest, e, blank);
    if e.id == blank {
      assert (done + [e])[..|done|] == done;
      return;
    }
    rest' := left;
    if found.None? {
      phantoms' := phantoms + 1;
    } else {
      hits' := hits + [Match(e.id, e.item, found.value)];
    }
  }

  method OneBatch<K(==), B, A, R>(ghost m: map<K, R>, ghost before: seq<Entry<K, (B, A)>>, batch: B, items: seq<Entry<K, A>>, blank: K,
                                  hits: seq<Match<K, (B, A), R>>, rest: map<K, R>, phantoms: nat)
    returns (hits': seq<Match<K, (B, A), R>>, rest': map<K, R>, phantoms': nat)
    requires Matched(m, before, blank, hits, rest, phantoms)
    ensures Matched(m, before + Tagged(batch, items), blank, hits', rest', phantoms')
  {
    hits', rest', phantoms' := hits, rest, phantoms;
    ghost var tagged := Tagged(batch, items);
    assert before + tagged[..0] == before;
    for i := 0 to |items|
      invariant Matched(m, before + tagged[..i], blank, hits', rest', phantoms')
    {
      assert (before + tagged[..i]) + [tagged[i]] == before + tagged[..i + 1];
      hits', rest', phantoms' :=
        MatchNext(m, before + tagged[..i], blank, Entry(items[i].id, (batch, items[i].item)), hits', rest', phantoms');
    }
    assert tagged[..|items|] == tagged;
  }

  method InProcess<K(==), B, A, R>(m: map<K, R>, batches: seq<(B, seq<Entry<K, A>>)>, blank: K)
    returns (hits: seq<Match<K, (B, A), R>>, rest: map<K, R>, phantoms: nat)
    ensures Matched(m, AllTagged(batches), blank, hits, rest, phantoms)
  {
    hits, rest, phantoms := [], m, 0;
    for b := 0 to |batches|
      invariant Matched(m, AllTagged(batches[..b]), blank, hits, rest, phantoms)
    {
      assert batches[..b + 1][..b] == batches[..b];
      hits, rest, phantoms :=
        OneBatch(m, AllTagged(batches[..b]), batches[b].0, batches[b].1, blank, hits, rest, phantoms);
    }
    assert batches[..|batches|] == batches;
  }

  method Pending<K(==), A, R>(m: map<K, R>, items: seq<Entry<K, A>>, blank: K)
    returns (hits: seq<Match<K, A, R>>, rest: map<K, R>, phantoms: nat)
    ensures Matched(m, items, blank, hits, rest, phantoms)
  {
    hits, rest, phantoms := [], m, 0;
    for i := 0 to |items|
      invariant Matched(m, items[..i], blank, hits, rest, phantoms)
    {
      assert items[..i] + [items[i]] == items[..i + 1];
      hits, rest, phantoms := MatchNext(m, items[..i], blank, items[i], hits, rest, phantoms);
    }
    assert items[..|items|] == items;
  }

  method Processed<K(==), A, R>(m: map<K, R>, items: seq<Entry<K, A>>, blank: K)
    returns (shown: seq<Shown<K, A, R>>, rest: map<K, R>)
    ensures shown == Shows(m, items, blank) && rest == Left(m, items, blank)
  {
    shown, rest := [], m;
    for i := 0 to |items|
      invariant shown == Shows(m, items[..i], blank) && rest == Left(m, items[..i], blank)
    {
      assert items[..i] + [items[i]] == items[..i + 1];
      OneMore(m, items[..i], items[i], blank);
      var found;
      found, rest := Pop(m, items[..i], rest, items[i], blank);
      shown := shown + [Shown(items[i].id, items[i].item, found)];
    }
    assert items[..|items|] == items;
  }

  /** The records left in the index, in the order of the index. */
  function Remaining<K(==), R>(rest: map<K, R>, order: seq<K>): seq<(K, R)> {
    if order == [] then []
    else
      var before, k := Remaining(rest, order[..|order| - 1]), order[|order| - 1];
      if k in rest then before + [(k, rest[k])] else before
  }

  method ToProcess<K(==), R>(rest: map<K, R>, order: seq<K>) returns (rows: seq<(K, R)>)
    ensures rows == Remaining(rest, order)
  {
    rows := [];
    for i := 0 to |order|
      invariant rows == Remaining(rest, order[..i])
    {
      assert order[..i + 1][..i] == order[..i];
      if order[i] in rest {
        rows := rows + [(order[i], rest[order[i]])];
      }
    }
    assert order[..|order|] == order;
  }

  // ---- what each list holds ----

  function HitIds<K, A, R>(hits: seq<Match<K, A, R>>): seq<K> {
    seq(|hits|, i requires 0 <= i < |hits| => hits[i].id)
  }

  /** Every match carries the record the index has under its id. */
  ghost predicate Genuine<K, A, R>(m: map<K, R>, hits: seq<Match<K, A, R>>) {
    forall i :: 0 <= i < |hits| ==> hits[i].id in m && hits[i].record == m[hits[i].id]
  }

  function Among<K(==)>(ks: seq<K>): set<K> {
    set k | k in ks
  }

  lemma AmongAppend<K>(ks: seq<K>, k: K)
    ensures Among(ks + [k]) == Among(ks) + {k}
    ensures Distinct(ks) && k !in ks ==> Distinct(ks + [k])
  {
  }

  /** The matched ids are, once each, the ids of the index that occur. */
  lemma {:induction false} HitsAreExact<K, A, R>(m: map<K, R>, items: seq<Entry<K, A>>, blank: K)
    ensures Genuine(m, Hits(m, items, blank))
    ensures Distinct(HitIds(Hits(m, items, blank)))
    ensures Among(HitIds(Hits(m, items, blank))) == m.Keys * IdsOf(items, blank)
  {
    if items != [] {
      var n := |items| - 1;
      HitsAreExact(m, items[..n], blank);
      HitStep(m, items[..n], items[n], blank, Hits(m, items[..n], blank));
    }
  }

  lemma HitStep<K, A, R>(m: map<K, R>, before: seq<Entry<K, A>>, e: Entry<K, A>, blank: K, hits: seq<Match<K, A, R>>)
    requires Genuine(m, hits) && Distinct(HitIds(hits)) && Among(HitIds(hits)) == m.Keys * IdsOf(before, blank)
    ensures var found := Taken(m, before, e, blank);
            var next := hits + if found.Some? then [Match(e.id, e.item, found.value)] else [];
            Genuine(m, next) && Distinct(HitIds(next)) &&
            Among(HitIds(next)) == m.Keys * (IdsOf(before, blank) + if e.id == blank then {} else {e.id})
  {
    var found := Taken(m, before, e, blank);
    if found.Some? {
      var next := hits + [Match(e.id, e.item, found.value)];
      assert HitIds(next) == HitIds(hits) + [e.id];
      assert e.id !in Among(HitIds(hits));
      AmongAppend(HitIds(hits), e.id);
    } else {
      assert hits + [] == hits;
      assert m.Keys * (IdsOf(before, blank) + if e.id == blank then {} else {e.id}) == m.Keys * IdsOf(before, blank);
    }
  }

  predicate IsFirst<K(==), A>(items: seq<Entry<K, A>>, i: int, id: K) {
    0 <= i < |items| && items[i].id == id && forall j :: 0 <= j < i ==> items[j].id != id
  }

  /** A record goes to the first item that names it. */
  lemma {:induction false} HitsAreFirst<K, A, R>(m: map<K, R>, items: seq<Entry<K, A>>, blank: K, h: nat)
    requires h < |Hits(m, items, blank)|
    ensures var hit := Hits(m, items, blank)[h];
            exists i :: IsFirst(items, i, hit.id) && items[i].item == hit.item
  {
    var n := |items| - 1;
    var before := items[..n];
    var hit := Hits(m, items, blank)[h];
    if h < |Hits(m, before, blank)| {
      HitsAreFirst(m, before, blank, h);
      var i :| IsFirst(before, i, hit.id) && before[i].item == hit.item;
      assert IsFirst(items, i, hit.id);
    } else {
      IdsOfExactly(before, blank, hit.id);
      assert forall j :: 0 <= j < n ==> items[j] == before[j];
      assert IsFirst(items, n, hit.id);
    }
  }

  /** Items are matched in their own order: what comes later only adds to the end. */
  lemma {:induction false} HitsGrow<K, A, R>(m: map<K, R>, items: seq<Entry<K, A>>, blank: K, n: nat)
    requires n <= |items|
    ensures Hits(m, items[..n], blank) <= Hits(m, items, blank)
  {
    if n < |items| {
      var before := items[..|items| - 1];
      HitsGrow(m, before, blank, n);
      assert before[..n] == items[..n];
    } else {
      assert items[..n] == items;
    }
  }

  lemma {:induction false} OrderGrows<K, R>(rows: seq<(K, R)>, n: nat)
    requires n <= |rows|
    ensures Order(rows[..n]) <= Order(rows)
  {
    if n < |rows| {
      var before := rows[..|rows| - 1];
      OrderGrows(before, n);
      assert before[..n] == rows[..n];
    } else {
      assert rows[..n] == rows;
    }
  }

  /** The processed items that found a record. */
  function Found<K, A, R>(shown: seq<Shown<K, A, R>>): seq<Match<K, A, R>> {
    if shown == [] then []
    else
      var before, s := Found(shown[..|shown| - 1]), shown[|shown| - 1];
      before + if s.record.Some? then [Match(s.id, s.item, s.record.value)] else []
  }

  lemma {:induction false} FoundAreHits<K, A, R>(m: map<K, R>, items: seq<Entry<K, A>>, blank: K)
    ensures Found(Shows(m, items, blank)) == Hits(m, items, blank)
    ensures |Shows(m, items, blank)| == |items|
    ensures forall i :: 0 <= i < |items| ==> Shows(m, items, blank)[i].item == items[i].item && Shows(m, items, blank)[i].id == items[i].id
  {
    if items != [] {
      var n := |items| - 1;
      FoundAreHits(m, items[..n], blank);
      var shown := Shows(m, items, blank);
      assert shown[..n] == Shows(m, items[..n], blank);
    }
  }

  lemma {:induction false} RemainingIsExact<K, R>(rest: map<K, R>, order: seq<K>)
    requires Distinct(order)
    ensures Distinct(RowIds(Remaining(rest, order)))
    ensures Among(RowIds(Remaining(rest, order))) == rest.Keys * Among(order)
    ensures forall i :: 0 <= i < |Remaining(rest, order)| ==>
      Remaining(rest, order)[i].0 in rest && Remaining(rest, order)[i].1 == rest[Remaining(rest, order)[i].0]
  {
    if order != [] {
      var n := |order| - 1;
      var before, rows := order[..n], Remaining(rest, order[..n]);
      RemainingIsExact(rest, before);
      assert order == before + [order[n]];
      AmongAppend(before, order[n]);
      if order[n] in rest {
        assert RowIds(rows + [(order[n], rest[order[n]])]) == RowIds(rows) + [order[n]];
        assert order[n] !in Among(before);
        assert order[n] !in Among(RowIds(rows));
        AmongAppend(RowIds(rows), order[n]);
      }
    }
  }

  function RowIds<K, R>(rows: seq<(K, R)>): seq<K> {
    seq(|rows|, i requires 0 <= i < |rows| => rows[i].0)
  }

  /** Items are matched, phantom, or without an id. */
  lemma {:induction false} ItemsAreCounted<K, A, R>(m: map<K, R>, items: seq<Entry<K, A>>, blank: K)
    ensures |Hits(m, items, blank)| + Phantoms(m, items, blank) + Blanks(items, blank) == |items|
  {
    if items != [] {
      ItemsAreCounted(m, items[..|items| - 1], blank);
    }
  }

  function Blanks<K(==), A>(items: seq<Entry<K, A>>, blank: K): nat {
    if items == [] then 0
    else Blanks(items[..|items| - 1], blank) + if items[|items| - 1].id == blank then 1 else 0
  }

  // ---- the whole cross-reference ----

  datatype Board<K, B, A, R> = Board(inProcess: seq<Match<K, (B, A), R>>, pending: seq<Match<K, A, R>>,
                                     processed: seq<Shown<K, A, R>>, toProcess: seq<(K, R)>)

  /** What the task manager knows. */
  datatype Tasks<K, B, A> = Tasks(batches: seq<(B, seq<Entry<K, A>>)>, pending: seq<Entry<K, A>>, processed: seq<Entry<K, A>>)

  datatype Place = InProcessList | PendingList | ProcessedList | ToProcessList

  /** Where an ERP record goes: the first list, in this order, that names it. */
  function PlaceOf<K(==), B, A>(tasks: Tasks<K, B, A>, blank: K, k: K): Place {
    if k in IdsOf(AllTagged(tasks.batches), blank) then InProcessList
    else if k in IdsOf(tasks.pending, blank) then PendingList
    else if k in IdsOf(tasks.processed, blank) then ProcessedList
    else ToProcessList
  }

  predicate Names<K(==), A>(items: seq<Entry<K, A>>, k: K) {
    exists i :: 0 <= i < |items| && items[i].id == k
  }

  predicate BatchNames<K(==), B, A>(batches: seq<(B, seq<Entry<K, A>>)>, k: K) {
    exists b :: 0 <= b < |batches| && Names(batches[b].1, k)
  }

  lemma {:induction false} TaggedNames<K, B, A>(batches: seq<(B, seq<Entry<K, A>>)>, k: K)
    ensures Names(AllTagged(batches), k) <==> BatchNames(batches, k)
  {
    if batches != [] {
      var n := |batches| - 1;
      TaggedNames(batches[..n], k);
      NamesConcat(AllTagged(batches[..n]), Tagged(batches[n].0, batches[n].1), k);
      NamesTagged(batches[n].0, batches[n].1, k);
      assert BatchNames(batches, k) <==> BatchNames(batches[..n], k) || Names(batches[n].1, k) by {
        if b :| 0 <= b < n && Names(batches[..n][b].1, k) { assert Names(batches[b].1, k); }
      }
    }
  }

  lemma NamesConcat<K, A>(a: seq<Entry<K, A>>, b: seq<Entry<K, A>>, k: K)
    ensures Names(a + b, k) <==> Names(a, k) || Names(b, k)
  {
    if i :| 0 <= i < |a| && a[i].id == k { assert (a + b)[i].id == k; }
    if i :| 0 <= i < |b| && b[i].id == k { assert (a + b)[|a| + i].id == k; }
  }

  lemma NamesTagged<K, B, A>(batch: B, items: seq<Entry<K, A>>, k: K)
    ensures Names(Tagged(batch, items), k) <==> Names(items, k)
  {
    if i :| 0 <= i < |items| && items[i].id == k { assert Tagged(batch, items)[i].id == k; }
  }

  /** A batch under way comes before the pending list, that before the processed
      one, and what nobody names is still to be processed. */
  lemma PlaceExactly<K, B, A>(tasks: Tasks<K, B, A>, blank: K, k: K)
    requires k != blank
    ensures PlaceOf(tasks, blank, k).InProcessList? <==> BatchNames(tasks.batches, k)
    ensures PlaceOf(tasks, blank, k).PendingList? <==> !BatchNames(tasks.batches, k) && Names(tasks.pending, k)
    ensures PlaceOf(tasks, blank, k).ProcessedList? <==>
            !BatchNames(tasks.batches, k) && !Names(tasks.pending, k) && Names(tasks.processed, k)
    ensures PlaceOf(tasks, blank, blank).ToProcessList?
  {
    TaggedNames(tasks.batches, k);
    IdsOfExactly(AllTagged(tasks.batches), blank, k);
    IdsOfExactly(tasks.pending, blank, k);
    IdsOfExactly(tasks.processed, blank, k);
    IdsOfExactly(AllTagged(tasks.batches), blank, blank);
    IdsOfExactly(tasks.pending, blank, blank);
    IdsOfExactly(tasks.processed, blank, blank);
  }

  /** The ids of the records each list consumed. */
  function Consumed<K, B, A, R>(board: Board<K, B, A, R>, p: Place): seq<K> {
    match p
    case InProcessList => HitIds(board.inProcess)
    case PendingList => HitIds(board.pending)
    case ProcessedList => HitIds(Found(board.processed))
    case ToProcessList => RowIds(board.toProcess)
  }

  /** A list holds, once each, exactly the ERP records whose place it is. */
  ghost predicate Exact<K(!new), B, A, R>(erp: map<K, R>, tasks: Tasks<K, B, A>, blank: K, board: Board<K, B, A, R>, p: Place) {
    Distinct(Consumed(board, p)) &&
    forall k :: k in Consumed(board, p) <==> k in erp && PlaceOf(tasks, blank, k) == p
  }

  ghost predicate Faithful<K, R>(erp: map<K, R>, rows: seq<(K, R)>) {
    forall i :: 0 <= i < |rows| ==> rows[i].0 in erp && rows[i].1 == erp[rows[i].0]
  }

  /** Every record on the board is the ERP's own, and all processed items show. */
  ghost predicate Authentic<K, B, A, R>(erp: map<K, R>, tasks: Tasks<K, B, A>, board: Board<K, B, A, R>) {
    Genuine(erp, board.inProcess) && Genuine(erp, board.pending) && Genuine(erp, Found(board.processed)) &&
    Faithful(erp, board.toProcess) && AllShown(tasks, board)
  }

  ghost predicate AllShown<K, B, A, R>(tasks: Tasks<K, B, A>, board: Board<K, B, A, R>) {
    |board.processed| == |tasks.processed| &&
    forall i :: 0 <= i < |tasks.processed| ==> board.processed[i].item == tasks.processed[i].item && board.processed[i].id == tasks.processed[i].id
  }

  method Reconcile<K(==,!new), B, A, R>(rows: seq<(K, R)>, tasks: Tasks<K, B, A>, blank: K)
    returns (board: Board<K, B, A, R>, phantomsInProcess: nat, phantomsPending: nat)
    ensures forall p :: Exact(Index(rows), tasks, blank, board, p)
    ensures Authentic(Index(rows), tasks, board)
    ensures board == BoardOf(Index(rows), Order(rows), tasks, blank)
    ensures |board.inProcess| + phantomsInProcess + Blanks(AllTagged(tasks.batches), blank) == |AllTagged(tasks.batches)|
    ensures |board.pending| + phantomsPending + Blanks(tasks.pending, blank) == |tasks.pending|
  {
    var erp, order := BuildIndex(rows);
    var inProcess, rest1, phantoms1 := InProcess(erp, tasks.batches, blank);
    var pending, rest2, phantoms2 := Pending(rest1, tasks.pending, blank);
    var processed, rest3 := Processed(rest2, tasks.processed, blank);
    var toProcess := ToProcess(rest3, order);
    board, phantomsInProcess, phantomsPending := Board(inProcess, pending, processed, toProcess), phantoms1, phantoms2;
    ItemsAreCounted(erp, AllTagged(tasks.batches), blank);
    ItemsAreCounted(rest1, tasks.pending, blank);
    BoardIsExact(erp, order, tasks, blank, board);
  }

  /** The four lists computed one after the other from a shrinking index. */
  ghost function BoardOf<K, B, A, R>(erp: map<K, R>, order: seq<K>, tasks: Tasks<K, B, A>, blank: K): Board<K, B, A, R> {
    var rest1 := Left(erp, AllTagged(tasks.batches), blank);
    var rest2 := Left(rest1, tasks.pending, blank);
    var rest3 := Left(rest2, tasks.processed, blank);
    Board(Hits(erp, AllTagged(tasks.batches), blank), Hits(rest1, tasks.pending, blank),
          Shows(rest2, tasks.processed, blank), Remaining(rest3, order))
  }

  lemma MemberIffAmong<K>(ks: seq<K>, k: K)
    ensures k in ks <==> k in Among(ks)
  {
  }

  lemma GenuineInLarger<K, A, R>(small: map<K, R>, gone: set<K>, erp: map<K, R>, hits: seq<Match<K, A, R>>)
    requires Genuine(small, hits) && small == erp - gone
    ensures Genuine(erp, hits)
  {
  }

  /** What is in the index before each list, as a set. */
  function GoneBefore<K(==), B, A>(tasks: Tasks<K, B, A>, blank: K, p: Place): set<K> {
    match p
    case InProcessList => {}
    case PendingList => IdsOf(AllTagged(tasks.batches), blank)
    case ProcessedList => IdsOf(AllTagged(tasks.batches), blank) + IdsOf(tasks.pending, blank)
    case ToProcessList => IdsOf(AllTagged(tasks.batches), blank) + IdsOf(tasks.pending, blank) + IdsOf(tasks.processed, blank)
  }

  lemma LeftTwice<K, R>(erp: map<K, R>, a: set<K>, b: set<K>)
    ensures (erp - a) - b == erp - (a + b)
  {
  }

  /** The consumed ids of each list as a set. */
  function Share<K(==), B, A, R>(erp: map<K, R>, tasks: Tasks<K, B, A>, blank: K, p: Place): set<K> {
    var here := erp.Keys - GoneBefore(tasks, blank, p);
    match p
    case InProcessList => here * IdsOf(AllTagged(tasks.batches), blank)
    case PendingList => here * IdsOf(tasks.pending, blank)
    case ProcessedList => here * IdsOf(tasks.processed, blank)
    case ToProcessList => here
  }

  lemma ShareIsPlace<K, B, A, R>(erp: map<K, R>, tasks: Tasks<K, B, A>, blank: K, p: Place, k: K)
    ensures k in Share(erp, tasks, blank, p) <==> k in erp && PlaceOf(tasks, blank, k) == p
  {
  }

  ghost predicate IsShare<K, B, A, R>(erp: map<K, R>, tasks: Tasks<K, B, A>, blank: K, board: Board<K, B, A, R>, p: Place) {
    Distinct(Consumed(board, p)) && Among(Consumed(board, p)) == Share(erp, tasks, blank, p)
  }

  lemma MatchedShares<K, B, A, R>(erp: map<K, R>, order: seq<K>, tasks: Tasks<K, B, A>, blank: K)
    ensures var board := BoardOf(erp, order, tasks, blank);
            IsShare(erp, tasks, blank, board, InProcessList) && IsShare(erp, tasks, blank, board, PendingList) &&
            Genuine(erp, board.inProcess) && Genuine(erp, board.pending)
  {
    var board := BoardOf(erp, order, tasks, blank);
    var rest := Left(erp, AllTagged(tasks.batches), blank);
    HitsAreExact(erp, AllTagged(tasks.batches), blank);
    HitsAreExact(rest, tasks.pending, blank);
    GenuineInLarger(rest, IdsOf(AllTagged(tasks.batches), blank), erp, board.pending);
    assert rest.Keys == erp.Keys - IdsOf(AllTagged(tasks.batches), blank);
  }

  lemma ProcessedShare<K, B, A, R>(erp: map<K, R>, order: seq<K>, tasks: Tasks<K, B, A>, blank: K)
    ensures var board := BoardOf(erp, order, tasks, blank);
            IsShare(erp, tasks, blank, board, ProcessedList) && Genuine(erp, Found(board.processed)) && AllShown(tasks, board)
  {
    var gone := GoneBefore(tasks, blank, ProcessedList);
    LeftTwice(erp, IdsOf(AllTagged(tasks.batches), blank), IdsOf(tasks.pending, blank));
    HitsAreExact(erp - gone, tasks.processed, blank);
    FoundAreHits(erp - gone, tasks.processed, blank);
    GenuineInLarger(erp - gone, gone, erp, Hits(erp - gone, tasks.processed, blank));
    assert (erp - gone).Keys == erp.Keys - gone;
  }

  lemma RemainingShare<K, B, A, R>(erp: map<K, R>, order: seq<K>, tasks: Tasks<K, B, A>, blank: K)
    requires Lists(order, erp)
    ensures var board := BoardOf(erp, order, tasks, blank);
            IsShare(erp, tasks, blank, board, ToProcessList) && Faithful(erp, board.toProcess)
  {
    var gone := GoneBefore(tasks, blank, ToProcessList);
    var ids1, ids2, ids3 := IdsOf(AllTagged(tasks.batches), blank), IdsOf(tasks.pending, blank), IdsOf(tasks.processed, blank);
    LeftTwice(erp, ids1, ids2);
    LeftTwice(erp, ids1 + ids2, ids3);
    RemainingIsExact(erp - gone, order);
    assert (erp - gone).Keys == erp.Keys - gone;
    assert (erp.Keys - gone) * Among(order) == erp.Keys - gone;
  }

  lemma BoardIsExact<K(!new), B, A, R>(erp: map<K, R>, order: seq<K>, tasks: Tasks<K, B, A>, blank: K, board: Board<K, B, A, R>)
    requires Lists(order, erp) && board == BoardOf(erp, order, tasks, blank)
    ensures forall p :: Exact(erp, tasks, blank, board, p)
    ensures Authentic(erp, tasks, board)
  {
    MatchedShares(erp, order, tasks, blank);
    ProcessedShare(erp, order, tasks, blank);
    RemainingShare(erp, order, tasks, blank);
    forall p ensures Exact(erp, tasks, blank, board, p) {
      assert IsShare(erp, tasks, blank, board, p);
      forall k ensures k in Consumed(board, p) <==> k in erp && PlaceOf(tasks, blank, k) == p {
        MemberIffAmong(Consumed(board, p), k);
        ShareIsPlace(erp, tasks, blank, p, k);
      }
    }
  }

  /** No record is consumed twice, and none is left out: the four lists together
      are the ERP index. */
  lemma ConsumedOnce<K(!new), B, A, R>(erp: map<K, R>, tasks: Tasks<K, B, A>, blank: K, board: Board<K, B, A, R>, k: K)
    requires forall p :: Exact(erp, tasks, blank, board, p)
    ensures k in erp <==> exists p :: k in Consumed(board, p)
    ensures forall p, q :: k in Consumed(board, p) && k in Consumed(board, q) ==> p == q
  {
    forall p ensures k in Consumed(board, p) <==> k in erp && PlaceOf(tasks, blank, k) == p {
      assert Exact(erp, tasks, blank, board, p);
    }
    if k in erp {
      assert k in Consumed(board, PlaceOf(tasks, blank, k));
    }
  }
}
