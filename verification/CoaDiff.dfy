/** The comparison of the ERP index with the stored document. */
module CoaDiff {
  import opened Wrappers
  import opened Whitespace
  import opened CoaModel

  // ---- account entries and deletions ----

  /** By convention the key of an account entry is its account id. */
  predicate IsAccountEntry<X>(key: Text, f: Field<X>) {
    f.Dict? && Strip(key) != "" && Strip(key) == Strip(f.record.id)
  }

  ghost function AccountIds<X>(doc: Document<X>): set<Text> {
    set k | k in doc && IsAccountEntry(k, doc[k]) :: Strip(k)
  }

  /** The ids the sync asks the store to delete. */
  ghost function Deletions<X>(doc: Document<X>, erp: map<Text, ErpAccount>): set<Text> {
    AccountIds(doc) - erp.Keys
  }

  function Among<T(==)>(ids: seq<T>): set<T> {
    set id | id in ids
  }

  /** An account entry the ERP does not know. */
  predicate Stale<X>(doc: Document<X>, erp: map<Text, ErpAccount>, k: Text) {
    k in doc && IsAccountEntry(k, doc[k]) && Strip(k) !in erp
  }

  lemma DeletionsAreStale<X>(doc: Document<X>, erp: map<Text, ErpAccount>, id: Text)
    ensures id in Deletions(doc, erp) <==> exists k :: Stale(doc, erp, k) && Strip(k) == id
  {
    if id in Deletions(doc, erp) {
      var k :| k in doc && IsAccountEntry(k, doc[k]) && Strip(k) == id;
      assert Stale(doc, erp, k);
    }
  }

  /** Some stale key outside `rest` strips to `id`. */
  ghost predicate Found<X>(doc: Document<X>, erp: map<Text, ErpAccount>, rest: set<Text>, id: Text) {
    exists k :: k !in rest && Stale(doc, erp, k) && Strip(k) == id
  }

  lemma FoundNext<X>(doc: Document<X>, erp: map<Text, ErpAccount>, rest: set<Text>, k: Text, id: Text)
    requires k in rest
    ensures Found(doc, erp, rest - {k}, id) <==> Found(doc, erp, rest, id) || (Stale(doc, erp, k) && Strip(k) == id)
  {
  }

  /** `ids` lists once each the stripped stale keys outside `rest`. */
  ghost predicate Collected<X>(ids: seq<Text>, doc: Document<X>, erp: map<Text, ErpAccount>, rest: set<Text>) {
    |ids| == |Among(ids)| && forall id :: id in ids <==> Found(doc, erp, rest, id)
  }

  lemma AmongGrows<T>(ids: seq<T>, id: T)
    requires |ids| == |Among(ids)| && id !in ids
    ensures |ids + [id]| == |Among(ids + [id])|
    ensures forall x :: x in ids + [id] <==> x in ids || x == id
  {
    assert Among(ids + [id]) == Among(ids) + {id};
  }

  lemma CollectedNext<X>(ids: seq<Text>, doc: Document<X>, erp: map<Text, ErpAccount>, rest: set<Text>, k: Text, next: seq<Text>)
    requires Collected(ids, doc, erp, rest) && k in rest
    requires next == if Stale(doc, erp, k) && Strip(k) !in ids then ids + [Strip(k)] else ids
    ensures Collected(next, doc, erp, rest - {k})
  {
    if Stale(doc, erp, k) && Strip(k) !in ids {
      AmongGrows(ids, Strip(k));
    }
    forall id ensures id in next <==> Found(doc, erp, rest - {k}, id) {
      FoundNext(doc, erp, rest, k, id);
      assert id in ids <==> Found(doc, erp, rest, id);
    }
  }

  method CollectDeletions<X>(doc: Document<X>, erp: map<Text, ErpAccount>) returns (ids: seq<Text>)
    ensures Among(ids) == Deletions(doc, erp) && |ids| == |Deletions(doc, erp)|
  {
    ids := [];
    var rest := doc.Keys;
    while rest != {}
      invariant Collected(ids, doc, erp, rest) && rest <= doc.Keys
      decreases rest
    {
      var k :| k in rest;
      var next := if IsAccountEntry(k, doc[k]) && Strip(k) !in erp && Strip(k) !in ids then ids + [Strip(k)] else ids;
      CollectedNext(ids, doc, erp, rest, k, next);
      ids := next;
      rest := rest - {k};
    }
    forall id ensures id in ids <==> id in Deletions(doc, erp) {
      DeletionsAreStale(doc, erp, id);
      assert id in ids <==> Found(doc, erp, {}, id);
    }
    assert Among(ids) == Deletions(doc, erp);
  }

  const ChunkSize: nat := 200

  /** The deletions, at most `ChunkSize` per update. */
  method DeleteInChunks<X>(doc: Document<X>, ids: seq<Text>) returns (result: Document<X>, updates: nat)
    ensures result == doc - Among(ids)
    ensures ChunkSize * updates >= |ids| && (updates > 0 ==> ChunkSize * (updates - 1) < |ids|)
  {
    result, updates := doc, 0;
    var i := 0;
    while i < |ids|
      invariant 0 <= i && i == ChunkSize * updates
      invariant updates > 0 ==> ChunkSize * (updates - 1) < |ids|
      invariant result == doc - Among(ids[..if i < |ids| then i else |ids|])
    {
      var stop := if i + ChunkSize < |ids| then i + ChunkSize else |ids|;
      var chunk := ids[i..stop];
      assert ids[..stop] == ids[..i] + chunk;
      result := result - Among(chunk);
      i := i + ChunkSize;
      updates := updates + 1;
    }
    assert ids[..|ids|] == ids;
  }

  // ---- upserts ----

  /** The stored dictionary under the id, if there is one. */
  function Stored<X>(doc: Document<X>, id: Text): Option<Record<X>> {
    if id in doc && doc[id].Dict? then Some(doc[id].record) else None
  }

  predicate ActiveFlag<X>(r: Record<X>) {
    r.active != Some(false)
  }

  predicate TypeChanged<X>(e: Option<Record<X>>, a: ErpAccount) {
    e.None? || e.value.kind != Some(a.kind)
  }

  /** Number, name, type and activity as the ERP has them. */
  predicate Agrees<X>(r: Record<X>, a: ErpAccount) {
    r.number == a.number && r.name == Some(a.name) && r.kind == Some(a.kind) && ActiveFlag(r) == !a.deprecated
  }

  predicate DutyActive<X>(r: Record<X>, active: Active) {
    r.duty in AllowedIn(active, r.nature)
  }

  predicate NatureNeeded<X>(e: Option<Record<X>>, a: ErpAccount) {
    e.None? || TypeChanged(e, a) || e.value.nature == ""
  }

  predicate DutyNeeded<X>(e: Option<Record<X>>, a: ErpAccount, active: Active) {
    e.None? || TypeChanged(e, a) || e.value.duty == "" || !ActiveSomewhere(active, e.value.duty) ||
    !DutyActive(e.value, active)
  }

  predicate Touched<X>(e: Option<Record<X>>, a: ErpAccount, active: Active) {
    e.None? || !Agrees(e.value, a) || NatureNeeded(e, a) || DutyNeeded(e, a, active)
  }

  /** The payload before any remapping: the stored fields under the ERP's. */
  function Payload<X>(e: Option<Record<X>>, id: Text, a: ErpAccount): (r: Record<X>)
    ensures Agrees(r, a) && r.id == id
  {
    Record(id, a.number, Some(a.name), Some(a.kind), Some(!a.deprecated),
           if e.Some? then e.value.nature else "", if e.Some? then e.value.duty else "",
           if e.Some? then e.value.extra else None)
  }

  ghost predicate IsUpsert<X>(doc: Document<X>, erp: map<Text, ErpAccount>, active: Active, id: Text) {
    id in erp && Touched(Stored(doc, id), erp[id], active)
  }

  ghost predicate Wants<X>(doc: Document<X>, erp: map<Text, ErpAccount>, active: Active, id: Text, nature: bool) {
    IsUpsert(doc, erp, active, id) &&
    (if nature then NatureNeeded(Stored(doc, id), erp[id]) else DutyNeeded(Stored(doc, id), erp[id], active))
  }

  ghost function Upserts<X>(doc: Document<X>, erp: map<Text, ErpAccount>, active: Active): map<Text, Record<X>> {
    map id | id in erp && Touched(Stored(doc, id), erp[id], active) :: Payload(Stored(doc, id), id, erp[id])
  }

  ghost function Wanting<X>(doc: Document<X>, erp: map<Text, ErpAccount>, active: Active, nature: bool): set<Text> {
    set id | id in erp && Wants(doc, erp, active, id, nature)
  }

  predicate Distinct<T(==)>(ids: seq<T>) {
    forall i, j :: 0 <= i < j < |ids| ==> ids[i] != ids[j]
  }

  /** The elements of `ids` that are in `wanted`, in order. */
  function Pick<T(==,!new)>(ids: seq<T>, wanted: set<T>): (r: seq<T>)
    ensures forall id :: id in r <==> id in ids && id in wanted
  {
    if ids == [] then []
    else
      var before, last := Pick(ids[..|ids| - 1], wanted), ids[|ids| - 1];
      if last in wanted then before + [last] else before
  }

  lemma {:induction false} PickIsDistinct<T(!new)>(ids: seq<T>, wanted: set<T>)
    requires Distinct(ids)
    ensures Distinct(Pick(ids, wanted))
  {
    if ids != [] {
      var before := ids[..|ids| - 1];
      PickIsDistinct(before, wanted);
      assert ids[|ids| - 1] !in before;
    }
  }

  lemma {:induction false} PickPrefix<T(!new)>(ids: seq<T>, wanted: set<T>, k: nat)
    requires k <= |ids|
    ensures Pick(ids[..k], wanted) <= Pick(ids, wanted)
  {
    if k < |ids| {
      var before := ids[..|ids| - 1];
      PickPrefix(before, wanted, k);
      assert before[..k] == ids[..k];
    } else {
      assert ids[..k] == ids;
    }
  }

  /** What is picked stands where the number of those picked before it says. */
  lemma PickRank<T(!new)>(ids: seq<T>, wanted: set<T>, k: nat)
    requires k < |ids| && ids[k] in wanted
    ensures |Pick(ids[..k], wanted)| < |Pick(ids, wanted)|
    ensures Pick(ids, wanted)[|Pick(ids[..k], wanted)|] == ids[k]
  {
    PickNext(ids, wanted, k);
    PickPrefix(ids, wanted, k + 1);
  }

  lemma {:induction false} PickCounts<T(!new)>(ids: seq<T>, wanted: set<T>)
    requires Distinct(ids)
    ensures |Pick(ids, wanted)| == |Among(ids) * wanted|
  {
    if ids == [] {
      assert Among(ids) * wanted == {};
    } else {
      var before, last := ids[..|ids| - 1], ids[|ids| - 1];
      PickCounts(before, wanted);
      assert ids == before + [last];
      OneMoreWanted(before, last, wanted);
    }
  }

  lemma OneMoreWanted<T>(ids: seq<T>, id: T, wanted: set<T>)
    requires id !in ids
    ensures |Among(ids + [id]) * wanted| == |Among(ids) * wanted| + if id in wanted then 1 else 0
  {
    if id in wanted {
      assert Among(ids + [id]) * wanted == Among(ids) * wanted + {id};
    } else {
      assert Among(ids + [id]) * wanted == Among(ids) * wanted;
    }
  }

  lemma PickNext<T(!new)>(ids: seq<T>, wanted: set<T>, k: nat)
    requires k < |ids|
    ensures Pick(ids[..k + 1], wanted) == if ids[k] in wanted then Pick(ids[..k], wanted) + [ids[k]] else Pick(ids[..k], wanted)
  {
    assert ids[..k + 1][..k] == ids[..k];
  }

  /** The branch-by-branch comparison; `same` is the guard of its `continue`. */
  method Compare<X>(e: Option<Record<X>>, a: ErpAccount, active: Active)
    returns (natureNeeded: bool, dutyNeeded: bool, same: bool)
    ensures natureNeeded == NatureNeeded(e, a)
    ensures dutyNeeded == DutyNeeded(e, a, active)
    ensures same == !Touched(e, a, active)
  {
    var isNew := e.None?;
    var typeChanged := if isNew then true else e.value.kind != Some(a.kind);
    var labelChanged := if isNew then true else e.value.name != Some(a.name);
    var numberChanged := if isNew then true else e.value.number != a.number;
    var activeChanged := if isNew then true else ActiveFlag(e.value) != !a.deprecated;
    var nature := if isNew then "" else e.value.nature;
    var duty := if isNew then "" else e.value.duty;
    var dutyActive := ActiveSomewhere(active, duty);
    var dutyAllowed := nature in active && duty in active[nature];
    natureNeeded := isNew || typeChanged || nature == "";
    dutyNeeded := isNew || typeChanged || duty == "" || !dutyActive || !dutyAllowed;
    same := !isNew && !typeChanged && !labelChanged && !numberChanged && !activeChanged && !dutyNeeded && !natureNeeded;
  }

  /** `ids` lists the wanted ones among `done`, once each. */
  ghost predicate Lists<X>(ids: seq<Text>, doc: Document<X>, erp: map<Text, ErpAccount>, active: Active, done: set<Text>, nature: bool) {
    Distinct(ids) && forall id :: id in ids <==> id in done && Wants(doc, erp, active, id, nature)
  }

  ghost predicate Covers<X>(upserts: map<Text, Record<X>>, doc: Document<X>, erp: map<Text, ErpAccount>, active: Active, done: set<Text>) {
    (forall id :: id in upserts <==> id in done && IsUpsert(doc, erp, active, id)) &&
    (forall id :: id in upserts ==> id in erp && upserts[id] == Payload(Stored(doc, id), id, erp[id]))
  }

  lemma ListsStep<X>(ids: seq<Text>, doc: Document<X>, erp: map<Text, ErpAccount>, active: Active, done: set<Text>, nature: bool, id: Text)
    requires Lists(ids, doc, erp, active, done, nature) && id !in done
    ensures Lists(if Wants(doc, erp, active, id, nature) then ids + [id] else ids, doc, erp, active, done + {id}, nature)
  {
  }

  lemma CoversStep<X>(upserts: map<Text, Record<X>>, doc: Document<X>, erp: map<Text, ErpAccount>, active: Active, done: set<Text>, id: Text)
    requires Covers(upserts, doc, erp, active, done) && id in erp
    ensures Covers(if IsUpsert(doc, erp, active, id) then upserts[id := Payload(Stored(doc, id), id, erp[id])] else upserts,
                   doc, erp, active, done + {id})
  {
  }

  lemma CoversAll<X>(upserts: map<Text, Record<X>>, doc: Document<X>, erp: map<Text, ErpAccount>, active: Active)
    requires Covers(upserts, doc, erp, active, erp.Keys)
    ensures upserts == Upserts(doc, erp, active)
  {
    var u := Upserts(doc, erp, active);
    forall id ensures id in upserts <==> id in u {
      assert id in upserts <==> id in erp.Keys && IsUpsert(doc, erp, active, id);
    }
    assert upserts.Keys == u.Keys;
  }

  /** The state of the comparison once `done` has been compared. */
  ghost predicate Compared<X>(upserts: map<Text, Record<X>>, natureIds: seq<Text>, dutyIds: seq<Text>,
                              doc: Document<X>, erp: map<Text, ErpAccount>, active: Active, done: set<Text>) {
    Covers(upserts, doc, erp, active, done) && Lists(natureIds, doc, erp, active, done, true) &&
    Lists(dutyIds, doc, erp, active, done, false)
  }

  method CompareNext<X>(upserts: map<Text, Record<X>>, natureIds: seq<Text>, dutyIds: seq<Text>, doc: Document<X>,
                        erp: map<Text, ErpAccount>, active: Active, ghost done: set<Text>, id: Text)
    returns (upserts': map<Text, Record<X>>, natureIds': seq<Text>, dutyIds': seq<Text>)
    requires Compared(upserts, natureIds, dutyIds, doc, erp, active, done)
    requires id in erp && id !in done
    ensures Compared(upserts', natureIds', dutyIds', doc, erp, active, done + {id})
    ensures natureIds' == if id in Wanting(doc, erp, active, true) then natureIds + [id] else natureIds
    ensures dutyIds' == if id in Wanting(doc, erp, active, false) then dutyIds + [id] else dutyIds
  {
    upserts', natureIds', dutyIds' := upserts, natureIds, dutyIds;
    var e := Stored(doc, id);
    var natureNeeded, dutyNeeded, same := Compare(e, erp[id], active);
    if !same {
      upserts' := upserts[id := Payload(e, id, erp[id])];
      if natureNeeded { natureIds' := natureIds + [id]; }
      if dutyNeeded { dutyIds' := dutyIds + [id]; }
    }
    ListsStep(natureIds, doc, erp, active, done, true, id);
    ListsStep(dutyIds, doc, erp, active, done, false, id);
    CoversStep(upserts, doc, erp, active, done, id);
  }

  method Diff<X>(doc: Document<X>, erp: map<Text, ErpAccount>, order: seq<Text>, active: Active)
    returns (upserts: map<Text, Record<X>>, natureIds: seq<Text>, dutyIds: seq<Text>)
    requires Enumerates(order, erp)
    ensures upserts == Upserts(doc, erp, active)
    ensures Lists(natureIds, doc, erp, active, erp.Keys, true)
    ensures Lists(dutyIds, doc, erp, active, erp.Keys, false)
    ensures natureIds == Pick(order, Wanting(doc, erp, active, true))
    ensures dutyIds == Pick(order, Wanting(doc, erp, active, false))
  {
    ghost var natures, duties := Wanting(doc, erp, active, true), Wanting(doc, erp, active, false);
    upserts, natureIds, dutyIds := map[], [], [];
    ghost var done: set<Text> := {};
    for k := 0 to |order|
      invariant done == Among(order[..k])
      invariant Compared(upserts, natureIds, dutyIds, doc, erp, active, done)
      invariant natureIds == Pick(order[..k], natures) && dutyIds == Pick(order[..k], duties)
    {
      EnumeratesNext(order, erp, k);
      PickNext(order, natures, k);
      PickNext(order, duties, k);
      upserts, natureIds, dutyIds := CompareNext(upserts, natureIds, dutyIds, doc, erp, active, done, order[k]);
      done := done + {order[k]};
    }
    assert order[..|order|] == order;
    assert done == erp.Keys;
    CoversAll(upserts, doc, erp, active);
  }

  lemma EnumeratesNext<V>(order: seq<Text>, m: map<Text, V>, k: nat)
    requires Enumerates(order, m) && k < |order|
    ensures order[k] in m && order[k] !in Among(order[..k])
    ensures Among(order[..k + 1]) == Among(order[..k]) + {order[k]}
  {
    assert order[..k + 1] == order[..k] + [order[k]];
  }
}
