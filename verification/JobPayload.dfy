/** The job ids a registration finds in its payload, by job type. */
module JobPayload {
  import opened Wrappers

  /** A field that may hold an id: `None` stands for a missing, null or otherwise falsy value. */
  type Id = Option<string>

  datatype TxRef = TxRef(transactionId: Id, id: Id)

  datatype Item = Item(jobId: Id, driveFileId: Id, itemId: Id, id: Id, transactions: seq<TxRef>)

  datatype Payload = Payload(jobId: Id, jobsData: seq<Item>, items: seq<Item>)

  /** `a or b` */
  function Or(a: Id, b: Id): Id { if a.Some? then a else b }

  // ----- Where the ids are, read off the payload

  /** The item gives this id for the job type. */
  predicate ItemGives(jobType: string, item: Item, id: string) {
    if jobType == "router" || jobType == "apbookeeper" then Or(item.jobId, item.driveFileId) == Some(id)
    else if jobType == "banker" then
      if item.transactions == [] then Or(item.jobId, item.id) == Some(id)
      else exists t :: t in item.transactions && Or(t.transactionId, t.id) == Some(id)
    else if jobType == "reversereconciliation" then Or(item.jobId, item.itemId) == Some(id)
    else false
  }

  /** The items that count for the job type. */
  function ItemsFor(jobType: string, p: Payload): seq<Item> {
    if jobType == "reversereconciliation" then p.items else p.jobsData
  }

  predicate Gives(jobType: string, p: Payload, id: string) {
    if jobType == "onboarding" then p.jobId == Some(id)
    else exists item :: item in ItemsFor(jobType, p) && ItemGives(jobType, item, id)
  }

  // ----- The extraction

  type Statuses = map<string, string>

  /** The map holds exactly the ids with the property, all queued. */
  ghost predicate Queues(statuses: Statuses, has: string -> bool) {
    (forall id :: id in statuses <==> has(id)) && forall id :: id in statuses ==> statuses[id] == "in_queue"
  }

  function Queued(statuses: Statuses, id: Id): Statuses {
    if id.Some? then statuses[id.value := "in_queue"] else statuses
  }

  method TransactionIds(statuses: Statuses, transactions: seq<TxRef>, ghost before: string -> bool) returns (r: Statuses)
    requires Queues(statuses, before)
    ensures Queues(r, id => before(id) || exists t :: t in transactions && Or(t.transactionId, t.id) == Some(id))
  {
    r := statuses;
    for k := 0 to |transactions|
      invariant Queues(r, id => before(id) || exists t :: t in transactions[..k] && Or(t.transactionId, t.id) == Some(id))
    {
      assert transactions[..k + 1] == transactions[..k] + [transactions[k]];
      r := Queued(r, Or(transactions[k].transactionId, transactions[k].id));
    }
    assert transactions[..|transactions|] == transactions;
  }

  method ItemIds(jobType: string, statuses: Statuses, item: Item, ghost before: string -> bool) returns (r: Statuses)
    requires Queues(statuses, before)
    ensures Queues(r, id => before(id) || ItemGives(jobType, item, id))
  {
    r := statuses;
    if jobType == "router" || jobType == "apbookeeper" {
      r := Queued(r, Or(item.jobId, item.driveFileId));
    } else if jobType == "banker" {
      r := TransactionIds(r, item.transactions, before);
      if item.transactions == [] {
        r := Queued(r, Or(item.jobId, item.id));
      }
    } else if jobType == "reversereconciliation" {
      r := Queued(r, Or(item.jobId, item.itemId));
    }
  }

  method ExtractJobIds(jobType: string, p: Payload) returns (r: Statuses)
    ensures Queues(r, id => Gives(jobType, p, id))
  {
    r := map[];
    if jobType == "onboarding" {
      r := Queued(r, p.jobId);
      return;
    }
    var items := ItemsFor(jobType, p);
    for k := 0 to |items|
      invariant Queues(r, id => exists item :: item in items[..k] && ItemGives(jobType, item, id))
    {
      assert items[..k + 1] == items[..k] + [items[k]];
      r := ItemIds(jobType, r, items[k], id => exists item :: item in items[..k] && ItemGives(jobType, item, id));
    }
    assert items[..|items|] == items;
  }

  // ----- Batches without ids

  const KnownTypes: set<string> := {"onboarding", "router", "apbookeeper", "banker", "reversereconciliation"}

  /** A job type the extraction does not know never yields an id. */
  lemma UnknownTypesGiveNothing(jobType: string, p: Payload, id: string)
    requires jobType !in KnownTypes
    ensures !Gives(jobType, p, id)
  {
  }

  /** Every known type yields an id from some payload. */
  lemma KnownTypesGiveSomething(jobType: string, id: string)
    ensures (exists p :: Gives(jobType, p, id)) <==> jobType in KnownTypes
  {
    var item := Item(Some(id), None, None, None, []);
    var p := Payload(Some(id), [item], [item]);
    if jobType in KnownTypes {
      assert item in ItemsFor(jobType, p);
      assert Gives(jobType, p, id);
    }
  }

  /** Which field decides, type by type: the job id of an item always comes before its fallback, the
      transactions of a banker item before both, and an item without any of them gives nothing. */
  lemma IdPriority(item: Item, id: string)
    ensures item.jobId.Some? ==>
      forall t :: t in ["router", "apbookeeper", "reversereconciliation"] ==> (ItemGives(t, item, id) <==> id == item.jobId.value)
    ensures item.jobId.None? ==> forall t :: t in ["router", "apbookeeper"] ==> (ItemGives(t, item, id) <==> item.driveFileId == Some(id))
    ensures item.jobId.None? ==> (ItemGives("reversereconciliation", item, id) <==> item.itemId == Some(id))
    ensures item.transactions == [] && item.jobId.Some? ==> (ItemGives("banker", item, id) <==> id == item.jobId.value)
    ensures item.transactions == [] && item.jobId.None? ==> (ItemGives("banker", item, id) <==> item.id == Some(id))
    ensures item.transactions != [] ==> (ItemGives("banker", item, id) <==>
      exists k :: 0 <= k < |item.transactions| && (if item.transactions[k].transactionId.Some? then item.transactions[k].transactionId
                                                   else item.transactions[k].id) == Some(id))
  {
    if item.transactions != [] && ItemGives("banker", item, id) {
      var t :| t in item.transactions && Or(t.transactionId, t.id) == Some(id);
      var k :| 0 <= k < |item.transactions| && item.transactions[k] == t;
    }
  }
}
