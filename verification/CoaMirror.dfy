/** The stored document after a synchronisation, and after an immediate second
    one. */
module CoaMirror {
  import opened Wrappers
  import opened Whitespace
  import opened CoaModel
  import opened CoaDiff
  import opened CoaMapping
  import opened CoaSync
  import opened CoaReplies

  /** The field of one ERP account after a synchronisation. */
  ghost predicate Settled<X>(e: Option<Record<X>>, id: Text, a: ErpAccount, active: Active, f: Field<X>) {
    f.Dict? && if Touched(e, a, active) then Remapped(e, id, a, active, f.record) else e == Some(f.record)
  }

  ghost predicate ErpFields<X>(doc: Document<X>, erp: map<Text, ErpAccount>, active: Active, after: Document<X>) {
    forall id :: id in erp ==> id in after && Settled(Stored(doc, id), id, erp[id], active, after[id])
  }

  ghost predicate OtherFields<X>(doc: Document<X>, erp: map<Text, ErpAccount>, after: Document<X>) {
    (forall k :: k in after && k !in erp ==> k in doc && after[k] == doc[k]) &&
    (forall k :: k in doc && k !in erp ==> (k in after <==> k !in Deletions(doc, erp)))
  }

  /** Everything a synchronisation promises of the document it leaves. */
  ghost predicate Outcome<X>(doc: Document<X>, erp: map<Text, ErpAccount>, active: Active, after: Document<X>) {
    ErpFields(doc, erp, active, after) && OtherFields(doc, erp, after)
  }

  // ---- the run ----

  datatype Report<X> =
    | Failure
    | Success(doc: Document<X>, synced: nat, added: nat, updated: nat, deleted: nat, deactivated: nat)

  /** A key of an ERP account holds something that is neither a dictionary nor
      falsy: reading its activity for the statistics raises. */
  predicate Clashes<X>(doc: Document<X>, id: Text) {
    id in doc && doc[id].Other? && doc[id].truthy
  }

  ghost predicate Blocked<X>(doc: Document<X>, erp: map<Text, ErpAccount>) {
    exists id :: id in erp && Clashes(doc, id)
  }

  /** Was active in the document and is inactive in the payload. */
  predicate TurnsOff<X>(doc: Document<X>, id: Text, r: Record<X>) {
    id in doc && (doc[id].Dict? ==> ActiveFlag(doc[id].record)) && !ActiveFlag(r)
  }

  ghost function NewIds<X>(doc: Document<X>, ids: set<Text>): set<Text> {
    set id | id in ids && id !in doc
  }

  ghost function TurnedOff<X>(doc: Document<X>, payloads: map<Text, Record<X>>, ids: set<Text>): set<Text> {
    set id | id in ids && id in payloads && TurnsOff(doc, id, payloads[id])
  }

  method CountChanges<X>(doc: Document<X>, payloads: map<Text, Record<X>>)
    returns (ok: bool, added: nat, updated: nat, deactivated: nat)
    ensures ok <==> forall id :: id in payloads ==> !Clashes(doc, id)
    ensures ok ==> added == |NewIds(doc, payloads.Keys)| && added + updated == |payloads|
    ensures ok ==> deactivated == |TurnedOff(doc, payloads, payloads.Keys)|
  {
    ok, added, updated, deactivated := true, 0, 0, 0;
    var rest := payloads.Keys;
    ghost var done: set<Text> := {};
    while rest != {}
      invariant done !! rest && done + rest == payloads.Keys
      invariant forall id :: id in done ==> !Clashes(doc, id)
      invariant added == |NewIds(doc, done)| && added + updated == |done|
      invariant deactivated == |TurnedOff(doc, payloads, done)|
      decreases rest
    {
      var id :| id in rest;
      if Clashes(doc, id) {
        ok := false;
        return;
      }
      NextCounted(doc, payloads, done, id);
      if id !in doc { added := added + 1; } else { updated := updated + 1; }
      if TurnsOff(doc, id, payloads[id]) { deactivated := deactivated + 1; }
      rest, done := rest - {id}, done + {id};
    }
    assert done == payloads.Keys;
  }

  lemma NextCounted<X>(doc: Document<X>, payloads: map<Text, Record<X>>, done: set<Text>, id: Text)
    requires id in payloads && id !in done
    ensures |NewIds(doc, done + {id})| == |NewIds(doc, done)| + if id in doc then 0 else 1
    ensures |TurnedOff(doc, payloads, done + {id})|
         == |TurnedOff(doc, payloads, done)| + if TurnsOff(doc, id, payloads[id]) then 1 else 0
  {
    NextNew(doc, done, id);
    NextOff(doc, payloads, done, id);
  }

  lemma NextNew<X>(doc: Document<X>, done: set<Text>, id: Text)
    requires id !in done
    ensures |NewIds(doc, done + {id})| == |NewIds(doc, done)| + if id in doc then 0 else 1
  {
    if id in doc {
      assert NewIds(doc, done + {id}) == NewIds(doc, done);
    } else {
      assert NewIds(doc, done + {id}) == NewIds(doc, done) + {id};
    }
  }

  lemma NextOff<X>(doc: Document<X>, payloads: map<Text, Record<X>>, done: set<Text>, id: Text)
    requires id in payloads && id !in done
    ensures |TurnedOff(doc, payloads, done + {id})|
         == |TurnedOff(doc, payloads, done)| + if TurnsOff(doc, id, payloads[id]) then 1 else 0
  {
    if TurnsOff(doc, id, payloads[id]) {
      assert TurnedOff(doc, payloads, done + {id}) == TurnedOff(doc, payloads, done) + {id};
    } else {
      assert TurnedOff(doc, payloads, done + {id}) == TurnedOff(doc, payloads, done);
    }
  }

  lemma WrittenIsOutcome<X>(doc: Document<X>, erp: map<Text, ErpAccount>, active: Active, payloads: map<Text, Record<X>>)
    requires AllRemapped(doc, erp, active, payloads)
    ensures Outcome(doc, erp, active, Merged(doc, payloads) - Deletions(doc, erp))
  {
    var after := Merged(doc, payloads) - Deletions(doc, erp);
    forall id | id in erp ensures id in after && Settled(Stored(doc, id), id, erp[id], active, after[id]) {
      assert id in payloads <==> Touched(Stored(doc, id), erp[id], active);
    }
  }

  /** The synchronisation with any agent: `askNature(n)` is its n-th reply about
      types and `askDuty(g, n)` its n-th reply about the accounts of nature g. */
  method Sync<X>(doc: Document<X>, rows: seq<ErpAccount>, active: Active, askNature: nat -> Reply, askDuty: (Text, nat) -> Reply)
    returns (report: Report<X>)
    requires WellFormed(active)
    ensures report.Failure? <==> rows == [] || Blocked(doc, ErpIndex(rows))
    ensures report.Success? ==> Outcome(doc, ErpIndex(rows), active, report.doc) && SyncLaws(doc, rows, report.doc)
    ensures report.Success? ==> report.doc == SyncedDoc(doc, rows, active, askNature, askDuty)
    ensures report.Success? ==> Honoured(doc, ErpIndex(rows), ErpOrder(rows), active, askNature, askDuty, report.doc)
    ensures report.Success? ==> report.synced == |ErpIndex(rows)|
    ensures report.Success? ==> report.added + report.updated == |Upserts(doc, ErpIndex(rows), active)|
    ensures report.Success? ==> report.added == |NewIds(doc, ErpIndex(rows).Keys)|
    ensures report.Success? ==> report.deleted == |Deletions(doc, ErpIndex(rows))|
    ensures report.Success? ==> report.deactivated == |SwitchedOff(doc, ErpIndex(rows))|
  {
    if rows == [] {
      return Failure;
    }
    var erp, order := IndexErp(rows);
    var deletions := CollectDeletions(doc, erp);
    var payloads := Remap(doc, erp, order, active, askNature, askDuty);
    var ok, added, updated, deactivated := CountChanges(doc, payloads);
    ClashesAreUpserts(doc, erp, active);
    if !ok {
      return Failure;
    }
    var written, updates := DeleteInChunks(Merged(doc, payloads), deletions);
    WrittenIsOutcome(doc, erp, active, payloads);
    SyncedHonours(doc, rows, active, askNature, askDuty);
    NewAreUpserts(doc, erp, active);
    OffAreUpserts(doc, erp, active, payloads);
    OutcomeObeysLaws(doc, rows, active, written);
    assert |payloads| == |payloads.Keys|;
    report := Success(written, |erp|, added, updated, |deletions|, deactivated);
  }

  lemma ClashesAreUpserts<X>(doc: Document<X>, erp: map<Text, ErpAccount>, active: Active)
    ensures forall id :: id in erp && Clashes(doc, id) ==> id in Upserts(doc, erp, active)
  {
  }

  lemma NewAreUpserts<X>(doc: Document<X>, erp: map<Text, ErpAccount>, active: Active)
    ensures NewIds(doc, Upserts(doc, erp, active).Keys) == NewIds(doc, erp.Keys)
  {
  }

  /** The ERP accounts that were active in the document and are deprecated now. */
  ghost function SwitchedOff<X>(doc: Document<X>, erp: map<Text, ErpAccount>): set<Text> {
    set id | id in erp && id in doc && (doc[id].Dict? ==> ActiveFlag(doc[id].record)) && erp[id].deprecated
  }

  lemma OffAreUpserts<X>(doc: Document<X>, erp: map<Text, ErpAccount>, active: Active, payloads: map<Text, Record<X>>)
    requires AllRemapped(doc, erp, active, payloads)
    ensures TurnedOff(doc, payloads, payloads.Keys) == SwitchedOff(doc, erp)
  {
    forall id | id in payloads ensures ActiveFlag(payloads[id]) == !erp[id].deprecated {
      assert Remapped(Stored(doc, id), id, erp[id], active, payloads[id]);
    }
    forall id | id in SwitchedOff(doc, erp) ensures id in payloads {
      assert !Agrees(Payload(Stored(doc, id), id, erp[id]).(active := Some(true)), erp[id]);
      assert IsUpsert(doc, erp, active, id);
      assert id in Upserts(doc, erp, active);
    }
  }

  // ---- what the outcome says ----

  /** The account agrees with the ERP on number, name, type and activity, keeps
      its other fields, and has a nature and a function. */
  ghost predicate Mirrored<X>(e: Option<Record<X>>, a: ErpAccount, f: Field<X>) {
    f.Dict? && f.record.number == a.number && f.record.name == Some(a.name) && f.record.kind == Some(a.kind) &&
    (f.record.active == Some(false) <==> a.deprecated) && f.record.duty != "" && f.record.nature != "" &&
    (NatureNeeded(e, a) ==> IsNature(f.record.nature)) &&
    f.record.extra == (if e.Some? then e.value.extra else None)
  }

  lemma SettledIsMirrored<X>(e: Option<Record<X>>, id: Text, a: ErpAccount, active: Active, f: Field<X>)
    requires WellFormed(active) && Settled(e, id, a, active, f)
    ensures Mirrored(e, a, f)
  {
  }

  /** For every reply of the agent the ERP accounts are mirrored. */
  lemma MirrorsErp<X>(doc: Document<X>, erp: map<Text, ErpAccount>, active: Active, after: Document<X>)
    requires WellFormed(active) && Outcome(doc, erp, active, after)
    ensures forall id :: id in erp ==> id in after && Mirrored(Stored(doc, id), erp[id], after[id])
  {
    forall id | id in erp ensures id in after && Mirrored(Stored(doc, id), erp[id], after[id]) {
      SettledIsMirrored(Stored(doc, id), id, erp[id], active, after[id]);
    }
  }

  // ---- deletions ----

  ghost predicate KeysInErp(erp: map<Text, ErpAccount>) {
    forall id :: id in erp ==> id != "" && Trimmed(id)
  }

  /** A stale entry is gone exactly when its key carries no outer white space. */
  lemma StaleIsGoneExactly<X>(doc: Document<X>, erp: map<Text, ErpAccount>, active: Active, after: Document<X>, k: Text)
    requires Outcome(doc, erp, active, after) && KeysInErp(erp) && Stale(doc, erp, k)
    ensures k !in after <==> Trimmed(k)
  {
    DeletionsAreStale(doc, erp, k);
    if !Trimmed(k) {
      assert k !in erp;
    } else {
      assert Strip(k) == k;
    }
  }

  /** Every other field survives exactly when it is not the stripped form of the
      key of a stale entry. */
  lemma OtherIsKeptExactly<X>(doc: Document<X>, erp: map<Text, ErpAccount>, active: Active, after: Document<X>, k: Text)
    requires Outcome(doc, erp, active, after)
    requires k in doc && k !in erp && !Stale(doc, erp, k)
    ensures (k in after && after[k] == doc[k]) <==> forall s :: Stale(doc, erp, s) ==> Strip(s) != k
  {
    DeletionsAreStale(doc, erp, k);
  }

  /** All stale entries are stored under trimmed keys. */
  ghost predicate TidyKeys<X>(doc: Document<X>, erp: map<Text, ErpAccount>) {
    forall k :: Stale(doc, erp, k) ==> Trimmed(k)
  }

  /** With tidy keys the document is the ERP plus exactly the fields that are
      not accounts. */
  lemma TidyKeysMirror<X>(doc: Document<X>, erp: map<Text, ErpAccount>, active: Active, after: Document<X>, k: Text)
    requires Outcome(doc, erp, active, after) && TidyKeys(doc, erp) && KeysInErp(erp)
    ensures k in after <==> k in erp || (k in doc && !Stale(doc, erp, k))
    ensures k in after && k !in erp ==> after[k] == doc[k]
  {
    if k in doc && k !in erp {
      if Stale(doc, erp, k) {
        StaleIsGoneExactly(doc, erp, active, after, k);
      } else {
        OtherIsKeptExactly(doc, erp, active, after, k);
        forall s | Stale(doc, erp, s) ensures Strip(s) != k { assert Strip(s) == s; }
      }
    }
  }

  /** Where all keys are trimmed, a field outside the ERP goes exactly when it is
      a dictionary that carries its own key as account id. */
  lemma PlainKeysMirror<X>(doc: Document<X>, erp: map<Text, ErpAccount>, active: Active, after: Document<X>, k: Text)
    requires Outcome(doc, erp, active, after) && KeysInErp(erp) && forall key :: key in doc ==> Trimmed(key)
    requires k in doc && k !in erp
    ensures k !in after <==> k != "" && doc[k].Dict? && Strip(doc[k].record.id) == k
    ensures k in after ==> after[k] == doc[k]
  {
    TidyKeysMirror(doc, erp, active, after, k);
  }

  // ---- the second synchronisation ----

  lemma SettledStays<X>(e: Option<Record<X>>, id: Text, a: ErpAccount, active: Active, f: Field<X>)
    requires WellFormed(active) && Settled(e, id, a, active, f)
    ensures !NatureNeeded(Some(f.record), a)
    ensures Touched(Some(f.record), a, active) <==> !DutyActive(f.record, active)
    ensures DutyNeeded(Some(f.record), a, active) <==> !DutyActive(f.record, active)
  {
    SettledIsMirrored(e, id, a, active, f);
    if DutyActive(f.record, active) {
      assert f.record.nature in active;
    }
  }

  /** An immediate second run upserts exactly the accounts whose function is not
      active in their nature. */
  lemma ResyncUpsertsExactly<X>(doc: Document<X>, erp: map<Text, ErpAccount>, active: Active, after: Document<X>, id: Text)
    requires WellFormed(active) && Outcome(doc, erp, active, after) && id in erp
    ensures after[id].Dict?
    ensures id in Upserts(after, erp, active) <==> !DutyActive(after[id].record, active)
  {
    SettledStays(Stored(doc, id), id, erp[id], active, after[id]);
  }

  /** It deletes nothing exactly when the stale keys were tidy. */
  lemma ResyncDeletesExactly<X>(doc: Document<X>, erp: map<Text, ErpAccount>, active: Active, after: Document<X>)
    requires Outcome(doc, erp, active, after) && KeysInErp(erp)
    ensures Deletions(after, erp) == {} <==> TidyKeys(doc, erp)
  {
    forall k ensures Stale(after, erp, k) <==> Stale(doc, erp, k) && !Trimmed(k) {
      StaleAfter(doc, erp, active, after, k);
    }
    if Deletions(after, erp) == {} {
      forall k | Stale(doc, erp, k) ensures Trimmed(k) {
        DeletionsAreStale(after, erp, Strip(k));
      }
    } else {
      var id :| id in Deletions(after, erp);
      DeletionsAreStale(after, erp, id);
    }
  }

  lemma StaleAfter<X>(doc: Document<X>, erp: map<Text, ErpAccount>, active: Active, after: Document<X>, k: Text)
    requires Outcome(doc, erp, active, after) && KeysInErp(erp)
    ensures Stale(after, erp, k) <==> Stale(doc, erp, k) && !Trimmed(k)
  {
    if k in erp {
      assert Strip(k) == k;
    } else if Stale(doc, erp, k) {
      StaleIsGoneExactly(doc, erp, active, after, k);
    }
  }

  /** It changes nothing but functions. */
  lemma ResyncMovesOnlyDuties<X>(doc: Document<X>, erp: map<Text, ErpAccount>, active: Active, after: Document<X>, again: Document<X>, id: Text)
    requires WellFormed(active) && Outcome(doc, erp, active, after) && Outcome(after, erp, active, again) && id in erp
    ensures after[id].Dict? && again[id].Dict?
    ensures DutyActive(after[id].record, active) ==> again[id] == after[id]
    ensures again[id].record == after[id].record.(duty := again[id].record.duty)
  {
    SettledStays(Stored(doc, id), id, erp[id], active, after[id]);
    assert Stored(after, id) == Some(after[id].record);
    assert Settled(Some(after[id].record), id, erp[id], active, again[id]);
  }

  ghost predicate AllActive<X>(erp: map<Text, ErpAccount>, active: Active, after: Document<X>) {
    forall id :: id in erp && id in after && after[id].Dict? ==> DutyActive(after[id].record, active)
  }

  lemma SameField<X>(doc: Document<X>, erp: map<Text, ErpAccount>, active: Active, after: Document<X>, again: Document<X>, k: Text)
    requires WellFormed(active) && Outcome(doc, erp, active, after) && Outcome(after, erp, active, again)
    requires Deletions(after, erp) == {} && AllActive(erp, active, after)
    ensures k in again <==> k in after
    ensures k in after && k in again ==> again[k] == after[k]
  {
    if k in erp {
      ResyncMovesOnlyDuties(doc, erp, active, after, again, k);
    }
  }

  /** Once all functions are active and all keys tidy, the document is final. */
  lemma SettledIsFixed<X>(doc: Document<X>, erp: map<Text, ErpAccount>, active: Active, after: Document<X>, again: Document<X>)
    requires WellFormed(active) && KeysInErp(erp) && TidyKeys(doc, erp)
    requires Outcome(doc, erp, active, after) && Outcome(after, erp, active, again)
    requires AllActive(erp, active, after)
    ensures again == after
  {
    ResyncDeletesExactly(doc, erp, active, after);
    SameEverywhere(doc, erp, active, after, again);
  }

  predicate SameKey<K(==), V(==)>(a: map<K, V>, b: map<K, V>, k: K) {
    (k in a <==> k in b) && (k in a && k in b ==> a[k] == b[k])
  }

  lemma EqualMaps<K(!new), V>(a: map<K, V>, b: map<K, V>)
    requires forall k :: SameKey(a, b, k)
    ensures a == b
  {
    forall k ensures k in a.Keys <==> k in b.Keys { assert SameKey(a, b, k); }
    assert a.Keys == b.Keys;
    forall k | k in a ensures a[k] == b[k] { assert SameKey(a, b, k); }
  }

  lemma SameEverywhere<X>(doc: Document<X>, erp: map<Text, ErpAccount>, active: Active, after: Document<X>, again: Document<X>)
    requires WellFormed(active) && Outcome(doc, erp, active, after) && Outcome(after, erp, active, again)
    requires Deletions(after, erp) == {} && AllActive(erp, active, after)
    ensures again == after
  {
    forall k ensures SameKey(again, after, k) {
      SameField(doc, erp, active, after, again, k);
    }
    EqualMaps(again, after);
  }

  /** Rows give an index with trimmed keys. */
  lemma IndexIsTidy(rows: seq<ErpAccount>)
    ensures KeysInErp(ErpIndex(rows))
  {
    forall id | id in ErpIndex(rows) ensures id != "" && Trimmed(id) {
      IndexKeysAreTrimmed(rows, id);
    }
  }

  /** The laws of a synchronisation in terms of the ERP's rows: accounts are mirrored, a stale entry goes exactly
      when its key is trimmed, and a second run deletes nothing exactly when all stale keys are. */
  ghost predicate SyncLaws<X>(doc: Document<X>, rows: seq<ErpAccount>, after: Document<X>) {
    var erp := ErpIndex(rows);
    && (forall id :: id in erp ==> id in after && Mirrored(Stored(doc, id), erp[id], after[id]))
    && (forall k :: Stale(doc, erp, k) ==> (k !in after <==> Trimmed(k)))
    && (Deletions(after, erp) == {} <==> TidyKeys(doc, erp))
  }

  lemma OutcomeObeysLaws<X>(doc: Document<X>, rows: seq<ErpAccount>, active: Active, after: Document<X>)
    requires WellFormed(active) && Outcome(doc, ErpIndex(rows), active, after)
    ensures SyncLaws(doc, rows, after)
  {
    var erp := ErpIndex(rows);
    IndexIsTidy(rows);
    MirrorsErp(doc, erp, active, after);
    forall k | Stale(doc, erp, k) ensures k !in after <==> Trimmed(k) {
      StaleIsGoneExactly(doc, erp, active, after, k);
    }
    ResyncDeletesExactly(doc, erp, active, after);
  }

  /** A padded key shields its entry, and costs the plain key its value. */
  lemma PaddedKeyDeletesItsTwin(active: Active, erp: map<Text, ErpAccount>, after: Document<int>, note: int)
    requires "7" !in erp && KeysInErp(erp)
    requires Outcome(PaddedDocument(note), erp, active, after)
    ensures "7" !in after && " 7" in after
  {
    var doc := PaddedDocument(note);
    PaddedStrips();
    assert !Trimmed(" 7");
    assert Stale(doc, erp, " 7");
    StaleIsGoneExactly(doc, erp, active, after, " 7");
    OtherIsKeptExactly(doc, erp, active, after, "7");
  }

  function PaddedDocument(note: int): Document<int> {
    map[" 7" := Dict(Record("7", "", None, None, None, "", "", None)), "7" := Other(note, true)]
  }

  lemma PaddedStrips()
    ensures Strip(" 7") == "7" && Strip("7") == "7"
  {
    assert " 7"[1..] == "7";
    assert LeftStrip(" 7") == LeftStrip("7");
  }
}
