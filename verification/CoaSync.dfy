/** The whole chart-of-accounts synchronisation and what it guarantees whatever
    the agent replies. */
module CoaSync {
  import opened Wrappers
  import opened Whitespace
  import opened CoaModel
  import opened CoaDiff
  import opened CoaMapping

  // ---- payloads ----

  function NatureFrom<X>(table: map<Text, Text>, r: Record<X>): Text {
    Lookup(table, KindOf(r))
  }

  ghost predicate Natured<X>(payloads: map<Text, Record<X>>, result: map<Text, Record<X>>, done: set<Text>, table: map<Text, Text>) {
    result.Keys == payloads.Keys &&
    forall id :: id in payloads ==>
      result[id] == if id in done then payloads[id].(nature := NatureFrom(table, payloads[id])) else payloads[id]
  }

  method ApplyNatures<X>(payloads: map<Text, Record<X>>, ids: seq<Text>, table: map<Text, Text>) returns (result: map<Text, Record<X>>)
    ensures Natured(payloads, result, Among(ids), table)
  {
    result := payloads;
    for k := 0 to |ids|
      invariant Natured(payloads, result, Among(ids[..k]), table)
    {
      assert ids[..k + 1] == ids[..k] + [ids[k]];
      if ids[k] in result {
        result := result[ids[k] := result[ids[k]].(nature := NatureFrom(table, result[ids[k]]))];
      }
    }
    assert ids[..|ids|] == ids;
  }

  /** The function given to an account that would otherwise be left without one. */
  function Fallback<X>(r: Record<X>, active: Active): (f: Text)
    ensures WellFormed(active) ==> f != ""
  {
    var allowed := AllowedIn(active, Strip(if r.nature == "" then ProfitAndLoss else r.nature));
    if allowed != [] then allowed[0]
    else if r.kind.Some? && r.kind.value != "" then r.kind.value
    else "expense"
  }

  function Completed<X>(r: Record<X>, active: Active): Record<X> {
    if r.duty == "" then r.(duty := Fallback(r, active)) else r
  }

  ghost predicate AllCompleted<X>(payloads: map<Text, Record<X>>, result: map<Text, Record<X>>, rest: set<Text>, active: Active) {
    result.Keys == payloads.Keys &&
    forall id :: id in payloads ==> result[id] == if id in rest then payloads[id] else Completed(payloads[id], active)
  }

  method Complete<X>(payloads: map<Text, Record<X>>, active: Active) returns (result: map<Text, Record<X>>)
    ensures AllCompleted(payloads, result, {}, active)
  {
    result := payloads;
    var rest := payloads.Keys;
    while rest != {}
      invariant rest <= payloads.Keys
      invariant AllCompleted(payloads, result, rest, active)
      decreases rest
    {
      var id :| id in rest;
      if result[id].duty == "" {
        result := result[id := Completed(result[id], active)];
      }
      rest := rest - {id};
    }
  }

  // ---- what every reply leads to ----

  function OldDuty<X>(e: Option<Record<X>>): Text {
    if e.Some? then e.value.duty else ""
  }

  /** The nature is kept, or remapped to one of the four. */
  predicate NatureSettled<X>(e: Option<Record<X>>, a: ErpAccount, r: Record<X>) {
    if NatureNeeded(e, a) then IsNature(r.nature) else e.Some? && r.nature == e.value.nature
  }

  /** The function is kept, an allowed answer of the agent, or the fallback. */
  predicate DutySettled<X>(e: Option<Record<X>>, a: ErpAccount, active: Active, r: Record<X>) {
    r.duty != "" &&
    (r.duty == OldDuty(e) ||
     (DutyNeeded(e, a, active) && r.duty in AllowedIn(active, GroupOf(r))) ||
     (OldDuty(e) == "" && r.duty == Fallback(r.(duty := ""), active)))
  }

  /** Everything but nature and function is the payload of the comparison. */
  ghost predicate IsPayload<X>(e: Option<Record<X>>, id: Text, a: ErpAccount, r: Record<X>) {
    r == Payload(e, id, a).(nature := r.nature, duty := r.duty)
  }

  ghost predicate Remapped<X>(e: Option<Record<X>>, id: Text, a: ErpAccount, active: Active, r: Record<X>) {
    IsPayload(e, id, a, r) && NatureSettled(e, a, r) && DutySettled(e, a, active, r)
  }

  /** One account through the three remapping phases. */
  lemma PhasesSettle<X>(e: Option<Record<X>>, id: Text, a: ErpAccount, active: Active, natured: Record<X>, answer: Option<Text>)
    requires WellFormed(active)
    requires IsPayload(e, id, a, natured) && NatureSettled(e, a, natured) && natured.duty == OldDuty(e)
    requires answer.Some? ==> DutyNeeded(e, a, active) && answer.value in AllowedIn(active, GroupOf(natured))
    ensures Remapped(e, id, a, active, Completed(WithDuty(natured, answer), active))
  {
    var r := Completed(WithDuty(natured, answer), active);
    assert r.nature == natured.nature && GroupOf(r) == GroupOf(natured);
    if answer.Some? {
      assert NonEmptyTexts(active[GroupOf(natured)]);
      assert r.duty == answer.value;
    } else if natured.duty == "" {
      assert natured.(duty := "") == natured;
      assert r.(duty := "") == natured;
    }
  }

  ghost predicate AllRemapped<X>(doc: Document<X>, erp: map<Text, ErpAccount>, active: Active, payloads: map<Text, Record<X>>) {
    payloads.Keys == Upserts(doc, erp, active).Keys &&
    forall id :: id in payloads ==> id in erp && Remapped(Stored(doc, id), id, erp[id], active, payloads[id])
  }

  // ---- the payloads as a function of the replies ----

  /** The types of the accounts that want a nature. */
  ghost function WantedKinds<X>(doc: Document<X>, erp: map<Text, ErpAccount>, active: Active): set<Text> {
    set id | id in erp && Wants(doc, erp, active, id, true) && Strip(erp[id].kind) != "" :: Strip(erp[id].kind)
  }

  /** What the nature replies come to. */
  ghost function NatureWord<X>(doc: Document<X>, erp: map<Text, ErpAccount>, active: Active, ask: nat -> Reply): (r: map<Text, Text>)
    ensures forall t :: t in r ==> IsNature(r[t])
  {
    Agreed(ask, CallsFor(WantedKinds(doc, erp, active)))
  }

  ghost function NatureStage<X>(doc: Document<X>, erp: map<Text, ErpAccount>, active: Active, ask: nat -> Reply): (r: map<Text, Record<X>>)
    ensures r.Keys == Upserts(doc, erp, active).Keys
  {
    var upserts, agreed := Upserts(doc, erp, active), NatureWord(doc, erp, active, ask);
    map id | id in upserts ::
      if Wants(doc, erp, active, id, true) then upserts[id].(nature := NatureOf(agreed, KindOf(upserts[id]))) else upserts[id]
  }

  ghost function DutyIds<X>(doc: Document<X>, erp: map<Text, ErpAccount>, order: seq<Text>, active: Active): (ids: seq<Text>)
    ensures AllIn(ids, Upserts(doc, erp, active).Keys)
  {
    Pick(order, Wanting(doc, erp, active, false))
  }

  ghost function FinalPayloads<X>(doc: Document<X>, erp: map<Text, ErpAccount>, order: seq<Text>, active: Active,
                                  askNature: nat -> Reply, askDuty: (Text, nat) -> Reply): map<Text, Record<X>> {
    Finished(NatureStage(doc, erp, active, askNature), DutyIds(doc, erp, order, active), askDuty, active)
  }

  ghost function Finished<X>(natured: map<Text, Record<X>>, ids: seq<Text>, ask: (Text, nat) -> Reply, active: Active): map<Text, Record<X>>
    requires AllIn(ids, natured.Keys)
  {
    map id | id in natured :: Completed(Mapped(natured, ids, ask, active, id, FixedNatures), active)
  }

  lemma WantedKindsAreListed<X>(doc: Document<X>, erp: map<Text, ErpAccount>, active: Active, ids: seq<Text>)
    requires Lists(ids, doc, erp, active, erp.Keys, true)
    ensures KindsOf(Upserts(doc, erp, active), Among(ids)) == WantedKinds(doc, erp, active)
  {
    var upserts := Upserts(doc, erp, active);
    forall id | id in erp ensures id in Among(ids) && id in upserts <==> Wants(doc, erp, active, id, true) {
      assert id in ids <==> id in erp.Keys && Wants(doc, erp, active, id, true);
    }
    forall id | id in upserts ensures KindOf(upserts[id]) == Strip(erp[id].kind) {
    }
  }

  lemma NaturedIsStage<X>(doc: Document<X>, erp: map<Text, ErpAccount>, active: Active, ids: seq<Text>, table: map<Text, Text>,
                          ask: nat -> Reply, natured: map<Text, Record<X>>)
    requires Lists(ids, doc, erp, active, erp.Keys, true)
    requires Resolves(table, NatureWord(doc, erp, active, ask))
    requires Natured(Upserts(doc, erp, active), natured, Among(ids), table)
    ensures natured == NatureStage(doc, erp, active, ask)
  {
    var stage, upserts := NatureStage(doc, erp, active, ask), Upserts(doc, erp, active);
    forall id | id in natured ensures natured[id] == stage[id] {
      assert id in ids <==> id in erp.Keys && Wants(doc, erp, active, id, true);
      assert Lookup(table, KindOf(upserts[id])) == NatureOf(NatureWord(doc, erp, active, ask), KindOf(upserts[id]));
    }
  }

  /** Both phases, exactly: the payloads are the ones the replies lead to. */
  method Remap<X>(doc: Document<X>, erp: map<Text, ErpAccount>, order: seq<Text>, active: Active,
                  askNature: nat -> Reply, askDuty: (Text, nat) -> Reply)
    returns (payloads: map<Text, Record<X>>)
    requires Enumerates(order, erp) && WellFormed(active)
    ensures AllRemapped(doc, erp, active, payloads)
    ensures payloads == FinalPayloads(doc, erp, order, active, askNature, askDuty)
  {
    var upserts, natureIds, dutyIds := Diff(doc, erp, order, active);
    var types := WantedTypes(upserts, natureIds);
    WantedKindsAreListed(doc, erp, active, natureIds);
    var table, calls := MapTypes(types, askNature);
    ResolvedIsLegal(table, Agreed(askNature, calls));
    var natured := ApplyNatures(upserts, natureIds, table);
    NaturedIsStage(doc, erp, active, natureIds, table, askNature, natured);
    NaturesAreDistinct();
    var mapped := MapDuties(natured, dutyIds, FixedNatures, askDuty, active);
    payloads := Complete(mapped, active);
    AllCompose(doc, erp, active, natureIds, table, natured, dutyIds, askDuty, mapped, payloads);
    CompletedIsFinished(natured, dutyIds, askDuty, active, mapped, payloads);
  }

  lemma AllCompose<X>(doc: Document<X>, erp: map<Text, ErpAccount>, active: Active, natureIds: seq<Text>, table: map<Text, Text>,
                      natured: map<Text, Record<X>>, dutyIds: seq<Text>, ask: (Text, nat) -> Reply,
                      mapped: map<Text, Record<X>>, payloads: map<Text, Record<X>>)
    requires WellFormed(active) && LegalTable(table)
    requires Lists(natureIds, doc, erp, active, erp.Keys, true) && Lists(dutyIds, doc, erp, active, erp.Keys, false)
    requires Natured(Upserts(doc, erp, active), natured, Among(natureIds), table)
    requires AllIn(dutyIds, natured.Keys) && GroupsMapped(natured, mapped, dutyIds, ask, active, FixedNatures)
    requires AllCompleted(mapped, payloads, {}, active)
    ensures AllRemapped(doc, erp, active, payloads)
  {
    forall id | id in payloads ensures id in erp && Remapped(Stored(doc, id), id, erp[id], active, payloads[id]) {
      PhasesCompose(doc, erp, active, natureIds, table, natured, dutyIds, ask, mapped, payloads, id);
    }
  }

  lemma CompletedIsFinished<X>(natured: map<Text, Record<X>>, ids: seq<Text>, ask: (Text, nat) -> Reply, active: Active,
                               mapped: map<Text, Record<X>>, payloads: map<Text, Record<X>>)
    requires AllIn(ids, natured.Keys)
    requires GroupsMapped(natured, mapped, ids, ask, active, FixedNatures)
    requires AllCompleted(mapped, payloads, {}, active)
    ensures payloads == Finished(natured, ids, ask, active)
  {
    forall id | id in payloads ensures payloads[id] == Completed(Mapped(natured, ids, ask, active, id, FixedNatures), active) {
      assert mapped[id] == Mapped(natured, ids, ask, active, id, FixedNatures);
      assert payloads[id] == Completed(mapped[id], active);
    }
    var finished := Finished(natured, ids, ask, active);
    assert payloads.Keys == natured.Keys;
    assert finished.Keys == natured.Keys;
  }

  ghost predicate LegalTable(table: map<Text, Text>) {
    forall t :: IsNature(Lookup(table, t))
  }

  lemma ResolvedIsLegal(table: map<Text, Text>, agreed: map<Text, Text>)
    requires Resolves(table, agreed)
    ensures LegalTable(table)
  {
    forall t ensures IsNature(Lookup(table, t)) {
      assert Lookup(table, t) == NatureOf(agreed, t);
    }
  }

  /** The answer an account was given, if any, whichever batch it was in. */
  lemma AnswerGiven<X>(natured: map<Text, Record<X>>, mapped: map<Text, Record<X>>, ids: seq<Text>, ask: (Text, nat) -> Reply,
                       active: Active, id: Text) returns (answer: Option<Text>)
    requires AllIn(ids, natured.Keys) && GroupsMapped(natured, mapped, ids, ask, active, FixedNatures) && id in natured
    ensures id in mapped && mapped[id] == WithDuty(natured[id], answer)
    ensures answer.Some? ==> id in ids && answer.value in AllowedIn(active, GroupOf(natured[id]))
  {
    answer := if id in ids then AnswerFor(natured, ids, ask, active, id) else None;
    assert mapped[id] == Mapped(natured, ids, ask, active, id, FixedNatures);
  }

  lemma PhasesCompose<X>(doc: Document<X>, erp: map<Text, ErpAccount>, active: Active, natureIds: seq<Text>, table: map<Text, Text>,
                         natured: map<Text, Record<X>>, dutyIds: seq<Text>, ask: (Text, nat) -> Reply,
                         mapped: map<Text, Record<X>>, payloads: map<Text, Record<X>>, id: Text)
    requires WellFormed(active) && LegalTable(table)
    requires Lists(natureIds, doc, erp, active, erp.Keys, true) && Lists(dutyIds, doc, erp, active, erp.Keys, false)
    requires Natured(Upserts(doc, erp, active), natured, Among(natureIds), table)
    requires AllIn(dutyIds, natured.Keys) && GroupsMapped(natured, mapped, dutyIds, ask, active, FixedNatures)
    requires AllCompleted(mapped, payloads, {}, active) && id in payloads
    ensures id in erp && Remapped(Stored(doc, id), id, erp[id], active, payloads[id])
  {
    NaturedSettles(doc, erp, active, natureIds, table, natured, id);
    var answer := AnswerGiven(natured, mapped, dutyIds, ask, active, id);
    assert id in dutyIds ==> Wants(doc, erp, active, id, false);
    PhasesSettle(Stored(doc, id), id, erp[id], active, natured[id], answer);
  }

  lemma NaturedSettles<X>(doc: Document<X>, erp: map<Text, ErpAccount>, active: Active, ids: seq<Text>, table: map<Text, Text>,
                          natured: map<Text, Record<X>>, id: Text)
    requires Lists(ids, doc, erp, active, erp.Keys, true)
    requires LegalTable(table)
    requires Natured(Upserts(doc, erp, active), natured, Among(ids), table) && id in natured
    ensures id in erp && IsPayload(Stored(doc, id), id, erp[id], natured[id])
    ensures NatureSettled(Stored(doc, id), erp[id], natured[id]) && natured[id].duty == OldDuty(Stored(doc, id))
  {
    assert id in ids <==> id in erp.Keys && Wants(doc, erp, active, id, true);
  }

  /** The non-empty types of the listed accounts. */
  ghost function KindsOf<X>(upserts: map<Text, Record<X>>, ids: set<Text>): set<Text> {
    set id | id in ids && id in upserts && KindOf(upserts[id]) != "" :: KindOf(upserts[id])
  }

  method WantedTypes<X>(upserts: map<Text, Record<X>>, ids: seq<Text>) returns (types: seq<Text>)
    ensures Distinct(types) && Among(types) == KindsOf(upserts, Among(ids))
  {
    types := [];
    for k := 0 to |ids|
      invariant Distinct(types) && Among(types) == KindsOf(upserts, Among(ids[..k]))
    {
      NextKind(upserts, ids, k);
      if ids[k] in upserts {
        var t := KindOf(upserts[ids[k]]);
        if t != "" && t !in types {
          assert t !in Among(types);
          assert Among(types + [t]) == Among(types) + {t};
          types := types + [t];
        } else {
          assert t != "" ==> t in Among(types);
        }
      }
    }
    assert ids[..|ids|] == ids;
  }

  lemma NextKind<X>(upserts: map<Text, Record<X>>, ids: seq<Text>, k: nat)
    requires k < |ids|
    ensures KindsOf(upserts, Among(ids[..k + 1]))
         == KindsOf(upserts, Among(ids[..k])) + KindsOf(upserts, {ids[k]})
    ensures KindsOf(upserts, {ids[k]}) == if ids[k] in upserts && KindOf(upserts[ids[k]]) != "" then {KindOf(upserts[ids[k]])} else {}
  {
    assert ids[..k + 1] == ids[..k] + [ids[k]];
    assert Among(ids[..k + 1]) == Among(ids[..k]) + {ids[k]};
  }

  function KindOf<X>(r: Record<X>): Text {
    Strip(if r.kind.Some? then r.kind.value else "")
  }
}
