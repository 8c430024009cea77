/** What the agent's replies come to in the stored document: whose word counts
    for the nature and for the function of an account. */
module CoaReplies {
  import opened Wrappers
  import opened Whitespace
  import opened CoaModel
  import opened CoaDiff
  import opened CoaMapping
  import opened CoaSync

  // ---- the table ----

  /** The nature the table gives a type shows in how the type begins. */
  lemma TableByPrefix(t: Text)
    requires StaticNature(t).Some?
    ensures StaticNature(t) == Some("ASSET") <==> "asset_" <= t
    ensures StaticNature(t) == Some("LIABILITY") <==> "liability_" <= t || "equity" <= t
    ensures StaticNature(t) == Some("PROFIT_AND_LOSS") <==> "income" <= t || "expense" <= t
    ensures StaticNature(t) == Some("OFF_BALANCE_SHEET") <==> t == "off_balance"
  {
    FourNames();
    if t in AssetTypes {
      assert t[0] == 'a';
    } else if t in LiabilityTypes {
      assert t[0] == 'l' || t[0] == 'e';
      assert t[0] == 'e' ==> t[1] == 'q';
    } else if t in ResultTypes {
      assert t[0] == 'i' || t[0] == 'e';
      assert t[0] == 'e' ==> t[1] == 'x';
    } else {
      assert t[0] == 'o';
    }
  }

  lemma FourNames()
    ensures Asset == "ASSET" && Liability == "LIABILITY" && ProfitAndLoss == "PROFIT_AND_LOSS" && OffBalanceSheet == "OFF_BALANCE_SHEET"
    ensures Asset != Liability && Asset != ProfitAndLoss && Asset != OffBalanceSheet
    ensures Liability != ProfitAndLoss && Liability != OffBalanceSheet && ProfitAndLoss != OffBalanceSheet
  {
    assert |Asset| == 5 && |Liability| == 9 && |ProfitAndLoss| == 15 && |OffBalanceSheet| == 17;
  }

  // ---- natures ----

  /** The entry gives the type one of the four natures. */
  predicate GivesNature(entry: (Text, Text), t: Text) {
    t != "" && Strip(entry.0) == t && IsNature(Strip(entry.1))
  }

  /** The last entry that gives the type a nature, or -1. */
  function LastNature(reply: Reply, t: Text): (k: int)
    ensures -1 <= k < |reply|
    ensures k >= 0 ==> GivesNature(reply[k], t)
    ensures forall j :: k < j < |reply| ==> !GivesNature(reply[j], t)
  {
    if reply == [] then -1
    else if GivesNature(reply[|reply| - 1], t) then |reply| - 1
    else LastNature(reply[..|reply| - 1], t)
  }

  /** The last nature the reply gives the type. */
  function Word(reply: Reply, t: Text): Option<Text> {
    var k := LastNature(reply, t);
    if k >= 0 then Some(Strip(reply[k].1)) else None
  }

  function Said(m: map<Text, Text>, t: Text): Option<Text> {
    if t in m then Some(m[t]) else None
  }

  lemma {:induction false} LegalIsLast(reply: Reply, t: Text)
    ensures Said(Legal(reply), t) == Word(reply, t)
  {
    if reply != [] {
      LegalIsLast(reply[..|reply| - 1], t);
    }
  }

  /** The last of the first `calls` replies that gives the type a nature, or -1. */
  ghost function LastSpeaker(ask: nat -> Reply, calls: nat, t: Text): (c: int)
    ensures -1 <= c < calls
    ensures c >= 0 ==> Word(ask(c), t).Some?
    ensures forall d :: c < d < calls ==> Word(ask(d), t).None?
  {
    if calls == 0 then -1
    else if Word(ask(calls - 1), t).Some? then calls - 1
    else LastSpeaker(ask, calls - 1, t)
  }

  /** What the last speaker said. */
  ghost function Heard(ask: nat -> Reply, calls: nat, t: Text): Option<Text> {
    var c := LastSpeaker(ask, calls, t);
    if c >= 0 then Word(ask(c), t) else None
  }

  lemma HeardNext(ask: nat -> Reply, calls: nat, t: Text)
    requires calls > 0
    ensures Heard(ask, calls, t) == if Word(ask(calls - 1), t).Some? then Word(ask(calls - 1), t) else Heard(ask, calls - 1, t)
  {
  }

  lemma SaidOfBoth(a: map<Text, Text>, b: map<Text, Text>, t: Text)
    ensures Said(a + b, t) == if Said(b, t).Some? then Said(b, t) else Said(a, t)
  {
  }

  lemma {:induction false} AgreedIsLast(ask: nat -> Reply, calls: nat, t: Text)
    ensures Said(Agreed(ask, calls), t) == Heard(ask, calls, t)
  {
    if calls > 0 {
      AgreedIsLast(ask, calls - 1, t);
      LegalIsLast(ask(calls - 1), t);
      SaidOfBoth(Agreed(ask, calls - 1), Legal(ask(calls - 1)), t);
      HeardNext(ask, calls, t);
    }
  }

  /** The nature is the last legal reply's, else the table's, else the default. */
  ghost predicate NatureFollows(ask: nat -> Reply, calls: nat, t: Text, n: Text) {
    var heard := Heard(ask, calls, t);
    n == if heard.Some? then heard.value else if StaticNature(t).Some? then StaticNature(t).value else "PROFIT_AND_LOSS"
  }

  lemma NatureOfFollows(ask: nat -> Reply, calls: nat, t: Text)
    ensures NatureFollows(ask, calls, t, NatureOf(Agreed(ask, calls), t))
  {
    AgreedIsLast(ask, calls, t);
  }

  // ---- functions ----

  /** The entry gives the account an allowed function. */
  predicate GivesDuty(entry: (Text, Text), id: Text, allowed: seq<Text>) {
    Strip(entry.0) == id && Strip(entry.1) in allowed
  }

  /** The last entry that gives the account an allowed function, or -1. */
  function LastDuty(reply: Reply, id: Text, allowed: seq<Text>): (k: int)
    ensures -1 <= k < |reply|
    ensures k >= 0 ==> GivesDuty(reply[k], id, allowed)
    ensures forall j :: k < j < |reply| ==> !GivesDuty(reply[j], id, allowed)
  {
    if reply == [] then -1
    else if GivesDuty(reply[|reply| - 1], id, allowed) then |reply| - 1
    else LastDuty(reply[..|reply| - 1], id, allowed)
  }

  lemma {:induction false} AnswerIsLast(reply: Reply, id: Text, allowed: seq<Text>)
    ensures Answer(reply, id, allowed)
         == var k := LastDuty(reply, id, allowed); if k >= 0 then Some(Strip(reply[k].1)) else None
  {
    if reply != [] {
      AnswerIsLast(reply[..|reply| - 1], id, allowed);
    }
  }

  /** The function of an account that no reply names: the old one, else the
      first allowed in its nature, else its type, else "expense". */
  function Otherwise(before: Text, nature: Text, kind: Text, active: Active): Text {
    if before != "" then before
    else if AllowedIn(active, Strip(nature)) != [] then AllowedIn(active, Strip(nature))[0]
    else if kind != "" then kind
    else "expense"
  }

  /** The function is the last allowed one in the reply, else `otherwise`. */
  predicate DutyFollows(reply: Reply, id: Text, allowed: seq<Text>, otherwise: Text, f: Text) {
    var k := LastDuty(reply, id, allowed);
    f == if k >= 0 then Strip(reply[k].1) else otherwise
  }

  // ---- the place of an account in its group ----

  lemma {:induction false} PickTwice<T(!new)>(ids: seq<T>, a: set<T>, b: set<T>)
    ensures Pick(Pick(ids, a), b) == Pick(ids, a * b)
  {
    if ids != [] {
      var before, last := ids[..|ids| - 1], ids[|ids| - 1];
      PickTwice(before, a, b);
      if last in a {
        assert (Pick(before, a) + [last])[..|Pick(before, a)|] == Pick(before, a);
      }
    }
  }

  lemma PlaceIsCount<T(!new)>(order: seq<T>, a: set<T>, b: set<T>, i: nat, p: nat)
    requires Distinct(order) && i < |order| && order[i] in a * b
    requires p < |Pick(Pick(order, a), b)| && Pick(Pick(order, a), b)[p] == order[i]
    ensures p == |Among(order[..i]) * (a * b)|
  {
    var items := Pick(order, a * b);
    PickTwice(order, a, b);
    PickRank(order, a * b, i);
    PickCounts(order[..i], a * b);
    PickIsDistinct(order, a * b);
    var q := |Pick(order[..i], a * b)|;
    assert items[p] == items[q];
  }

  // ---- the document a synchronisation leaves ----

  /** The merge of the payloads into the document. */
  function Merged<X>(doc: Document<X>, payloads: map<Text, Record<X>>): Document<X> {
    doc + map id | id in payloads :: Dict(payloads[id])
  }

  /** The document written for the given replies. */
  ghost function SyncedDoc<X>(doc: Document<X>, rows: seq<ErpAccount>, active: Active,
                              askNature: nat -> Reply, askDuty: (Text, nat) -> Reply): Document<X> {
    var erp := ErpIndex(rows);
    Merged(doc, FinalPayloads(doc, erp, ErpOrder(rows), active, askNature, askDuty)) - Deletions(doc, erp)
  }

  /** The accounts of group `g` in the document that want a function. */
  ghost function GroupIn<X>(doc: Document<X>, erp: map<Text, ErpAccount>, active: Active, after: Document<X>, g: Text): set<Text> {
    set id | id in Wanting(doc, erp, active, false) && id in after && after[id].Dict? && GroupOf(after[id].record) == g
  }

  /** How many accounts of its group the agent is asked about before it. */
  ghost function Place<X>(doc: Document<X>, erp: map<Text, ErpAccount>, order: seq<Text>, active: Active, after: Document<X>, i: nat, g: Text): nat
    requires i < |order|
  {
    |Among(order[..i]) * GroupIn(doc, erp, active, after, g)|
  }

  ghost predicate NatureHonoured<X>(doc: Document<X>, erp: map<Text, ErpAccount>, active: Active, ask: nat -> Reply, id: Text, n: Text)
    requires id in erp
  {
    if NatureNeeded(Stored(doc, id), erp[id])
    then NatureFollows(ask, CallsFor(WantedKinds(doc, erp, active)), Strip(erp[id].kind), n)
    else n == Stored(doc, id).value.nature
  }

  /** The function of the account `order[i]`, which has the nature of `r`. */
  ghost predicate DutyHonoured<X>(doc: Document<X>, erp: map<Text, ErpAccount>, order: seq<Text>, active: Active, ask: (Text, nat) -> Reply,
                                  after: Document<X>, i: nat, r: Record<X>)
    requires i < |order| && order[i] in erp
  {
    var e, a, g := Stored(doc, order[i]), erp[order[i]], GroupOf(r);
    if DutyNeeded(e, a, active)
    then DutyFollows(ask(g, Place(doc, erp, order, active, after, i, g) / 25), order[i], AllowedIn(active, g),
                     Otherwise(OldDuty(e), r.nature, a.kind, active), r.duty)
    else r.duty == e.value.duty
  }

  /** Every account has the nature and the function the replies lead to. */
  ghost predicate Honoured<X>(doc: Document<X>, erp: map<Text, ErpAccount>, order: seq<Text>, active: Active,
                              askNature: nat -> Reply, askDuty: (Text, nat) -> Reply, after: Document<X>) {
    forall i :: 0 <= i < |order| ==>
      order[i] in erp && order[i] in after && after[order[i]].Dict? &&
      NatureHonoured(doc, erp, active, askNature, order[i], after[order[i]].record.nature) &&
      DutyHonoured(doc, erp, order, active, askDuty, after, i, after[order[i]].record)
  }

  // ---- the document honours the replies ----

  lemma FinalNature<X>(doc: Document<X>, erp: map<Text, ErpAccount>, active: Active, ask: nat -> Reply, id: Text)
    requires id in Upserts(doc, erp, active)
    ensures NatureHonoured(doc, erp, active, ask, id, NatureStage(doc, erp, active, ask)[id].nature)
  {
    NatureOfFollows(ask, CallsFor(WantedKinds(doc, erp, active)), Strip(erp[id].kind));
  }

  /** Completion with the account's old function and its nature at hand. */
  lemma CompletedFollows<X>(r: Record<X>, id: Text, reply: Reply, active: Active)
    requires r.nature != "" && WellFormed(active)
    ensures DutyFollows(reply, id, AllowedIn(active, GroupOf(r)),
                        Otherwise(r.duty, r.nature, if r.kind.Some? then r.kind.value else "", active),
                        Completed(WithDuty(r, Answer(reply, id, AllowedIn(active, GroupOf(r)))), active).duty)
  {
    AnswerIsLast(reply, id, AllowedIn(active, GroupOf(r)));
    assert NonEmptyTexts(active[GroupOf(r)]);
  }

  lemma StageKeeps<X>(doc: Document<X>, erp: map<Text, ErpAccount>, active: Active, ask: nat -> Reply, id: Text)
    requires id in Upserts(doc, erp, active)
    ensures var r := NatureStage(doc, erp, active, ask)[id];
            r.nature != "" && r.kind == Some(erp[id].kind) && r.duty == OldDuty(Stored(doc, id))
  {
  }

  /** Neither phase after the first touches a nature. */
  lemma FinishedKeepsNature<X>(natured: map<Text, Record<X>>, ids: seq<Text>, ask: (Text, nat) -> Reply, active: Active, id: Text)
    requires AllIn(ids, natured.Keys) && id in natured
    ensures Finished(natured, ids, ask, active)[id].nature == natured[id].nature
  {
  }

  ghost function GroupSet<X>(natured: map<Text, Record<X>>, g: Text): set<Text> {
    set id | id in natured && GroupOf(natured[id]) == g
  }

  /** The function of a listed account is read from the reply of its own batch. */
  lemma FinishedFollows<X>(natured: map<Text, Record<X>>, order: seq<Text>, wanted: set<Text>, ask: (Text, nat) -> Reply, active: Active, i: nat)
    requires Distinct(order) && i < |order| && order[i] in wanted && AllIn(Pick(order, wanted), natured.Keys)
    requires WellFormed(active) && order[i] in natured && natured[order[i]].nature != ""
    ensures var r := natured[order[i]];
            var g := GroupOf(r);
            DutyFollows(ask(g, |Among(order[..i]) * (wanted * GroupSet(natured, g))| / 25), order[i], AllowedIn(active, g),
                        Otherwise(r.duty, r.nature, if r.kind.Some? then r.kind.value else "", active),
                        Finished(natured, Pick(order, wanted), ask, active)[order[i]].duty)
  {
    var id := order[i];
    var g := GroupOf(natured[id]);
    var items := GroupItems(natured, Pick(order, wanted), g);
    var p := IndexOf(items, id);
    PlaceIsCount(order, wanted, GroupSet(natured, g), i, p);
    CompletedFollows(natured[id], id, ask(g, p / AccountBatch), active);
  }

  /** What is written for an upserted account, and what stays for another. */
  lemma WrittenAt<X>(doc: Document<X>, erp: map<Text, ErpAccount>, active: Active, payloads: map<Text, Record<X>>, id: Text)
    requires payloads.Keys == Upserts(doc, erp, active).Keys && id in erp
    ensures var after := Merged(doc, payloads) - Deletions(doc, erp);
            && id in after && after[id].Dict?
            && (id in payloads ==> after[id].record == payloads[id])
            && (id !in payloads ==> Stored(doc, id) == Some(after[id].record))
    ensures id in payloads <==> Touched(Stored(doc, id), erp[id], active)
  {
    assert id in payloads.Keys <==> id in Upserts(doc, erp, active).Keys;
  }

  lemma GroupInIsPicked<X>(doc: Document<X>, erp: map<Text, ErpAccount>, active: Active, natured: map<Text, Record<X>>,
                           payloads: map<Text, Record<X>>, g: Text)
    requires natured.Keys == payloads.Keys == Upserts(doc, erp, active).Keys
    requires forall id :: id in payloads ==> payloads[id].nature == natured[id].nature
    ensures GroupIn(doc, erp, active, Merged(doc, payloads) - Deletions(doc, erp), g)
         == Wanting(doc, erp, active, false) * GroupSet(natured, g)
  {
    var after := Merged(doc, payloads) - Deletions(doc, erp);
    forall id | id in Wanting(doc, erp, active, false)
      ensures id in natured && id in after && after[id].Dict? && GroupOf(after[id].record) == GroupOf(natured[id])
    {
      WrittenAt(doc, erp, active, payloads, id);
      assert id in payloads;
    }
  }

  lemma DutyIsHonoured<X>(doc: Document<X>, erp: map<Text, ErpAccount>, order: seq<Text>, active: Active,
                          askNature: nat -> Reply, askDuty: (Text, nat) -> Reply, i: nat)
    requires Enumerates(order, erp) && WellFormed(active) && i < |order| && order[i] in Upserts(doc, erp, active)
    ensures var payloads := FinalPayloads(doc, erp, order, active, askNature, askDuty);
            DutyHonoured(doc, erp, order, active, askDuty, Merged(doc, payloads) - Deletions(doc, erp), i, payloads[order[i]])
  {
    var natured := NatureStage(doc, erp, active, askNature);
    var wanted := Wanting(doc, erp, active, false);
    var payloads := FinalPayloads(doc, erp, order, active, askNature, askDuty);
    var id := order[i];
    forall x | x in payloads ensures payloads[x].nature == natured[x].nature {
      FinishedKeepsNature(natured, Pick(order, wanted), askDuty, active, x);
    }
    StageKeeps(doc, erp, active, askNature, id);
    if id in wanted {
      GroupInIsPicked(doc, erp, active, natured, payloads, GroupOf(natured[id]));
      FinishedFollows(natured, order, wanted, askDuty, active, i);
    } else {
      NotWanted(doc, erp, active, id);
    }
  }

  lemma NotWanted<X>(doc: Document<X>, erp: map<Text, ErpAccount>, active: Active, id: Text)
    requires id in Upserts(doc, erp, active)
    ensures id in Wanting(doc, erp, active, false) <==> DutyNeeded(Stored(doc, id), erp[id], active)
  {
  }

  /** The document a synchronisation writes gives every account of the ERP the
      nature and the function that the agent's replies lead to. */
  lemma SyncedHonours<X>(doc: Document<X>, rows: seq<ErpAccount>, active: Active, askNature: nat -> Reply, askDuty: (Text, nat) -> Reply)
    requires WellFormed(active)
    ensures Honoured(doc, ErpIndex(rows), ErpOrder(rows), active, askNature, askDuty, SyncedDoc(doc, rows, active, askNature, askDuty))
  {
    var erp, order := ErpIndex(rows), ErpOrder(rows);
    OrderEnumerates(rows);
    var payloads := FinalPayloads(doc, erp, order, active, askNature, askDuty);
    var after := SyncedDoc(doc, rows, active, askNature, askDuty);
    forall i | 0 <= i < |order|
      ensures order[i] in erp && order[i] in after && after[order[i]].Dict?
      ensures NatureHonoured(doc, erp, active, askNature, order[i], after[order[i]].record.nature)
      ensures DutyHonoured(doc, erp, order, active, askDuty, after, i, after[order[i]].record)
    {
      assert order[i] in order;
      WrittenAt(doc, erp, active, payloads, order[i]);
      if order[i] in payloads {
        FinalNature(doc, erp, active, askNature, order[i]);
        FinishedKeepsNature(NatureStage(doc, erp, active, askNature), DutyIds(doc, erp, order, active), askDuty, active, order[i]);
        DutyIsHonoured(doc, erp, order, active, askNature, askDuty, i);
      }
    }
  }

  // ---- field by field ----

  /** The stored account has the type the ERP now gives it. */
  predicate SameType<X>(doc: Document<X>, id: Text, kind: Text) {
    id in doc && doc[id].Dict? && doc[id].record.kind == Some(kind)
  }

  /** A nature is kept exactly as it is for an account whose type did not change
      and that had one; any other account has the one the replies lead to. */
  lemma NatureAfter<X>(doc: Document<X>, erp: map<Text, ErpAccount>, order: seq<Text>, active: Active,
                       askNature: nat -> Reply, askDuty: (Text, nat) -> Reply, after: Document<X>, id: Text)
    requires Honoured(doc, erp, order, active, askNature, askDuty, after) && id in order
    ensures id in erp && id in after && after[id].Dict?
    ensures if SameType(doc, id, erp[id].kind) && doc[id].record.nature != ""
            then after[id].record.nature == doc[id].record.nature
            else NatureFollows(askNature, CallsFor(WantedKinds(doc, erp, active)), Strip(erp[id].kind), after[id].record.nature)
  {
  }

  /** A type of the table that no reply names gives its own nature to every
      account that is new, changed type or had no nature. */
  lemma KnownTypesBecome<X>(doc: Document<X>, erp: map<Text, ErpAccount>, order: seq<Text>, active: Active,
                            askNature: nat -> Reply, askDuty: (Text, nat) -> Reply, after: Document<X>, id: Text)
    requires Honoured(doc, erp, order, active, askNature, askDuty, after) && id in order && id in erp
    requires !SameType(doc, id, erp[id].kind) || doc[id].record.nature == ""
    requires forall c, k :: 0 <= c && 0 <= k < |askNature(c)| ==> Strip(askNature(c)[k].0) != Strip(erp[id].kind)
    ensures id in after && after[id].Dict?
    ensures var t, n := Strip(erp[id].kind), after[id].record.nature;
            && (t in ["asset_cash", "asset_current", "asset_prepayments", "asset_fixed", "asset_non_current", "asset_receivable"] ==> n == "ASSET")
            && (t in ["liability_payable", "liability_credit_card", "liability_current", "liability_non_current"] ==> n == "LIABILITY")
            && (t in ["equity", "equity_unaffected"] ==> n == "LIABILITY")
            && (t in ["income", "income_other"] ==> n == "PROFIT_AND_LOSS")
            && (t in ["expense", "expense_depreciation", "expense_direct_cost"] ==> n == "PROFIT_AND_LOSS")
            && (t == "off_balance" ==> n == "OFF_BALANCE_SHEET")
            && (StaticNature(t).None? ==> n == "PROFIT_AND_LOSS")
  {
    NatureAfter(doc, erp, order, active, askNature, askDuty, after, id);
    var calls, t := CallsFor(WantedKinds(doc, erp, active)), Strip(erp[id].kind);
    assert LastSpeaker(askNature, calls, t) < 0;
    TableIsComplete(t);
  }

  lemma TableIsComplete(t: Text)
    ensures t in ["asset_cash", "asset_current", "asset_prepayments", "asset_fixed", "asset_non_current", "asset_receivable"] ==> StaticNature(t) == Some("ASSET")
    ensures t in ["liability_payable", "liability_credit_card", "liability_current", "liability_non_current"] ==> StaticNature(t) == Some("LIABILITY")
    ensures t in ["equity", "equity_unaffected"] ==> StaticNature(t) == Some("LIABILITY")
    ensures t in ["income", "income_other"] ==> StaticNature(t) == Some("PROFIT_AND_LOSS")
    ensures t in ["expense", "expense_depreciation", "expense_direct_cost"] ==> StaticNature(t) == Some("PROFIT_AND_LOSS")
    ensures t == "off_balance" ==> StaticNature(t) == Some("OFF_BALANCE_SHEET")
  {
    if StaticNature(t).Some? {
      TableByPrefix(t);
    }
  }

  /** A function is kept exactly as it is for an account whose type did not
      change and whose function is active in its nature.  Any other account has
      the last allowed answer of the 25 accounts it was sent with, else its old
      function, else the first of its nature, else its type or "expense". */
  lemma DutyAfter<X>(doc: Document<X>, erp: map<Text, ErpAccount>, order: seq<Text>, active: Active,
                     askNature: nat -> Reply, askDuty: (Text, nat) -> Reply, after: Document<X>, i: nat)
    requires Honoured(doc, erp, order, active, askNature, askDuty, after) && WellFormed(active) && i < |order|
    ensures order[i] in erp && order[i] in after && after[order[i]].Dict?
    ensures var id, r := order[i], after[order[i]].record;
            var g := if IsNature(Strip(r.nature)) then Strip(r.nature) else "PROFIT_AND_LOSS";
            if SameType(doc, id, erp[id].kind) && doc[id].record.nature in active && doc[id].record.duty in active[doc[id].record.nature]
            then r.duty == doc[id].record.duty
            else DutyFollows(askDuty(g, Place(doc, erp, order, active, after, i, g) / 25), id, AllowedIn(active, g),
                             Otherwise(if id in doc && doc[id].Dict? then doc[id].record.duty else "", r.nature, erp[id].kind, active), r.duty)
  {
    var id := order[i];
    if id in doc && doc[id].Dict? && doc[id].record.nature in active && doc[id].record.duty in active[doc[id].record.nature] {
      assert NonEmptyTexts(active[doc[id].record.nature]);
    }
  }
}
