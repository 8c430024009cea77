/** The data of the chart-of-accounts synchronisation: ERP accounts, the stored
    document, and the active functions of each nature. */
module CoaModel {
  import opened Wrappers
  import opened Whitespace

  type Text = string

  /** One row of the ERP, its fields already read with their defaults. */
  datatype ErpAccount = ErpAccount(id: Text, kind: Text, number: Text, name: Text, deprecated: bool)

  /** A dictionary of the stored document.  `None` is a stored null for `name`
      and `kind` and a missing field for `active`; `extra` is every other field. */
  datatype Record<X> = Record(id: Text, number: Text, name: Option<Text>, kind: Option<Text>, active: Option<bool>,
                              nature: Text, duty: Text, extra: Option<X>)

  /** A field of the stored document: a dictionary, or anything else. */
  datatype Field<X> = Dict(record: Record<X>) | Other(value: X, truthy: bool)

  type Document<X> = map<Text, Field<X>>

  const Asset := "ASSET"
  const Liability := "LIABILITY"
  const ProfitAndLoss := "PROFIT_AND_LOSS"
  const OffBalanceSheet := "OFF_BALANCE_SHEET"

  const FixedNatures: seq<Text> := [Asset, Liability, ProfitAndLoss, OffBalanceSheet]

  predicate IsNature(n: Text) {
    n == Asset || n == Liability || n == ProfitAndLoss || n == OffBalanceSheet
  }

  const AssetTypes := ["asset_cash", "asset_current", "asset_prepayments", "asset_fixed", "asset_non_current", "asset_receivable"]
  const LiabilityTypes := ["liability_payable", "liability_credit_card", "liability_current", "liability_non_current",
                           "equity", "equity_unaffected"]
  const ResultTypes := ["income", "income_other", "expense", "expense_depreciation", "expense_direct_cost"]

  /** The fixed table from ERP types to natures. */
  function StaticNature(t: Text): (r: Option<Text>)
    ensures r.Some? ==> IsNature(r.value)
  {
    if t in AssetTypes then Some(Asset)
    else if t in LiabilityTypes then Some(Liability)
    else if t in ResultTypes then Some(ProfitAndLoss)
    else if t == "off_balance" then Some(OffBalanceSheet)
    else None
  }

  // ---- active functions ----

  datatype Definition = Definition(name: Text, active: Option<bool>)

  type Active = map<Text, seq<Text>>

  predicate IsOn(d: Definition) {
    Strip(d.name) != "" && d.active != Some(false)
  }

  predicate NonEmptyTexts(names: seq<Text>) {
    forall k :: 0 <= k < |names| ==> names[k] != ""
  }

  /** The names of the active definitions in order of first appearance. */
  function NamesOf(definitions: seq<Definition>): (names: seq<Text>)
    ensures NonEmptyTexts(names)
  {
    if definitions == [] then []
    else
      var before, d := NamesOf(definitions[..|definitions| - 1]), definitions[|definitions| - 1];
      if IsOn(d) && Strip(d.name) !in before then before + [Strip(d.name)] else before
  }

  predicate Carries(d: Definition, name: Text) {
    name != "" && Strip(d.name) == name && (d.active.None? || d.active.value)
  }

  /** A name is listed exactly when some definition carries it and is not switched off. */
  lemma {:induction false} NamesAreExact(definitions: seq<Definition>, name: Text)
    ensures name in NamesOf(definitions) <==> exists k :: 0 <= k < |definitions| && Carries(definitions[k], name)
  {
    if definitions != [] {
      var n := |definitions| - 1;
      NamesAreExact(definitions[..n], name);
      if k :| 0 <= k < n && Carries(definitions[k], name) {
        assert definitions[..n][k] == definitions[k];
      }
    }
  }

  /** Names met first come first: later definitions only add to the end. */
  lemma {:induction false} NamesGrow(definitions: seq<Definition>, k: nat)
    requires k <= |definitions|
    ensures NamesOf(definitions[..k]) <= NamesOf(definitions)
  {
    if k < |definitions| {
      var before := definitions[..|definitions| - 1];
      NamesGrow(before, k);
      assert before[..k] == definitions[..k];
    } else {
      assert definitions[..k] == definitions;
    }
  }

  method ActiveNames(definitions: seq<Definition>) returns (names: seq<Text>)
    ensures names == NamesOf(definitions)
  {
    names := [];
    for k := 0 to |definitions|
      invariant names == NamesOf(definitions[..k])
    {
      var d := definitions[k];
      assert definitions[..k + 1][..k] == definitions[..k];
      if IsOn(d) && Strip(d.name) !in names {
        names := names + [Strip(d.name)];
      }
    }
    assert definitions[..|definitions|] == definitions;
  }

  /** What the extraction yields: exactly the four natures, no empty names. */
  ghost predicate WellFormed(active: Active) {
    (forall n :: n in active <==> IsNature(n)) &&
    (forall n :: n in active ==> NonEmptyTexts(active[n]))
  }

  function NamesIn(definitions: map<Text, seq<Definition>>, n: Text): (names: seq<Text>)
    ensures NonEmptyTexts(names)
  {
    if n in definitions then NamesOf(definitions[n]) else []
  }

  method ExtractActive(definitions: map<Text, seq<Definition>>) returns (active: Active)
    ensures WellFormed(active)
    ensures forall n :: n in active ==> active[n] == NamesIn(definitions, n)
  {
    active := map[];
    for k := 0 to 4
      invariant forall n :: n in active <==> n in FixedNatures[..k]
      invariant forall n :: n in active ==> active[n] == NamesIn(definitions, n)
    {
      var n := FixedNatures[k];
      assert FixedNatures[..k + 1] == FixedNatures[..k] + [n];
      var names := [];
      if n in definitions {
        names := ActiveNames(definitions[n]);
      }
      active := active[n := names];
    }
    assert FixedNatures[..4] == FixedNatures;
  }

  function AllowedIn(active: Active, n: Text): seq<Text> {
    if n in active then active[n] else []
  }

  predicate ActiveSomewhere(active: Active, f: Text) {
    exists n :: n in active && f in active[n]
  }

  // ---- the index of the ERP by stripped id; later rows win ----

  function ErpIndex(rows: seq<ErpAccount>): map<Text, ErpAccount> {
    if rows == [] then map[]
    else
      var last := rows[|rows| - 1];
      var before := ErpIndex(rows[..|rows| - 1]);
      if Strip(last.id) == "" then before else before[Strip(last.id) := last]
  }

  /** `order` enumerates the keys of `m` once each. */
  ghost predicate Enumerates<V>(order: seq<Text>, m: map<Text, V>) {
    (forall k :: k in order <==> k in m) &&
    (forall i, j :: 0 <= i < j < |order| ==> order[i] != order[j])
  }

  /** The keys of the index in the order in which the rows first name them. */
  function ErpOrder(rows: seq<ErpAccount>): seq<Text> {
    if rows == [] then []
    else
      var before, last := ErpOrder(rows[..|rows| - 1]), Strip(rows[|rows| - 1].id);
      if last == "" || last in before then before else before + [last]
  }

  method IndexErp(rows: seq<ErpAccount>) returns (byId: map<Text, ErpAccount>, order: seq<Text>)
    ensures byId == ErpIndex(rows) && order == ErpOrder(rows)
    ensures Enumerates(order, byId)
  {
    byId, order := map[], [];
    for k := 0 to |rows|
      invariant byId == ErpIndex(rows[..k]) && order == ErpOrder(rows[..k])
      invariant Enumerates(order, byId)
    {
      assert rows[..k + 1][..k] == rows[..k];
      var id := Strip(rows[k].id);
      if id != "" {
        if id !in byId { order := order + [id]; }
        byId := byId[id := rows[k]];
      }
    }
    assert rows[..|rows|] == rows;
  }

  /** The position of the last row whose stripped id is `id`, or -1. */
  function LastRow(rows: seq<ErpAccount>, id: Text): (k: int)
    ensures -1 <= k < |rows|
    ensures k >= 0 ==> Strip(rows[k].id) == id
    ensures forall j :: k < j < |rows| ==> Strip(rows[j].id) != id
  {
    if rows == [] then -1
    else if Strip(rows[|rows| - 1].id) == id then |rows| - 1
    else LastRow(rows[..|rows| - 1], id)
  }

  /** The index holds, for each stripped non-empty id, the last row with it. */
  lemma {:induction false} IndexHoldsLast(rows: seq<ErpAccount>, id: Text)
    ensures id in ErpIndex(rows) <==> id != "" && LastRow(rows, id) >= 0
    ensures id in ErpIndex(rows) ==> ErpIndex(rows)[id] == rows[LastRow(rows, id)]
  {
    if rows != [] {
      IndexHoldsLast(rows[..|rows| - 1], id);
    }
  }

  /** The position of the first row whose stripped id is `id`, or the number of rows. */
  function FirstRow(rows: seq<ErpAccount>, id: Text): (k: nat)
    ensures k <= |rows|
    ensures k < |rows| ==> Strip(rows[k].id) == id
    ensures forall j :: 0 <= j < k ==> Strip(rows[j].id) != id
  {
    if rows == [] then 0
    else
      var before := FirstRow(rows[..|rows| - 1], id);
      if before < |rows| - 1 || Strip(rows[before].id) == id then before else |rows|
  }

  lemma {:induction false} OrderEnumerates(rows: seq<ErpAccount>)
    ensures Enumerates(ErpOrder(rows), ErpIndex(rows))
  {
    if rows != [] {
      OrderEnumerates(rows[..|rows| - 1]);
    }
  }

  ghost predicate FirstSeen(rows: seq<ErpAccount>, ids: seq<Text>) {
    forall i, j :: 0 <= i < j < |ids| ==> FirstRow(rows, ids[i]) < FirstRow(rows, ids[j])
  }

  /** All of `ids` are first named before row `n`. */
  ghost predicate SeenBefore(rows: seq<ErpAccount>, ids: seq<Text>, n: nat) {
    forall i :: 0 <= i < |ids| ==> FirstRow(rows, ids[i]) < n
  }

  lemma FirstSeenNext(rows: seq<ErpAccount>, ids: seq<Text>, id: Text)
    requires FirstSeen(rows, ids) && SeenBefore(rows, ids, FirstRow(rows, id))
    ensures FirstSeen(rows, ids + [id])
  {
  }

  lemma FirstRowStays(rows: seq<ErpAccount>, more: seq<ErpAccount>, id: Text)
    requires rows <= more && id in ErpIndex(rows)
    ensures FirstRow(more, id) == FirstRow(rows, id) < |rows|
  {
    IndexHoldsLast(rows, id);
  }

  lemma FirstSeenStays(rows: seq<ErpAccount>, more: seq<ErpAccount>)
    requires rows <= more && FirstSeen(rows, ErpOrder(rows))
    ensures FirstSeen(more, ErpOrder(rows)) && SeenBefore(more, ErpOrder(rows), |rows|)
  {
    var ids := ErpOrder(rows);
    OrderEnumerates(rows);
    forall i | 0 <= i < |ids| ensures FirstRow(more, ids[i]) == FirstRow(rows, ids[i]) < |rows| {
      assert ids[i] in ids;
      FirstRowStays(rows, more, ids[i]);
    }
  }

  lemma NewIsSeenLast(rows: seq<ErpAccount>, id: Text)
    requires rows != [] && id == Strip(rows[|rows| - 1].id) && id != ""
    requires id !in ErpOrder(rows[..|rows| - 1])
    ensures FirstRow(rows, id) == |rows| - 1
  {
    OrderEnumerates(rows[..|rows| - 1]);
    IndexHoldsLast(rows[..|rows| - 1], id);
  }

  /** The keys are enumerated in order of first appearance. */
  lemma {:induction false} OrderIsFirstSeen(rows: seq<ErpAccount>)
    ensures FirstSeen(rows, ErpOrder(rows))
  {
    if rows != [] {
      var before, last := rows[..|rows| - 1], Strip(rows[|rows| - 1].id);
      OrderIsFirstSeen(before);
      FirstSeenStays(before, rows);
      if last != "" && last !in ErpOrder(before) {
        NewIsSeenLast(rows, last);
        FirstSeenNext(rows, ErpOrder(before), last);
      }
    }
  }

  lemma {:induction false} IndexKeysAreTrimmed(rows: seq<ErpAccount>, id: Text)
    requires id in ErpIndex(rows)
    ensures id != "" && Trimmed(id)
  {
    var last := Strip(rows[|rows| - 1].id);
    if last == "" || last != id {
      IndexKeysAreTrimmed(rows[..|rows| - 1], id);
    }
  }
}
