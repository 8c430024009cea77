/** The two mapping phases, which ask an agent that may answer anything. */
module CoaMapping {
  import opened Wrappers
  import opened Whitespace
  import opened CoaModel
  import opened CoaDiff

  /** The entries of the object the agent returned, in order, as text; the
      values of a nature reply are already in upper case. */
  type Reply = seq<(Text, Text)>

  // ---- natures ----

  /** What is kept of one reply: named types with one of the four natures. */
  function Legal(reply: Reply): (r: map<Text, Text>)
    ensures "" !in r && forall t :: t in r ==> IsNature(r[t])
  {
    if reply == [] then map[]
    else
      var before, last := Legal(reply[..|reply| - 1]), reply[|reply| - 1];
      if Strip(last.0) != "" && IsNature(Strip(last.1)) then before[Strip(last.0) := Strip(last.1)] else before
  }

  /** The first `calls` replies merged, later ones winning. */
  function Agreed(ask: nat -> Reply, calls: nat): (r: map<Text, Text>)
    ensures "" !in r && forall t :: t in r ==> IsNature(r[t])
  {
    if calls == 0 then map[] else Agreed(ask, calls - 1) + Legal(ask(calls - 1))
  }

  /** The nature of a type: the agent's word, else the table's, else the default. */
  function NatureOf(agreed: map<Text, Text>, t: Text): (n: Text)
    requires forall u :: u in agreed ==> IsNature(agreed[u])
    ensures IsNature(n)
  {
    if t in agreed then agreed[t]
    else if StaticNature(t).Some? then StaticNature(t).value
    else ProfitAndLoss
  }

  method KeepLegal(reply: Reply) returns (out: map<Text, Text>)
    ensures out == Legal(reply)
  {
    out := map[];
    for k := 0 to |reply|
      invariant out == Legal(reply[..k])
    {
      assert reply[..k + 1][..k] == reply[..k];
      var t, n := Strip(reply[k].0), Strip(reply[k].1);
      if t != "" && IsNature(n) {
        out := out[t := n];
      }
    }
    assert reply[..|reply|] == reply;
  }

  const TypeBatch: nat := 20
  const AccountBatch: nat := 25

  /** Number of batches of `size` that cover `n` items. */
  function Batches(n: nat, size: nat): (b: nat)
    requires size > 0
    ensures size * b >= n && (b > 0 ==> size * (b - 1) < n)
  {
    (n + size - 1) / size
  }

  /** `type_to_nature` as the code builds it and the lookup it is read with. */
  function Lookup(table: map<Text, Text>, t: Text): Text {
    if t in table then table[t] else if StaticNature(t).Some? then StaticNature(t).value else ProfitAndLoss
  }

  ghost predicate Resolves(table: map<Text, Text>, agreed: map<Text, Text>)
  {
    (forall t :: t in agreed ==> IsNature(agreed[t])) && forall t :: Lookup(table, t) == NatureOf(agreed, t)
  }

  /** The types nobody knows, split off from the ones in the table. */
  method SplitTypes(types: seq<Text>) returns (table: map<Text, Text>, unknown: seq<Text>)
    requires Distinct(types)
    ensures Distinct(unknown)
    ensures forall t :: t in unknown <==> t in types && StaticNature(t).None?
    ensures forall t :: t in table <==> t in types && StaticNature(t).Some?
    ensures forall t :: t in table ==> StaticNature(t) == Some(table[t])
  {
    table, unknown := map[], [];
    for k := 0 to |types|
      invariant Distinct(unknown)
      invariant forall t :: t in unknown <==> t in types[..k] && StaticNature(t).None?
      invariant forall t :: t in table <==> t in types[..k] && StaticNature(t).Some?
      invariant forall t :: t in table ==> StaticNature(t) == Some(table[t])
    {
      assert types[..k + 1] == types[..k] + [types[k]];
      if StaticNature(types[k]).Some? {
        table := table[types[k] := StaticNature(types[k]).value];
      } else {
        unknown := unknown + [types[k]];
      }
    }
    assert types[..|types|] == types;
  }

  /** The table before the agent is asked, or after its answers were merged. */
  ghost predicate Consistent(table: map<Text, Text>, agreed: map<Text, Text>) {
    (forall t :: t in agreed ==> t in table && table[t] == agreed[t]) &&
    (forall t :: t in table && t !in agreed ==> table[t] == Default(t))
  }

  function Default(t: Text): (n: Text)
    ensures IsNature(n)
  {
    if StaticNature(t).Some? then StaticNature(t).value else ProfitAndLoss
  }

  lemma ConsistentResolves(table: map<Text, Text>, agreed: map<Text, Text>)
    requires Consistent(table, agreed) && forall t :: t in agreed ==> IsNature(agreed[t])
    ensures Resolves(table, agreed)
  {
    forall t ensures Lookup(table, t) == NatureOf(agreed, t) {
      if t in table && t !in agreed { assert table[t] == Default(t); }
    }
  }

  method AskAll(known: map<Text, Text>, ask: nat -> Reply, calls: nat) returns (table: map<Text, Text>)
    requires Consistent(known, map[])
    ensures Consistent(table, Agreed(ask, calls))
  {
    table := known;
    for call := 0 to calls
      invariant Consistent(table, Agreed(ask, call))
    {
      var mapped := KeepLegal(ask(call));
      ConsistentMerge(table, Agreed(ask, call), mapped);
      table := table + mapped;
    }
  }

  lemma ConsistentMerge(table: map<Text, Text>, agreed: map<Text, Text>, more: map<Text, Text>)
    requires Consistent(table, agreed)
    ensures Consistent(table + more, agreed + more)
  {
  }

  method FillUnknown(asked: map<Text, Text>, unknown: seq<Text>, ghost agreed: map<Text, Text>) returns (table: map<Text, Text>)
    requires Consistent(asked, agreed) && forall t :: t in unknown ==> Default(t) == ProfitAndLoss
    ensures Consistent(table, agreed)
  {
    table := asked;
    for k := 0 to |unknown|
      invariant Consistent(table, agreed)
    {
      if unknown[k] !in table {
        table := table[unknown[k] := ProfitAndLoss];
      }
    }
  }

  method MapTypes(types: seq<Text>, ask: nat -> Reply) returns (table: map<Text, Text>, calls: nat)
    requires Distinct(types)
    ensures Resolves(table, Agreed(ask, calls))
    ensures calls == CallsFor(Among(types))
  {
    var known, unknown := SplitTypes(types);
    calls := Batches(|unknown|, TypeBatch);
    assert Consistent(known, map[]);
    table := AskAll(known, ask, calls);
    table := FillUnknown(table, unknown, Agreed(ask, calls));
    ConsistentResolves(table, Agreed(ask, calls));
    DistinctCount(unknown);
    assert Among(unknown) == set t | t in Among(types) && StaticNature(t).None?;
  }

  /** The agent is asked about the types the table lacks, `TypeBatch` at a time. */
  function CallsFor(types: set<Text>): (calls: nat)
    ensures var unknown := set t | t in types && StaticNature(t).None?;
            20 * calls >= |unknown| && (calls > 0 ==> 20 * (calls - 1) < |unknown|)
  {
    Batches(|set t | t in types && StaticNature(t).None?|, TypeBatch)
  }

  lemma {:induction false} DistinctCount<T(!new)>(ids: seq<T>)
    requires Distinct(ids)
    ensures |ids| == |Among(ids)|
  {
    if ids != [] {
      var before, last := ids[..|ids| - 1], ids[|ids| - 1];
      DistinctCount(before);
      assert last !in before;
      assert ids == before + [last];
      AmongGrows(before, last);
    }
  }

  // ---- functions ----

  /** The nature an account is grouped under for the agent. */
  function GroupOf<X>(r: Record<X>): (g: Text)
    ensures IsNature(g)
    ensures IsNature(r.nature) ==> g == r.nature
  {
    var n := Strip(r.nature);
    if IsNature(n) then n else ProfitAndLoss
  }

  function GroupItems<X>(payloads: map<Text, Record<X>>, ids: seq<Text>, g: Text): (r: seq<Text>)
    ensures forall id :: id in r <==> id in ids && id in payloads && GroupOf(payloads[id]) == g
  {
    Pick(ids, set id | id in payloads && GroupOf(payloads[id]) == g)
  }

  function IndexOf(ids: seq<Text>, id: Text): (k: nat)
    requires id in ids
    ensures k < |ids| && ids[k] == id
  {
    if ids[0] == id then 0 else 1 + IndexOf(ids[1..], id)
  }

  /** The last allowed function the reply names for the account. */
  function Answer(reply: Reply, id: Text, allowed: seq<Text>): (r: Option<Text>)
    ensures r.Some? ==> r.value in allowed
  {
    if reply == [] then None
    else
      var last := reply[|reply| - 1];
      if Strip(last.0) == id && Strip(last.1) in allowed then Some(Strip(last.1))
      else Answer(reply[..|reply| - 1], id, allowed)
  }

  function WithDuty<X>(r: Record<X>, answer: Option<Text>): Record<X> {
    if answer.Some? then r.(duty := answer.value) else r
  }

  /** `out` holds the answers of the reply for the accounts of the batch. */
  ghost predicate Filters(out: map<Text, Text>, reply: Reply, batch: seq<Text>, allowed: seq<Text>) {
    (forall id :: id in out <==> id in batch && Answer(reply, id, allowed).Some?) &&
    (forall id :: id in out ==> Answer(reply, id, allowed) == Some(out[id]))
  }

  method KeepAllowed(reply: Reply, batch: seq<Text>, allowed: seq<Text>) returns (out: map<Text, Text>)
    ensures Filters(out, reply, batch, allowed)
  {
    out := map[];
    for k := 0 to |reply|
      invariant Filters(out, reply[..k], batch, allowed)
    {
      assert reply[..k + 1][..k] == reply[..k];
      var id, f := Strip(reply[k].0), Strip(reply[k].1);
      if id in batch && f in allowed {
        out := out[id := f];
      }
    }
    assert reply[..|reply|] == reply;
  }

  /** The answer for the account at position `p` of its group. */
  function AnswerAt(ask: (Text, nat) -> Reply, g: Text, items: seq<Text>, p: nat, active: Active): Option<Text>
    requires p < |items|
  {
    Answer(ask(g, p / AccountBatch), items[p], AllowedIn(active, g))
  }

  function Assign<X>(payloads: map<Text, Record<X>>, out: map<Text, Text>): map<Text, Record<X>> {
    map id | id in payloads :: Replace(payloads[id], id, out)
  }

  function Replace<X>(r: Record<X>, id: Text, out: map<Text, Text>): Record<X> {
    if id in out then r.(duty := out[id]) else r
  }

  /** The account at position `p` of its group after the first `done` positions were answered. */
  ghost function Progress<X>(r: Record<X>, ask: (Text, nat) -> Reply, g: Text, items: seq<Text>, p: nat, done: nat, active: Active): Record<X>
    requires p < |items|
  {
    if p < done then WithDuty(r, AnswerAt(ask, g, items, p, active)) else r
  }

  ghost predicate AnsweredAt<X>(before: map<Text, Record<X>>, after: map<Text, Record<X>>, ask: (Text, nat) -> Reply,
                                g: Text, items: seq<Text>, p: nat, done: nat, active: Active)
    requires p < |items|
  {
    items[p] in before && items[p] in after && after[items[p]] == Progress(before[items[p]], ask, g, items, p, done, active)
  }

  ghost predicate Answered<X>(before: map<Text, Record<X>>, after: map<Text, Record<X>>, ask: (Text, nat) -> Reply,
                              g: Text, items: seq<Text>, done: nat, active: Active) {
    after.Keys == before.Keys &&
    (forall p :: 0 <= p < |items| ==> AnsweredAt(before, after, ask, g, items, p, done, active)) &&
    (forall id :: id in before && id !in items ==> after[id] == before[id])
  }

  lemma BatchOf(p: nat, call: nat)
    requires AccountBatch * call <= p < AccountBatch * (call + 1)
    ensures p / AccountBatch == call
  {
  }

  lemma InBatch(items: seq<Text>, low: nat, stop: nat, p: nat)
    requires Distinct(items) && low <= stop <= |items| && p < |items|
    ensures items[p] in items[low..stop] <==> low <= p < stop
  {
    if low <= p < stop {
      assert items[low..stop][p - low] == items[p];
    }
  }

  /** The batch of call `call` is `items[low..stop]`. */
  predicate IsBatch(call: nat, low: nat, stop: nat) {
    low == AccountBatch * call && low <= stop <= low + AccountBatch
  }

  lemma PositionStep<X>(r: Record<X>, ask: (Text, nat) -> Reply, g: Text, items: seq<Text>, p: nat, call: nat, low: nat, stop: nat,
                        active: Active, out: map<Text, Text>)
    requires Distinct(items) && p < |items| && IsBatch(call, low, stop) && stop <= |items|
    requires Filters(out, ask(g, call), items[low..stop], AllowedIn(active, g))
    ensures Progress(r, ask, g, items, p, stop, active)
         == Replace(Progress(r, ask, g, items, p, low, active), items[p], out)
  {
    InBatch(items, low, stop, p);
    if low <= p < stop {
      BatchOf(p, call);
    }
  }

  /** One batch moves the group on by at most `AccountBatch` accounts. */
  lemma AnsweredStep<X>(before: map<Text, Record<X>>, after: map<Text, Record<X>>, ask: (Text, nat) -> Reply, g: Text,
                        items: seq<Text>, call: nat, low: nat, stop: nat, active: Active, out: map<Text, Text>)
    requires Distinct(items) && IsBatch(call, low, stop) && stop <= |items|
    requires Answered(before, after, ask, g, items, low, active)
    requires Filters(out, ask(g, call), items[low..stop], AllowedIn(active, g))
    ensures Answered(before, Assign(after, out), ask, g, items, stop, active)
  {
    forall p | 0 <= p < |items| ensures AnsweredAt(before, Assign(after, out), ask, g, items, p, stop, active) {
      assert AnsweredAt(before, after, ask, g, items, p, low, active);
      PositionStep(before[items[p]], ask, g, items, p, call, low, stop, active, out);
    }
    forall id | id in before && id !in items ensures Assign(after, out)[id] == before[id] {
      assert id !in out;
    }
  }

  lemma NothingAllowed<X>(payloads: map<Text, Record<X>>, ask: (Text, nat) -> Reply, g: Text, items: seq<Text>, active: Active)
    requires AllowedIn(active, g) == [] && AllIn(items, payloads.Keys)
    ensures Answered(payloads, payloads, ask, g, items, |items|, active)
  {
    forall p | 0 <= p < |items| ensures AnsweredAt(payloads, payloads, ask, g, items, p, |items|, active) {
      assert AnswerAt(ask, g, items, p, active).None?;
    }
  }

  method MapGroup<X>(payloads: map<Text, Record<X>>, g: Text, items: seq<Text>, ask: (Text, nat) -> Reply, active: Active)
    returns (result: map<Text, Record<X>>)
    requires Distinct(items) && AllIn(items, payloads.Keys)
    ensures Answered(payloads, result, ask, g, items, |items|, active)
  {
    result := payloads;
    var allowed := AllowedIn(active, g);
    if allowed == [] {
      NothingAllowed(payloads, ask, g, items, active);
      return;
    }
    var low: nat, call: nat := 0, 0;
    while low < |items|
      invariant low <= |items| && (low == AccountBatch * call || low == |items|)
      invariant Answered(payloads, result, ask, g, items, low, active)
    {
      var stop := if low + AccountBatch < |items| then low + AccountBatch else |items|;
      var mapped := KeepAllowed(ask(g, call), items[low..stop], allowed);
      AnsweredStep(payloads, result, ask, g, items, call, low, stop, active, mapped);
      result := Assign(result, mapped);
      low, call := stop, call + 1;
    }
  }

  ghost predicate AllIn(ids: seq<Text>, keys: set<Text>) {
    forall id :: id in ids ==> id in keys
  }

  /** What the agent's replies come to for one account that wanted a function. */
  ghost function AnswerFor<X>(payloads: map<Text, Record<X>>, ids: seq<Text>, ask: (Text, nat) -> Reply, active: Active, id: Text): (r: Option<Text>)
    requires id in ids && AllIn(ids, payloads.Keys)
    ensures r.Some? ==> r.value in AllowedIn(active, GroupOf(payloads[id]))
  {
    var g := GroupOf(payloads[id]);
    var items := GroupItems(payloads, ids, g);
    AnswerAt(ask, g, items, IndexOf(items, id), active)
  }

  ghost function Mapped<X>(payloads: map<Text, Record<X>>, ids: seq<Text>, ask: (Text, nat) -> Reply, active: Active, id: Text, groups: seq<Text>): Record<X>
    requires id in payloads && AllIn(ids, payloads.Keys)
  {
    if id in ids && GroupOf(payloads[id]) in groups then WithDuty(payloads[id], AnswerFor(payloads, ids, ask, active, id))
    else payloads[id]
  }

  ghost predicate GroupsMapped<X>(payloads: map<Text, Record<X>>, result: map<Text, Record<X>>, ids: seq<Text>, ask: (Text, nat) -> Reply, active: Active, groups: seq<Text>)
    requires AllIn(ids, payloads.Keys)
  {
    result.Keys == payloads.Keys &&
    forall id :: id in payloads ==> result[id] == Mapped(payloads, ids, ask, active, id, groups)
  }

  lemma GroupStepAt<X>(payloads: map<Text, Record<X>>, result: map<Text, Record<X>>, next: map<Text, Record<X>>, ids: seq<Text>,
                       ask: (Text, nat) -> Reply, active: Active, groups: seq<Text>, g: Text, items: seq<Text>, id: Text)
    requires AllIn(ids, payloads.Keys) && id in payloads && id in result && g !in groups && items == GroupItems(payloads, ids, g)
    requires result[id] == Mapped(payloads, ids, ask, active, id, groups)
    requires Answered(result, next, ask, g, items, |items|, active)
    ensures next[id] == Mapped(payloads, ids, ask, active, id, groups + [g])
  {
    if id in items {
      var p := IndexOf(items, id);
      assert AnsweredAt(result, next, ask, g, items, p, |items|, active);
    } else {
      assert next[id] == result[id];
    }
  }

  lemma GroupStep<X>(payloads: map<Text, Record<X>>, result: map<Text, Record<X>>, next: map<Text, Record<X>>, ids: seq<Text>,
                     ask: (Text, nat) -> Reply, active: Active, groups: seq<Text>, g: Text, items: seq<Text>)
    requires AllIn(ids, payloads.Keys) && g !in groups && items == GroupItems(payloads, ids, g)
    requires GroupsMapped(payloads, result, ids, ask, active, groups)
    requires Answered(result, next, ask, g, items, |items|, active)
    ensures GroupsMapped(payloads, next, ids, ask, active, groups + [g])
  {
    forall id | id in payloads ensures next[id] == Mapped(payloads, ids, ask, active, id, groups + [g]) {
      GroupStepAt(payloads, result, next, ids, ask, active, groups, g, items, id);
    }
  }

  lemma GroupIsDistinct<X>(payloads: map<Text, Record<X>>, ids: seq<Text>, g: Text)
    requires Distinct(ids)
    ensures Distinct(GroupItems(payloads, ids, g)) && AllIn(GroupItems(payloads, ids, g), payloads.Keys)
  {
    PickIsDistinct(ids, set id | id in payloads && GroupOf(payloads[id]) == g);
  }

  lemma NextIsNew(natures: seq<Text>, k: nat)
    requires Distinct(natures) && k < |natures|
    ensures natures[k] !in natures[..k] && natures[..k] + [natures[k]] == natures[..k + 1]
  {
  }

  /** The groups one after the other, each in batches. */
  method MapDuties<X>(payloads: map<Text, Record<X>>, ids: seq<Text>, natures: seq<Text>, ask: (Text, nat) -> Reply, active: Active)
    returns (result: map<Text, Record<X>>)
    requires Distinct(ids) && AllIn(ids, payloads.Keys) && Distinct(natures)
    ensures GroupsMapped(payloads, result, ids, ask, active, natures)
  {
    result := payloads;
    for k := 0 to |natures|
      invariant GroupsMapped(payloads, result, ids, ask, active, natures[..k])
    {
      var g := natures[k];
      var items := GroupItems(payloads, ids, g);
      GroupIsDistinct(payloads, ids, g);
      var next := MapGroup(result, g, items, ask, active);
      NextIsNew(natures, k);
      GroupStep(payloads, result, next, ids, ask, active, natures[..k], g, items);
      result := next;
    }
    assert natures[..|natures|] == natures;
  }

  lemma NaturesAreDistinct()
    ensures Distinct(FixedNatures)
  {
    assert |Asset| == 5 && |Liability| == 9 && |ProfitAndLoss| == 15 && |OffBalanceSheet| == 17;
  }
}
