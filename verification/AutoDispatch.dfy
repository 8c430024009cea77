/** Auto-dispatch after the arrival of one candidate: only the lists that the arrival changed are looked at,
    and of each the first entry is dispatched when it reaches the confidence bound. */
module AutoDispatch {
  import opened Scoring
  import opened StableSort
  import opened TopMatches

  // ----- The selection

  predicate Selects(top: Top, bound: real) { top != [] && top[0].score >= bound }

  function Selection(lists: seq<Top>, bound: real): seq<(nat, Suggestion)> {
    if lists == [] then []
    else
      var n := |lists| - 1;
      Selection(lists[..n], bound) + if Selects(lists[n], bound) then [(n, lists[n][0])] else []
  }

  /** The loop over the changed lists. */
  method Select(lists: seq<Top>, bound: real) returns (out: seq<(nat, Suggestion)>)
    ensures out == Selection(lists, bound)
  {
    out := [];
    for n := 0 to |lists|
      invariant out == Selection(lists[..n], bound)
    {
      assert lists[..n + 1][..n] == lists[..n];
      if lists[n] != [] && lists[n][0].score >= bound {
        out := out + [(n, lists[n][0])];
      }
    }
    assert lists[..|lists|] == lists;
  }

  lemma {:induction false} SelectionIsExact(lists: seq<Top>, bound: real, n: nat, x: Suggestion)
    ensures (n, x) in Selection(lists, bound) <==> n < |lists| && Selects(lists[n], bound) && x == lists[n][0]
  {
    if lists != [] {
      SelectionIsExact(lists[..|lists| - 1], bound, n, x);
    }
  }

  /** The changed lists are selected in their order, each at most once. */
  lemma {:induction false} SelectionIsOrdered(lists: seq<Top>, bound: real)
    ensures forall i :: 0 <= i < |Selection(lists, bound)| ==> Selection(lists, bound)[i].0 < |lists|
    ensures forall i, j :: 0 <= i < j < |Selection(lists, bound)| ==> Selection(lists, bound)[i].0 < Selection(lists, bound)[j].0
  {
    if lists != [] {
      SelectionIsOrdered(lists[..|lists| - 1], bound);
    }
  }

  // ----- The first of a sorted list

  /** No earlier element reaches the one at `p`, and no later one beats it. */
  ghost predicate Leads<T>(s: seq<T>, p: nat, score: T -> real) {
    p < |s| && (forall j :: 0 <= j < p ==> score(s[j]) < score(s[p])) && (forall j :: p < j < |s| ==> score(s[j]) <= score(s[p]))
  }

  lemma {:induction false} SortedFirst<T>(s: seq<T>, p: nat, score: T -> real)
    requires Leads(s, p, score)
    ensures Sorted(s, score) != [] && Sorted(s, score)[0] == s[p]
  {
    var rest := s[1..];
    var sorted := Sorted(rest, score);
    if p == 0 {
      if sorted != [] {
        SortedMember(rest, score, sorted[0]);
        assert sorted[0] in rest;
        var j :| 0 <= j < |rest| && rest[j] == sorted[0];
        assert score(s[j + 1]) <= score(s[0]);
      }
      assert InsertAt(s[0], sorted, score) == 0;
    } else {
      assert forall j :: 0 <= j < |rest| ==> rest[j] == s[j + 1];
      SortedFirst(rest, p - 1, score);
      assert InsertAt(s[0], sorted, score) > 0;
    }
  }

  // ----- Who is dispatched

  /** The arrival takes the first place: the list was empty, the candidate already stood there, or it beats
      the best score outright. */
  predicate TakesLead(top: Top, s: Suggestion) {
    top == [] || KeyOf(top[0]) == KeyOf(s) || s.score > top[0].score
  }

  lemma NewcomerLeads(top: Top, s: Suggestion, k: int) returns (p: nat)
    requires Descending(top, ScoreOf) && Changes(top, s, k) && TakesLead(top, s)
    ensures Leads(Placed(top, s, k), p, ScoreOf) && Placed(top, s, k)[p] == s
  {
    var i := PlaceOf(top, KeyOf(s));
    assert forall j :: 0 < j < |top| ==> ScoreOf(top[0]) >= ScoreOf(top[j]);
    if i < |top| {
      assert forall j :: i < j < |top| ==> ScoreOf(top[i]) >= ScoreOf(top[j]);
      p := i;
    } else if |top| < k {
      p := |top|;
    } else {
      p := Weakest(top);
    }
  }

  lemma OldFirstLeads(top: Top, s: Suggestion, k: int)
    requires Descending(top, ScoreOf) && Changes(top, s, k) && !TakesLead(top, s)
    ensures Leads(Placed(top, s, k), 0, ScoreOf) && Placed(top, s, k)[0] == top[0]
  {
    assert forall j :: 0 < j < |top| ==> ScoreOf(top[0]) >= ScoreOf(top[j]);
  }

  /** In a changed list the newcomer is the one offered for dispatch exactly when it takes the lead; otherwise
      the old first entry is offered again. */
  lemma OfferedExactly(top: Top, s: Suggestion, k: int)
    requires Descending(top, ScoreOf) && Changes(top, s, k)
    ensures Update(top, s, k) != []
    ensures TakesLead(top, s) ==> Update(top, s, k)[0] == s
    ensures !TakesLead(top, s) ==> Update(top, s, k)[0] == top[0] && KeyOf(top[0]) != KeyOf(s)
  {
    if TakesLead(top, s) {
      var p := NewcomerLeads(top, s, k);
      SortedFirst(Placed(top, s, k), p, ScoreOf);
    } else {
      OldFirstLeads(top, s, k);
      SortedFirst(Placed(top, s, k), 0, ScoreOf);
    }
  }

  /** The newcomer is dispatched for a list exactly when it changes the list, takes the lead and is confident. */
  predicate DispatchesNewcomer(top: Top, s: Suggestion, k: int, bound: real) {
    Changes(top, s, k) && TakesLead(top, s) && s.score >= bound
  }

  /** Some other suggestion is dispatched again exactly when the list changes behind a confident first entry. */
  predicate DispatchesOldFirst(top: Top, s: Suggestion, k: int, bound: real) {
    Changes(top, s, k) && !TakesLead(top, s) && top[0].score >= bound
  }

  lemma DispatchedExactly(top: Top, s: Suggestion, k: int, bound: real, x: Suggestion)
    requires Descending(top, ScoreOf)
    ensures Changes(top, s, k) && Selects(Update(top, s, k), bound) && x == Update(top, s, k)[0] <==>
            || (DispatchesNewcomer(top, s, k, bound) && x == s)
            || (DispatchesOldFirst(top, s, k, bound) && x == top[0])
  {
    if Changes(top, s, k) {
      OfferedExactly(top, s, k);
    }
  }

  /** A weak newcomer that fills a free place has the old first entry dispatched again. */
  lemma WeakNewcomerRepeatsDispatch(old1: Suggestion, s: Suggestion, k: int, bound: real)
    requires k >= 2 && KeyOf(old1) != KeyOf(s) && old1.score >= bound > s.score
    ensures DispatchesOldFirst([old1], s, k, bound)
  {
    assert PlaceOf([old1][1..], KeyOf(s)) == 0;
  }
}
