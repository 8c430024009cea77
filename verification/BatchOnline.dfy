/** The batch result as the starting point of the online updates. */
module BatchOnline {
  import opened Scoring
  import opened StableSort
  import opened GreedyAssignment
  import opened TopMatches
  import opened MatchingEngine

  /** Places with different candidates hand out suggestions with different keys. */
  lemma {:induction false} PickedKeysDiffer(pairs: seq<Pair<Suggestion>>, mask: seq<bool>, tx: string)
    requires |mask| == |pairs| && ApartOn(pairs, mask)
    requires forall i :: 0 <= i < |pairs| ==> KeyOf(pairs[i].suggestion) == pairs[i].cand
    ensures Distinct(Picked(pairs, mask, tx), KeyOf)
  {
    if pairs != [] {
      ApartTail(pairs, mask);
      PickedKeysDiffer(pairs[1..], mask[1..], tx);
      var rest := Picked(pairs[1..], mask[1..], tx);
      if mask[0] && pairs[0].tx == tx {
        forall x | x in rest ensures KeyOf(x) != pairs[0].cand {
          var i := PickedComesFrom(pairs[1..], mask[1..], tx, x);
          assert mask[i + 1] && pairs[i + 1].suggestion == x;
        }
        assert forall i :: 0 <= i < |rest| ==> rest[i] in rest;
      }
    }
  }

  /** What the batch leaves for a transaction id. */
  function BatchList(cfg: Config, w: World, txs: seq<Tx>, book: Book, id: string): Top {
    var transfers := TransfersOf(cfg, w, txs);
    var pairs := AllPairs(cfg, w, txs, book, transfers);
    if id in transfers then [] else Picked(Sorted(pairs, PairScore), Outcome(pairs, cfg.maxSuggestions), id)
  }

  lemma SortedIsSound(cfg: Config, pairs: seq<Pair<Suggestion>>)
    requires AllSound(cfg, pairs)
    ensures AllSound(cfg, Sorted(pairs, PairScore))
  {
    var s := Sorted(pairs, PairScore);
    forall i | 0 <= i < |s| ensures Sound(cfg, s[i]) {
      SortedMember(pairs, PairScore, s[i]);
      assert s[i] in pairs;
    }
  }

  lemma PicksStartOnline(cfg: Config, pairs: seq<Pair<Suggestion>>, id: string)
    requires AllSound(cfg, pairs)
    ensures var top := Picked(Sorted(pairs, PairScore), Outcome(pairs, cfg.maxSuggestions), id);
            Descending(top, ScoreOf) && Distinct(top, KeyOf) && (top != [] ==> |top| <= cfg.maxSuggestions)
  {
    var s, mask := Sorted(pairs, PairScore), Outcome(pairs, cfg.maxSuggestions);
    SortedIsSound(cfg, pairs);
    forall p | p in pairs ensures ScoreOf(p.suggestion) == p.score {
      var i :| 0 <= i < |pairs| && pairs[i] == p;
      assert Sound(cfg, pairs[i]);
    }
    GreedyIsExclusive(pairs, cfg.maxSuggestions, ScoreOf);
    assert forall i :: 0 <= i < |s| ==> Sound(cfg, s[i]);
    PickedKeysDiffer(s, mask, id);
    assert Load(s, mask, id) > 0 ==> Load(s, mask, id) <= cfg.maxSuggestions;
  }

  /** Whatever the batch leaves is descending, names each candidate once and fits the capacity. */
  lemma BatchListStartsOnline(cfg: Config, w: World, txs: seq<Tx>, book: Book, id: string)
    ensures var top := BatchList(cfg, w, txs, book, id);
            Descending(top, ScoreOf) && Distinct(top, KeyOf) && (top != [] ==> |top| <= cfg.maxSuggestions)
  {
    var transfers := TransfersOf(cfg, w, txs);
    PairsAreSound(cfg, w, txs, book, transfers);
    PicksStartOnline(cfg, AllPairs(cfg, w, txs, book, transfers), id);
  }

  /** After the batch and any arrivals the list is the k-best list of what the batch listed and what arrived. */
  lemma BatchThenArrivals(cfg: Config, w: World, txs: seq<Tx>, book: Book, id: string, arrivals: seq<Suggestion>)
    requires cfg.maxSuggestions >= 0
    ensures var top := BatchList(cfg, w, txs, book, id);
            IsTop(UpdateAll(top, arrivals, cfg.maxSuggestions), SeenAll(Listed(top), arrivals), cfg.maxSuggestions)
  {
    BatchListStartsOnline(cfg, w, txs, book, id);
    OnlineIsOffline(BatchList(cfg, w, txs, book, id), arrivals, cfg.maxSuggestions);
  }
}
