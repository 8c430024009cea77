/** Transaction lists on which the recorded counterpart is not the best before rounding. */
module TransferExamples {
  import opened Scoring
  import opened Wrappers
  import opened TransferIndex
  import opened TransferOrder
  import opened AmountBuckets
  import MatchingEngine

  const Deposit := Tx("x", 100.0, "CHF", "d", "a", "", "r", "", "", "")

  function Payment(id: string, amount: real): Tx {
    Tx(id, -amount, "CHF", "d", id, "", "r", "", "", "")
  }

  /** A deposit and two payments from other accounts. */
  function Three(first: real, second: real): seq<Tx> {
    [Deposit, Payment("y", first), Payment("z", second)]
  }

  /** Same day, same text: only the amount lowers the score. */
  lemma DepositScore(id: string, amount: real)
    requires 98.0 <= amount <= 100.0 && id != "a"
    ensures TransferScore(Defaults, FlatWorld, Deposit, Payment(id, amount)) == Some(1.0 - 0.4 * ((100.0 - amount) / 100.0))
  {
  }

  lemma PaymentsDoNotMeet(first: real, second: real)
    requires first > 0.0 && second > 0.0
    ensures TransferScore(Defaults, FlatWorld, Payment("y", first), Payment("z", second)).None?
  {
  }

  /** The offers the deposit gets, in loop order. */
  lemma TwoOffers(ids: seq<string>, score: PairScores, s: real, t: real)
    requires |ids| == 3 && ids[0] == "x" && ids[1] == "y" && ids[2] == "z"
    requires score(0, 1) == Some(s) && score(0, 2) == Some(t) && score(1, 2).None?
    ensures Offers(ids, Meetings(ids, score, 3), "x") == [Offer(1, s), Offer(2, t)]
  {
    var m1, m2 := Meeting(Two(0, 1), s), Meeting(Two(0, 2), t);
    assert RowMeetings(ids, score, 0, 1) == [];
    assert RowMeetings(ids, score, 0, 2) == [] + [m1];
    assert RowMeetings(ids, score, 0, 3) == [m1, m2];
    assert RowMeetings(ids, score, 1, 3) == [] by { assert RowMeetings(ids, score, 1, 2) == []; }
    assert Meetings(ids, score, 0) == [];
    assert Meetings(ids, score, 1) == [m1, m2];
    assert Meetings(ids, score, 2) == [m1, m2];
    assert Meetings(ids, score, 3) == [m1, m2];
    assert [m1, m2][..1] == [m1] && [m1][..0] == [];
    assert Offers(ids, [], "x") == [];
    assert OffersOf(ids, m1, "x") == [Offer(1, s)] && OffersOf(ids, m2, "x") == [Offer(2, t)];
    assert Offers(ids, [m1], "x") == [] + [Offer(1, s)];
  }

  lemma KeptOfTwo(s: real, t: real)
    ensures KeptAt([Offer(1, s), Offer(2, t)]) == if Round3(s) < t then 1 else 0
  {
    assert [Offer(1, s), Offer(2, t)][..1] == [Offer(1, s)];
  }

  lemma IndexOfTwo(ids: seq<string>, score: PairScores, s: real, t: real)
    requires |ids| == 3 && ids[0] == "x" && ids[1] == "y" && ids[2] == "z"
    requires score(0, 1) == Some(s) && score(0, 2) == Some(t) && score(1, 2).None?
    ensures var index := RecordAll(ids, Meetings(ids, score, 3)); "x" in index && index["x"].other == if Round3(s) < t then 2 else 1
  {
    TwoOffers(ids, score, s, t);
    KeptOfTwo(s, t);
    IndexKeepsOffers(ids, Meetings(ids, score, 3), "x");
  }

  function DepositWorth(amount: real): real { 1.0 - 0.4 * ((100.0 - amount) / 100.0) }

  lemma ScoresOfThree(first: real, second: real)
    requires 98.0 <= first <= 100.0 && 98.0 <= second <= 100.0
    ensures var score := MatchingEngine.PairScoresOf(Defaults, FlatWorld, Three(first, second));
            score(0, 1) == Some(DepositWorth(first)) && score(0, 2) == Some(DepositWorth(second)) && score(1, 2).None?
  {
    DepositScore("y", first);
    DepositScore("z", second);
    PaymentsDoNotMeet(first, second);
  }

  /** What the batch records for the deposit. */
  lemma DepositKeeps(first: real, second: real)
    requires 98.0 <= first <= 100.0 && 98.0 <= second <= 100.0
    ensures var index := MatchingEngine.TransfersOf(Defaults, FlatWorld, Three(first, second));
            "x" in index && index["x"].other == if Round3(DepositWorth(first)) < DepositWorth(second) then 2 else 1
  {
    ScoresOfThree(first, second);
    IndexOfTwo(MatchingEngine.Ids(Three(first, second)), MatchingEngine.PairScoresOf(Defaults, FlatWorld, Three(first, second)),
               DepositWorth(first), DepositWorth(second));
  }

  /** The weaker second payment displaces the stronger first one: 0.9992 beats the rounded 0.999 of 0.9994. */
  lemma WeakerCounterpartCanWin()
    ensures TransferScore(Defaults, FlatWorld, Deposit, Payment("y", 99.85)) == Some(0.9994)
    ensures TransferScore(Defaults, FlatWorld, Deposit, Payment("z", 99.80)) == Some(0.9992)
    ensures var index := MatchingEngine.TransfersOf(Defaults, FlatWorld, Three(99.85, 99.80)); "x" in index && index["x"].other == 2
  {
    DepositScore("y", 99.85);
    DepositScore("z", 99.80);
    DepositKeeps(99.85, 99.80);
    assert Round3(0.9994) == 0.999;
  }

  /** The stronger second payment is passed over: 0.9988 does not beat the rounded 0.999 of 0.9986. */
  lemma StrongerCounterpartCanLose()
    ensures TransferScore(Defaults, FlatWorld, Deposit, Payment("y", 99.65)) == Some(0.9986)
    ensures TransferScore(Defaults, FlatWorld, Deposit, Payment("z", 99.70)) == Some(0.9988)
    ensures var index := MatchingEngine.TransfersOf(Defaults, FlatWorld, Three(99.65, 99.70)); "x" in index && index["x"].other == 1
  {
    DepositScore("y", 99.65);
    DepositScore("z", 99.70);
    DepositKeeps(99.65, 99.70);
    assert Round3(0.9986) == 0.999;
  }
}
