/** Resolving a LIAR or SPOT ON call against the dice on the table: who
    loses dice, whether someone has won, and who starts the next round. */
module Challenge {
  import opened Roster
  import opened Bids
  import opened Counting

  datatype CallType = Liar | SpotOn

  /** `bid-stands`, `bluff`, `exact` and `missed`. */
  datatype Outcome = BidStands | BluffCaught | Exact | Missed

  /** An exact SPOT ON: every player other than the caller who still has
      dice drops one. */
  function SpotOnPenalty(roster: seq<Player>, callerId: PlayerId): (updated: seq<Player>)
    ensures |updated| == |roster|
    ensures forall i :: 0 <= i < |roster| ==>
      updated[i].id == roster[i].id && updated[i].dice == roster[i].dice
    ensures forall i :: 0 <= i < |roster| && (roster[i].id == callerId || roster[i].diceCount == 0) ==>
      updated[i] == roster[i]
    ensures forall i :: 0 <= i < |roster| && roster[i].id != callerId && roster[i].diceCount > 0 ==>
      updated[i].diceCount == roster[i].diceCount - 1
  {
    if roster == [] then []
    else
      var p := roster[0];
      var first := if p.id == callerId || p.diceCount == 0 then p else p.(diceCount := Max0(p.diceCount - 1));
      [first] + SpotOnPenalty(roster[1..], callerId)
  }

  /** The verdict on a call, given how many dice support the standing bid. */
  function Judge(call: CallType, totalMatches: nat, quantity: nat): (verdict: Outcome)
    // LIAR: the bid stands exactly when the count reaches it, else the bluff is caught
    ensures call == Liar ==> (verdict == BidStands || verdict == BluffCaught)
    ensures call == Liar ==> (verdict == BidStands <==> totalMatches >= quantity)
    // SPOT ON: exact exactly when the count equals the bid, else missed
    ensures call == SpotOn ==> (verdict == Exact || verdict == Missed)
    ensures call == SpotOn ==> (verdict == Exact <==> totalMatches == quantity)
  {
    match call
    case Liar => if totalMatches >= quantity then BidStands else BluffCaught
    case SpotOn => if totalMatches == quantity then Exact else Missed
  }

  /** The player recorded as the round's loser: the bidder of a caught
      bluff, the caller in every other case (an exact SPOT ON included). */
  function RoundLoser(outcome: Outcome, callerId: PlayerId, bidderId: PlayerId): (loser: PlayerId)
    ensures loser == callerId || loser == bidderId
    ensures outcome == BluffCaught ==> loser == bidderId
    ensures outcome != BluffCaught ==> loser == callerId
  {
    if outcome == BluffCaught then bidderId else callerId
  }

  /** The roster after the verdict's dice are taken. */
  function Penalise(outcome: Outcome, callerId: PlayerId, roundLoserId: PlayerId, roster: seq<Player>): (updated: seq<Player>)
    // seats and faces stay, and nobody gains a die
    ensures |updated| == |roster|
    ensures forall i :: 0 <= i < |roster| ==>
      && updated[i].id == roster[i].id && updated[i].dice == roster[i].dice
      && updated[i].diceCount <= roster[i].diceCount
    // outside an exact SPOT ON only the round's loser can lose a die
    ensures outcome != Exact ==> forall i :: 0 <= i < |roster| && roster[i].id != roundLoserId ==> updated[i] == roster[i]
  {
    if outcome == Exact then SpotOnPenalty(roster, callerId) else LoseDie(roster, roundLoserId)
  }

  /** The winner: the one player left with dice, if there is exactly one. */
  function WinnerOf(updated: seq<Player>): (winner: Option<PlayerId>)
    ensures winner.Some? <==> |Active(updated)| == 1
    ensures winner.Some? ==> HasDice(updated, winner.value)
    ensures winner.Some? ==> forall i :: 0 <= i < |updated| && updated[i].id != winner.value ==>
      updated[i].diceCount == 0
  {
    var remaining := Active(updated);
    if |remaining| == 1 then
      ActiveMember(updated, 0);
      assert forall i :: 0 <= i < |updated| && updated[i].diceCount > 0 ==> updated[i] == remaining[0] by {
        forall i | 0 <= i < |updated| && updated[i].diceCount > 0
          ensures updated[i] == remaining[0]
        {
          ActiveHas(updated, i);
        }
      }
      Some(remaining[0].id)
    else None
  }

  /** The next round's starter: the winner, or else the round's loser as
      found in the roster whether or not it still has dice, or else (only
      when that id is not seated at all) the next active player after the
      caller. */
  function StarterAfter(winner: Option<PlayerId>, roundLoserId: PlayerId, callerId: PlayerId, updated: seq<Player>): (starter: Option<PlayerId>)
    ensures winner.Some? ==> starter == winner
    // with no winner, a seated loser starts, with or without dice
    ensures winner.None? && (exists i :: 0 <= i < |updated| && updated[i].id == roundLoserId) ==>
      starter == Some(roundLoserId)
    // only an unseated loser id leads to the rotation from the caller
    ensures winner.None? && (forall i :: 0 <= i < |updated| ==> updated[i].id != roundLoserId) ==>
      starter == NextActivePlayerId(Some(callerId), updated)
  {
    var loserPlayer :=
      var withDice := FindById(updated, Some(roundLoserId), true);
      if withDice.Some? then withDice else FindById(updated, Some(roundLoserId), false);
    if winner.Some? then winner
    else if loserPlayer.Some? then Some(loserPlayer.value.id)
    else NextActivePlayerId(Some(callerId), updated)
  }

  /** In a seated roster the stored starter is the round's loser whenever
      nobody has won, with or without dice. */
  lemma StarterIsRoundLoser(winner: Option<PlayerId>, roundLoserId: PlayerId, callerId: PlayerId, updated: seq<Player>)
    requires Seated(updated)
    requires 1 <= roundLoserId <= |updated|
    ensures winner.Some? ==> StarterAfter(winner, roundLoserId, callerId, updated) == winner
    ensures winner.None? ==> StarterAfter(winner, roundLoserId, callerId, updated) == Some(roundLoserId)
  {
    assert updated[roundLoserId - 1].id == roundLoserId;
  }

  /** An exact SPOT ON takes one die from every active player and gives back
      the caller's. */
  lemma {:induction false} SpotOnPenaltyTotal(roster: seq<Player>, callerId: PlayerId)
    ensures TotalDice(SpotOnPenalty(roster, callerId)) + |Active(roster)| == TotalDice(roster) + Holders(roster, callerId)
  {
    if roster != [] {
      SpotOnPenaltyTotal(roster[1..], callerId);
      assert SpotOnPenalty(roster, callerId)[1..] == SpotOnPenalty(roster[1..], callerId);
    }
  }

  /** Who pays for a call. LIAR: the caller when the count reaches the bid,
      else the bidder. SPOT ON: everyone else with dice when the count is
      exactly the bid (the caller keeps its dice), else the caller. The
      count takes ones as wild for every face but ones. Nothing but dice
      counts changes. */
  lemma CallCharges(call: CallType, callerId: PlayerId, standing: StandingBid, roster: seq<Player>)
    requires Seated(roster)
    requires HasDice(roster, callerId) && HasDice(roster, standing.bidderId)
    ensures var pip, q := standing.bid.pip, standing.bid.quantity;
      var total := CountMatchesInList(roster, pip);
      var outcome := Judge(call, total, q);
      var updated := Penalise(outcome, callerId, RoundLoser(outcome, callerId, standing.bidderId), roster);
      && total == FaceCount(roster, pip) + (if pip == 1 then 0 else FaceCount(roster, 1))
      && |updated| == |roster|
      && (forall i :: 0 <= i < |roster| ==> updated[i].id == roster[i].id && updated[i].dice == roster[i].dice)
      && (call == Liar && total >= q ==> outcome == BidStands && forall i :: 0 <= i < |roster| ==>
            updated[i].diceCount == roster[i].diceCount - (if roster[i].id == callerId then 1 else 0))
      && (call == Liar && total < q ==> outcome == BluffCaught && forall i :: 0 <= i < |roster| ==>
            updated[i].diceCount == roster[i].diceCount - (if roster[i].id == standing.bidderId then 1 else 0))
      && (call == SpotOn && total == q ==> outcome == Exact && forall i :: 0 <= i < |roster| ==>
            updated[i].diceCount ==
              roster[i].diceCount - (if roster[i].id != callerId && roster[i].diceCount > 0 then 1 else 0))
      && (call == SpotOn && total != q ==> outcome == Missed && forall i :: 0 <= i < |roster| ==>
            updated[i].diceCount == roster[i].diceCount - (if roster[i].id == callerId then 1 else 0))
  {
    var pip, q := standing.bid.pip, standing.bid.quantity;
    var total := CountMatchesInList(roster, pip);
    var outcome := Judge(call, total, q);
    CountMatchesByFace(roster, pip);
    if outcome == Exact {
      assert Penalise(outcome, callerId, RoundLoser(outcome, callerId, standing.bidderId), roster)
        == SpotOnPenalty(roster, callerId);
    } else {
      var loser := RoundLoser(outcome, callerId, standing.bidderId);
      assert loser == callerId || loser == standing.bidderId;
      LoseDieTakesOne(roster, loser);
      assert Penalise(outcome, callerId, loser, roster) == LoseDie(roster, loser);
    }
  }

  /** A seated player who has dice loses exactly one, and only that player. */
  lemma LoseDieTakesOne(roster: seq<Player>, loser: PlayerId)
    requires Seated(roster) && HasDice(roster, loser)
    ensures forall i :: 0 <= i < |roster| ==>
      LoseDie(roster, loser)[i].diceCount == roster[i].diceCount - (if roster[i].id == loser then 1 else 0)
  {
    var updated := LoseDie(roster, loser);
    SeatedHasDice(roster, loser);
    forall i | 0 <= i < |roster|
      ensures updated[i].diceCount == roster[i].diceCount - (if roster[i].id == loser then 1 else 0)
    {
      if roster[i].id == loser {
        assert i == loser - 1;
      }
    }
  }

  /** Dice accounting: a call removes exactly one die from the table, except
      an exact SPOT ON, which removes one per active player besides the caller. */
  lemma CallDiceAccounting(call: CallType, callerId: PlayerId, standing: StandingBid, roster: seq<Player>)
    requires Seated(roster)
    requires HasDice(roster, callerId) && HasDice(roster, standing.bidderId)
    ensures var outcome := Judge(call, CountMatchesInList(roster, standing.bid.pip), standing.bid.quantity);
      var updated := Penalise(outcome, callerId, RoundLoser(outcome, callerId, standing.bidderId), roster);
      TotalDice(updated) == TotalDice(roster) - (if outcome == Exact then |Active(roster)| - 1 else 1)
  {
    var outcome := Judge(call, CountMatchesInList(roster, standing.bid.pip), standing.bid.quantity);
    SeatedIsInSeatingOrder(roster);
    if outcome == Exact {
      SpotOnPenaltyTotal(roster, callerId);
      HoldersInSeatingOrder(roster, callerId);
    } else {
      LoseDieLowersTotalByOne(roster, RoundLoser(outcome, callerId, standing.bidderId));
    }
  }

  /** Penalties change dice counts only, so seat numbers survive them. */
  lemma PenaliseKeepsSeats(outcome: Outcome, callerId: PlayerId, roundLoserId: PlayerId, roster: seq<Player>)
    requires Seated(roster)
    ensures Seated(Penalise(outcome, callerId, roundLoserId, roster))
    ensures |Penalise(outcome, callerId, roundLoserId, roster)| == |roster|
  {
    var updated := Penalise(outcome, callerId, roundLoserId, roster);
    assert forall i :: 0 <= i < |roster| ==> updated[i].id == roster[i].id;
  }

  /** A call from a table with two or more active players leaves at least one
      player with dice: the caller after an exact SPOT ON, otherwise one of
      the first two active players who is not the round's loser. So when
      nobody has won, two or more players still have dice. */
  lemma CallLeavesSomeoneWithDice(call: CallType, callerId: PlayerId, standing: StandingBid, roster: seq<Player>)
    requires Seated(roster)
    requires HasDice(roster, callerId) && HasDice(roster, standing.bidderId)
    requires |Active(roster)| >= 2
    ensures var outcome := Judge(call, CountMatchesInList(roster, standing.bid.pip), standing.bid.quantity);
      var loser := RoundLoser(outcome, callerId, standing.bidderId);
      var updated := Penalise(outcome, callerId, loser, roster);
      && Seated(updated)
      && 1 <= loser <= |updated|
      && |Active(updated)| >= 1
      && (WinnerOf(updated).None? ==> |Active(updated)| >= 2)
  {
    var outcome := Judge(call, CountMatchesInList(roster, standing.bid.pip), standing.bid.quantity);
    var loser := RoundLoser(outcome, callerId, standing.bidderId);
    PenaliseKeepsSeats(outcome, callerId, loser, roster);
    SeatedHasDice(roster, loser);
    if outcome == Exact {
      SpotOnSparesCaller(roster, callerId);
    } else {
      LoseDieSparesAnother(roster, loser);
    }
  }

  /** An exact SPOT ON leaves the caller's dice alone. */
  lemma SpotOnSparesCaller(roster: seq<Player>, callerId: PlayerId)
    requires Seated(roster) && HasDice(roster, callerId)
    ensures |Active(SpotOnPenalty(roster, callerId))| >= 1
  {
    var updated := SpotOnPenalty(roster, callerId);
    SeatedHasDice(roster, callerId);
    assert updated[callerId - 1] == roster[callerId - 1];
    ActiveHas(updated, callerId - 1);
  }

  /** With two players holding dice, taking one die still leaves one of
      them, the first active player who is not the loser, with dice. */
  lemma LoseDieSparesAnother(roster: seq<Player>, loser: PlayerId)
    requires Seated(roster) && |Active(roster)| >= 2
    ensures |Active(LoseDie(roster, loser))| >= 1
  {
    var updated := LoseDie(roster, loser);
    SeatedIsInSeatingOrder(roster);
    ActiveKeepsSeatingOrder(roster);
    var a0, a1 := Active(roster)[0], Active(roster)[1];
    ActiveMember(roster, 0);
    ActiveMember(roster, 1);
    assert a0.id < a1.id;
    var other := if a0.id != loser then a0 else a1;
    var k :| 0 <= k < |roster| && roster[k] == other;
    assert updated[k] == roster[k];
    ActiveHas(updated, k);
  }

  /** The resolution step of a call, as it runs once the dice are shown:
      count, judge, take dice, look for a winner, pick the next starter. */
  method ResolveCall(call: CallType, callerId: PlayerId, standing: StandingBid, snapshot: seq<Player>)
    returns (verdict: Outcome, updated: seq<Player>, roundLoserId: PlayerId, winner: Option<PlayerId>, nextStarter: Option<PlayerId>)
    requires Seated(snapshot)
    requires HasDice(snapshot, callerId) && HasDice(snapshot, standing.bidderId)
    requires |Active(snapshot)| >= 2
    ensures verdict == Judge(call, CountMatchesInList(snapshot, standing.bid.pip), standing.bid.quantity)
    ensures roundLoserId == RoundLoser(verdict, callerId, standing.bidderId)
    ensures updated == Penalise(verdict, callerId, roundLoserId, snapshot)
    ensures winner == WinnerOf(updated)
    // the winner starts; otherwise the round's loser, even when just eliminated
    ensures nextStarter == if winner.Some? then winner else Some(roundLoserId)
    ensures Seated(updated) && 1 <= roundLoserId <= |updated|
    ensures winner.None? ==> |Active(updated)| >= 2
  {
    var totalMatches := CountMatchesInList(snapshot, standing.bid.pip);
    updated := snapshot;
    roundLoserId := callerId;
    if call == Liar {
      if totalMatches >= standing.bid.quantity {
        updated := LoseDie(updated, callerId);
        verdict := BidStands;
        roundLoserId := callerId;
      } else {
        updated := LoseDie(updated, standing.bidderId);
        verdict := BluffCaught;
        roundLoserId := standing.bidderId;
      }
    } else {
      if totalMatches == standing.bid.quantity {
        updated := SpotOnPenalty(updated, callerId);
        verdict := Exact;
        roundLoserId := callerId;
      } else {
        updated := LoseDie(updated, callerId);
        verdict := Missed;
        roundLoserId := callerId;
      }
    }

    var remaining := Active(updated);
    winner := if |remaining| == 1 then Some(remaining[0].id) else None;
    var loserPlayer := FindById(updated, Some(roundLoserId), true);
    if loserPlayer.None? {
      loserPlayer := FindById(updated, Some(roundLoserId), false);
    }
    nextStarter :=
      if winner.Some? then winner
      else if loserPlayer.Some? then Some(loserPlayer.value.id)
      else NextActivePlayerId(Some(callerId), updated);

    CallLeavesSomeoneWithDice(call, callerId, standing, snapshot);
    StarterIsRoundLoser(winner, roundLoserId, callerId, updated);
  }

  /** The scenario of a bid on six fives against four fives and two ones on
      the table: the ones make up the count, the bid holds, and the LIAR
      caller loses a die. */
  lemma WildOnesHoldTheBid(roster: seq<Player>)
    requires roster == [Player(1, 3, [5, 5, 1]), Player(2, 3, [5, 1, 4]), Player(3, 2, [5, 2])]
    ensures CountMatchesInList(roster, 5) == 6
    ensures Judge(Liar, CountMatchesInList(roster, 5), 6) == BidStands
    ensures Penalise(BidStands, 3, RoundLoser(BidStands, 3, 2), roster) == [roster[0], roster[1], Player(3, 1, [5, 2])]
  {
    FivesOnTable(roster);
    LoseDieOfThree(roster[0], roster[1], roster[2], 3);
  }

  /** `loseDie` on a three-seat roster whose last seat loses. */
  lemma LoseDieOfThree(a: Player, b: Player, c: Player, id: PlayerId)
    requires a.id != id && b.id != id && c.id == id
    ensures LoseDie([a, b, c], id) == [a, b, c.(diceCount := Max0(c.diceCount - 1))]
  {
    assert [a, b, c][1..] == [b, c] && [b, c][1..] == [c] && [c][1..] == [];
  }

  /** The count behind that scenario: three, two and one matching dice. */
  lemma FivesOnTable(roster: seq<Player>)
    requires roster == [Player(1, 3, [5, 5, 1]), Player(2, 3, [5, 1, 4]), Player(3, 2, [5, 2])]
    ensures CountMatchesInList(roster, 5) == 6
  {
    FivesInHand(roster[0]);
    FivesInHand(roster[1]);
    FivesInHand(roster[2]);
    CountOfThree(roster[0], roster[1], roster[2], 5);
  }

  /** The count on a three-seat roster, seat by seat. */
  lemma CountOfThree(a: Player, b: Player, c: Player, pip: int)
    ensures CountMatchesInList([a, b, c], pip) == PlayerMatches(a, pip) + PlayerMatches(b, pip) + PlayerMatches(c, pip)
  {
    assert [a, b, c][1..] == [b, c] && [b, c][1..] == [c] && [c][1..] == [];
    assert CountMatchesInList([c], pip) == PlayerMatches(c, pip);
    assert CountMatchesInList([b, c], pip) == PlayerMatches(b, pip) + PlayerMatches(c, pip);
  }

  /** Each hand of that scenario, a one counting as a five. */
  lemma FivesInHand(p: Player)
    requires p in [Player(1, 3, [5, 5, 1]), Player(2, 3, [5, 1, 4]), Player(3, 2, [5, 2])]
    ensures PlayerMatches(p, 5) == if p.id == 1 then 3 else if p.id == 2 then 2 else 1
  {
    var d := p.dice;
    assert d[1..][1..] == d[2..];
    if p.id == 3 {
      assert d[2..] == [];
    } else {
      assert d[2..][1..] == [];
    }
  }

  /** A caught bluff on the bidder's last die eliminates it: at a four-seat
      table where no rolled die shows a six or a one, the second player bids
      four sixes with its one remaining die and the third calls LIAR. */
  lemma BluffEliminatesBidder(roster: seq<Player>)
    requires |roster| == 4 && Seated(roster) && roster[1].diceCount == 1
    requires forall i, k :: 0 <= i < |roster| && 0 <= k < |roster[i].dice| ==>
      roster[i].dice[k] != 6 && roster[i].dice[k] != 1
    ensures CountMatchesInList(roster, 6) == 0
    ensures Judge(Liar, CountMatchesInList(roster, 6), 4) == BluffCaught
    ensures RoundLoser(BluffCaught, 3, 2) == 2
    ensures Penalise(BluffCaught, 3, 2, roster) == roster[1 := roster[1].(diceCount := 0)]
  {
    var updated := Penalise(BluffCaught, 3, 2, roster);
    assert HasDice(roster, 2) by {
      assert roster[1].id == 2 && roster[1].diceCount > 0;
    }
    LoseDieTakesOne(roster, 2);
    assert updated[1] == roster[1].(diceCount := 0);
  }

  /** After that bluff three players still have dice, in seating order. */
  lemma ActiveAfterBluff(updated: seq<Player>)
    requires updated == [Player(1, 5, [2, 3, 4, 5, 2]), Player(2, 0, [3]), Player(3, 5, [4, 4, 5, 2, 3]), Player(4, 5, [5, 5, 2, 3, 4])]
    ensures Active(updated) == [updated[0], updated[2], updated[3]]
  {
    assert Active(updated[3..]) == [updated[3]];
    assert Active(updated[2..]) == [updated[2], updated[3]];
    assert Active(updated[1..]) == [updated[2], updated[3]];
  }

  /** After that bluff the eliminated bidder is still stored as the next
      starter, although it has no dice left. */
  lemma StarterMayBeEliminated(updated: seq<Player>)
    requires updated == [Player(1, 5, [2, 3, 4, 5, 2]), Player(2, 0, [3]), Player(3, 5, [4, 4, 5, 2, 3]), Player(4, 5, [5, 5, 2, 3, 4])]
    ensures WinnerOf(updated).None?
    ensures StarterAfter(WinnerOf(updated), 2, 3, updated) == Some(2)
    ensures !HasDice(updated, 2)
  {
    ActiveAfterBluff(updated);
    assert |Active(updated)| == 3;
    assert Seated(updated);
    StarterIsRoundLoser(None, 2, 3, updated);
    assert !HasDice(updated, 2) by {
      SeatedHasDice(updated, 2);
    }
  }

  /** The rotation from the caller, which is what the starter would be if
      the loser's seat were not found, passes to the fourth player instead. */
  lemma RotationAfterBluff(updated: seq<Player>)
    requires updated == [Player(1, 5, [2, 3, 4, 5, 2]), Player(2, 0, [3]), Player(3, 5, [4, 4, 5, 2, 3]), Player(4, 5, [5, 5, 2, 3, 4])]
    ensures NextActivePlayerId(Some(3), updated) == Some(4)
  {
    ActiveAfterBluff(updated);
    var active := Active(updated);
    assert HasDice(updated, 3) by {
      assert updated[2].id == 3 && updated[2].diceCount > 0;
    }
    NextAfterIndex(3, updated);
    assert IndexOfId(active[1..], Some(3)) == 0;
    assert IndexOfId(active, Some(3)) == 1;
  }
}
