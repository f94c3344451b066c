/** The game's phase machine: the state the table keeps between clicks and
    the handlers that move it from one phase to the next. */
module LiarsDice {
  import opened Roster
  import opened Bids
  import opened Counting
  import opened Challenge

  /** `lobby`, `shake`, `reveal`, `bidding`, `showdown`, `round-end`, `game-over`. */
  datatype Phase = Lobby | Shake | Reveal | Bidding | Showdown | RoundEnd | GameOver

  /** Every player starts a game (and a rematch) with five dice. */
  const StartingDice: nat := 5

  /** The player-count menu offers three to six players. */
  const MinPlayers: nat := 3
  const MaxPlayers: nat := 6

  /** The faces one roll may show for a player: as many as it has dice, each
      from 1 to 6; players without dice roll nothing. */
  predicate RollsFit(roster: seq<Player>, rolls: seq<seq<int>>)
  {
    && |rolls| == |roster|
    && forall i :: 0 <= i < |roster| && roster[i].diceCount > 0 ==>
         && |rolls[i]| == roster[i].diceCount
         && forall k :: 0 <= k < |rolls[i]| ==> 1 <= rolls[i][k] <= 6
  }

  /** The roster after a shake: players with dice take their rolled faces,
      eliminated players hold none. */
  function ShakenTable(before: seq<Player>, rolls: seq<seq<int>>): (rolled: seq<Player>)
    requires |rolls| == |before|
    ensures |rolled| == |before|
    ensures forall i :: 0 <= i < |before| ==>
      rolled[i] == before[i].(dice := if before[i].diceCount > 0 then rolls[i] else [])
  {
    seq(|before|, i requires 0 <= i < |before| =>
      before[i].(dice := if before[i].diceCount > 0 then rolls[i] else []))
  }

  /** Rolling changes faces only: seats, counts and totals stay, and the
      new faces match the counts. */
  lemma FreshFacesKeepTable(before: seq<Player>, rolls: seq<seq<int>>)
    requires RollsFit(before, rolls)
    ensures var rolled := ShakenTable(before, rolls);
      && (Seated(before) ==> Seated(rolled))
      && Rolled(rolled)
      && TotalDice(rolled) == TotalDice(before) && |Active(rolled)| == |Active(before)|
  {
    ActiveFollowsCounts(ShakenTable(before, rolls), before);
  }

  /** Whether a player has dice depends only on the seats' ids and counts. */
  lemma HasDiceFollowsCounts(a: seq<Player>, b: seq<Player>, id: PlayerId)
    requires |a| == |b|
    requires forall i :: 0 <= i < |a| ==> a[i].id == b[i].id && a[i].diceCount == b[i].diceCount
    ensures HasDice(a, id) <==> HasDice(b, id)
  {
    if HasDice(a, id) {
      var k :| 0 <= k < |a| && a[k].id == id && a[k].diceCount > 0;
      assert b[k].id == id && b[k].diceCount > 0;
    }
    if HasDice(b, id) {
      var k :| 0 <= k < |b| && b[k].id == id && b[k].diceCount > 0;
      assert a[k].id == id && a[k].diceCount > 0;
    }
  }

  /** What holds of the table between any two clicks. */
  ghost predicate TableOk(players: seq<Player>, phase: Phase, currentBid: Option<StandingBid>,
                          currentTurnId: Option<PlayerId>, startingPlayerId: Option<PlayerId>,
                          round: nat, currentRevealIndex: nat)
  {
    && Seated(players)
    && round >= 1
    // the showdown is left within the call that entered it
    && phase != Showdown
    && (phase == Lobby ==>
          players == [] && currentBid.None? && currentTurnId.None? && startingPlayerId.None?)
    && (phase != Lobby ==> MinPlayers <= |players| <= MaxPlayers)
    && (phase != Bidding ==> currentBid.None?)
    // a round is only ever played by two or more players with dice
    && (phase == Shake || phase == Reveal || phase == Bidding || phase == RoundEnd ==> |Active(players)| >= 2)
    && (phase == Shake ==> forall i :: 0 <= i < |players| ==> players[i].dice == [])
    && (phase == Shake || phase == Reveal ==>
          && startingPlayerId.Some? && HasDice(players, startingPlayerId.value)
          && currentTurnId == startingPlayerId)
    && (phase == Reveal ==> currentRevealIndex < |Active(players)|)
    && (phase == Reveal || phase == Bidding ==> Rolled(players))
    // the turn holder has dice; the standing bid was made by a player with dice
    && (phase == Bidding ==> currentTurnId.Some? && HasDice(players, currentTurnId.value))
    && (phase == Bidding && currentBid.Some? ==>
          WellFormed(currentBid.value.bid) && HasDice(players, currentBid.value.bidderId))
    // after a round the stored starter is a seated player, with or without dice
    && (phase == RoundEnd ==>
          && startingPlayerId.Some? && 1 <= startingPlayerId.value <= |players|
          && currentTurnId == startingPlayerId)
    // the game is over exactly when one player has dice left, and that player starts
    && (phase == GameOver ==>
          && |Active(players)| == 1
          && startingPlayerId == Some(Active(players)[0].id)
          && currentTurnId == startingPlayerId)
  }

  /** The table a resolved call leaves behind is consistent: a round end
      with two or more players with dice and a seated starter, or a game
      over with its winner as the starter. */
  lemma ResolvedTableOk(players: seq<Player>, phase: Phase, currentBid: Option<StandingBid>,
                        currentTurnId: Option<PlayerId>, startingPlayerId: Option<PlayerId>,
                        round: nat, currentRevealIndex: nat)
    requires Seated(players) && MinPlayers <= |players| <= MaxPlayers && round >= 1
    requires phase == if WinnerOf(players).Some? then GameOver else RoundEnd
    requires currentBid.None? && currentTurnId == startingPlayerId
    requires WinnerOf(players).None? ==> |Active(players)| >= 2
    requires WinnerOf(players).None? ==> startingPlayerId.Some? && 1 <= startingPlayerId.value <= |players|
    requires WinnerOf(players).Some? ==> startingPlayerId == WinnerOf(players)
    ensures TableOk(players, phase, currentBid, currentTurnId, startingPlayerId, round, currentRevealIndex)
  {
    if WinnerOf(players).Some? {
      ActiveMember(players, 0);
    }
  }

  /** The seats `handleStartGame` creates: ids 1..n, five dice each, no faces. */
  function StartingRoster(playerCount: nat): (roster: seq<Player>)
    ensures |roster| == playerCount
    ensures forall i :: 0 <= i < playerCount ==> roster[i] == Player(i + 1, StartingDice, [])
  {
    seq(playerCount, i => Player(i + 1, StartingDice, []))
  }

  /** Every player's faces cleared, and on a rematch five dice each again. */
  function ClearedTable(roster: seq<Player>, reset: bool): (cleaned: seq<Player>)
    ensures |cleaned| == |roster|
    ensures forall i :: 0 <= i < |roster| ==>
      cleaned[i] == roster[i].(dice := [], diceCount := if reset then StartingDice else roster[i].diceCount)
  {
    seq(|roster|, i requires 0 <= i < |roster| =>
      roster[i].(dice := [], diceCount := if reset then StartingDice else roster[i].diceCount))
  }

  /** Clearing the table for a new round keeps the seats and clears every
      face; a rematch gives everyone five dice, otherwise the counts, the
      total and the active players stay. */
  lemma NewRoundTable(before: seq<Player>, reset: bool)
    ensures var cleaned := ClearedTable(before, reset);
      && (Seated(before) ==> Seated(cleaned))
      && (forall i :: 0 <= i < |cleaned| ==> cleaned[i].dice == [])
      && (reset ==> TotalDice(cleaned) == StartingDice * |cleaned| && Active(cleaned) == cleaned)
      && (!reset ==> TotalDice(cleaned) == TotalDice(before) && |Active(cleaned)| == |Active(before)|)
  {
    var cleaned := ClearedTable(before, reset);
    if reset {
      UniformTotal(cleaned, StartingDice);
    } else {
      ActiveFollowsCounts(cleaned, before);
    }
  }

  /** The next round's starter: the stored one if it still has dice, else
      the first player in seating order who has; none only if nobody has
      dice. */
  function NewRoundStarter(cleaned: seq<Player>, stored: Option<PlayerId>): (starter: Option<PlayerId>)
    requires InSeatingOrder(cleaned)
    ensures starter.None? <==> forall i :: 0 <= i < |cleaned| ==> cleaned[i].diceCount == 0
    ensures starter.Some? ==> HasDice(cleaned, starter.value)
    ensures stored.Some? && HasDice(cleaned, stored.value) ==> starter == stored
    ensures (stored.None? || !HasDice(cleaned, stored.value)) && starter.Some? ==>
      forall i :: 0 <= i < |cleaned| && cleaned[i].id < starter.value ==> cleaned[i].diceCount == 0
  {
    var found := FindById(cleaned, stored, true);
    if found.Some? then Some(found.value.id)
    else
      var first := FirstWithDice(cleaned);
      if first.Some? then
        assert HasDice(cleaned, first.value.id) && forall i :: 0 <= i < |cleaned| && cleaned[i].id < first.value.id ==> cleaned[i].diceCount == 0 by {
          var w :| 0 <= w < |cleaned| && cleaned[w] == first.value && (forall j :: 0 <= j < w ==> cleaned[j].diceCount == 0);
        }
        Some(first.value.id)
      else None
  }

  /** A freshly cleared table, with two or more players holding dice and a
      starter who holds some, is ready to shake. */
  lemma ShakeTableOk(players: seq<Player>, currentBid: Option<StandingBid>,
                     currentTurnId: Option<PlayerId>, startingPlayerId: Option<PlayerId>,
                     round: nat, currentRevealIndex: nat)
    requires Seated(players) && MinPlayers <= |players| <= MaxPlayers && round >= 1
    requires |Active(players)| >= 2
    requires forall i :: 0 <= i < |players| ==> players[i].dice == []
    requires currentBid.None? && startingPlayerId.Some? && HasDice(players, startingPlayerId.value)
    requires currentTurnId == startingPlayerId
    ensures TableOk(players, Shake, currentBid, currentTurnId, startingPlayerId, round, currentRevealIndex)
  {
  }

  class Game {
    var players: seq<Player>
    var phase: Phase
    var currentBid: Option<StandingBid>
    var currentTurnId: Option<PlayerId>
    var startingPlayerId: Option<PlayerId>
    var round: nat
    var currentRevealIndex: nat

    /** What holds between any two clicks. */
    ghost predicate Valid()
      reads this
    {
      TableOk(players, phase, currentBid, currentTurnId, startingPlayerId, round, currentRevealIndex)
    }

    /** The state the component mounts with. */
    constructor()
      ensures Valid()
      ensures phase == Lobby && players == [] && round == 1 && currentRevealIndex == 0
      ensures currentBid.None? && currentTurnId.None? && startingPlayerId.None?
    {
      players := [];
      phase := Lobby;
      currentBid := None;
      currentTurnId := None;
      startingPlayerId := None;
      round := 1;
      currentRevealIndex := 0;
    }

    /** `handleStartGame`: seat `playerCount` players with five dice each;
        the first seat starts. */
    method HandleStartGame(playerCount: nat)
      requires Valid() && phase == Lobby
      requires MinPlayers <= playerCount <= MaxPlayers
      modifies this
      ensures Valid()
      ensures |players| == playerCount
      ensures forall i :: 0 <= i < playerCount ==> players[i] == Player(i + 1, StartingDice, [])
      ensures phase == Shake && round == 1 && currentRevealIndex == 0 && currentBid.None?
      ensures startingPlayerId == Some(1) && currentTurnId == Some(1)
      ensures TotalDice(players) == StartingDice * playerCount && |Active(players)| == playerCount
    {
      var roster := StartingRoster(playerCount);
      UniformTotal(roster, StartingDice);
      assert HasDice(roster, 1) by {
        assert roster[0].id == 1 && roster[0].diceCount > 0;
      }
      ShakeTableOk(roster, None, Some(1), Some(1), 1, 0);
      SetTable(roster, Shake, None, Some(1), Some(1), 1, 0);
    }

    /** `handleShake`: every player with dice rolls them, the others hold
        no faces, and the private reveal begins with the first active player. */
    method HandleShake(rolls: seq<seq<int>>)
      requires Valid() && phase == Shake
      requires RollsFit(players, rolls)
      modifies this
      ensures Valid()
      ensures |players| == |old(players)|
      ensures forall i :: 0 <= i < |players| ==>
        players[i] == old(players)[i].(dice := if old(players)[i].diceCount > 0 then rolls[i] else [])
      ensures phase == Reveal && currentRevealIndex == 0
      ensures currentBid == old(currentBid) && round == old(round)
      ensures currentTurnId == old(currentTurnId) && startingPlayerId == old(startingPlayerId)
      ensures TotalDice(players) == TotalDice(old(players)) && Rolled(players)
    {
      var before := players;
      var rolled := ShakenTable(before, rolls);
      FreshFacesKeepTable(before, rolls);
      HasDiceFollowsCounts(before, rolled, startingPlayerId.value);
      SetTable(rolled, Reveal, currentBid, currentTurnId, startingPlayerId, round, 0);
    }

    /** `handleRevealHide`: the active player at the reveal position hides
        its dice; after the last one bidding opens with the stored starter
        (or, if it has no dice, the first active player). Returns the
        stepper's default bid when bidding opens. */
    method HandleRevealHide() returns (suggestion: Option<Bid>)
      requires Valid() && phase == Reveal
      modifies this
      ensures Valid()
      ensures players == old(players) && currentBid == old(currentBid) && round == old(round)
      ensures startingPlayerId == old(startingPlayerId)
      ensures old(currentRevealIndex) + 1 < |Active(players)| ==>
        && phase == Reveal && currentRevealIndex == old(currentRevealIndex) + 1
        && currentTurnId == old(currentTurnId) && suggestion.None?
      ensures old(currentRevealIndex) + 1 >= |Active(players)| ==>
        && phase == Bidding && currentRevealIndex == old(currentRevealIndex)
        && currentTurnId == startingPlayerId && HasDice(players, currentTurnId.value)
        && suggestion == Some(Bid(1, 2))
    {
      var nextIndex := currentRevealIndex + 1;
      var active := Active(players);
      if nextIndex >= |active| {
        var found := FindById(active, startingPlayerId, false);
        var starter := if found.Some? then Some(found.value.id) else if |active| > 0 then Some(active[0].id) else None;
        assert found.Some? by {
          var k :| 0 <= k < |players| && players[k].id == startingPlayerId.value && players[k].diceCount > 0;
          ActiveHas(players, k);
          var m :| 0 <= m < |active| && active[m] == players[k];
        }
        SetTable(players, Bidding, currentBid, starter, startingPlayerId, round, currentRevealIndex);
        suggestion := Some(SuggestedBid(BidOf(currentBid)));
      } else {
        SetTable(players, Reveal, currentBid, currentTurnId, startingPlayerId, round, nextIndex);
        suggestion := None;
      }
    }

    /** `handleBid`: a legal candidate becomes the standing bid in the turn
        holder's name and the turn passes to the next active player; an
        illegal one changes nothing. Returns the stepper's next default when
        the bid is accepted. */
    method HandleBid(quantity: nat, pip: nat) returns (accepted: bool, suggestion: Option<Bid>)
      requires Valid() && phase == Bidding
      requires WellFormed(Bid(quantity, pip))
      modifies this
      ensures Valid()
      ensures accepted == IsBidValid(BidOf(old(currentBid)), Bid(quantity, pip))
      ensures !accepted ==> unchanged(this) && suggestion.None?
      ensures accepted ==>
        && currentBid == Some(StandingBid(Bid(quantity, pip), old(currentTurnId).value))
        && currentTurnId == NextActivePlayerId(old(currentTurnId), players)
        // nobody bids twice in a row, so nobody is left to call their own bid
        && currentTurnId != old(currentTurnId)
        && suggestion == Some(SuggestedBid(Some(Bid(quantity, pip))))
      ensures players == old(players) && phase == Bidding && round == old(round)
      ensures startingPlayerId == old(startingPlayerId) && currentRevealIndex == old(currentRevealIndex)
    {
      var candidate := Bid(quantity, pip);
      if !IsBidValid(BidOf(currentBid), candidate) {
        return false, None;
      }
      var bidderId := currentTurnId.value;
      var nextPlayer := NextActivePlayerId(currentTurnId, players);
      SeatedIsInSeatingOrder(players);
      NextActiveMoves(bidderId, players);
      SetTable(players, Bidding, Some(StandingBid(candidate, bidderId)), nextPlayer, startingPlayerId, round, currentRevealIndex);
      accepted := true;
      suggestion := Some(SuggestedBid(Some(candidate)));
    }

    /** `handleCall`: with no standing bid nothing happens. Otherwise the
        turn holder challenges it: the table is counted, the verdict's dice
        are taken, and the game is over if one player has dice left (that
        player starts) or the round ends with the round's loser stored as
        the next starter. The bid is cleared either way. */
    method HandleCall(call: CallType) returns (outcome: Option<Outcome>)
      requires Valid() && phase == Bidding
      modifies this
      ensures Valid()
      ensures old(currentBid).None? ==> unchanged(this) && outcome.None?
      ensures old(currentBid).Some? ==>
        var standing, callerId := old(currentBid).value, old(currentTurnId).value;
        var verdict := Judge(call, CountMatchesInList(old(players), standing.bid.pip), standing.bid.quantity);
        var loser := RoundLoser(verdict, callerId, standing.bidderId);
        && outcome == Some(verdict)
        && players == Penalise(verdict, callerId, loser, old(players))
        && currentBid.None?
        && (phase == GameOver <==> WinnerOf(players).Some?)
        && (phase == RoundEnd <==> WinnerOf(players).None?)
        && currentTurnId == startingPlayerId
        && (WinnerOf(players).Some? ==> startingPlayerId == WinnerOf(players))
        && (WinnerOf(players).None? ==> startingPlayerId == Some(loser))
        && TotalDice(players) == TotalDice(old(players)) - (if verdict == Exact then |Active(old(players))| - 1 else 1)
      ensures round == old(round) && currentRevealIndex == old(currentRevealIndex)
    {
      if currentBid.None? {
        return None;
      }
      var callerId := currentTurnId.value;
      var standing := currentBid.value;
      var before := players;
      // `setPhase('showdown')`; with the timer collapsed, SetTable overwrites it below
      phase := Showdown;
      var verdict, updated, roundLoserId, winner, nextStarter := ResolveCall(call, callerId, standing, before);
      CallDiceAccounting(call, callerId, standing, before);
      PenaliseKeepsSeats(verdict, callerId, roundLoserId, before);
      var nextPhase := if winner.Some? then GameOver else RoundEnd;
      ResolvedTableOk(updated, nextPhase, None, nextStarter, nextStarter, round, currentRevealIndex);
      SetTable(updated, nextPhase, None, nextStarter, nextStarter, round, currentRevealIndex);
      outcome := Some(verdict);
    }

    /** `handleNextRound`: all faces are cleared and the bid is dropped; a
        rematch (`reset`) gives every player five dice again and restarts the
        round count, otherwise counts are kept and the round advances. The
        stored starter opens if it still has dice, else the first player in
        seating order who has. */
    method HandleNextRound(reset: bool)
      requires Valid()
      requires (phase == RoundEnd && !reset) || (phase == GameOver && reset)
      modifies this
      ensures Valid()
      ensures players == ClearedTable(old(players), reset)
      ensures startingPlayerId == NewRoundStarter(players, old(startingPlayerId))
      ensures currentTurnId == startingPlayerId
      ensures phase == Shake && currentBid.None? && currentRevealIndex == 0
      ensures round == if reset then 1 else old(round) + 1
    {
      var cleaned := ClearedTable(players, reset);
      var nextStarter := NewRoundStarter(cleaned, startingPlayerId);
      var nextRound := if reset then 1 else round + 1;
      NewRoundTable(players, reset);
      ActiveMember(cleaned, 0);
      ShakeTableOk(cleaned, None, nextStarter, nextStarter, nextRound, 0);
      SetTable(cleaned, Shake, None, nextStarter, nextStarter, nextRound, 0);
    }

    /** Commit a whole new table state, as the handlers' batched setters do. */
    method SetTable(players': seq<Player>, phase': Phase, currentBid': Option<StandingBid>,
                    currentTurnId': Option<PlayerId>, startingPlayerId': Option<PlayerId>,
                    round': nat, currentRevealIndex': nat)
      requires TableOk(players', phase', currentBid', currentTurnId', startingPlayerId', round', currentRevealIndex')
      modifies this
      ensures Valid()
      ensures players == players' && phase == phase' && currentBid == currentBid'
      ensures currentTurnId == currentTurnId' && startingPlayerId == startingPlayerId'
      ensures round == round' && currentRevealIndex == currentRevealIndex'
    {
      players := players';
      phase := phase';
      currentBid := currentBid';
      currentTurnId := currentTurnId';
      startingPlayerId := startingPlayerId';
      round := round';
      currentRevealIndex := currentRevealIndex';
    }

    /** `handleRestart`: back to the lobby with nobody seated. */
    method HandleRestart()
      requires Valid() && (phase == RoundEnd || phase == GameOver)
      modifies this
      ensures Valid()
      ensures phase == Lobby && players == [] && round == 1
      ensures currentBid.None? && currentTurnId.None? && startingPlayerId.None?
      ensures currentRevealIndex == 0
    {
      SetTable([], Lobby, None, None, None, 1, 0);
    }
  }
}
