/** The table: the players in seating order, and the helpers of the game
    screen that read or update their dice counts (dropping a die, finding a
    player, passing the turn to the next player who still has dice). */
module Roster {

  datatype Option<T> = None | Some(value: T)

  type PlayerId = int

  /** One seat. `dice` holds the faces rolled this round; once a challenge
      is resolved only `diceCount` matters. Name and cup colour are display
      data and are not modelled. */
  datatype Player = Player(id: PlayerId, diceCount: nat, dice: seq<int>)

  /** Seats are numbered 1, 2, ... in roster order, as the game start builds them. */
  predicate Seated(roster: seq<Player>)
  {
    forall i :: 0 <= i < |roster| ==> roster[i].id == i + 1
  }

  /** Ids strictly increase along the roster: seating order and id order agree. */
  predicate InSeatingOrder(roster: seq<Player>)
  {
    forall i, j :: 0 <= i < j < |roster| ==> roster[i].id < roster[j].id
  }

  /** Some player with this id still owns at least one die. */
  predicate HasDice(roster: seq<Player>, id: PlayerId)
  {
    exists i :: 0 <= i < |roster| && roster[i].id == id && roster[i].diceCount > 0
  }

  /** Every active player rolled exactly as many faces as it owns dice, all
      in 1..6, and every eliminated player holds no faces. */
  predicate Rolled(roster: seq<Player>)
  {
    forall i :: 0 <= i < |roster| ==>
      && |roster[i].dice| == roster[i].diceCount
      && forall k :: 0 <= k < |roster[i].dice| ==> 1 <= roster[i].dice[k] <= 6
  }

  /** `Math.max(0, x)`. */
  function Max0(x: int): nat
  {
    if x > 0 then x else 0
  }

  /** The dice left on the table. */
  function TotalDice(roster: seq<Player>): nat
  {
    if roster == [] then 0 else roster[0].diceCount + TotalDice(roster[1..])
  }

  /** Number of seats with this id that still own dice. */
  function Holders(roster: seq<Player>, id: PlayerId): nat
  {
    if roster == [] then 0
    else (if roster[0].id == id && roster[0].diceCount > 0 then 1 else 0) + Holders(roster[1..], id)
  }

  /** The players with dice, in seating order (`filter((p) => p.diceCount > 0)`). */
  function Active(roster: seq<Player>): (active: seq<Player>)
    ensures |active| <= |roster|
    ensures forall k :: 0 <= k < |active| ==> active[k].diceCount > 0
    ensures active == [] ==> forall i :: 0 <= i < |roster| ==> roster[i].diceCount == 0
    ensures (forall i :: 0 <= i < |roster| ==> roster[i].diceCount > 0) ==> active == roster
  {
    if roster == [] then []
    else if roster[0].diceCount > 0 then [roster[0]] + Active(roster[1..])
    else Active(roster[1..])
  }

  /** `loseDie`: the player with this id drops one die, never going below zero. */
  function LoseDie(roster: seq<Player>, id: PlayerId): (updated: seq<Player>)
    ensures |updated| == |roster|
    ensures forall i :: 0 <= i < |roster| ==>
      updated[i].id == roster[i].id && updated[i].dice == roster[i].dice
    ensures forall i :: 0 <= i < |roster| && roster[i].id != id ==> updated[i] == roster[i]
    ensures forall i :: 0 <= i < |roster| && roster[i].id == id ==>
      updated[i].diceCount == if roster[i].diceCount > 0 then roster[i].diceCount - 1 else 0
  {
    if roster == [] then []
    else
      var p := roster[0];
      var first := if p.id == id then p.(diceCount := Max0(p.diceCount - 1)) else p;
      var rest := LoseDie(roster[1..], id);
      assert forall i :: 1 <= i < |roster| ==> ([first] + rest)[i] == rest[i - 1] && roster[i] == roster[1..][i - 1];
      [first] + rest
  }

  /** `Array.prototype.find` on the roster: the first player whose id is `id`
      (and who has dice, when `needDice`). A `None` id matches nobody. */
  function FindById(roster: seq<Player>, id: Option<PlayerId>, needDice: bool): (found: Option<Player>)
    ensures found.Some? ==>
      found.value in roster && Some(found.value.id) == id && (needDice ==> found.value.diceCount > 0)
    ensures found.None? ==>
      forall i :: 0 <= i < |roster| ==> Some(roster[i].id) != id || (needDice && roster[i].diceCount == 0)
  {
    if roster == [] then None
    else if Some(roster[0].id) == id && (!needDice || roster[0].diceCount > 0) then Some(roster[0])
    else FindById(roster[1..], id, needDice)
  }

  /** The first player in seating order who still has dice. */
  function FirstWithDice(roster: seq<Player>): (found: Option<Player>)
    ensures found.None? <==> forall i :: 0 <= i < |roster| ==> roster[i].diceCount == 0
    ensures found.Some? ==> found.value.diceCount > 0
    ensures found.Some? ==>
      exists i :: 0 <= i < |roster| && roster[i] == found.value && (forall j :: 0 <= j < i ==> roster[j].diceCount == 0)
  {
    if roster == [] then None
    else if roster[0].diceCount > 0 then Some(roster[0])
    else
      var rest := FirstWithDice(roster[1..]);
      assert rest.Some? ==>
        exists i :: 1 <= i < |roster| && roster[i] == rest.value && (forall j :: 0 <= j < i ==> roster[j].diceCount == 0) by {
        if rest.Some? {
          var k :| 0 <= k < |roster| - 1 && roster[1..][k] == rest.value
            && (forall j :: 0 <= j < k ==> roster[1..][j].diceCount == 0);
          assert roster[k + 1] == rest.value;
        }
      }
      rest
  }

  /** `findIndex` by id: the first position holding `id`, or -1. */
  function IndexOfId(players: seq<Player>, id: Option<PlayerId>): (k: int)
    ensures -1 <= k < |players|
    ensures k >= 0 ==> Some(players[k].id) == id
    ensures k == -1 ==> forall j :: 0 <= j < |players| ==> Some(players[j].id) != id
  {
    if players == [] then -1
    else if Some(players[0].id) == id then 0
    else
      var k := IndexOfId(players[1..], id);
      if k == -1 then -1 else k + 1
  }

  /** `getNextActivePlayerId`: the active player after `id` in seating order,
      wrapping around; the first active player when `id` is not active; None
      when nobody has dice. */
  function NextActivePlayerId(id: Option<PlayerId>, roster: seq<Player>): (next: Option<PlayerId>)
    ensures next.None? <==> forall i :: 0 <= i < |roster| ==> roster[i].diceCount == 0
    ensures next.Some? ==> HasDice(roster, next.value)
  {
    var active := Active(roster);
    if |active| == 0 then None
    else
      var idx := IndexOfId(active, id);
      var pos := if idx == -1 then 0 else (idx + 1) % |active|;
      var chosen := active[pos];
      ActiveMember(roster, pos);
      Some(chosen.id)
  }

  // ---------------------------------------------------------------------
  // Lemmas about the roster helpers

  /** Seat numbers 1..n increase along the roster. */
  lemma SeatedIsInSeatingOrder(roster: seq<Player>)
    requires Seated(roster)
    ensures InSeatingOrder(roster)
  {
  }

  /** In a seated roster the player with id `id` sits at position `id - 1`. */
  lemma SeatedHasDice(roster: seq<Player>, id: PlayerId)
    requires Seated(roster)
    ensures HasDice(roster, id) <==> 1 <= id <= |roster| && roster[id - 1].diceCount > 0
  {
    if 1 <= id <= |roster| && roster[id - 1].diceCount > 0 {
      assert roster[id - 1].id == id;
    }
  }

  /** Every player with dice survives the filter. */
  lemma {:induction false} ActiveHas(roster: seq<Player>, i: nat)
    requires i < |roster| && roster[i].diceCount > 0
    ensures roster[i] in Active(roster)
  {
    if i > 0 {
      ActiveHas(roster[1..], i - 1);
    }
  }

  /** Every entry of the active list is a player of the roster. */
  lemma {:induction false} ActiveMember(roster: seq<Player>, k: nat)
    requires k < |Active(roster)|
    ensures Active(roster)[k] in roster
  {
    var rest := roster[1..];
    if roster[0].diceCount > 0 {
      assert Active(roster) == [roster[0]] + Active(rest);
      if k > 0 {
        ActiveMember(rest, k - 1);
      }
    } else {
      ActiveMember(rest, k);
    }
  }

  /** Stepping once around a cycle of length `n`. */
  lemma ModSucc(k: int, n: int)
    requires 0 <= k < n
    ensures (k + 1) % n == if k + 1 < n then k + 1 else 0
  {
  }

  /** Filtering keeps the seating order. */
  lemma {:induction false} ActiveKeepsSeatingOrder(roster: seq<Player>)
    requires InSeatingOrder(roster)
    ensures InSeatingOrder(Active(roster))
  {
    if roster != [] {
      var rest := roster[1..];
      ActiveKeepsSeatingOrder(rest);
      if roster[0].diceCount > 0 {
        var a := Active(roster);
        assert a == [roster[0]] + Active(rest);
        forall k | 0 < k < |a|
          ensures roster[0].id < a[k].id
        {
          assert a[k] == Active(rest)[k - 1];
          ActiveMember(rest, k - 1);
          var j :| 0 <= j < |rest| && rest[j] == a[k];
          assert roster[j + 1] == a[k];
        }
      }
    }
  }

  /** Two rosters with the same counts seat-for-seat have the same total
      and the same number of active players. */
  lemma {:induction false} ActiveFollowsCounts(a: seq<Player>, b: seq<Player>)
    requires |a| == |b|
    requires forall i :: 0 <= i < |a| ==> a[i].diceCount == b[i].diceCount
    ensures TotalDice(a) == TotalDice(b)
    ensures |Active(a)| == |Active(b)|
  {
    if a != [] {
      ActiveFollowsCounts(a[1..], b[1..]);
    }
  }

  /** When every seat holds the same number of dice, the table holds that
      many per seat. */
  lemma {:induction false} UniformTotal(roster: seq<Player>, count: nat)
    requires forall i :: 0 <= i < |roster| ==> roster[i].diceCount == count
    ensures TotalDice(roster) == count * |roster|
  {
    if roster != [] {
      UniformTotal(roster[1..], count);
    }
  }

  /** In a roster in seating order, an id is held by at most one seat. */
  lemma {:induction false} HoldersInSeatingOrder(roster: seq<Player>, id: PlayerId)
    requires InSeatingOrder(roster)
    ensures Holders(roster, id) == if HasDice(roster, id) then 1 else 0
  {
    if roster != [] {
      var rest := roster[1..];
      HoldersInSeatingOrder(rest, id);
      if roster[0].id == id {
        assert !HasDice(rest, id) by {
          forall j | 0 <= j < |rest| ensures rest[j].id != id {
            assert rest[j] == roster[j + 1];
          }
        }
      }
      if HasDice(rest, id) {
        var j :| 0 <= j < |rest| && rest[j].id == id && rest[j].diceCount > 0;
        assert roster[j + 1] == rest[j];
      }
      if HasDice(roster, id) && !(roster[0].id == id && roster[0].diceCount > 0) {
        var j :| 0 <= j < |roster| && roster[j].id == id && roster[j].diceCount > 0;
        assert j > 0 && rest[j - 1] == roster[j];
      }
    }
  }

  /** `loseDie` removes exactly one die per seat that holds the id and has dice. */
  lemma {:induction false} LoseDieTotal(roster: seq<Player>, id: PlayerId)
    ensures TotalDice(LoseDie(roster, id)) + Holders(roster, id) == TotalDice(roster)
  {
    if roster != [] {
      LoseDieTotal(roster[1..], id);
      assert LoseDie(roster, id)[1..] == LoseDie(roster[1..], id);
    }
  }

  /** In a seated roster, dropping a die of an active player lowers the
      table's total by exactly one; the total never rises. */
  lemma LoseDieLowersTotalByOne(roster: seq<Player>, id: PlayerId)
    requires InSeatingOrder(roster)
    ensures TotalDice(LoseDie(roster, id)) == TotalDice(roster) - (if HasDice(roster, id) then 1 else 0)
  {
    LoseDieTotal(roster, id);
    HoldersInSeatingOrder(roster, id);
  }

  /** From an active player the rotation reads the active list one step on. */
  lemma NextAfterIndex(id: PlayerId, roster: seq<Player>)
    requires HasDice(roster, id)
    ensures var active := Active(roster);
      var idx := IndexOfId(active, Some(id));
      && 0 <= idx < |active| && active[idx].id == id
      && NextActivePlayerId(Some(id), roster) == Some(active[if idx + 1 < |active| then idx + 1 else 0].id)
  {
    var active := Active(roster);
    var p :| 0 <= p < |roster| && roster[p].id == id && roster[p].diceCount > 0;
    ActiveHas(roster, p);
    var m :| 0 <= m < |active| && active[m] == roster[p];
    var idx := IndexOfId(active, Some(id));
    assert idx != -1 by {
      assert Some(active[m].id) == Some(id);
    }
    ModSucc(idx, |active|);
    assert NextActivePlayerId(Some(id), roster) == Some(active[(idx + 1) % |active|].id);
  }

  /** No active player sits strictly between a player and the one the
      rotation passes the turn to. */
  lemma RotationPassesOver(id: PlayerId, roster: seq<Player>, i: nat)
    requires InSeatingOrder(roster)
    requires HasDice(roster, id)
    requires i < |roster| && roster[i].diceCount > 0
    ensures NextActivePlayerId(Some(id), roster).Some?
    ensures var next := NextActivePlayerId(Some(id), roster).value;
      && (next > id ==> roster[i].id <= id || next <= roster[i].id)
      && (next <= id ==> next <= roster[i].id <= id)
  {
    var active := Active(roster);
    NextAfterIndex(id, roster);
    var idx := IndexOfId(active, Some(id));
    ActiveKeepsSeatingOrder(roster);
    ActiveHas(roster, i);
    var m :| 0 <= m < |active| && active[m] == roster[i];
    SortedStep(active, idx, m);
  }

  /** In a list sorted by id, the entry after position `idx` (cyclically)
      is the next id above it, or the smallest id when `idx` is the last. */
  lemma SortedStep(active: seq<Player>, idx: nat, m: nat)
    requires InSeatingOrder(active)
    requires idx < |active| && m < |active|
    ensures var next := active[if idx + 1 < |active| then idx + 1 else 0].id;
      && (next > active[idx].id ==> active[m].id <= active[idx].id || next <= active[m].id)
      && (next <= active[idx].id ==> next <= active[m].id <= active[idx].id)
  {
    if idx + 1 < |active| {
      if m <= idx {
        assert active[m].id <= active[idx].id;
      } else {
        assert active[idx + 1].id <= active[m].id;
      }
    } else {
      assert active[m].id <= active[idx].id;
      assert active[0].id <= active[m].id;
    }
  }

  /** The active ids, read in seating order, are the players the rotation
      walks through: starting from an active player, the rotation lands on
      the next active id above it, with no active id in between; or, when no
      active id lies above, it wraps to the smallest active id. */
  lemma NextActiveIsCyclicSuccessor(id: PlayerId, roster: seq<Player>)
    requires InSeatingOrder(roster)
    requires HasDice(roster, id)
    ensures NextActivePlayerId(Some(id), roster).Some?
    ensures var next := NextActivePlayerId(Some(id), roster).value;
      && (next > id ==>
            forall i :: 0 <= i < |roster| && id < roster[i].id < next ==> roster[i].diceCount == 0)
      && (next <= id ==>
            forall i :: 0 <= i < |roster| && (roster[i].id > id || roster[i].id < next) ==>
              roster[i].diceCount == 0)
  {
    forall i | 0 <= i < |roster| && roster[i].diceCount > 0
      ensures var next := NextActivePlayerId(Some(id), roster).value;
        && (next > id ==> roster[i].id <= id || next <= roster[i].id)
        && (next <= id ==> next <= roster[i].id <= id)
    {
      RotationPassesOver(id, roster, i);
    }
  }

  /** From a player who has no dice (or from no player at all) the rotation
      lands on the first active player in seating order. */
  lemma NextFromInactiveIsFirstActive(id: Option<PlayerId>, roster: seq<Player>)
    requires InSeatingOrder(roster)
    requires id.None? || !HasDice(roster, id.value)
    requires exists i :: 0 <= i < |roster| && roster[i].diceCount > 0
    ensures NextActivePlayerId(id, roster).Some?
    ensures forall i :: 0 <= i < |roster| && roster[i].id < NextActivePlayerId(id, roster).value ==>
      roster[i].diceCount == 0
  {
    var active := Active(roster);
    ActiveKeepsSeatingOrder(roster);
    var w :| 0 <= w < |roster| && roster[w].diceCount > 0;
    ActiveHas(roster, w);
    var idx := IndexOfId(active, id);
    if idx >= 0 {
      ActiveMember(roster, idx);
      assert false;
    }
    forall i | 0 <= i < |roster| && roster[i].diceCount > 0
      ensures active[0].id <= roster[i].id
    {
      ActiveHas(roster, i);
      var m :| 0 <= m < |active| && active[m] == roster[i];
      assert active[0].id <= active[m].id;
    }
  }

  /** With two or more active players the turn always moves to someone else. */
  lemma NextActiveMoves(id: PlayerId, roster: seq<Player>)
    requires InSeatingOrder(roster)
    requires HasDice(roster, id)
    requires |Active(roster)| >= 2
    ensures NextActivePlayerId(Some(id), roster) != Some(id)
  {
    var active := Active(roster);
    NextAfterIndex(id, roster);
    var idx := IndexOfId(active, Some(id));
    var pos := if idx + 1 < |active| then idx + 1 else 0;
    ActiveKeepsSeatingOrder(roster);
    if pos < idx {
      assert active[pos].id < active[idx].id;
    } else {
      assert active[idx].id < active[pos].id;
    }
  }

  /** Seat 2 has lost its last die: from seat 1 the turn skips it and lands on seat 3. */
  lemma RotationSkipsEliminated()
    ensures NextActivePlayerId(Some(1), [Player(1, 3, []), Player(2, 0, []), Player(3, 2, [])]) == Some(3)
  {
    var roster := [Player(1, 3, []), Player(2, 0, []), Player(3, 2, [])];
    assert Active(roster[2..]) == [roster[2]];
    assert roster[1..][1..] == roster[2..];
    assert Active(roster[1..]) == [roster[2]];
    assert Active(roster) == [roster[0], roster[2]];
    assert IndexOfId(Active(roster), Some(1)) == 0;
  }
}
