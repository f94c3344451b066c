/** Counting the dice that support a bid, with ones wild. */
module Counting {
  import opened Roster

  /** `dice.filter((d) => d === 1).length`. */
  function Ones(dice: seq<int>): (n: nat)
    ensures n == multiset(dice)[1]
    ensures n <= |dice|
  {
    if dice == [] then 0
    else
      assert dice == [dice[0]] + dice[1..];
      (if dice[0] == 1 then 1 else 0) + Ones(dice[1..])
  }

  /** `dice.filter((d) => d === pip || d === 1).length`. */
  function FaceOrOnes(dice: seq<int>, pip: int): (n: nat)
    ensures pip != 1 ==> n == multiset(dice)[pip] + multiset(dice)[1]
    ensures n <= |dice|
  {
    if dice == [] then 0
    else
      assert dice == [dice[0]] + dice[1..];
      (if dice[0] == pip || dice[0] == 1 then 1 else 0) + FaceOrOnes(dice[1..], pip)
  }

  /** What one player adds to the count; an eliminated player adds nothing,
      whatever stale faces it still holds. */
  function PlayerMatches(p: Player, pip: int): (n: nat)
    ensures p.diceCount == 0 ==> n == 0
    ensures p.diceCount > 0 ==> n == multiset(p.dice)[pip] + (if pip == 1 then 0 else multiset(p.dice)[1])
    ensures n <= |p.dice|
  {
    if p.diceCount == 0 then 0
    else if pip == 1 then Ones(p.dice)
    else FaceOrOnes(p.dice, pip)
  }

  /** `countMatchesInList`: the dice on the table that support a bid on `pip`. */
  function CountMatchesInList(list: seq<Player>, pip: int): (n: nat)
    // nobody with dice, nothing to count
    ensures (forall i :: 0 <= i < |list| ==> list[i].diceCount == 0) ==> n == 0
    // no die shows the face or a one, nothing to count
    ensures (forall i, k :: 0 <= i < |list| && 0 <= k < |list[i].dice| ==>
               list[i].dice[k] != pip && list[i].dice[k] != 1) ==> n == 0
  {
    if list == [] then 0 else PlayerMatches(list[0], pip) + CountMatchesInList(list[1..], pip)
  }

  /** Reference count: how many dice of active players literally show `face`. */
  function FaceCount(list: seq<Player>, face: int): nat
  {
    if list == [] then 0
    else (if list[0].diceCount > 0 then multiset(list[0].dice)[face] else 0) + FaceCount(list[1..], face)
  }

  /** Ones count for every other face, and only once: a bid on ones counts
      the literal ones, a bid on any other face counts that face plus the
      ones. So the count never falls below the literal count of the face. */
  lemma {:induction false} CountMatchesByFace(list: seq<Player>, pip: int)
    ensures CountMatchesInList(list, pip) == FaceCount(list, pip) + (if pip == 1 then 0 else FaceCount(list, 1))
    ensures CountMatchesInList(list, pip) >= FaceCount(list, pip)
  {
    if list != [] {
      CountMatchesByFace(list[1..], pip);
    }
  }

  /** Only players with dice are counted: the count over the roster equals
      the count over its active players. */
  lemma {:induction false} CountIgnoresEliminated(list: seq<Player>, pip: int)
    ensures CountMatchesInList(list, pip) == CountMatchesInList(Active(list), pip)
  {
    if list != [] {
      CountIgnoresEliminated(list[1..], pip);
      if list[0].diceCount > 0 {
        assert Active(list) == [list[0]] + Active(list[1..]);
        assert ([list[0]] + Active(list[1..]))[1..] == Active(list[1..]);
      }
    }
  }

  /** When every player holds as many faces as dice, no bid on more dice
      than are on the table can stand. */
  lemma {:induction false} CountAtMostTotalDice(list: seq<Player>, pip: int)
    requires forall i :: 0 <= i < |list| ==> |list[i].dice| == list[i].diceCount
    ensures CountMatchesInList(list, pip) <= TotalDice(list)
  {
    if list != [] {
      CountAtMostTotalDice(list[1..], pip);
    }
  }
}
