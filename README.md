# Liar's Dice rules engine, modelled in Dafny

The game screen of this Liar's Dice app (`src/App.jsx`) holds a small rules
engine: a bid-legality ladder with wild ones, a die-loss helper, a turn
rotation over the players who still have dice, the wild-one match count, the
resolution of a LIAR or SPOT ON call, and the event handlers that drive the
phases lobby → shake → reveal → bidding → showdown → round end / game over.
This project models that engine and proves what it promises.

Layout, one module per file:

- `roster.dfy` (`Roster`): players, `loseDie`, the filter of active players,
  `find`/`findIndex` by id and `getNextActivePlayerId`, with the rotation
  lemmas.
- `bids.dfy` (`Bids`): `isBidValid` and `suggestedBid`, a claim-size reading
  of the ladder, and two concrete ladder facts.
- `counting.dfy` (`Counting`): `countMatchesInList`, related to a literal
  face count.
- `challenge.dfy` (`Challenge`): the resolution body of `handleCall` as the
  method `ResolveCall`, the functions that specify it, and lemmas about who
  pays, how many dice leave the table, and who starts next.
- `game.dfy` (`LiarsDice`): the class `Game`. Its fields are the React state
  (`players`, `phase`, `currentBid`, `currentTurnId`, `startingPlayerId`,
  `round`, `currentRevealIndex`), and it has one method per handler.
  - Every handler requires and ensures `Valid()`, the table invariant
    `TableOk`. It states:
    - seats are numbered 1..n;
    - a round is played by two or more players with dice;
    - the turn holder during bidding has dice;
    - the standing bid is well formed and was made by a player with dice;
    - the game is over exactly when one player has dice, and that player
      starts.
  - Each handler computes the new table on values and commits it through
    `SetTable`. That mirrors the handlers' batches of `setX` calls.

Modelling choices:

- Timers are collapsed. `handleShake` and `handleCall` are immediate
  transitions. `HandleCall` enters `Showdown` and leaves it within the same
  call.
- The handlers never test `phase`; the panel the UI renders decides which
  buttons exist (`src/App.jsx:462`, `517`, `551`, `593`, `679-756`). Here
  the phase is each method's precondition.
  - `HandleNextRound` takes the rematch flag as the result panel passes it:
    `false` from a round end, `true` from a game over.
- The one guard against a missing precondition in `handleCall`, a call with
  no standing bid (`src/App.jsx:281`), is modelled as a no-op that returns
  `None`. The early return of `handleBid` on an illegal candidate
  (`src/App.jsx:257`) is `HandleBid`'s rejected branch. The early return of
  `handleShake` (`src/App.jsx:215`) guards a UI flag and is left out with it.
- The stepper and the pip buttons (`src/App.jsx:624`, `633`) only produce
  quantities of at least 1 and pips 1..6. `HandleBid` takes the candidate as
  parameters and requires `WellFormed`. It returns the stepper's next
  default instead of writing stepper state.
- `rollDice` is random, so `HandleShake` takes the rolls as an input. The
  input is constrained by `RollsFit`: one face per die, each in 1..6.
- Ids are plain integers. Seat `i` holds id `i + 1` (`Seated`), as
  `handleStartGame` builds the roster.

Where the app's own rules panel and the code differ, the model follows the
code:

- **Starter after a call.** The rules panel says the challenge loser starts
  the next round "if still alive" (`src/App.jsx:814`).
  - The code stores the loser's id even when that player has just lost its
    last die (`src/App.jsx:333-336`). The rotation from the caller is used
    only when the id is not seated at all, which never happens.
  - The eliminated starter is repaired at the next round or reveal. The
    first player in seating order who has dice starts, not the player after
    the caller (`src/App.jsx:242`, `372-375`).
  - `StarterMayBeEliminated`, `RotationAfterBluff` and `NewRoundStarter`
    state this.
- **Bids must increase.** The rules panel says bids must increase and must
  beat the previous bid (`src/App.jsx:783`, `789`), which reads as a strict
  order. Halving onto ones and doubling back (`src/App.jsx:790`) can return
  to the same bid, so an accepted bid can be followed, two bids later, by
  itself.
  - `BidLadderCycle` exhibits it: two threes, one one, two threes.
  - What does hold is that no accepted bid lowers the claim when a one is
    counted as two dice. `IsBidValid` ensures this, and
    `IsBidValidIsOutbids` characterises the ladder exactly in those terms.

## Model

| member | source | states |
|---|---|---|
| Bids.IsBidValid | src/App.jsx:33-53 | A legal candidate has a non-zero quantity and pip. With no bid every well-formed candidate is legal. An accepted bid never lowers the claim (a one counting as two dice). On the same face the quantity must grow. Doubling the standing quantity is always enough. |
| Bids.IsBidValidIsOutbids | src/App.jsx:40-52 | Between well-formed bids, the four-rule ladder is exactly the claim-size order. Crossing to or from ones needs a claim at least as large. Otherwise the claim must grow, or stay equal on a higher face. |
| Bids.OntoOnesRoundsUp | src/App.jsx:44-46 | Onto ones the bar is `ceil(q/2)`: one one may follow one two, and three ones, but not two, may follow five fours. |
| Bids.BidLadderCycle | src/App.jsx:40-46 | Two threes → one one → two threes are each legal, so legality is not antisymmetric. |
| Bids.SuggestedBid | src/App.jsx:55-59 | The default next bid is itself well formed and legal. No legal bid on its face asks for fewer dice. It moves off ones to twos and otherwise keeps the face. |
| Bids.CeilHalf | src/App.jsx:45 | `Math.ceil(n / 2)`: the least `h` with `n <= 2h`. |
| Roster.LoseDie | src/App.jsx:61-64 | Same length, ids and faces. Every other player is unchanged. The named player drops one die when it has some, and never goes below zero. |
| Roster.LoseDieTotal | src/App.jsx:61-64 | The total falls by the number of seats holding the id with dice. |
| Roster.LoseDieLowersTotalByOne | src/App.jsx:61-64 | With ids in seating order the total falls by exactly one when the player has dice, else stays. |
| Roster.Active | src/App.jsx:67 | The filter keeps only players with dice. It is empty only if nobody has dice, and it is the whole roster when everybody has. |
| Roster.ActiveHas | src/App.jsx:67 | Every player with dice survives the filter. |
| Roster.ActiveMember | src/App.jsx:67 | Every active entry is a roster player. |
| Roster.ActiveKeepsSeatingOrder | src/App.jsx:67 | The filter keeps seating order. |
| Roster.ActiveFollowsCounts | src/App.jsx:67 | Rosters with equal counts seat for seat have equal totals and equally many active players. |
| Roster.FindById | src/App.jsx:333-335 | `find` by id, optionally requiring dice. A hit is a roster member with that id (and dice when required). A miss means no seat matches. |
| Roster.FirstWithDice | src/App.jsx:374 | `None` exactly when nobody has dice. Otherwise it is the earliest seat with dice. |
| Roster.IndexOfId | src/App.jsx:69 | `findIndex`: a hit holds the id, and -1 means no entry holds it. |
| Roster.NextActivePlayerId | src/App.jsx:66-72 | Null exactly when nobody has dice. Otherwise it names a player with dice. |
| Roster.NextAfterIndex | src/App.jsx:69-71 | From an active player the rotation reads the active list one step on, wrapping at the end. |
| Roster.RotationPassesOver | src/App.jsx:66-72 | No active player sits strictly between a player and the one it passes to. |
| Roster.NextActiveIsCyclicSuccessor | src/App.jsx:66-72 | From an active player the turn goes to the next active id above it, skipping only players without dice. If none is above, it wraps to the smallest active id. |
| Roster.NextFromInactiveIsFirstActive | src/App.jsx:69-70 | From an eliminated or absent id the turn goes to the first active player in seating order. |
| Roster.NextActiveMoves | src/App.jsx:259 | With two or more active players the turn always moves to someone else. |
| Roster.RotationSkipsEliminated | src/App.jsx:66-72 | Seat 2 out: from seat 1 the turn lands on seat 3. |
| Roster.UniformTotal | src/App.jsx:190-196 | `n` seats of five dice hold `5n` dice. |
| Roster.HoldersInSeatingOrder | src/App.jsx:61-64 | With ids in seating order, at most one seat holds an id. |
| Counting.Ones | src/App.jsx:275 | The count of literal ones in a hand. |
| Counting.FaceOrOnes | src/App.jsx:276 | For a face other than one, that face's count plus the ones. |
| Counting.PlayerMatches | src/App.jsx:272-276 | One hand's matches: nothing for a player without dice; otherwise the hand's literal count of the face, plus its ones unless the face is one. Never more than the faces held. |
| Counting.CountMatchesInList | src/App.jsx:270-278 | The table count is zero when nobody has dice, and zero when no die shows the face or a one. `CountMatchesByFace` relates it to the literal face count. |
| Counting.CountMatchesByFace | src/App.jsx:270-278 | The table count is the literal face count, plus the ones for any face but one. So it never falls below the literal count. |
| Counting.CountIgnoresEliminated | src/App.jsx:272 | Players without dice add nothing, whatever faces they still hold: the count over the roster equals the count over its active players. |
| Counting.CountAtMostTotalDice | src/App.jsx:270-278 | With one face per die, the count never exceeds the dice on the table. |
| Challenge.SpotOnPenalty | src/App.jsx:317-319 | Exact SPOT ON: every player other than the caller who has dice drops exactly one. The caller and eliminated players are unchanged. Ids and faces are kept. |
| Challenge.SpotOnPenaltyTotal | src/App.jsx:317-319 | The exact penalty removes one die per active player, except the caller's. |
| Challenge.Judge | src/App.jsx:301-315 | LIAR: the bid stands exactly when the count reaches the quantity, else the bluff is caught. SPOT ON: exact exactly when the count equals the quantity, else missed. |
| Challenge.RoundLoser | src/App.jsx:299-327 | The round's loser is the bidder on a caught bluff and the caller in every other outcome. |
| Challenge.Penalise | src/App.jsx:304-324 | Seats and faces are kept and nobody gains a die. Outside an exact SPOT ON, everyone but the round's loser is unchanged. `CallCharges` and `CallDiceAccounting` state who pays and how much. |
| Challenge.CallCharges | src/App.jsx:297-329 | The count is the literal count plus ones. LIAR charges the caller one die iff the count reaches the bid, else the bidder. SPOT ON exact charges every other active player one die. SPOT ON missed charges the caller. Nothing but dice counts changes. |
| Challenge.LoseDieTakesOne | src/App.jsx:304-324 | In a seated roster, the loser with dice drops exactly one die and nobody else does. |
| Challenge.CallDiceAccounting | src/App.jsx:301-329 | A call removes exactly one die from the table, or one per active non-caller on an exact SPOT ON. |
| Challenge.PenaliseKeepsSeats | src/App.jsx:301-329 | Penalties keep the seat numbering. |
| Challenge.CallLeavesSomeoneWithDice | src/App.jsx:301-332 | From two or more active players a call leaves at least one with dice. With no winner, two or more remain, and the loser's id is seated. |
| Challenge.SpotOnSparesCaller | src/App.jsx:317-318 | An exact SPOT ON leaves the caller with dice. |
| Challenge.LoseDieSparesAnother | src/App.jsx:304-324 | Taking one die from a table with two active players leaves one of them with dice. |
| Challenge.WinnerOf | src/App.jsx:331-332 | There is a winner exactly when one player has dice. That player has dice and everybody else has none. |
| Challenge.StarterAfter | src/App.jsx:333-336 | The winner starts. With no winner a seated loser starts, with or without dice. Only an unseated loser id falls back to the rotation from the caller. |
| Challenge.StarterIsRoundLoser | src/App.jsx:333-336 | The winner starts. Otherwise, in a seated roster, the round's loser starts, with or without dice. |
| Challenge.ResolveCall | src/App.jsx:289-336 | The resolution body, on its own locals. The verdict, loser, roster, winner and starter are those of `Judge`, `RoundLoser`, `Penalise` and `WinnerOf`. The starter is the winner, else the loser. The roster stays seated. With no winner, two or more players have dice. |
| Challenge.WildOnesHoldTheBid | src/App.jsx:297-307 | Six fives bid against four fives and two ones: the count is 6, the bid stands and the caller loses a die. |
| Challenge.FivesOnTable | src/App.jsx:270-278 | That table counts six for fives. |
| Challenge.BluffEliminatesBidder | src/App.jsx:308-312 | At any four-seat table where no rolled die shows a six or a one, LIAR on the second player's bid of four sixes, made with its last die, finds a count of 0: the bluff is caught and the bidder drops to zero dice, and nothing else changes. |
| Challenge.ActiveAfterBluff | src/App.jsx:331 | After such a bluff, on rolled hands, three players still have dice, in seating order. |
| Challenge.StarterMayBeEliminated | src/App.jsx:333-336 | The eliminated bidder is still stored as the next starter. |
| Challenge.RotationAfterBluff | src/App.jsx:336 | The rotation from the caller would have chosen the fourth player instead. |
| LiarsDice.ShakenTable | src/App.jsx:217-220 | Players with dice take their rolls and the others hold no faces. Nothing else changes. |
| LiarsDice.FreshFacesKeepTable | src/App.jsx:217-220 | A fitting roll keeps seats, counts, totals and active players, and leaves one face in 1..6 per die. |
| LiarsDice.HasDiceFollowsCounts | src/App.jsx:217-220 | Who has dice depends only on ids and counts. |
| LiarsDice.ResolvedTableOk | src/App.jsx:338-360 | A resolved call leaves a consistent table: a round end, or a game over with its winner as starter. |
| LiarsDice.StartingRoster | src/App.jsx:190-196 | Seats 1..n with five dice each and no faces. |
| LiarsDice.ClearedTable | src/App.jsx:367-371 | Every face is cleared. A rematch gives five dice each, otherwise counts are kept. |
| LiarsDice.NewRoundTable | src/App.jsx:364-393 | Clearing keeps seats. A rematch puts `5n` dice on the table with everyone active. Otherwise the total and the active players are kept. |
| LiarsDice.NewRoundStarter | src/App.jsx:372-375 | The stored starter opens if it has dice. Otherwise the first player in seating order with dice opens. `None` only if nobody has dice. |
| LiarsDice.ShakeTableOk | src/App.jsx:199-203 | A cleared table with two or more active players and a starter with dice is ready to shake. |
| LiarsDice.Game.constructor | src/App.jsx:146-157 | The mounted state: lobby, no players, round 1, no bid, turn or starter. |
| LiarsDice.Game.HandleStartGame | src/App.jsx:189-212 | Seats 1..n with five dice each, phase shake, round 1, seat 1 starts and holds the turn, `5n` dice on the table. |
| LiarsDice.Game.HandleShake | src/App.jsx:214-235 | Each player with dice takes its rolls, eliminated players none. Phase reveal, reveal index 0, total unchanged, every active player rolled. |
| LiarsDice.Game.HandleRevealHide | src/App.jsx:237-253 | Before the last active player the reveal index advances. After it bidding opens: the turn goes to the stored starter, which has dice, and the stepper default is `1 × 2`. |
| LiarsDice.Game.HandleBid | src/App.jsx:255-268 | Accepted iff `isBidValid`. An accepted bid becomes the standing bid in the turn holder's name, and the turn passes to the next active player, never the same one. A rejected bid changes nothing. |
| LiarsDice.Game.HandleCall | src/App.jsx:280-362 | No bid: nothing changes. Otherwise the roster is penalised per the verdict and the bid is cleared. The phase is game over iff one player has dice, and that player starts; else round end with the loser as starter. The total falls by one, or by the active non-callers. |
| LiarsDice.Game.HandleNextRound | src/App.jsx:364-393 | Faces cleared, counts kept, or five each on a rematch. The round advances, or is 1 on a rematch. Phase shake, no bid, the starter per `NewRoundStarter` holds the turn. |
| LiarsDice.Game.SetTable | src/App.jsx:338-343 | A batch of setters commits a whole consistent table. |
| LiarsDice.Game.HandleRestart | src/App.jsx:395-414 | Back to the lobby with nobody seated, round 1, no bid, turn or starter. |

## Left out

- Rendering (`Dice`, `Cup`, `PlayerBadge` and the markup), `adjustColor`, `cupPalette`, `formatBid`, `pipLabel`, player names and colours, the name trimming, announcement and detail strings, and the gsap animation: presentation only.
- `Math.random` in `rollDice`: randomness is outside the model. The rolls are an input constrained by `RollsFit`.
- The `setTimeout` pacing in `handleShake` and `handleCall`: transitions are immediate. So the model does not capture clicks made during those delays.
  - The result panel already shows its round-end buttons during the showdown, before the verdict is in.
- `shakeState` and its guard in `handleShake`, `showingDice`, `showAllDice`, `resolutionInfo`, the stepper state `bidQuantity`/`bidPip`, `showCountMenu`, `nameInputs` and `showRules`: UI flags. `HandleRevealHide` and `HandleBid` return the stepper default instead of storing it.
- The `playersRef` mirror, its effect, and the unused `gameRef`: React bookkeeping that holds the same roster as `players` in this model.
- The rotation from the caller in the starter choice (`src/App.jsx:336`) is stated by `StarterAfter`'s third ensures, but it is never reached here: in a `Seated` roster the loser's id is always seated, so the loser starts (`StarterIsRoundLoser`).
