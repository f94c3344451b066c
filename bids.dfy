/** Bids and the legality ladder with wild ones: bidding onto ones halves the
    quantity bar (rounded up), leaving ones doubles it. */
module Bids {
  import opened Roster

  /** A claim of "at least `quantity` dice showing `pip`". Zero stands for a
      missing field, which the legality check rejects. */
  datatype Bid = Bid(quantity: nat, pip: nat)

  /** The bid on the table and the player who made it. */
  datatype StandingBid = StandingBid(bid: Bid, bidderId: PlayerId)

  /** What the quantity stepper (never below 1) and the pip buttons (1..6) can produce. */
  predicate WellFormed(b: Bid)
  {
    1 <= b.quantity && 1 <= b.pip <= 6
  }

  function BidOf(standing: Option<StandingBid>): Option<Bid>
  {
    match standing
    case None => None
    case Some(s) => Some(s.bid)
  }

  /** Ones are wild, so a claim on ones is worth two claims on another face. */
  function ClaimWeight(b: Bid): nat
  {
    if b.pip == 1 then 2 * b.quantity else b.quantity
  }

  /** `Math.ceil(n / 2)` for a non-negative integer. */
  function CeilHalf(n: nat): (h: nat)
    ensures n <= 2 * h <= n + 1
  {
    (n + 1) / 2
  }

  /** `isBidValid`: may `candidate` follow the standing bid `current`? */
  function IsBidValid(current: Option<Bid>, candidate: Bid): (valid: bool)
    ensures valid ==> candidate.quantity >= 1 && candidate.pip >= 1
    ensures current.None? ==> (valid <==> candidate.quantity >= 1 && candidate.pip >= 1)
    // an accepted bid never lowers the claim, counting a one as two dice
    ensures valid && current.Some? ==> ClaimWeight(candidate) >= ClaimWeight(current.value)
    // on the same face only a larger quantity will do
    ensures valid && current.Some? && candidate.pip == current.value.pip ==>
      candidate.quantity > current.value.quantity
    // doubling the standing quantity is always enough, on any face
    ensures (current.Some? && candidate.quantity >= 1 && candidate.pip >= 1
             && candidate.quantity >= 2 * current.value.quantity) ==> valid
  {
    if candidate.quantity == 0 || candidate.pip == 0 then false
    else if current.None? then true
    else
      var cq, cp := current.value.quantity, current.value.pip;
      if cp == 1 && candidate.pip != 1 then candidate.quantity >= cq * 2
      else if cp != 1 && candidate.pip == 1 then candidate.quantity >= CeilHalf(cq)
      else if cp == 1 && candidate.pip == 1 then candidate.quantity > cq
      else candidate.quantity > cq || (candidate.quantity == cq && candidate.pip > cp)
  }

  /** `suggestedBid`: the default the stepper is set to for the next bid. */
  function SuggestedBid(current: Option<Bid>): (s: Bid)
    // the suggestion is itself a legal, well-formed next bid
    ensures current.None? || WellFormed(current.value) ==> WellFormed(s) && IsBidValid(current, s)
    // and no legal bid on the suggested face asks for fewer dice
    ensures forall b: Bid {:trigger IsBidValid(current, b)} ::
      b.pip == s.pip && IsBidValid(current, b) ==> s.quantity <= b.quantity
    // the opening default is one two
    ensures current.None? ==> s == Bid(1, 2)
    // leaving ones lands on the lowest other face
    ensures current.Some? && current.value.pip == 1 ==> s.pip == 2
    // otherwise the face is kept
    ensures current.Some? && current.value.pip != 1 ==> s.pip == current.value.pip
  {
    if current.None? then Bid(1, 2)
    else if current.value.pip == 1 then Bid(current.value.quantity * 2, 2)
    else Bid(current.value.quantity + 1, current.value.pip)
  }

  /** The ladder read as claim sizes: crossing between ones and another face
      needs a claim at least as large, counting a one as two dice; on the
      same side of ones the claim must grow, or stay and move to a higher face. */
  predicate Outbids(current: Bid, candidate: Bid)
  {
    if (current.pip == 1) != (candidate.pip == 1) then
      ClaimWeight(candidate) >= ClaimWeight(current)
    else
      || ClaimWeight(candidate) > ClaimWeight(current)
      || (ClaimWeight(candidate) == ClaimWeight(current) && candidate.pip > current.pip)
  }

  /** The legality check agrees with the claim-size reading for every
      well-formed candidate after a well-formed bid. */
  lemma IsBidValidIsOutbids(current: Bid, candidate: Bid)
    requires WellFormed(current) && WellFormed(candidate)
    ensures IsBidValid(Some(current), candidate) <==> Outbids(current, candidate)
  {
  }

  /** Moving onto ones at half the quantity is legal at the rounding edge:
      after one two, one one may be bid. */
  lemma OntoOnesRoundsUp()
    ensures IsBidValid(Some(Bid(1, 2)), Bid(1, 1))
    ensures IsBidValid(Some(Bid(5, 4)), Bid(3, 1)) && !IsBidValid(Some(Bid(5, 4)), Bid(2, 1))
  {
  }

  /** Halving onto ones and doubling back off them can return to an earlier
      bid, so legality is not antisymmetric: two threes, then one one, then
      two threes again, are each legal. */
  lemma BidLadderCycle()
    ensures IsBidValid(Some(Bid(2, 3)), Bid(1, 1)) && IsBidValid(Some(Bid(1, 1)), Bid(2, 3))
  {
  }
}
