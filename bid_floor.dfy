/** The minimum-bid rule of the bid form (app/components/products/BidButton.tsx).
    The form computes the floor `(current_bid || starting_price || 0) +
    (min_bid_step || 0.01)` both when it renders the suggested minimum and when
    it checks a submitted amount; a bid is refused before any request is sent
    exactly when it is below that floor. */
module BidFloor {
  import opened Wrappers
  import opened Records
  import opened DbRows
  import opened Db

  const DefaultStep: real := 0.01

  /** JavaScript truthiness of a nullable number: null and 0 are falsy. */
  predicate Truthy(x: Option<real>) {
    x.Some? && x.value != 0.0
  }

  /** `current_bid || starting_price || 0` */
  function Base(p: Product): real {
    if Truthy(p.currentBid) then p.currentBid.value
    else if Truthy(p.startingPrice) then p.startingPrice.value
    else 0.0
  }

  /** `min_bid_step || 0.01` */
  function Step(p: Product): real {
    if Truthy(p.minBidStep) then p.minBidStep.value else DefaultStep
  }

  /** The floor; the render path shows this same value as the minimum bid. */
  function MinimumBid(p: Product): real {
    Base(p) + Step(p)
  }

  /** Outcome of the client-side check in handleBidSubmit. */
  datatype BidCheck = Accepted | TooLow(floor: real)

  function CheckBid(p: Product, amount: real): (r: BidCheck)
    ensures r.TooLow? ==> r.floor == MinimumBid(p)
  {
    if amount < MinimumBid(p) then TooLow(MinimumBid(p)) else Accepted
  }

  /** A step that is absent, zero or positive. */
  predicate NonNegativeStep(p: Product) {
    p.minBidStep.None? || p.minBidStep.value >= 0.0
  }

  /** With a non-negative step the floor lies strictly above the base, and a
      missing or zero step means a floor exactly 0.01 above it. */
  lemma FloorAboveBase(p: Product)
    requires NonNegativeStep(p)
    ensures MinimumBid(p) > Base(p)
    ensures !Truthy(p.minBidStep) ==> MinimumBid(p) == Base(p) + DefaultStep
  {
  }

  /** No bid at or below the base is ever accepted when the step is
      non-negative, so an accepted bid exceeds the current bid. */
  lemma AcceptedExceedsBase(p: Product, amount: real)
    requires NonNegativeStep(p) && CheckBid(p, amount) == Accepted
    ensures amount > Base(p)
    ensures Truthy(p.currentBid) ==> amount > p.currentBid.value
  {
    FloorAboveBase(p);
  }

  /** If no existing bid on the product exceeds its base, a bid that passes the
      check and is then recorded becomes the product's highest bid. */
  lemma AcceptedBidBecomesHighest(bids: seq<Bid>, p: Product, b: Bid)
    requires NonNegativeStep(p) && b.productId == p.id
    requires CheckBid(p, b.amount) == Accepted
    requires forall c :: c in bids && c.productId == p.id ==> c.amount <= Base(p)
    ensures HighestBid(bids + [b], p.id) == Some(b)
  {
    AcceptedExceedsBase(p, b.amount);
    var all := bids + [b];
    assert all[..|all| - 1] == bids;
    HighestBidIsHighest(bids, p.id);
  }

  /** The floor after updateProductCurrentBid: other products keep theirs; a
      non-zero amount becomes the product's base, so its next floor is the
      amount plus its step, which lies above the floor the amount passed when
      the step is non-negative; a zero amount is falsy, and the base falls back
      to the starting price. */
  lemma NextFloor(ps: seq<Product>, amount: real, id: int, k: nat)
    requires k < |ps|
    ensures var q := SetCurrentBid(ps, amount, id)[k];
      (ps[k].id != id ==> q == ps[k] && MinimumBid(q) == MinimumBid(ps[k])) &&
      (ps[k].id == id && amount != 0.0 ==> MinimumBid(q) == amount + Step(ps[k])) &&
      (ps[k].id == id && amount == 0.0 ==>
        MinimumBid(q) == (if Truthy(ps[k].startingPrice) then ps[k].startingPrice.value else 0.0) + Step(ps[k])) &&
      (ps[k].id == id && amount != 0.0 && NonNegativeStep(ps[k]) && CheckBid(ps[k], amount) == Accepted ==>
        MinimumBid(q) > MinimumBid(ps[k]))
  {
    var q := SetCurrentBid(ps, amount, id)[k];
    assert Step(q) == Step(ps[k]);
    if ps[k].id == id && amount != 0.0 && NonNegativeStep(ps[k]) {
      assert Step(ps[k]) > 0.0;
    }
  }

  /** Records a bid the form accepted: createBid followed by
      updateProductCurrentBid, as two separate statements. `p` is the product
      as the form saw it. */
  method PlaceBid(store: Store, p: Product, bidderId: int, amount: real, now: int)
    returns (r: Result<int, BidCheck>)
    requires store.Valid()
    modifies store
    ensures store.Valid()
    ensures r.Err? <==> amount < MinimumBid(p)
    ensures r.Err? ==> r.error == TooLow(MinimumBid(p)) && store.Content() == old(store.Content())
    ensures r.Ok? ==>
      r.value == old(store.nextBidId) &&
      store.Content() == old(store.Content()).(
        bids := old(store.bids) + [Bid(r.value, p.id, bidderId, amount, now)],
        products := SetCurrentBid(old(store.products), amount, p.id),
        nextBidId := r.value + 1)
    ensures r.Ok? && NonNegativeStep(p) &&
            (forall c :: c in old(store.bids) && c.productId == p.id ==> c.amount <= Base(p)) ==>
      HighestBid(store.bids, p.id) == Some(Bid(r.value, p.id, bidderId, amount, now))
  {
    var check := CheckBid(p, amount);
    if check.TooLow? {
      return Err(check);
    }
    var id := store.CreateBid(p.id, bidderId, amount, now);
    store.UpdateProductCurrentBid(amount, p.id);
    if NonNegativeStep(p) && (forall c :: c in old(store.bids) && c.productId == p.id ==> c.amount <= Base(p)) {
      AcceptedBidBecomesHighest(old(store.bids), p, Bid(id, p.id, bidderId, amount, now));
    }
    r := Ok(id);
  }
}
