/** The listing-creation handler (POST of app/api/products/route.ts): it checks
    the submitted form and builds the product row that createProduct inserts.
    Form values arrive already parsed: a text field that is missing or empty is
    "", and a number that is missing or does not parse (NaN) is None. */
module ProductsRoute {
  import opened Wrappers
  import opened Records
  import opened Db
  import opened BidFloor

  /** The fields of the submitted form the handler reads. */
  datatype ListingForm = ListingForm(
    name: string,
    shortDescription: string,
    longDescription: string,
    price: Option<real>,
    stock: Option<int>,
    category: Option<string>,
    listingType: string,
    startingPrice: Option<real>,
    auctionEnd: Option<int>,
    minBidStep: Option<real>)

  /** The 400 responses, one per check. */
  datatype ListingError =
    | MissingText
    | FixedNeedsPriceAndStock
    | AuctionNeedsStartAndEnd
    | AuctionEndNotInFuture
    | StepTooSmall

  datatype ApiError = Unauthorized | BadRequest(reason: ListingError)

  const MinStep: real := 0.01

  /** Truthiness of a parsed integer: NaN and 0 are falsy. */
  predicate TruthyInt(x: Option<int>) {
    x.Some? && x.value != 0
  }

  /** `formData.get('listing_type') || 'fixed'` */
  function ListingTypeOf(form: ListingForm): string {
    if form.listingType == "" then FixedListing else form.listingType
  }

  /** The checks of the handler, in its order; None when the form passes. */
  function ListingProblem(form: ListingForm, now: int): Option<ListingError> {
    var kind := ListingTypeOf(form);
    if form.name == "" || form.shortDescription == "" || form.longDescription == "" then
      Some(MissingText)
    else if kind == FixedListing then
      if !Truthy(form.price) || !TruthyInt(form.stock) then Some(FixedNeedsPriceAndStock) else None
    else if kind == AuctionListing then
      if !Truthy(form.startingPrice) || form.auctionEnd.None? then Some(AuctionNeedsStartAndEnd)
      else if form.auctionEnd.value <= now then Some(AuctionEndNotInFuture)
      else if Truthy(form.minBidStep) && form.minBidStep.value < MinStep then Some(StepTooSmall)
      else None
    else None
  }

  /** The values handed to createProduct for a form that passed the checks. */
  function ListingRow(form: ListingForm, sellerId: int): ProductParams
    requires ListingTypeOf(form) == FixedListing ==> form.price.Some? && form.stock.Some?
  {
    var kind := ListingTypeOf(form);
    var isFixed := kind == FixedListing;
    var isAuction := kind == AuctionListing;
    ProductParams(
      form.name, form.shortDescription, form.longDescription,
      if isFixed then form.price.value else 0.0,
      if isFixed then form.stock.value else 1,
      sellerId, form.category, kind, form.startingPrice,
      if isAuction then form.startingPrice else None,
      form.auctionEnd,
      if isAuction then Some(if Truthy(form.minBidStep) then form.minBidStep.value else MinStep) else None)
  }

  /** The handler up to the insert: 401 without a user, 400 for a failed check,
      otherwise the row to insert. */
  function ValidateListing(user: Option<int>, form: ListingForm, now: int): Result<ProductParams, ApiError> {
    if user.None? then Err(Unauthorized)
    else match ListingProblem(form, now)
      case Some(e) => Err(BadRequest(e))
      case None => Ok(ListingRow(form, user.value))
  }

  /** The handler: validates, then inserts the row and returns its id. */
  method CreateListing(store: Store, user: Option<int>, form: ListingForm, now: int)
    returns (r: Result<int, ApiError>)
    requires store.Valid()
    modifies store
    ensures store.Valid()
    ensures r.Err? <==> ValidateListing(user, form, now).Err?
    ensures r.Err? ==> r.error == ValidateListing(user, form, now).error &&
                       store.Content() == old(store.Content())
    ensures r.Ok? ==>
      r.value == old(store.nextProductId) &&
      store.Content() == old(store.Content()).(
        products := old(store.products) + [NewProductRow(r.value, ValidateListing(user, form, now).value, now)],
        nextProductId := r.value + 1)
  {
    var v := ValidateListing(user, form, now);
    if v.Err? {
      return Err(v.error);
    }
    var id := store.CreateProduct(v.value, now);
    r := Ok(id);
  }

  /** A missing name or description is refused whatever the listing type. */
  lemma MissingTextRejected(user: int, form: ListingForm, now: int)
    ensures (form.name == "" || form.shortDescription == "" || form.longDescription == "") <==>
            ValidateListing(Some(user), form, now) == Err(BadRequest(MissingText))
  {
  }

  /** An absent or empty listing type is handled exactly as "fixed". */
  lemma EmptyTypeIsFixed(user: Option<int>, form: ListingForm, now: int)
    ensures ValidateListing(user, form.(listingType := ""), now) ==
            ValidateListing(user, form.(listingType := FixedListing), now)
  {
  }

  /** A fixed-price listing is accepted exactly when the texts are present and
      price and stock are both non-zero numbers; stock 0 is refused. */
  lemma FixedAcceptance(user: int, form: ListingForm, now: int)
    requires ListingTypeOf(form) == FixedListing
    ensures ValidateListing(Some(user), form, now).Ok? <==>
      form.name != "" && form.shortDescription != "" && form.longDescription != "" &&
      Truthy(form.price) && TruthyInt(form.stock)
  {
  }

  /** An accepted fixed-price row carries the submitted price and stock,
      without a current bid or bid step. */
  lemma FixedRow(user: int, form: ListingForm, now: int)
    requires ListingTypeOf(form) == FixedListing
    requires ValidateListing(Some(user), form, now).Ok?
    ensures var row := ValidateListing(Some(user), form, now).value;
      row.price == form.price.value && row.price != 0.0 &&
      row.stock == form.stock.value && row.stock != 0 &&
      row.currentBid.None? && row.minBidStep.None? && row.sellerId == user &&
      row.listingType == FixedListing
  {
  }

  /** An auction is accepted exactly when the texts are present, the starting
      price is a non-zero number, the end is given and strictly after `now`,
      and a non-zero step is at least 0.01. */
  lemma AuctionAcceptance(user: int, form: ListingForm, now: int)
    requires form.listingType == AuctionListing
    ensures ValidateListing(Some(user), form, now).Ok? <==>
      form.name != "" && form.shortDescription != "" && form.longDescription != "" &&
      Truthy(form.startingPrice) && form.auctionEnd.Some? && form.auctionEnd.value > now &&
      (Truthy(form.minBidStep) ==> form.minBidStep.value >= MinStep)
  {
  }

  /** An accepted auction is stored with price 0, stock 1, the starting price
      as its current bid and a step of at least 0.01 (0.01 when none was
      given). */
  lemma AuctionRow(user: int, form: ListingForm, now: int)
    requires form.listingType == AuctionListing
    requires ValidateListing(Some(user), form, now).Ok?
    ensures var row := ValidateListing(Some(user), form, now).value;
      row.price == 0.0 && row.stock == 1 && row.sellerId == user &&
      row.currentBid == row.startingPrice == form.startingPrice &&
      row.auctionEnd == form.auctionEnd && row.auctionEnd.value > now &&
      row.minBidStep.Some? && row.minBidStep.value >= MinStep &&
      (!Truthy(form.minBidStep) ==> row.minBidStep == Some(MinStep))
  {
  }

  /** A listing type other than "fixed" and "auction" skips every
      type-specific check and is stored under its own name, without a current
      bid or bid step; its starting price and end are stored as given. */
  lemma OtherTypeUnchecked(user: int, form: ListingForm, now: int)
    requires form.listingType != "" && form.listingType != FixedListing && form.listingType != AuctionListing
    ensures ValidateListing(Some(user), form, now).Ok? <==>
      form.name != "" && form.shortDescription != "" && form.longDescription != ""
    ensures ValidateListing(Some(user), form, now).Ok? ==>
      var row := ValidateListing(Some(user), form, now).value;
      row.listingType == form.listingType && row.price == 0.0 && row.stock == 1 &&
      row.currentBid.None? && row.minBidStep.None? &&
      row.startingPrice == form.startingPrice && row.auctionEnd == form.auctionEnd
  {
  }

  /** The first bid on a freshly created auction must reach the starting price
      plus the stored step, which is at least 0.01 above the starting price. */
  lemma FirstBidFloor(user: int, form: ListingForm, now: int, id: int)
    requires form.listingType == AuctionListing
    requires ValidateListing(Some(user), form, now).Ok?
    ensures var p := NewProductRow(id, ValidateListing(Some(user), form, now).value, now);
      MinimumBid(p) == form.startingPrice.value + p.minBidStep.value &&
      MinimumBid(p) >= form.startingPrice.value + MinStep
  {
    AuctionRow(user, form, now);
  }
}
