/**
 * The commerce app's auctions: a listing's current price and winner, the
 * bid, comment and close actions of the listing page, the watchlist toggle,
 * and the category reuse of listing creation.
 *
 * Amounts are integer cents, as the `DecimalField(max_digits=12,
 * decimal_places=2)` columns hold them. A listing's bids are kept in the
 * order they were placed.
 */
module Auctions {
  import opened Wrappers
  import opened Text
  import opened Decimals
  import opened FormFields
  import opened Relations

  type UserId = nat
  type ListingId = nat

  datatype Bid = Bid(bidder: UserId, amount: int)

  datatype Comment = Comment(author: UserId, body: string)

  /** `category` indexes the category table. */
  datatype Listing = Listing(
    owner: UserId, title: string, description: string, startingBid: int,
    category: Option<nat>, active: bool, bids: seq<Bid>, comments: seq<Comment>)

  // ---------------------------------------------------------------------
  // Current price and winner
  // ---------------------------------------------------------------------

  /** Position of the highest bid; among equal amounts the earliest placed. */
  function TopBid(bids: seq<Bid>): (i: nat)
    requires |bids| > 0
    ensures i < |bids|
    ensures forall j :: 0 <= j < |bids| ==> bids[j].amount <= bids[i].amount
    ensures forall j :: 0 <= j < i ==> bids[j].amount < bids[i].amount
  {
    if |bids| == 1 then 0
    else
      var k := TopBid(bids[..|bids| - 1]);
      if bids[|bids| - 1].amount > bids[k].amount then |bids| - 1 else k
  }

  /** `Listing.current_price`: the highest bid, or the starting bid while
      there is none. */
  function CurrentPrice(l: Listing): (p: int)
    ensures |l.bids| == 0 ==> p == l.startingBid
    ensures forall j :: 0 <= j < |l.bids| ==> l.bids[j].amount <= p
    ensures |l.bids| > 0 ==> exists j :: 0 <= j < |l.bids| && l.bids[j].amount == p
  {
    if |l.bids| == 0 then l.startingBid else l.bids[TopBid(l.bids)].amount
  }

  /** `Listing.winning_bidder`: who placed the highest bid, if anyone bid. */
  function WinningBidder(l: Listing): (w: Option<UserId>)
    ensures w.None? <==> |l.bids| == 0
    ensures w.Some? ==> exists j :: 0 <= j < |l.bids| && l.bids[j] == Bid(w.value, CurrentPrice(l))
  {
    if |l.bids| == 0 then None else Some(l.bids[TopBid(l.bids)].bidder)
  }

  /** The invariant the bid action keeps: every bid above the starting bid
      and above every earlier bid. */
  predicate Increasing(l: Listing) {
    && (forall i, j :: 0 <= i < j < |l.bids| ==> l.bids[i].amount < l.bids[j].amount)
    && (forall i :: 0 <= i < |l.bids| ==> l.startingBid < l.bids[i].amount)
  }

  /** On a listing whose bids only ever went up, the price is the last bid
      and the winner is the one who placed it. */
  lemma LastBidWins(l: Listing)
    requires Increasing(l) && |l.bids| > 0
    ensures CurrentPrice(l) == l.bids[|l.bids| - 1].amount
    ensures WinningBidder(l) == Some(l.bids[|l.bids| - 1].bidder)
  {
    var i := TopBid(l.bids);
    var n := |l.bids| - 1;
    assert forall j :: 0 <= j < n ==> l.bids[j].amount < l.bids[n].amount;
  }

  // ---------------------------------------------------------------------
  // Amount fields
  // ---------------------------------------------------------------------

  /** Why a money field refused its text: empty, not a number, refused by
      the field's validators, or refused by the form's own `clean_<field>`. */
  datatype MoneyFieldError = Blank | NotANumber | Rejected(errs: seq<AmountError>) | NotPositive

  /** `BidForm.amount` then `clean_amount`: a number with at most 12 digits,
      2 of them after the point, and at least 0.01; as cents. */
  function BidAmount(raw: string): (r: Result<int, MoneyFieldError>)
    ensures r.Ok? <==> ParseDecimal(raw).Some? && MoneyErrors(ParseDecimal(raw).value) == []
    ensures r.Ok? ==> 1 <= r.value < Pow10(12) && SameValue(ParseDecimal(raw).value, Dec(r.value, 2))
  {
    if raw == [] then Err(Blank)
    else match ParseDecimal(raw)
      case None => Err(NotANumber)
      case Some(d) =>
        if MoneyErrors(d) != [] then Err(Rejected(MoneyErrors(d)))
        else if d.coef <= 0 then Err(NotPositive)
        else
          ValidMoneyCents(d);
          Ok(ToCents(d))
  }

  /** `clean_amount`'s own "greater than zero" check never fires: the
      field's minimum of 0.01 already refuses every such amount. */
  lemma BidMinimumCoversCleanAmount(d: Dec)
    requires MoneyErrors(d) == []
    ensures d.coef > 0
  {
  }

  /** A price as the pages print it, typed back into the bid form, is read
      as the same number of cents. */
  lemma BidAmountReadsPrinted(c: nat)
    requires 1 <= c < Pow10(12)
    ensures BidAmount(FormatCents(c)) == Ok(c)
  {
    FormatCentsReads(c);
    CentsBack(c);
  }

  /** The listing form's `starting_bid` (12 digits, 2 places) then
      `clean_starting_bid` (greater than zero); as cents. */
  function StartingBid(raw: string): (r: Result<int, MoneyFieldError>)
    ensures r.Ok? <==> ParseDecimal(raw).Some? && FitsMoney(ParseDecimal(raw).value) && ParseDecimal(raw).value.coef > 0
    ensures r.Ok? ==> 1 <= r.value < Pow10(12) && SameValue(ParseDecimal(raw).value, Dec(r.value, 2))
  {
    if raw == [] then Err(Blank)
    else match ParseDecimal(raw)
      case None => Err(NotANumber)
      case Some(d) =>
        FitsMoneyIff(d);
        match DecimalValidator(d, 12, 2)
        case Some(e) => Err(Rejected([e]))
        case None =>
          if d.coef <= 0 then Err(NotPositive)
          else
            PositiveMoney(d);
            ValidMoneyCents(d);
            Ok(ToCents(d))
  }

  /** A positive number that fits the field is at least 0.01. */
  lemma PositiveMoney(d: Dec)
    requires FitsMoney(d) && d.coef > 0
    ensures MoneyErrors(d) == []
  {
    Pow10Monotone(d.scale, 2);
  }

  /** Any accepted bid would also have been a valid starting bid. */
  lemma BidIsValidStartingBid(raw: string)
    requires BidAmount(raw).Ok?
    ensures StartingBid(raw) == BidAmount(raw)
  {
  }

  // ---------------------------------------------------------------------
  // The listing page's POST actions
  // ---------------------------------------------------------------------

  datatype Viewer = Anonymous | SignedIn(user: UserId)

  /** The `action` field of the POST, with the text of its form. */
  datatype Action = PlaceBid(amount: string) | AddComment(body: string) | CloseAuction | Other

  datatype Outcome =
    | LoginRequired   // redirected to the login page
    | ListingClosed   // "This listing is closed."
    | FormInvalid     // the bid or comment form did not validate
    | BidTooLow       // "Bid must be greater than the current price."
    | NotOwner        // "Only the listing owner can close the auction."
    | AlreadyClosed   // "This listing is already closed."
    | Done            // the change was saved
    | Shown           // the page is shown again, nothing done

  /** `listing_detail` for a POST: a signed-in user's bid, comment or close
      request. Only a `Done` outcome changes the listing; the rules of each
      action are the lemmas below. */
  function ListingPost(l: Listing, viewer: Viewer, action: Action): (r: (Listing, Outcome))
    ensures viewer.Anonymous? ==> r == (l, LoginRequired)
    ensures r.1 != Done ==> r.0 == l
  {
    match viewer
    case Anonymous => (l, LoginRequired)
    case SignedIn(u) =>
      match action
      case PlaceBid(raw) => Bidding(l, u, raw)
      case AddComment(raw) => Commenting(l, u, raw)
      case CloseAuction => Closing(l, u)
      case Other => (l, Shown)
  }

  /** The `place_bid` branch. */
  function Bidding(l: Listing, u: UserId, raw: string): (r: (Listing, Outcome))
    ensures r.1 != Done ==> r.0 == l
    ensures r.0 == l.(bids := r.0.bids)
  {
    if !l.active then (l, ListingClosed)
    else
      match BidAmount(raw)
      case Err(_) => (l, FormInvalid)
      case Ok(amount) =>
        if amount <= CurrentPrice(l) then (l, BidTooLow)
        else (l.(bids := l.bids + [Bid(u, amount)]), Done)
  }

  /** The `add_comment` branch. */
  function Commenting(l: Listing, u: UserId, raw: string): (r: (Listing, Outcome))
    ensures r.1 != Done ==> r.0 == l
    ensures r.0 == l.(comments := r.0.comments) && l.comments <= r.0.comments
  {
    if !l.active then (l, ListingClosed)
    else
      match CharField(raw, true, None)
      case Err(_) => (l, FormInvalid)
      case Ok(body) => (l.(comments := l.comments + [Comment(u, body)]), Done)
  }

  /** The `close_auction` branch. */
  function Closing(l: Listing, u: UserId): (r: (Listing, Outcome))
    ensures r.1 != Done ==> r.0 == l
    ensures r.0 == l.(active := r.0.active)
  {
    if u != l.owner then (l, NotOwner)
    else if !l.active then (l, AlreadyClosed)
    else (l.(active := false), Done)
  }

  /** A bid is recorded exactly when the listing is open, the amount is
      valid and it beats the current price; it is appended as the user's. */
  lemma BidRule(l: Listing, u: UserId, raw: string)
    ensures var r := ListingPost(l, SignedIn(u), PlaceBid(raw));
      && (r.1 == Done <==> l.active && BidAmount(raw).Ok? && BidAmount(raw).value > CurrentPrice(l))
      && (r.1 == Done ==> r.0 == l.(bids := l.bids + [Bid(u, BidAmount(raw).value)]))
      && (!l.active ==> r.1 == ListingClosed)
  {
  }

  /** A comment is recorded exactly when the listing is open and the
      stripped text is not empty and holds no NUL character. */
  lemma CommentRule(l: Listing, u: UserId, raw: string)
    ensures var r := ListingPost(l, SignedIn(u), AddComment(raw));
      && (r.1 == Done <==> l.active && Strip(raw) != [] && '\0' !in raw)
      && (r.1 == Done ==> r.0 == l.(comments := l.comments + [Comment(u, Strip(raw))]))
  {
  }

  /** Only the owner closes, only an open listing, and closing changes
      nothing but the flag. */
  lemma CloseRule(l: Listing, u: UserId)
    ensures var r := ListingPost(l, SignedIn(u), CloseAuction);
      && (r.1 == Done <==> u == l.owner && l.active)
      && (r.1 == Done ==> r.0 == l.(active := false))
      && (u != l.owner ==> r.1 == NotOwner)
  {
  }

  /** An accepted bid raises the price to itself and makes its bidder the
      winner, whatever came before. */
  lemma AcceptedBidLeads(l: Listing, u: UserId, raw: string)
    requires ListingPost(l, SignedIn(u), PlaceBid(raw)).1 == Done
    ensures var l' := ListingPost(l, SignedIn(u), PlaceBid(raw)).0;
      && CurrentPrice(l') == BidAmount(raw).value > CurrentPrice(l)
      && WinningBidder(l') == Some(u)
  {
    BidRule(l, u, raw);
    var a := BidAmount(raw).value;
    var l' := l.(bids := l.bids + [Bid(u, a)]);
    var n := |l.bids|;
    assert forall j :: 0 <= j < n ==> l'.bids[j].amount == l.bids[j].amount <= CurrentPrice(l) < a;
    assert l'.bids[n] == Bid(u, a);
  }

  /** One request only adds a bid or a comment or closes the listing, and
      the price never falls. */
  lemma ListingPostOnlyAdds(l: Listing, viewer: Viewer, action: Action)
    ensures var l' := ListingPost(l, viewer, action).0;
      && l' == l.(active := l'.active, bids := l'.bids, comments := l'.comments)
      && l.bids <= l'.bids && l.comments <= l'.comments
      && (!l.active ==> l' == l)
      && CurrentPrice(l) <= CurrentPrice(l')
  {
    var r := ListingPost(l, viewer, action);
    if r.1 == Done {
      match action
      case PlaceBid(raw) => AcceptedBidLeads(l, viewer.user, raw);
      case AddComment(raw) => CommentRule(l, viewer.user, raw);
      case CloseAuction => CloseRule(l, viewer.user);
      case Other =>
    }
  }

  /** One request keeps the bids increasing. */
  lemma ListingPostKeepsIncreasing(l: Listing, viewer: Viewer, action: Action)
    requires Increasing(l)
    ensures Increasing(ListingPost(l, viewer, action).0)
  {
    var r := ListingPost(l, viewer, action);
    if r.1 == Done && action.PlaceBid? {
      BidRule(l, viewer.user, action.amount);
      AddHigherBid(l, Bid(viewer.user, BidAmount(action.amount).value));
    } else {
      assert r.0.bids == l.bids && r.0.startingBid == l.startingBid;
    }
  }

  /** A bid above the current price keeps the bids increasing. */
  lemma AddHigherBid(l: Listing, b: Bid)
    requires Increasing(l) && b.amount > CurrentPrice(l)
    ensures Increasing(l.(bids := l.bids + [b]))
  {
    if |l.bids| > 0 {
      assert l.startingBid < l.bids[0].amount <= CurrentPrice(l);
    }
    assert forall j :: 0 <= j < |l.bids| ==> l.bids[j].amount <= CurrentPrice(l) < b.amount;
  }

  /** A sequence of requests to the listing page, applied in order. */
  function Replay(l: Listing, reqs: seq<(Viewer, Action)>): Listing
    decreases |reqs|
  {
    if reqs == [] then l else Replay(ListingPost(l, reqs[0].0, reqs[0].1).0, reqs[1..])
  }

  /** Whatever is posted, the bids of a listing go up strictly, starting
      above the starting bid. */
  lemma {:induction false} ReplayKeepsIncreasing(l: Listing, reqs: seq<(Viewer, Action)>)
    requires Increasing(l)
    ensures Increasing(Replay(l, reqs))
    decreases |reqs|
  {
    if reqs != [] {
      ListingPostKeepsIncreasing(l, reqs[0].0, reqs[0].1);
      ReplayKeepsIncreasing(ListingPost(l, reqs[0].0, reqs[0].1).0, reqs[1..]);
    }
  }

  /** Nothing reopens a closed listing, and nothing changes it at all: bids
      and comments are refused and closing again does nothing. */
  lemma {:induction false} ClosedIsFinal(l: Listing, reqs: seq<(Viewer, Action)>)
    requires !l.active
    ensures Replay(l, reqs) == l
    decreases |reqs|
  {
    if reqs != [] {
      ListingPostOnlyAdds(l, reqs[0].0, reqs[0].1);
      ClosedIsFinal(l, reqs[1..]);
    }
  }

  /** Requests only add bids and comments and may close the listing: the
      owner, texts, starting bid and category never change, earlier bids and
      comments stay, and the price never falls. */
  lemma {:induction false} ReplayOnlyAdds(l: Listing, reqs: seq<(Viewer, Action)>)
    ensures var l' := Replay(l, reqs);
      && l' == l.(active := l'.active, bids := l'.bids, comments := l'.comments)
      && l.bids <= l'.bids && l.comments <= l'.comments
      && CurrentPrice(l) <= CurrentPrice(l')
    decreases |reqs|
  {
    if reqs != [] {
      var next := ListingPost(l, reqs[0].0, reqs[0].1).0;
      ListingPostOnlyAdds(l, reqs[0].0, reqs[0].1);
      ReplayOnlyAdds(next, reqs[1..]);
    }
  }

  // ---------------------------------------------------------------------
  // Watchlist
  // ---------------------------------------------------------------------

  /** The watchlist many-to-many table: (user, listing) pairs. */
  type Watchlists = set<(UserId, ListingId)>

  datatype WatchOutcome = WatchLoginRequired | WatchNotFound | BackToListing | Toggled

  /** `toggle_watchlist`: signed-in users only, the listing must exist, and
      only a POST changes anything. */
  function ToggleWatchlist(w: Watchlists, listings: set<ListingId>, viewer: Viewer, id: ListingId, isPost: bool): (r: (Watchlists, WatchOutcome))
    ensures viewer.Anonymous? ==> r == (w, WatchLoginRequired)
    ensures viewer.SignedIn? && id !in listings ==> r == (w, WatchNotFound)
    ensures !isPost ==> r.0 == w
    ensures viewer.SignedIn? && id in listings && isPost ==>
      && r.1 == Toggled
      && ((viewer.user, id) in r.0 <==> (viewer.user, id) !in w)
      && r.0 - {(viewer.user, id)} == w - {(viewer.user, id)}
  {
    match viewer
    case Anonymous => (w, WatchLoginRequired)
    case SignedIn(u) =>
      if id !in listings then (w, WatchNotFound)
      else if !isPost then (w, BackToListing)
      else (Toggle(w, (u, id)), Toggled)
  }

  /** Toggling twice restores the watchlist. */
  lemma ToggleWatchlistTwice(w: Watchlists, listings: set<ListingId>, viewer: Viewer, id: ListingId, isPost: bool)
    ensures var w1 := ToggleWatchlist(w, listings, viewer, id, isPost).0;
      ToggleWatchlist(w1, listings, viewer, id, isPost).0 == w
  {
    if viewer.SignedIn? && id in listings && isPost {
      ToggleTwice(w, (viewer.user, id));
    }
  }

  // ---------------------------------------------------------------------
  // Creating a listing
  // ---------------------------------------------------------------------

  /** `create_listing`'s category: a blank name means none; otherwise the
      first category whose name matches ignoring case, or a new one. */
  function CategoryFor(cats: seq<string>, name: string): (r: (seq<string>, Option<nat>))
    ensures name == [] ==> r == (cats, None)
    ensures name != [] ==> r.1.Some? && r.1.value < |r.0| && EqualsIgnoreCase(r.0[r.1.value], name)
    ensures cats <= r.0 && |r.0| <= |cats| + 1
  {
    if name == [] then (cats, None)
    else
      var i := FindIgnoringCase(cats, name);
      if i < |cats| then (cats, Some(i)) else (cats + [name], Some(|cats|))
  }

  /** Because a category is only created when no name matches, the table
      never holds two names that differ only in case, which also keeps the
      `unique=True` constraint on the name. */
  lemma CategoryForKeepsNamesDistinct(cats: seq<string>, name: string)
    requires NoCaseDuplicates(cats)
    ensures NoCaseDuplicates(CategoryFor(cats, name).0)
  {
    if name != [] && FindIgnoringCase(cats, name) == |cats| {
      AddUnmatched(cats, name);
    }
  }

  /** An existing category is reused under any spelling of case: the table
      is unchanged and the match is the one category. */
  lemma CategoryReused(cats: seq<string>, name: string, j: nat)
    requires NoCaseDuplicates(cats) && j < |cats| && EqualsIgnoreCase(cats[j], name) && name != []
    ensures CategoryFor(cats, name) == (cats, Some(j))
  {
    OnlyMatch(cats, name, j);
  }

  datatype ListingForm = ListingForm(title: string, description: string, startingBid: string, category: string)

  datatype ListingError =
    | TitleError(e: TextError)
    | DescriptionError(e: TextError)
    | StartingBidError(m: MoneyFieldError)
    | CategoryError(e: TextError)

  /** The complaint of one field, if it refused its value. */
  function FieldErrors<T, E>(r: Result<T, E>, wrap: E -> ListingError): (errs: seq<ListingError>)
    ensures errs == [] <==> r.Ok?
  {
    match r
    case Err(e) => [wrap(e)]
    case Ok(_) => []
  }

  /** Every field's complaint, in field order. */
  function ListingFormErrors(f: ListingForm): (errs: seq<ListingError>)
    ensures errs == [] <==>
      && CharField(f.title, true, Some(128)).Ok?
      && CharField(f.description, true, None).Ok?
      && StartingBid(f.startingBid).Ok?
      && CharField(f.category, false, Some(64)).Ok?
  {
    FieldErrors(CharField(f.title, true, Some(128)), e => TitleError(e))
    + FieldErrors(CharField(f.description, true, None), e => DescriptionError(e))
    + FieldErrors(StartingBid(f.startingBid), m => StartingBidError(m))
    + FieldErrors(CharField(f.category, false, Some(64)), e => CategoryError(e))
  }

  /** The listing form accepts exactly: a title of 1 to 128 characters and a
      non-blank description after stripping, a valid starting bid, and a
      category of at most 64 characters or none, with no NUL character in
      any of the three texts. */
  lemma ListingFormAccepts(f: ListingForm)
    ensures ListingFormErrors(f) == [] <==>
      && Strip(f.title) != [] && |Strip(f.title)| <= 128
      && Strip(f.description) != []
      && StartingBid(f.startingBid).Ok?
      && |Strip(f.category)| <= 64
      && '\0' !in f.title && '\0' !in f.description && '\0' !in f.category
  {
    var c := CharField(f.category, false, Some(64));
    assert c.Err? ==> c == Err(Required) || c == Err(TooLong) || c == Err(NullCharacter);
    var t := CharField(f.title, true, Some(128));
    assert t.Err? ==> t == Err(Required) || t == Err(TooLong) || t == Err(NullCharacter);
    var d := CharField(f.description, true, None);
    assert d.Err? ==> d == Err(Required) || d == Err(TooLong) || d == Err(NullCharacter);
  }

  /** `create_listing` for a POST by `owner`: the new listing and the
      category table afterwards. */
  function CreateListing(cats: seq<string>, owner: UserId, f: ListingForm): (r: Result<(Listing, seq<string>), seq<ListingError>>)
    ensures r.Err? <==> ListingFormErrors(f) != []
    ensures r.Err? ==> r.error == ListingFormErrors(f)
    ensures r.Ok? ==> var (l, cats') := r.value;
      && l.owner == owner && l.active && l.bids == [] && l.comments == []
      && l.title == Strip(f.title) && l.description == Strip(f.description)
      && Ok(l.startingBid) == StartingBid(f.startingBid)
      && (Strip(f.category) == [] <==> l.category.None?)
      && (l.category.Some? ==> l.category.value < |cats'| && EqualsIgnoreCase(cats'[l.category.value], Strip(f.category)))
      && cats <= cats'
  {
    var errs := ListingFormErrors(f);
    if errs != [] then Err(errs)
    else
      var name := Strip(Strip(f.category));
      StripIdempotent(f.category);
      var (cats', category) := CategoryFor(cats, name);
      Ok((Listing(owner, Strip(f.title), Strip(f.description), StartingBid(f.startingBid).value, category, true, [], []), cats'))
  }

  /** A new listing starts with the invariant the bid action keeps. */
  lemma NewListingIncreasing(cats: seq<string>, owner: UserId, f: ListingForm)
    requires CreateListing(cats, owner, f).Ok?
    ensures Increasing(CreateListing(cats, owner, f).value.0)
    ensures CurrentPrice(CreateListing(cats, owner, f).value.0) == StartingBid(f.startingBid).value
  {
  }
}
