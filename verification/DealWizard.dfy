/** The interactive deal dialogue as a state machine: whatever the answers, miners, asks and prices stay aligned. */
module DealWizard {
  import opened Prelude
  import opened DealPricing

  datatype Screen =
    | Import | Duration | Verified | Miners | Find | MaxPing | FindBudget | FindCount | Query | Confirm | Accept | Execute

  datatype Answer = Yes | No | Other

  /**
    What the user types or the node answers on a screen. Anything that does not fit makes the screen come up again;
    `Broken` is an error of the node or of the input that ends the dialogue.
   */
  datatype Event =
    | Unreadable
    | Broken
    | Imported(pieceSize: nat)
    | Days(epochs: nat)
    | MakeVerified(verified: bool)
    | Addresses(parsed: seq<Miner>, bad: bool)
    | Found(asks: seq<Queried>)
    | Latency(limit: int)
    | Budget(amount: int)
    | Count(count: int, orders: nat -> seq<Queried>)
    | Quotes(quote: Miner -> Option<Ask>)
    | Powers(known: Miner -> bool)
    | Answered(answer: Answer)
    | Deals(started: nat -> bool, encodes: bool)

  /** `whole` when every deal was made and reported; otherwise the dialogue ended at the first that was not. */
  datatype Outcome = Continue | Leave | Proposed(deals: seq<(Miner, int)>, whole: bool)

  /** The screens on which an error ends the dialogue; on the others it is asked again, or goes back to the miners. */
  predicate Ends(s: Screen) {
    s in {Import, Duration, Verified, Find, Confirm, Accept}
  }

  /** The asks that meet a condition, in their order. */
  ghost function Kept(keep: Queried -> bool, asks: seq<Queried>): seq<Queried> {
    if asks == [] then []
    else Kept(keep, asks[..|asks| - 1]) + if keep(asks[|asks| - 1]) then [asks[|asks| - 1]] else []
  }

  lemma {:induction false} KeptExactly(keep: Queried -> bool, asks: seq<Queried>, q: Queried)
    ensures q in Kept(keep, asks) <==> q in asks && keep(q)
    decreases |asks|
  {
    if asks != [] {
      KeptExactly(keep, asks[..|asks| - 1], q);
      assert asks == asks[..|asks| - 1] + [asks[|asks| - 1]];
    }
  }

  method Keep(keep: Queried -> bool, asks: seq<Queried>) returns (good: seq<Queried>)
    ensures good == Kept(keep, asks) && forall q :: q in good <==> q in asks && keep(q)
  {
    good := [];
    for i := 0 to |asks|
      invariant good == Kept(keep, asks[..i])
    {
      assert asks[..i + 1][..i] == asks[..i];
      if keep(asks[i]) { good := good + [asks[i]]; }
    }
    assert asks[..|asks|] == asks;
    forall q ensures q in good <==> q in asks && keep(q) { KeptExactly(keep, asks, q); }
  }

  /** What the dialogue has gathered when a screen comes up. */
  datatype Draft = Draft(screen: Screen, terms: Terms, miners: seq<Miner>, asks: seq<Ask>, candidates: seq<Queried>, budget: int)

  function Sized(size: nat): Queried -> bool {
    (q: Queried) => q.ask.minPiece <= size <= q.ask.maxPiece
  }

  function Quick(limit: int): Queried -> bool {
    (q: Queried) => q.ping < limit
  }

  function Cheap(terms: Terms, amount: int): Queried -> bool {
    (q: Queried) => Cost(terms, q.ask) < amount
  }

  ghost function MinersOf(asks: seq<Ask>): seq<Miner> {
    seq(|asks|, i requires 0 <= i < |asks| => asks[i].miner)
  }

  /** All the miners' quotes, if they all answer. */
  ghost predicate Quoted(quote: Miner -> Option<Ask>, miners: seq<Miner>, asks: seq<Ask>) {
    |asks| == |miners| && forall i :: 0 <= i < |miners| ==> quote(miners[i]) == Some(asks[i])
  }

  /** What each screen before the confirmation does with what comes in; anything that does not fit changes nothing. */
  ghost predicate Prepared(d: Draft, e: Event, d': Draft) {
    match d.screen
    case Import => d' == if e.Imported? then d.(screen := Duration, terms := d.terms.(pieceSize := e.pieceSize)) else d
    case Duration => d' == if e.Days? then d.(screen := Verified, terms := d.terms.(epochs := e.epochs)) else d
    case Verified => d' == if e.MakeVerified? then d.(screen := Miners, terms := d.terms.(verified := e.verified)) else d
    case Miners => if e.Addresses? then Entered(d, e.parsed, e.bad, d') else d' == d
    case Find => if e.Found? then Searched(d, e.asks, d') else d' == d
    case MaxPing => if e.Latency? then Pinged(d, e.limit, d') else d' == d
    case FindBudget => if e.Budget? then Budgeted(d, e.amount, d') else d' == d
    case FindCount => if e.Count? then PickedFor(d, e.count, e.orders, d') else d' == d
    case Query => if e.Quotes? then Answers(d, e.quote, d') else d' == d
    case _ => d' == d
  }

  lemma PreparedFollows(d: Draft, e: Event, d': Draft)
    requires Prepared(d, e, d')
    ensures d'.terms == Noted(d.terms, d.screen, e) && (d'.screen != d.screen ==> d'.screen in Following(d.screen))
  {
  }

  /** The lists start over; without a miner the network is searched. */
  ghost predicate Entered(d: Draft, parsed: seq<Miner>, bad: bool, d': Draft) {
    d' == d.(screen := if bad then Miners else if parsed == [] then Find else Query, miners := parsed, asks := [])
  }

  /** The asks for pieces of this size join the candidates. */
  ghost predicate Searched(d: Draft, found: seq<Queried>, d': Draft) {
    d' == if found == [] then d else d.(screen := MaxPing, candidates := d.candidates + Kept(Sized(d.terms.pieceSize), found))
  }

  /** The candidates below the latency stay, unless there are none. */
  ghost predicate Pinged(d: Draft, limit: int, d': Draft) {
    var good := Kept(Quick(limit), d.candidates);
    d' == if good == [] then d else d.(screen := FindBudget, candidates := good)
  }

  /** The candidates that cost less than the budget stay. */
  ghost predicate Budgeted(d: Draft, amount: int, d': Draft) {
    d' == d.(screen := FindCount, candidates := Kept(Cheap(d.terms, amount), d.candidates), budget := amount)
  }

  /** The first full attempt, or the last one, in the order it was made. */
  ghost predicate PickedFor(d: Draft, count: int, orders: nat -> seq<Queried>, d': Draft) {
    exists attempt: nat :: PickedAt(d, count, orders, attempt, d')
  }

  ghost predicate PickedAt(d: Draft, count: int, orders: nat -> seq<Queried>, attempt: nat, d': Draft) {
    && attempt < 64
    && (forall i: nat :: i < attempt ==> |Fill(d.terms, orders(i), d.budget, count)| != count || count == 0)
    && d'.asks == Fill(d.terms, orders(attempt), d.budget, count)
    && d' == d.(screen := Confirm, miners := MinersOf(d'.asks), asks := d'.asks, candidates := orders(attempt))
    && ((count > 0 && |d'.asks| == count) || attempt == 63)
  }

  /** The entered miners' asks, or back to the addresses with those that were answered. */
  ghost predicate Answers(d: Draft, quote: Miner -> Option<Ask>, d': Draft) {
    && |d'.asks| <= |d.miners| && Quoted(quote, d.miners[..|d'.asks|], d'.asks)
    && if |d'.asks| == |d.miners| then d' == d.(screen := Confirm, asks := d'.asks)
       else d' == d.(screen := Miners, asks := d'.asks) && quote(d.miners[|d'.asks|]).None?
  }

  /** Which screens may come next. */
  ghost function Following(s: Screen): set<Screen> {
    match s
    case Import => {Duration}
    case Duration => {Verified}
    case Verified => {Miners}
    case Miners => {Find, Query}
    case Find => {MaxPing}
    case MaxPing => {FindBudget}
    case FindBudget => {FindCount}
    case FindCount => {Confirm}
    case Query => {Miners, Confirm}
    case Confirm => {Accept}
    case Accept => {Execute}
    case Execute => {}
  }

  /** The terms are set once each: the size on import, the duration and the kind of deal on their screens. */
  ghost function Noted(terms: Terms, s: Screen, e: Event): Terms {
    if s == Import && e.Imported? then terms.(pieceSize := e.pieceSize)
    else if s == Duration && e.Days? then terms.(epochs := e.epochs)
    else if s == Verified && e.MakeVerified? then terms.(verified := e.verified)
    else terms
  }

  /**
    One deal per offer, with the miner that made it and at its price, up to the first that the node does not start. If
    the encoder for the deals' names fails, that ends the dialogue too, with the first deal made.
   */
  ghost predicate Made(terms: Terms, offers: seq<(Miner, Ask)>, started: nat -> bool, encodes: bool, deals: seq<(Miner, int)>, whole: bool) {
    && |deals| <= |offers| && (encodes || |deals| <= 1)
    && (forall i :: 0 <= i < |deals| ==> started(i) && deals[i].0 == offers[i].0 && PerEpoch(terms, offers[i].1, deals[i].1))
    && (if whole then |deals| == |offers| && (encodes || deals == [])
        else (|deals| < |offers| && !started(|deals|)) || (!encodes && |deals| == 1))
  }

  ghost predicate CostsLess(terms: Terms, ask: Ask, budget: int) {
    forall cost :: Costs(terms, ask, cost) ==> cost < budget
  }

  lemma LessIsLess(terms: Terms, ask: Ask, budget: int)
    ensures CostsLess(terms, ask, budget) <==> Cost(terms, ask) < budget
  {
    CostIs(terms, ask, Cost(terms, ask));
    forall cost | Costs(terms, ask, cost) ensures cost == Cost(terms, ask) { CostIs(terms, ask, cost); }
  }

  ghost predicate Searching(s: Screen) {
    s in {Find, MaxPing, FindBudget, FindCount}
  }

  class Wizard {
    var screen: Screen
    var terms: Terms
    var miners: seq<Miner>
    var asks: seq<Ask>
    var prices: seq<int>
    var candidates: seq<Queried>
    var budget: int
    /** Which miner made which offer, and whether it came from the search. */
    ghost var offers: seq<(Miner, Ask)>
    ghost var searched: bool

    ghost function Gathered(): Draft
      reads this
    {
      Draft(screen, terms, miners, asks, candidates, budget)
    }

    /** The offers are what the two lists say, position by position. */
    ghost predicate Aligned()
      reads this
    {
      |miners| == |offers| && |asks| == |offers| && forall i :: 0 <= i < |offers| ==> offers[i] == (miners[i], asks[i])
    }

    ghost predicate Priced()
      reads this
    {
      |prices| == |asks| && forall i :: 0 <= i < |asks| ==> PerEpoch(terms, asks[i], prices[i])
    }

    ghost predicate Valid()
      reads this
    {
      && (screen !in {Accept, Execute} ==> prices == [])
      && (Searching(screen) ==> miners == [] && asks == [])
      && (screen == Query ==> asks == [])
      && (screen in {Confirm, Accept, Execute} ==> Aligned())
      && (screen in {Confirm, Accept, Execute} && searched && budget >= 0 ==> Committed(terms, asks) <= budget)
      && (screen in {Accept, Execute} ==> Priced())
    }

    constructor ()
      ensures Valid() && Gathered() == Draft(Import, Terms(0, 0, false), [], [], [], 0)
    {
      screen, terms := Import, Terms(0, 0, false);
      miners, asks, prices, candidates, budget, offers, searched := [], [], [], [], 0, [], false;
    }

    /** One screen. Deals are proposed only from the last one, to the miners that made the offers, at their own prices. */
    method Show(e: Event) returns (r: Outcome)
      requires Valid()
      requires e.Count? ==> forall i: nat :: i < 64 ==> multiset(e.orders(i)) == multiset(candidates)
      modifies this
      ensures r != Leave ==> Valid()
      ensures old(screen) !in {Confirm, Accept, Execute} && r != Leave ==> Prepared(old(Gathered()), e, Gathered())
      ensures old(screen) in {Confirm, Accept, Execute} && r != Leave ==> Gathered() == old(Gathered()).(screen := screen)
      ensures old(screen) == Confirm && r != Leave ==> screen == if e.Powers? then Accept else Confirm
      ensures r == Leave <==>
        || (e.Broken? && old(screen) in {Import, Duration, Verified, Find, Confirm, Accept})
        || (old(screen) == Confirm && e.Powers? && exists i :: 0 <= i < |old(asks)| && !e.known(old(asks)[i].miner))
        || (old(screen) == Accept && e == Answered(No))
      ensures old(screen) == Accept ==> screen == if e == Answered(Yes) then Execute else Accept
      ensures r.Proposed? <==> old(screen) == Execute && e.Deals?
      ensures r.Proposed? ==> Aligned() && Made(terms, offers, e.started, e.encodes, r.deals, r.whole)
      ensures r.Proposed? && searched && budget >= 0 ==> Committed(terms, asks) <= budget
    {
      if e.Broken? && Ends(screen) { return Leave; }
      if screen in {Confirm, Accept, Execute} {
        r := Conclude(e);
      } else {
        Prepare(e);
        r := Continue;
      }
    }

    /** The last screens: the prices, the user's answer and the deals. */
    method Conclude(e: Event) returns (r: Outcome)
      requires Valid() && screen in {Confirm, Accept, Execute} && !(e.Broken? && Ends(screen))
      modifies this`prices, this`screen
      ensures (r != Leave ==> Valid()) && (screen != old(screen) ==> screen in Following(old(screen)))
      ensures old(screen) == Confirm && r != Leave ==> screen == if e.Powers? then Accept else Confirm
      ensures r == Leave <==>
        || (old(screen) == Confirm && e.Powers? && exists i :: 0 <= i < |asks| && !e.known(asks[i].miner))
        || (old(screen) == Accept && e == Answered(No))
      ensures old(screen) == Accept ==> screen == if e == Answered(Yes) then Execute else Accept
      ensures r.Proposed? <==> old(screen) == Execute && e.Deals?
      ensures r.Proposed? ==> Aligned() && Made(terms, offers, e.started, e.encodes, r.deals, r.whole)
      ensures r.Proposed? && searched && budget >= 0 ==> Committed(terms, asks) <= budget
    {
      r := Continue;
      match screen {
        case Confirm =>
          if e.Powers? {
            var ok, total := ShowPrices(e.known);
            if !ok { return Leave; }
          }
        case Accept =>
          if e.Answered? {
            if e.answer == No { return Leave; }
            if e.answer == Yes { screen := Execute; }
          }
        case Execute =>
          if e.Deals? {
            var deals, whole := Propose(e.started, e.encodes);
            return Proposed(deals, whole);
          }
      }
    }

    /** The screens before the confirmation. */
    method Prepare(e: Event)
      requires Valid() && screen !in {Confirm, Accept, Execute}
      requires e.Count? ==> forall i: nat :: i < 64 ==> multiset(e.orders(i)) == multiset(candidates)
      modifies this
      ensures Valid() && Prepared(old(Gathered()), e, Gathered())
    {
      if screen in {Import, Duration, Verified} {
        NoteTerms(e);
        return;
      }
      match screen {
        case Miners => if e.Addresses? { EnterMiners(e.parsed, e.bad); }
        case Find => if e.Found? { Search(e.asks); }
        case MaxPing => if e.Latency? { FilterPing(e.limit); }
        case FindBudget => if e.Budget? { FilterBudget(e.amount); }
        case FindCount => if e.Count? { PickAsks(e.count, e.orders); }
        case Query => if e.Quotes? { QueryAsks(e.quote); }
        case _ =>
      }
    }

    method NoteTerms(e: Event)
      requires Valid() && screen in {Import, Duration, Verified}
      modifies this`screen, this`terms
      ensures Valid() && Prepared(old(Gathered()), e, Gathered())
    {
      match (screen, e) {
        case (Import, Imported(size)) => terms := terms.(pieceSize := size); screen := Duration;
        case (Duration, Days(epochs)) => terms := terms.(epochs := epochs); screen := Verified;
        case (Verified, MakeVerified(v)) => terms := terms.(verified := v); screen := Miners;
        case _ =>
      }
    }

    method EnterMiners(parsed: seq<Miner>, bad: bool)
      requires Valid() && screen == Miners
      modifies this
      ensures Valid() && Entered(old(Gathered()), parsed, bad, Gathered())
    {
      miners, asks := [], [];
      for i := 0 to |parsed|
        invariant miners == parsed[..i] && asks == [] && prices == [] && screen == Miners
        invariant terms == old(terms) && candidates == old(candidates) && budget == old(budget)
      {
        miners := miners + [parsed[i]];
      }
      assert parsed[..|parsed|] == parsed;
      if bad { return; }
      screen := Query;
      if |miners| == 0 { screen := Find; }
    }

    method Search(found: seq<Queried>)
      requires Valid() && screen == Find
      modifies this`candidates, this`screen
      ensures Valid() && Searched(old(Gathered()), found, Gathered())
      ensures forall q :: q in candidates <==> q in old(candidates) || (q in found && q.ask.minPiece <= terms.pieceSize <= q.ask.maxPiece)
    {
      if |found| == 0 { return; }
      var good := Keep(Sized(terms.pieceSize), found);
      candidates := candidates + good;
      screen := MaxPing;
    }

    method FilterPing(limit: int)
      requires Valid() && screen == MaxPing
      modifies this`candidates, this`screen
      ensures Valid() && Pinged(old(Gathered()), limit, Gathered())
      ensures screen == FindBudget <==> exists q :: q in old(candidates) && q.ping < limit
      ensures screen == FindBudget ==> forall q :: q in candidates <==> q in old(candidates) && q.ping < limit
    {
      var good := Keep(Quick(limit), candidates);
      if |good| == 0 { assert forall q :: q in candidates ==> q !in good; return; }
      assert good[0] in candidates;
      candidates := good;
      screen := FindBudget;
    }

    method FilterBudget(amount: int)
      requires Valid() && screen == FindBudget
      modifies this`candidates, this`screen, this`budget
      ensures Valid() && Budgeted(old(Gathered()), amount, Gathered())
      ensures forall q :: q in candidates <==> q in old(candidates) && CostsLess(terms, q.ask, amount)
    {
      budget := amount;
      var good := Keep(Cheap(terms, amount), candidates);
      forall q: Queried ensures CostsLess(terms, q.ask, amount) <==> Cost(terms, q.ask) < amount { LessIsLess(terms, q.ask, amount); }
      candidates := good;
      screen := FindCount;
    }

    method PickAsks(count: int, orders: nat -> seq<Queried>)
      requires Valid() && screen == FindCount
      requires forall i: nat :: i < 64 ==> multiset(orders(i)) == multiset(candidates)
      modifies this
      ensures Valid() && searched && PickedFor(old(Gathered()), count, orders, Gathered())
      ensures forall i :: 0 <= i < |miners| ==> miners[i] == asks[i].miner && OfferedIn(old(candidates), asks[i])
    {
      var picked, attempt := Pick(terms, candidates, orders, budget, count);
      candidates := orders(attempt);
      TakeOffers(picked);
      assert miners == MinersOf(asks);
      searched := true;
      screen := Confirm;
      assert PickedAt(old(Gathered()), count, orders, attempt, Gathered());
    }

    method TakeOffers(picked: seq<Ask>)
      requires miners == [] && asks == []
      modifies this`miners, this`asks, this`offers
      ensures Aligned() && asks == picked && forall i :: 0 <= i < |miners| ==> miners[i] == asks[i].miner
    {
      offers := [];
      for i := 0 to |picked|
        invariant Aligned() && asks == picked[..i] && forall j :: 0 <= j < i ==> miners[j] == asks[j].miner
      {
        miners := miners + [picked[i].miner];
        asks := asks + [picked[i]];
        offers := offers + [(picked[i].miner, picked[i])];
      }
      assert picked[..|picked|] == picked;
    }

    /** The entered miners are asked one by one; one that does not answer sends the dialogue back to the addresses. */
    method QueryAsks(quote: Miner -> Option<Ask>)
      requires Valid() && screen == Query
      modifies this
      ensures Valid() && Answers(old(Gathered()), quote, Gathered())
      ensures screen == Confirm <==> forall i :: 0 <= i < |miners| ==> quote(miners[i]).Some?
      ensures screen == Confirm ==> !searched && forall i :: 0 <= i < |miners| ==> Some(asks[i]) == quote(miners[i])
    {
      offers := [];
      for i := 0 to |miners|
        invariant Gathered() == old(Gathered()).(asks := asks) && prices == []
        invariant |asks| == i && |offers| == i
        invariant forall j :: 0 <= j < i ==> Some(asks[j]) == quote(miners[j]) && offers[j] == (miners[j], asks[j])
      {
        var a := quote(miners[i]);
        if a.None? {
          screen := Miners;
          return;
        }
        asks := asks + [a.value];
        offers := offers + [(miners[i], a.value)];
      }
      searched := false;
      screen := Confirm;
    }

    /** The confirmation: each ask's price per epoch is fixed, and one total is displayed. */
    method ShowPrices(known: Miner -> bool) returns (ok: bool, total: int)
      requires Valid() && screen == Confirm
      modifies this`prices, this`screen
      ensures (ok ==> Valid()) && screen == (if ok then Accept else Confirm)
      ensures ok <==> forall i :: 0 <= i < |asks| ==> known(asks[i].miner)
      ensures ok && asks != [] ==> 0 <= total - Committed(terms, asks) <= (|asks| - 1) * terms.epochs
      ensures ok ==> total == Displayed(terms, asks)
    {
      var pricePerGib;
      ok, pricePerGib := PriceAsks(known);
      if !ok { return false, 0; }
      if asks != [] { DisplayedTotal(terms, asks); }
      total := EpochPrice(terms, pricePerGib) * terms.epochs;
      screen := Accept;
    }

    method PriceAsks(known: Miner -> bool) returns (ok: bool, pricePerGib: int)
      requires prices == []
      modifies this`prices
      ensures ok <==> forall i :: 0 <= i < |asks| ==> known(asks[i].miner)
      ensures ok ==> Priced() && pricePerGib == SumPrices(terms, asks)
    {
      pricePerGib := 0;
      for i := 0 to |asks|
        invariant |prices| == i && forall j :: 0 <= j < i ==> known(asks[j].miner)
        invariant forall j :: 0 <= j < i ==> PerEpoch(terms, asks[j], prices[j])
        invariant pricePerGib == SumPrices(terms, asks[..i])
      {
        var p := Price(terms, asks[i]);
        assert asks[..i + 1][..i] == asks[..i];
        pricePerGib := pricePerGib + p;
        EpochPriceIs(terms, asks[i], EpochPrice(terms, p));
        prices := prices + [EpochPrice(terms, p)];
        if !known(asks[i].miner) { return false, pricePerGib; }
      }
      assert asks[..|asks|] == asks;
      return true, pricePerGib;
    }

    /** One proposal per miner, in order, until the node refuses one. */
    method Propose(started: nat -> bool, encodes: bool) returns (deals: seq<(Miner, int)>, whole: bool)
      requires Valid() && screen == Execute
      ensures Made(terms, offers, started, encodes, deals, whole)
    {
      deals := [];
      for i := 0 to |miners|
        invariant |deals| == i && (encodes || i == 0)
        invariant forall j :: 0 <= j < i ==> started(j) && deals[j] == (miners[j], prices[j])
      {
        if !started(i) { return deals, false; }
        deals := deals + [(miners[i], prices[i])];
        if !encodes { return deals, false; }
      }
      return deals, true;
    }
  }
}
