/** Interactive deal making: how asks are priced and picked within a budget, and what is finally proposed. */
module DealPricing {
  import opened Prelude

  const GIB: int := 0x4000_0000

  type Miner = nat

  datatype Ask = Ask(miner: Miner, price: int, verifiedPrice: int, minPiece: nat, maxPiece: nat)

  datatype Queried = Queried(ask: Ask, ping: int)

  /** What the prices of a deal depend on. */
  datatype Terms = Terms(pieceSize: nat, epochs: nat, verified: bool)

  function Price(terms: Terms, ask: Ask): int {
    if terms.verified then ask.verifiedPrice else ask.price
  }

  function EpochPrice(terms: Terms, pricePerGib: int): int {
    pricePerGib * terms.pieceSize / GIB
  }

  /** What one deal commits to. */
  function Cost(terms: Terms, ask: Ask): int {
    EpochPrice(terms, Price(terms, ask)) * terms.epochs
  }

  /** What a deal on an ask costs per epoch: the ask's price for this kind of deal, for the piece's size in GiB, rounded down. */
  ghost predicate PerEpoch(terms: Terms, ask: Ask, amount: int) {
    amount * 0x4000_0000 <= (if terms.verified then ask.verifiedPrice else ask.price) * terms.pieceSize < (amount + 1) * 0x4000_0000
  }

  /** The computed price is that amount, the only one. */
  lemma EpochPriceIs(terms: Terms, ask: Ask, amount: int)
    ensures PerEpoch(terms, ask, amount) <==> amount == EpochPrice(terms, Price(terms, ask))
  {
  }

  /** What a deal on an ask costs for all its epochs. */
  ghost predicate Costs(terms: Terms, ask: Ask, cost: int) {
    exists amount :: PerEpoch(terms, ask, amount) && cost == amount * terms.epochs
  }

  lemma CostIs(terms: Terms, ask: Ask, cost: int)
    ensures Costs(terms, ask, cost) <==> cost == Cost(terms, ask)
  {
    var amount := EpochPrice(terms, Price(terms, ask));
    EpochPriceIs(terms, ask, amount);
    forall other | PerEpoch(terms, ask, other) ensures other == amount { EpochPriceIs(terms, ask, other); }
  }

  // Totals -------------------------------------------------------------------------------------------------------

  function SumPrices(terms: Terms, asks: seq<Ask>): int {
    if asks == [] then 0 else SumPrices(terms, asks[..|asks| - 1]) + Price(terms, asks[|asks| - 1])
  }

  function Committed(terms: Terms, asks: seq<Ask>): int {
    if asks == [] then 0 else Committed(terms, asks[..|asks| - 1]) + Cost(terms, asks[|asks| - 1])
  }

  /** The total that is displayed: priced once for the sum of the prices per GiB. */
  function Displayed(terms: Terms, asks: seq<Ask>): int {
    EpochPrice(terms, SumPrices(terms, asks)) * terms.epochs
  }

  ghost function EpochSum(terms: Terms, asks: seq<Ask>): int {
    if asks == [] then 0 else EpochSum(terms, asks[..|asks| - 1]) + EpochPrice(terms, Price(terms, asks[|asks| - 1]))
  }

  lemma FloorSplit(a: int, b: int)
    ensures a / GIB + b / GIB <= (a + b) / GIB <= a / GIB + b / GIB + 1
  {
  }

  lemma EpochPriceSplit(terms: Terms, p: int, q: int)
    ensures EpochPrice(terms, p) + EpochPrice(terms, q) <= EpochPrice(terms, p + q) <= EpochPrice(terms, p) + EpochPrice(terms, q) + 1
  {
    assert (p + q) * terms.pieceSize == p * terms.pieceSize + q * terms.pieceSize;
    FloorSplit(p * terms.pieceSize, q * terms.pieceSize);
  }

  lemma {:induction false} EpochSumBounds(terms: Terms, asks: seq<Ask>)
    requires |asks| > 0
    ensures EpochSum(terms, asks) <= EpochPrice(terms, SumPrices(terms, asks)) <= EpochSum(terms, asks) + |asks| - 1
    decreases |asks|
  {
    var rest := asks[..|asks| - 1];
    if rest == [] {
      assert SumPrices(terms, asks) == Price(terms, asks[0]);
    } else {
      EpochSumBounds(terms, rest);
      EpochPriceSplit(terms, SumPrices(terms, rest), Price(terms, asks[|asks| - 1]));
    }
  }

  lemma {:induction false} CommittedIsEpochSum(terms: Terms, asks: seq<Ask>)
    ensures Committed(terms, asks) == EpochSum(terms, asks) * terms.epochs
    decreases |asks|
  {
    if asks != [] {
      var rest, e := asks[..|asks| - 1], EpochPrice(terms, Price(terms, asks[|asks| - 1]));
      CommittedIsEpochSum(terms, rest);
      assert (EpochSum(terms, rest) + e) * terms.epochs == EpochSum(terms, rest) * terms.epochs + e * terms.epochs;
    }
  }

  ghost function Sum(amounts: seq<int>): int {
    if amounts == [] then 0 else Sum(amounts[..|amounts| - 1]) + amounts[|amounts| - 1]
  }

  /** The committed total is what the deals cost, from the asks' own prices. */
  lemma {:induction false} CommittedIsSum(terms: Terms, asks: seq<Ask>, costs: seq<int>)
    requires |costs| == |asks| && forall i :: 0 <= i < |asks| ==> Costs(terms, asks[i], costs[i])
    ensures Committed(terms, asks) == Sum(costs)
    decreases |asks|
  {
    if asks != [] {
      CommittedIsSum(terms, asks[..|asks| - 1], costs[..|asks| - 1]);
      CostIs(terms, asks[|asks| - 1], costs[|asks| - 1]);
    }
  }

  lemma Scaled(a: int, b: int, n: nat, epochs: nat)
    requires a <= b <= a + n
    ensures 0 <= b * epochs - a * epochs <= n * epochs
  {
    assert b * epochs - a * epochs == (b - a) * epochs;
    assert (n - (b - a)) * epochs >= 0;
    assert (n - (b - a)) * epochs == n * epochs - (b - a) * epochs;
  }

  /** The displayed total is never below what is committed to, and above it by less than one unit per deal and epoch. */
  lemma DisplayedTotal(terms: Terms, asks: seq<Ask>)
    requires |asks| > 0
    ensures 0 <= Displayed(terms, asks) - Committed(terms, asks) <= (|asks| - 1) * terms.epochs
  {
    EpochSumBounds(terms, asks);
    CommittedIsEpochSum(terms, asks);
    Scaled(EpochSum(terms, asks), EpochPrice(terms, SumPrices(terms, asks)), |asks| - 1, terms.epochs);
  }

  /** The displayed total from the asks' own prices: their sum for the piece's size in GiB, rounded down, for all epochs. */
  lemma {:induction false} DisplayedIs(terms: Terms, asks: seq<Ask>, prices: seq<int>)
    requires |prices| == |asks|
    requires forall i :: 0 <= i < |asks| ==> prices[i] == if terms.verified then asks[i].verifiedPrice else asks[i].price
    ensures exists amount ::
      && amount * 0x4000_0000 <= Sum(prices) * terms.pieceSize < (amount + 1) * 0x4000_0000
      && Displayed(terms, asks) == amount * terms.epochs
  {
    SumPricesIs(terms, asks, prices);
    var amount := EpochPrice(terms, Sum(prices));
    assert amount * 0x4000_0000 <= Sum(prices) * terms.pieceSize < (amount + 1) * 0x4000_0000;
  }

  lemma {:induction false} SumPricesIs(terms: Terms, asks: seq<Ask>, prices: seq<int>)
    requires |prices| == |asks|
    requires forall i :: 0 <= i < |asks| ==> prices[i] == if terms.verified then asks[i].verifiedPrice else asks[i].price
    ensures SumPrices(terms, asks) == Sum(prices)
    decreases |asks|
  {
    if asks != [] { SumPricesIs(terms, asks[..|asks| - 1], prices[..|asks| - 1]); }
  }

  // Picking ------------------------------------------------------------------------------------------------------

  /** One attempt: asks are taken in order as far as the remaining budget allows, until the wanted number. */
  function Fill(terms: Terms, order: seq<Queried>, remaining: int, room: int): seq<Ask> {
    if order == [] then []
    else if Cost(terms, order[0].ask) > remaining then Fill(terms, order[1..], remaining, room)
    else [order[0].ask] + if room == 1 then [] else Fill(terms, order[1..], remaining - Cost(terms, order[0].ask), room - 1)
  }

  lemma {:induction false} CommittedCons(terms: Terms, a: Ask, asks: seq<Ask>)
    ensures Committed(terms, [a] + asks) == Cost(terms, a) + Committed(terms, asks)
    decreases |asks|
  {
    if asks == [] {
      assert [a] + asks == [a];
      assert Committed(terms, [a]) == Committed(terms, []) + Cost(terms, a);
    } else {
      assert ([a] + asks)[..|asks|] == [a] + asks[..|asks| - 1];
      CommittedCons(terms, a, asks[..|asks| - 1]);
    }
  }

  /** An attempt never exceeds the budget, nor the wanted number when there is one. */
  lemma {:induction false} FillFits(terms: Terms, order: seq<Queried>, remaining: int, room: int)
    ensures Committed(terms, Fill(terms, order, remaining, room)) <= if remaining >= 0 then remaining else 0
    ensures room >= 1 ==> |Fill(terms, order, remaining, room)| <= room
    decreases |order|
  {
    if order != [] {
      var a := order[0].ask;
      if Cost(terms, a) > remaining {
        FillFits(terms, order[1..], remaining, room);
      } else {
        FillFits(terms, order[1..], remaining - Cost(terms, a), room - 1);
        CommittedCons(terms, a, if room == 1 then [] else Fill(terms, order[1..], remaining - Cost(terms, a), room - 1));
      }
    }
  }

  /** How many of the asks at or after a position are left out, and that none of them would still fit. */
  ghost predicate NoneFits(terms: Terms, order: seq<Queried>, picked: seq<Ask>, left: int) {
    forall a :: multiset(Asks(order))[a] > multiset(picked)[a] ==> Cost(terms, a) > left
  }

  function Asks(order: seq<Queried>): seq<Ask> {
    seq(|order|, i requires 0 <= i < |order| => order[i].ask)
  }

  lemma AsksCons(order: seq<Queried>)
    requires order != []
    ensures multiset(Asks(order)) == multiset{order[0].ask} + multiset(Asks(order[1..]))
  {
    assert Asks(order) == [order[0].ask] + Asks(order[1..]);
  }

  /** With prices that are not negative, an attempt that found fewer than wanted left out only asks that do not fit. */
  lemma {:induction false} FillIsMaximal(terms: Terms, order: seq<Queried>, remaining: int, room: int)
    requires AllPaid(terms, order) && (room < 1 || |Fill(terms, order, remaining, room)| < room)
    ensures Maximal(terms, order, Fill(terms, order, remaining, room), remaining)
    decreases |order|
  {
    if order != [] {
      var a := order[0].ask;
      if Cost(terms, a) > remaining {
        FillIsMaximal(terms, order[1..], remaining, room);
        MaximalSkip(terms, order, Fill(terms, order[1..], remaining, room), remaining);
      } else {
        FillIsMaximal(terms, order[1..], remaining - Cost(terms, a), room - 1);
        MaximalTake(terms, order, Fill(terms, order[1..], remaining - Cost(terms, a), room - 1), remaining);
      }
    }
  }

  ghost predicate AllPaid(terms: Terms, order: seq<Queried>) {
    forall i :: 0 <= i < |order| ==> Cost(terms, order[i].ask) >= 0
  }

  /** No ask that was left out costs at most what is left. */
  ghost predicate Maximal(terms: Terms, order: seq<Queried>, picked: seq<Ask>, budget: int) {
    Committed(terms, picked) >= 0 && NoneFits(terms, order, picked, budget - Committed(terms, picked))
  }

  lemma MaximalSkip(terms: Terms, order: seq<Queried>, picked: seq<Ask>, budget: int)
    requires order != [] && Maximal(terms, order[1..], picked, budget) && Cost(terms, order[0].ask) > budget
    ensures Maximal(terms, order, picked, budget)
  {
    NoneFitsSkip(terms, order, picked, budget - Committed(terms, picked));
  }

  lemma MaximalTake(terms: Terms, order: seq<Queried>, picked: seq<Ask>, budget: int)
    requires order != [] && Cost(terms, order[0].ask) >= 0 && Maximal(terms, order[1..], picked, budget - Cost(terms, order[0].ask))
    ensures Maximal(terms, order, [order[0].ask] + picked, budget)
  {
    CommittedCons(terms, order[0].ask, picked);
    NoneFitsCons(terms, order, picked, budget - Cost(terms, order[0].ask) - Committed(terms, picked));
  }

  lemma NoneFitsCons(terms: Terms, order: seq<Queried>, picked: seq<Ask>, left: int)
    requires order != [] && NoneFits(terms, order[1..], picked, left)
    ensures NoneFits(terms, order, [order[0].ask] + picked, left)
  {
    AsksCons(order);
    assert multiset([order[0].ask] + picked) == multiset{order[0].ask} + multiset(picked);
  }

  lemma NoneFitsSkip(terms: Terms, order: seq<Queried>, picked: seq<Ask>, left: int)
    requires order != [] && NoneFits(terms, order[1..], picked, left) && Cost(terms, order[0].ask) > left
    ensures NoneFits(terms, order, picked, left)
  {
    AsksCons(order);
  }

  ghost predicate OfferedIn(asks: seq<Queried>, a: Ask) {
    exists q :: q in asks && q.ask == a
  }

  lemma {:induction false} FillFrom(terms: Terms, order: seq<Queried>, remaining: int, room: int, a: Ask)
    requires a in Fill(terms, order, remaining, room)
    ensures exists j :: 0 <= j < |order| && order[j].ask == a
    decreases |order|
  {
    if order[0].ask != a {
      var rest := order[1..];
      if Cost(terms, order[0].ask) > remaining { FillFrom(terms, rest, remaining, room, a); }
      else { FillFrom(terms, rest, remaining - Cost(terms, order[0].ask), room - 1, a); }
      var j :| 0 <= j < |rest| && rest[j].ask == a;
      assert order[j + 1].ask == a;
    }
  }

  method FillOnce(terms: Terms, order: seq<Queried>, budget: int, count: int) returns (picked: seq<Ask>)
    ensures picked == Fill(terms, order, budget, count)
  {
    var remaining := budget;
    picked := [];
    for i := 0 to |order|
      invariant Fill(terms, order, budget, count) == picked + Fill(terms, order[i..], remaining, count - |picked|)
      invariant |picked| > 0 ==> |picked| != count
    {
      var price := Cost(terms, order[i].ask);
      assert order[i..][0] == order[i] && order[i..][1..] == order[i + 1..];
      if price > remaining { continue; }
      picked := picked + [order[i].ask];
      remaining := remaining - price;
      if |picked| == count { return; }
    }
  }

  /**
    The pick loop: up to 64 attempts, each over the candidates in a random order, ending with the first one that
    finds the wanted number. What it picks never exceeds a budget that is not negative.
   */
  method Pick(terms: Terms, candidates: seq<Queried>, orders: nat -> seq<Queried>, budget: int, count: int)
    returns (picked: seq<Ask>, attempt: nat)
    requires forall i: nat :: i < 64 ==> multiset(orders(i)) == multiset(candidates)
    ensures attempt < 64 && picked == Fill(terms, orders(attempt), budget, count)
    ensures (|picked| == count && count > 0) || attempt == 63
    ensures forall i: nat :: i < attempt ==> |Fill(terms, orders(i), budget, count)| != count || count == 0
    ensures budget >= 0 ==> Committed(terms, picked) <= budget
    ensures forall a :: a in picked ==> OfferedIn(candidates, a)
  {
    picked, attempt := [], 63;
    for i := 0 to 64
      invariant i > 0 ==> picked == Fill(terms, orders(i - 1), budget, count)
      invariant forall j: nat :: j < i ==> |Fill(terms, orders(j), budget, count)| != count || count == 0
    {
      picked := FillOnce(terms, orders(i), budget, count);
      if |picked| == count && count > 0 {
        attempt := i;
        break;
      }
    }
    FillFits(terms, orders(attempt), budget, count);
    forall a | a in picked ensures OfferedIn(candidates, a) {
      FillFrom(terms, orders(attempt), budget, count, a);
      var j :| 0 <= j < |orders(attempt)| && orders(attempt)[j].ask == a;
      assert orders(attempt)[j] in multiset(candidates);
    }
  }
}
