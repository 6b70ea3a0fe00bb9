/** The protocol's price floor, raised by every new hundred-dollar band the reference price reaches. */
module Price {
  import opened Prelude

  const INITIAL_PRICE_USD_CENTS: u64 := 100
  const PRICE_BAND_USD_CENTS: u64 := 10_000
  const PRICE_FLOOR_STEP_USD_CENTS: u64 := 2_000

  datatype Policy = Policy(floor: u64, highestBand: u64)

  const INITIAL: Policy := Policy(INITIAL_PRICE_USD_CENTS, 0)

  function Observe(p: Policy, price: u64): Policy {
    var band := price / PRICE_BAND_USD_CENTS;
    if price < INITIAL_PRICE_USD_CENTS || band <= p.highestBand then p
    else Policy(SatAdd64(p.floor, SatMul64(band - p.highestBand, PRICE_FLOOR_STEP_USD_CENTS)), band)
  }

  function ObserveAll(prices: seq<u64>): Policy {
    if prices == [] then INITIAL else Observe(ObserveAll(prices[..|prices| - 1]), prices[|prices| - 1])
  }

  function Highest(prices: seq<u64>): u64 {
    if prices == [] then 0 else Max(Highest(prices[..|prices| - 1]), prices[|prices| - 1])
  }

  /** The floor follows the highest price ever observed and nothing else: a dollar, and twenty more per band of a hundred
      dollars reached. It never saturates. */
  lemma {:induction false} FloorFollowsHighest(prices: seq<u64>)
    ensures var p, band := ObserveAll(prices), Highest(prices) / PRICE_BAND_USD_CENTS;
            p.highestBand == band
            && p.floor == INITIAL_PRICE_USD_CENTS + PRICE_FLOOR_STEP_USD_CENTS * band
  {
    if prices != [] {
      FloorFollowsHighest(prices[..|prices| - 1]);
    }
  }

  class OnecoinPricePolicy {
    var floorUsdCents: u64
    var highestBandReached: u64

    function View(): Policy
      reads this
    {
      Policy(floorUsdCents, highestBandReached)
    }

    constructor ()
      ensures View() == INITIAL
    {
      floorUsdCents, highestBandReached := INITIAL_PRICE_USD_CENTS, 0;
    }

    method ObserveReferencePrice(price: u64)
      modifies this
      ensures View() == Observe(old(View()), price)
    {
      if price < INITIAL_PRICE_USD_CENTS {
        return;
      }
      var band := price / PRICE_BAND_USD_CENTS;
      if band <= highestBandReached {
        return;
      }
      var crossed := band - highestBandReached;
      highestBandReached := band;
      floorUsdCents := SatAdd64(floorUsdCents, SatMul64(crossed, PRICE_FLOOR_STEP_USD_CENTS));
    }
  }
}
