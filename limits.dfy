/** Trading limits of the auto-trader and the volume clamp applied when a new
    order is admitted into the local order book (goodtrader.py, add_bid / add_ask). */
module Limits {

  /** Maximum number of resting orders. */
  const ORDER_LIMIT := 10
  /** Maximum total volume of resting orders, both sides together. */
  const VOLUME_LIMIT := 200
  /** Maximum absolute position. */
  const POSITION_LIMIT := 1000

  function Abs(x: int): (r: int)
    ensures r >= 0 && (r == x || r == -x)
  {
    if x < 0 then -x else x
  }

  function Min(a: int, b: int): (r: int)
    ensures r <= a && r <= b && (r == a || r == b)
  {
    if a < b then a else b
  }

  /** The volume that add_bid lets through for a requested `vol`, given the book's
      `volume`, `position` and resting bid volume `volBids`; a result <= 0 means
      the bid is rejected. The trigger tests `position`, but the clamp subtracts
      `Abs(position)`, as add_bid does. */
  function ClampBid(volume: int, position: int, volBids: int, vol: int): (v: int)
    // never more than was asked for
    ensures v <= vol
    // an admitted volume respects both caps
    ensures v > 0 ==> volume + v <= VOLUME_LIMIT && position + volBids + v <= POSITION_LIMIT
    // a request that fits both caps passes through untouched
    ensures volume + vol <= VOLUME_LIMIT && position + volBids + vol <= POSITION_LIMIT ==> v == vol
    // when flat or long, the bid gets the largest volume within the request and both caps
    ensures position >= 0 ==> v == Min(vol, Min(VOLUME_LIMIT - volume, POSITION_LIMIT - position - volBids))
  {
    if vol + volume > VOLUME_LIMIT || position + volBids + vol > POSITION_LIMIT then
      Min(VOLUME_LIMIT - volume, POSITION_LIMIT - Abs(position) - volBids)
    else
      vol
  }

  /** The volume that add_ask lets through for a requested `vol`; both the trigger
      and the clamp use `Abs(position)`. A result <= 0 means rejection. */
  function ClampAsk(volume: int, position: int, volAsks: int, vol: int): (v: int)
    ensures v <= vol
    ensures v > 0 ==> volume + v <= VOLUME_LIMIT && Abs(position) + volAsks + v <= POSITION_LIMIT
    // the ask always gets the largest volume within the request and both caps
    ensures v == Min(vol, Min(VOLUME_LIMIT - volume, POSITION_LIMIT - Abs(position) - volAsks))
  {
    if vol + volume > VOLUME_LIMIT || Abs(position) + volAsks + vol > POSITION_LIMIT then
      Min(VOLUME_LIMIT - volume, POSITION_LIMIT - Abs(position) - volAsks)
    else
      vol
  }

  /** With a short position, asking for more can admit less: with 950 lots short and
      nothing resting, a bid for 150 lots is admitted whole, while a bid for 250 lots
      trips the volume cap and is clamped by the absolute position to 50 lots. */
  lemma BidClampNotMonotone()
    ensures ClampBid(0, -950, 0, 150) == 150
    ensures ClampBid(0, -950, 0, 250) == 50
  {
  }
}
