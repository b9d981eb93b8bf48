/** The last-traded-price estimate the auto-trader derives from the top of an
    order-book or trade-ticks message (goodtrader.py, get_last_traded_price). */
module MarketPrice {

  /** `round(s / 2.0)` as Python computes it for an integer `s`: the nearest
      integer to s/2, a half-way case going to the even neighbour. */
  function HalfRoundEven(s: int): (r: int)
    ensures -1 <= 2 * r - s <= 1
    ensures 2 * r != s ==> r % 2 == 0
  {
    if s % 2 == 0 then s / 2
    else if (s / 2) % 2 == 0 then s / 2
    else s / 2 + 1
  }

  /** The last non-zero price of a list of levels, or 0 when every level is 0. */
  function LastNonzero(s: seq<int>): (r: int)
    ensures r == 0 <==> forall i :: 0 <= i < |s| ==> s[i] == 0
    ensures r != 0 ==> exists k :: 0 <= k < |s| && s[k] == r && forall j :: k < j < |s| ==> s[j] == 0
  {
    if s == [] then 0
    else if s[|s| - 1] != 0 then s[|s| - 1]
    else
      var init := s[..|s| - 1];
      assert s == init + [0];
      LastNonzero(init)
  }

  /** With both best prices quoted, the rounded midpoint of an uncrossed book or
      the best bid of a crossed one; with no best ask, the last quoted bid level;
      otherwise the last quoted ask level. */
  method LastTradedPrice(askPrices: seq<int>, bidPrices: seq<int>) returns (lastPrice: int)
    requires |askPrices| > 0 && |bidPrices| > 0
    ensures askPrices[0] != 0 && bidPrices[0] != 0 && askPrices[0] > bidPrices[0] ==>
      lastPrice == HalfRoundEven(askPrices[0] + bidPrices[0]) &&
      bidPrices[0] <= lastPrice <= askPrices[0]
    ensures askPrices[0] != 0 && bidPrices[0] != 0 && askPrices[0] <= bidPrices[0] ==>
      lastPrice == bidPrices[0]
    ensures askPrices[0] == 0 ==> lastPrice == LastNonzero(bidPrices)
    ensures askPrices[0] != 0 && bidPrices[0] == 0 ==> lastPrice == LastNonzero(askPrices)
  {
    lastPrice := 0;
    if askPrices[0] != 0 && bidPrices[0] != 0 {
      if askPrices[0] > bidPrices[0] {
        lastPrice := HalfRoundEven(askPrices[0] + bidPrices[0]);
      } else {
        lastPrice := bidPrices[0];
      }
    } else {
      if askPrices[0] == 0 {
        for i := 0 to |bidPrices|
          invariant lastPrice == LastNonzero(bidPrices[..i])
        {
          assert bidPrices[..i + 1][..i] == bidPrices[..i];
          lastPrice := if bidPrices[i] != 0 then bidPrices[i] else lastPrice;
        }
        assert bidPrices[..|bidPrices|] == bidPrices;
      } else {
        for i := 0 to |askPrices|
          invariant lastPrice == LastNonzero(askPrices[..i])
        {
          assert askPrices[..i + 1][..i] == askPrices[..i];
          lastPrice := if askPrices[i] != 0 then askPrices[i] else lastPrice;
        }
        assert askPrices[..|askPrices|] == askPrices;
      }
    }
  }
}
