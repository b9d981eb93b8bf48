/** The trader's local mirror of its own resting orders (goodtrader.py, class
    OrderBook): two price-sorted lists of resting orders and six counters that the
    admission, fill, cancellation and eviction operations keep in step. */
module Book {
  import opened Limits
  import opened Orders

  /** The `[accepted, vol]` pair returned by add_bid / add_ask. Every rejection is
      `Admission(false, 0)`: add_bid and add_ask give no reason. */
  datatype Admission = Admission(accepted: bool, vol: int)

  class OrderBook {
    /** Net filled quantity. */
    var position: int
    /** Position if every resting order were filled. */
    var positionAfterOrders: int
    /** Resting volume, both sides. */
    var volume: int
    var numOrders: int
    /** Resting orders, each list ascending by price. */
    var asks: seq<Order>
    var bids: seq<Order>
    var volAsks: int
    var volBids: int

    /** The bookkeeping identities every operation keeps, whatever its arguments. */
    ghost predicate Valid()
      reads this
    {
      numOrders == |bids| + |asks| && numOrders <= ORDER_LIMIT &&
      volBids == SumVol(bids) && volAsks == SumVol(asks) &&
      volume == volBids + volAsks &&
      positionAfterOrders == position + volBids - volAsks &&
      Sorted(bids) && Sorted(asks)
    }

    /** The risk limits: every resting order has volume left, the resting volume is
        under its cap, and the position stays inside the cap even if every resting
        order on one side were filled. */
    ghost predicate WithinLimits()
      reads this
    {
      Valid() && AllPositive(bids) && AllPositive(asks) &&
      volume <= VOLUME_LIMIT &&
      position + volBids <= POSITION_LIMIT &&
      position - volAsks >= -POSITION_LIMIT
    }

    /** A fill the exchange can report: positive and at most the remaining volume of
        the order amend_order will find for `orderId` (any fill of an unknown id). */
    ghost predicate LegalFill(vol: int, orderId: int)
      reads this
    {
      var kb := IndexOfId(bids, orderId);
      var ka := IndexOfId(asks, orderId);
      if kb < |bids| then 0 < vol <= bids[kb].vol
      else ka < |asks| ==> 0 < vol <= asks[ka].vol
    }

    /** Within the limits, the resting volume is non-negative, and both the position
        and the position after all resting orders fill are bounded by the position
        limit in both directions. */
    lemma LimitsBound()
      requires WithinLimits()
      ensures 0 <= volume <= VOLUME_LIMIT
      ensures 0 <= volBids && 0 <= volAsks
      ensures -POSITION_LIMIT <= position <= POSITION_LIMIT
      ensures -POSITION_LIMIT <= positionAfterOrders <= POSITION_LIMIT
    {
      SumVolLowerBound(bids);
      SumVolLowerBound(asks);
    }

    constructor ()
      ensures WithinLimits()
      ensures bids == [] && asks == []
      ensures position == 0 && positionAfterOrders == 0 && volume == 0 && numOrders == 0
      ensures volBids == 0 && volAsks == 0
    {
      position := 0;
      positionAfterOrders := 0;
      volume := 0;
      numOrders := 0;
      asks := [];
      bids := [];
      volAsks := 0;
      volBids := 0;
    }

    /** add_bid: admit a bid of at most `vol` lots at `price`, clamped to the volume
        and position limits, and insert it ahead of the first bid priced at least
        `price`. Returns the volume actually admitted. */
    method AddBid(price: int, vol: int, orderId: int) returns (res: Admission)
      requires Valid()
      modifies this
      ensures Valid()
      ensures old(WithinLimits()) ==> WithinLimits()
      ensures res.accepted <==>
        old(numOrders) < ORDER_LIMIT && ClampBid(old(volume), old(position), old(volBids), vol) > 0
      ensures !res.accepted ==> res.vol == 0 && unchanged(this)
      ensures res.accepted ==>
        res.vol == ClampBid(old(volume), old(position), old(volBids), vol) &&
        0 < res.vol <= vol && volume <= VOLUME_LIMIT && position + volBids <= POSITION_LIMIT
      ensures res.accepted ==>
        bids == InsertAt(old(bids), InsertionPoint(old(bids), price), Order(price, res.vol, orderId)) &&
        asks == old(asks) && position == old(position) &&
        positionAfterOrders == old(positionAfterOrders) + res.vol &&
        volume == old(volume) + res.vol && numOrders == old(numOrders) + 1 &&
        volBids == old(volBids) + res.vol && volAsks == old(volAsks)
    {
      if numOrders < ORDER_LIMIT {
        var v := ClampBid(volume, position, volBids, vol);
        if v <= 0 {
          return Admission(false, 0);
        }
        var order := Order(price, v, orderId);
        var k := FindInsertionPoint(bids, price);
        InsertAtKeeps(bids, order);
        SumVolInsertAt(bids, k, order);
        bids := InsertAt(bids, k, order);
        positionAfterOrders := positionAfterOrders + v;
        volume := volume + v;
        numOrders := numOrders + 1;
        volBids := volBids + v;
        return Admission(true, v);
      }
      return Admission(false, 0);
    }

    /** add_ask: the mirror image of AddBid on the ask side; its position test uses
        the absolute position. */
    method AddAsk(price: int, vol: int, orderId: int) returns (res: Admission)
      requires Valid()
      modifies this
      ensures Valid()
      ensures old(WithinLimits()) ==> WithinLimits()
      ensures res.accepted <==>
        old(numOrders) < ORDER_LIMIT && ClampAsk(old(volume), old(position), old(volAsks), vol) > 0
      ensures !res.accepted ==> res.vol == 0 && unchanged(this)
      ensures res.accepted ==>
        res.vol == ClampAsk(old(volume), old(position), old(volAsks), vol) &&
        0 < res.vol <= vol && volume <= VOLUME_LIMIT && Abs(position) + volAsks <= POSITION_LIMIT
      ensures res.accepted ==>
        asks == InsertAt(old(asks), InsertionPoint(old(asks), price), Order(price, res.vol, orderId)) &&
        bids == old(bids) && position == old(position) &&
        positionAfterOrders == old(positionAfterOrders) - res.vol &&
        volume == old(volume) + res.vol && numOrders == old(numOrders) + 1 &&
        volAsks == old(volAsks) + res.vol && volBids == old(volBids)
    {
      if numOrders < ORDER_LIMIT {
        var v := ClampAsk(volume, position, volAsks, vol);
        if v <= 0 {
          return Admission(false, 0);
        }
        var order := Order(price, v, orderId);
        var k := FindInsertionPoint(asks, price);
        InsertAtKeeps(asks, order);
        SumVolInsertAt(asks, k, order);
        asks := InsertAt(asks, k, order);
        positionAfterOrders := positionAfterOrders - v;
        volume := volume + v;
        numOrders := numOrders + 1;
        volAsks := volAsks + v;
        return Admission(true, v);
      }
      return Admission(false, 0);
    }

    /** amend_order: apply a fill of `vol` lots to the first bid, or failing that the
        first ask, carrying `orderId`. The order leaves the book exactly when its
        volume reaches zero; an unknown id changes nothing. */
    method AmendOrder(vol: int, orderId: int)
      requires Valid()
      modifies this
      ensures Valid()
      ensures old(WithinLimits()) && old(LegalFill(vol, orderId)) ==> WithinLimits()
      ensures positionAfterOrders == old(positionAfterOrders)
      ensures
        var kb := IndexOfId(old(bids), orderId);
        kb < |old(bids)| ==>
          position == old(position) + vol && volume == old(volume) - vol &&
          volBids == old(volBids) - vol && volAsks == old(volAsks) && asks == old(asks) &&
          if old(bids)[kb].vol - vol == 0 then
            bids == RemoveAt(old(bids), kb) && numOrders == old(numOrders) - 1
          else
            bids == WithVol(old(bids), kb, old(bids)[kb].vol - vol) && numOrders == old(numOrders)
      ensures
        var kb := IndexOfId(old(bids), orderId);
        var ka := IndexOfId(old(asks), orderId);
        kb == |old(bids)| && ka < |old(asks)| ==>
          position == old(position) - vol && volume == old(volume) - vol &&
          volAsks == old(volAsks) - vol && volBids == old(volBids) && bids == old(bids) &&
          if old(asks)[ka].vol - vol == 0 then
            asks == RemoveAt(old(asks), ka) && numOrders == old(numOrders) - 1
          else
            asks == WithVol(old(asks), ka, old(asks)[ka].vol - vol) && numOrders == old(numOrders)
      ensures
        IndexOfId(old(bids), orderId) == |old(bids)| && IndexOfId(old(asks), orderId) == |old(asks)| ==>
          unchanged(this)
    {
      var i := FindOrder(bids, orderId);
      if i < |bids| {
        FillBidAt(i, vol);
        return;
      }

      i := FindOrder(asks, orderId);
      if i < |asks| {
        FillAskAt(i, vol);
        return;
      }
    }

    /** The bid branch of amend_order, once the bid at index `i` has matched. */
    method FillBidAt(i: nat, vol: int)
      requires Valid() && i < |bids|
      modifies this
      ensures Valid()
      ensures old(WithinLimits()) && 0 < vol <= old(bids)[i].vol ==> WithinLimits()
      ensures position == old(position) + vol && volume == old(volume) - vol
      ensures volBids == old(volBids) - vol && volAsks == old(volAsks) && asks == old(asks)
      ensures positionAfterOrders == old(positionAfterOrders)
      ensures
        if old(bids)[i].vol - vol == 0 then
          bids == RemoveAt(old(bids), i) && numOrders == old(numOrders) - 1
        else
          bids == WithVol(old(bids), i, old(bids)[i].vol - vol) && numOrders == old(numOrders)
    {
      var bid := bids[i];
      var rest := bid.vol - vol;
      RemoveAtKeeps(bids, i);
      SumVolRemoveAt(bids, i);
      WithVolKeeps(bids, i, rest);
      SumVolWithVol(bids, i, rest);
      volume := volume - vol;
      position := position + vol;
      volBids := volBids - vol;
      if rest == 0 {
        bids := RemoveAt(bids, i);
        numOrders := numOrders - 1;
      } else {
        bids := WithVol(bids, i, rest);
      }
    }

    /** The ask branch of amend_order, once the ask at index `i` has matched. */
    method FillAskAt(i: nat, vol: int)
      requires Valid() && i < |asks|
      modifies this
      ensures Valid()
      ensures old(WithinLimits()) && 0 < vol <= old(asks)[i].vol ==> WithinLimits()
      ensures position == old(position) - vol && volume == old(volume) - vol
      ensures volAsks == old(volAsks) - vol && volBids == old(volBids) && bids == old(bids)
      ensures positionAfterOrders == old(positionAfterOrders)
      ensures
        if old(asks)[i].vol - vol == 0 then
          asks == RemoveAt(old(asks), i) && numOrders == old(numOrders) - 1
        else
          asks == WithVol(old(asks), i, old(asks)[i].vol - vol) && numOrders == old(numOrders)
    {
      var ask := asks[i];
      var rest := ask.vol - vol;
      RemoveAtKeeps(asks, i);
      SumVolRemoveAt(asks, i);
      WithVolKeeps(asks, i, rest);
      SumVolWithVol(asks, i, rest);
      volume := volume - vol;
      position := position - vol;
      volAsks := volAsks - vol;
      if rest == 0 {
        asks := RemoveAt(asks, i);
        numOrders := numOrders - 1;
      } else {
        asks := WithVol(asks, i, rest);
      }
    }

    /** remove_order: cancel the first bid, or failing that the first ask, carrying
        `orderId`, releasing its remaining volume; an unknown id changes nothing. */
    method RemoveOrder(orderId: int)
      requires Valid()
      modifies this
      ensures Valid()
      ensures old(WithinLimits()) ==> WithinLimits()
      ensures position == old(position)
      ensures
        var kb := IndexOfId(old(bids), orderId);
        kb < |old(bids)| ==>
          bids == RemoveAt(old(bids), kb) && asks == old(asks) &&
          numOrders == old(numOrders) - 1 &&
          positionAfterOrders == old(positionAfterOrders) - old(bids)[kb].vol &&
          volume == old(volume) - old(bids)[kb].vol &&
          volBids == old(volBids) - old(bids)[kb].vol && volAsks == old(volAsks)
      ensures
        var kb := IndexOfId(old(bids), orderId);
        var ka := IndexOfId(old(asks), orderId);
        kb == |old(bids)| && ka < |old(asks)| ==>
          asks == RemoveAt(old(asks), ka) && bids == old(bids) &&
          numOrders == old(numOrders) - 1 &&
          positionAfterOrders == old(positionAfterOrders) + old(asks)[ka].vol &&
          volume == old(volume) - old(asks)[ka].vol &&
          volAsks == old(volAsks) - old(asks)[ka].vol && volBids == old(volBids)
      ensures
        IndexOfId(old(bids), orderId) == |old(bids)| && IndexOfId(old(asks), orderId) == |old(asks)| ==>
          unchanged(this)
    {
      var i := FindOrder(bids, orderId);
      if i < |bids| {
        var bid := bids[i];
        numOrders := numOrders - 1;
        positionAfterOrders := positionAfterOrders - bid.vol;
        volume := volume - bid.vol;
        volBids := volBids - bid.vol;
        RemoveAtKeeps(bids, i);
        SumVolRemoveAt(bids, i);
        bids := RemoveAt(bids, i);
        return;
      }

      i := FindOrder(asks, orderId);
      if i < |asks| {
        var ask := asks[i];
        numOrders := numOrders - 1;
        positionAfterOrders := positionAfterOrders + ask.vol;
        volume := volume - ask.vol;
        volAsks := volAsks - ask.vol;
        RemoveAtKeeps(asks, i);
        SumVolRemoveAt(asks, i);
        asks := RemoveAt(asks, i);
        return;
      }
    }

    /** remove_least_useful_order: evict the lowest bid (for Buy, while there are
        bids) or the highest ask (otherwise; Sell prefers the asks) and return its
        id. On an empty book remove_least_useful_order fails, hence the precondition. */
    method RemoveLeastUsefulOrder(side: Side) returns (orderId: int)
      requires Valid()
      requires |bids| + |asks| > 0
      modifies this
      ensures Valid()
      ensures old(WithinLimits()) ==> WithinLimits()
      ensures position == old(position) && numOrders == old(numOrders) - 1
      ensures
        var fromBids := if side == Buy then old(bids) != [] else old(asks) == [];
        if fromBids then
          var order := old(bids)[0];
          orderId == order.id && bids == old(bids)[1..] && asks == old(asks) &&
          positionAfterOrders == old(positionAfterOrders) - order.vol &&
          volume == old(volume) - order.vol &&
          volBids == old(volBids) - order.vol && volAsks == old(volAsks)
        else
          var order := old(asks)[|old(asks)| - 1];
          orderId == order.id && asks == old(asks)[..|old(asks)| - 1] && bids == old(bids) &&
          positionAfterOrders == old(positionAfterOrders) + order.vol &&
          volume == old(volume) - order.vol &&
          volAsks == old(volAsks) - order.vol && volBids == old(volBids)
    {
      var order: Order;
      if side == Buy {
        if bids != [] {
          PopFront(bids);
          order := PopLowestBid();
        } else {
          PopBack(asks);
          order := PopHighestAsk();
        }
      } else {
        if asks != [] {
          PopBack(asks);
          order := PopHighestAsk();
        } else {
          PopFront(bids);
          order := PopLowestBid();
        }
      }
      volume := volume - order.vol;
      numOrders := numOrders - 1;
      return order.id;
    }

    /** `bids.pop(0)` with the bid-side counters of remove_least_useful_order. */
    method PopLowestBid() returns (order: Order)
      requires bids != []
      modifies this`bids, this`positionAfterOrders, this`volBids
      ensures order == old(bids)[0] && bids == old(bids)[1..]
      ensures positionAfterOrders == old(positionAfterOrders) - order.vol
      ensures volBids == old(volBids) - order.vol
    {
      order := bids[0];
      bids := bids[1..];
      positionAfterOrders := positionAfterOrders - order.vol;
      volBids := volBids - order.vol;
    }

    /** `asks.pop()` with the ask-side counters of remove_least_useful_order. */
    method PopHighestAsk() returns (order: Order)
      requires asks != []
      modifies this`asks, this`positionAfterOrders, this`volAsks
      ensures order == old(asks)[|old(asks)| - 1] && asks == old(asks)[..|old(asks)| - 1]
      ensures positionAfterOrders == old(positionAfterOrders) + order.vol
      ensures volAsks == old(volAsks) - order.vol
    {
      order := asks[|asks| - 1];
      asks := asks[..|asks| - 1];
      positionAfterOrders := positionAfterOrders + order.vol;
      volAsks := volAsks - order.vol;
    }
  }

  /** `list.pop(0)` is RemoveAt at the front. */
  lemma PopFront(s: seq<Order>)
    requires s != []
    ensures s[1..] == RemoveAt(s, 0)
    ensures SumVol(s[1..]) == SumVol(s) - s[0].vol
    ensures Sorted(s) ==> Sorted(s[1..])
    ensures AllPositive(s) ==> AllPositive(s[1..])
  {
  }

  /** `list.pop()` is RemoveAt at the back. */
  lemma PopBack(s: seq<Order>)
    requires s != []
    ensures s[..|s| - 1] == RemoveAt(s, |s| - 1)
    ensures SumVol(s[..|s| - 1]) == SumVol(s) - s[|s| - 1].vol
    ensures Sorted(s) ==> Sorted(s[..|s| - 1])
    ensures AllPositive(s) ==> AllPositive(s[..|s| - 1])
  {
    RemoveAtKeeps(s, |s| - 1);
    SumVolRemoveAt(s, |s| - 1);
  }

  /** An empty book admits a ten-lot bid whole; filling it completely moves the
      position by ten lots and leaves no resting order. */
  method FillScenario()
  {
    var book := new OrderBook();
    var order := Order(100, 10, 1);
    assert ClampBid(0, 0, 0, 10) == 10 && InsertionPoint([], 100) == 0;
    var res := book.AddBid(100, 10, 1);
    assert res == Admission(true, 10);
    assert book.bids == [order] by {
      assert InsertAt([], 0, order) == [order];
    }
    assert book.volume == 10 && book.positionAfterOrders == 10;
    assert IndexOfId(book.bids, 1) == 0 && book.bids[0].vol - 10 == 0;
    book.AmendOrder(10, 1);
    assert book.bids == [] by {
      assert book.bids == RemoveAt([order], 0) == [];
    }
    assert book.numOrders == 0;
    assert book.position == 10 && book.volume == 0 && book.positionAfterOrders == 10;
  }
}
