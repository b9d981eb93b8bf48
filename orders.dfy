/** Resting orders of one side of the local order book (goodtrader.py, class
    OrderBook): the `[price, vol, order_id]` entries, the list operations the book
    applies to them, and the linear searches it runs over them. */
module Orders {

  /** One resting order: the `[price, vol, order_id]` list of goodtrader.py. */
  datatype Order = Order(price: int, vol: int, id: int)

  /** The side argument of remove_least_useful_order. */
  datatype Side = Buy | Sell

  /** Total resting volume of a list of orders. */
  function SumVol(s: seq<Order>): int
  {
    if s == [] then 0 else s[0].vol + SumVol(s[1..])
  }

  /** Ascending by price, as the OrderBook class of goodtrader.py keeps both `bids` and `asks`. */
  predicate Sorted(s: seq<Order>)
  {
    forall i, j :: 0 <= i < j < |s| ==> s[i].price <= s[j].price
  }

  /** Every resting order still has volume left. */
  predicate AllPositive(s: seq<Order>)
  {
    forall i :: 0 <= i < |s| ==> s[i].vol > 0
  }

  /** Where add_bid / add_ask put a new order at `price`: just before the first
      entry whose price is at least `price`, otherwise at the end. */
  function InsertionPoint(s: seq<Order>, price: int): (k: nat)
    ensures k <= |s|
    ensures forall j :: 0 <= j < k ==> s[j].price < price
    ensures k < |s| ==> s[k].price >= price
  {
    if s == [] || s[0].price >= price then 0 else 1 + InsertionPoint(s[1..], price)
  }

  /** Position of the first order carrying `id`, or |s| when there is none. */
  function IndexOfId(s: seq<Order>, id: int): (k: nat)
    ensures k <= |s|
    ensures forall j :: 0 <= j < k ==> s[j].id != id
    ensures k < |s| ==> s[k].id == id
  {
    if s == [] || s[0].id == id then 0 else 1 + IndexOfId(s[1..], id)
  }

  /** `list.insert(k, o)`. */
  function InsertAt(s: seq<Order>, k: nat, o: Order): (r: seq<Order>)
    requires k <= |s|
    ensures |r| == |s| + 1 && r[k] == o
    ensures forall j :: 0 <= j < k ==> r[j] == s[j]
    ensures forall j :: k < j < |r| ==> r[j] == s[j - 1]
    ensures multiset(r) == multiset(s) + multiset{o}
  {
    assert s == s[..k] + s[k..];
    s[..k] + [o] + s[k..]
  }

  /** `list.pop(k)`: the other entries keep their relative order. */
  function RemoveAt(s: seq<Order>, k: nat): (r: seq<Order>)
    requires k < |s|
    ensures |r| == |s| - 1
    ensures forall j :: 0 <= j < k ==> r[j] == s[j]
    ensures forall j :: k <= j < |r| ==> r[j] == s[j + 1]
    ensures multiset(r) + multiset{s[k]} == multiset(s)
  {
    assert s == s[..k] + [s[k]] + s[k + 1..];
    s[..k] + s[k + 1..]
  }

  /** `s[k][1] = v`, the in-place update of one order's volume. */
  function WithVol(s: seq<Order>, k: nat, v: int): (r: seq<Order>)
    requires k < |s|
    ensures |r| == |s| && r[k] == s[k].(vol := v)
    ensures forall j :: 0 <= j < |s| && j != k ==> r[j] == s[j]
  {
    s[k := s[k].(vol := v)]
  }

  /** Inserting at the insertion point keeps a sorted list sorted, and inserting
      an order with volume left keeps every volume positive. */
  lemma InsertAtKeeps(s: seq<Order>, o: Order)
    ensures Sorted(s) ==> Sorted(InsertAt(s, InsertionPoint(s, o.price), o))
    ensures AllPositive(s) && o.vol > 0 ==> AllPositive(InsertAt(s, InsertionPoint(s, o.price), o))
  {
    if Sorted(s) {
      InsertAtSorted(s, o);
    }
    if AllPositive(s) && o.vol > 0 {
      InsertAtPositive(s, o);
    }
  }

  lemma InsertAtSorted(s: seq<Order>, o: Order)
    requires Sorted(s)
    ensures Sorted(InsertAt(s, InsertionPoint(s, o.price), o))
  {
  }

  lemma InsertAtPositive(s: seq<Order>, o: Order)
    requires AllPositive(s) && o.vol > 0
    ensures AllPositive(InsertAt(s, InsertionPoint(s, o.price), o))
  {
  }

  /** Removing an order keeps a sorted list sorted and the other orders positive. */
  lemma RemoveAtKeeps(s: seq<Order>, k: nat)
    requires k < |s|
    ensures Sorted(s) ==> Sorted(RemoveAt(s, k))
    ensures AllPositive(s) ==> AllPositive(RemoveAt(s, k))
  {
  }

  /** A partial fill changes no price, so sortedness survives it. */
  lemma WithVolKeeps(s: seq<Order>, k: nat, v: int)
    requires k < |s|
    ensures Sorted(s) ==> Sorted(WithVol(s, k, v))
    ensures AllPositive(s) && v > 0 ==> AllPositive(WithVol(s, k, v))
  {
  }

  lemma {:induction false} SumVolInsertAt(s: seq<Order>, k: nat, o: Order)
    requires k <= |s|
    ensures SumVol(InsertAt(s, k, o)) == SumVol(s) + o.vol
  {
    if k == 0 {
      assert InsertAt(s, k, o)[1..] == s;
    } else {
      assert InsertAt(s, k, o)[1..] == InsertAt(s[1..], k - 1, o);
      SumVolInsertAt(s[1..], k - 1, o);
    }
  }

  lemma {:induction false} SumVolRemoveAt(s: seq<Order>, k: nat)
    requires k < |s|
    ensures SumVol(RemoveAt(s, k)) == SumVol(s) - s[k].vol
  {
    if k == 0 {
      assert RemoveAt(s, k) == s[1..];
    } else {
      assert RemoveAt(s, k)[1..] == RemoveAt(s[1..], k - 1);
      SumVolRemoveAt(s[1..], k - 1);
    }
  }

  lemma {:induction false} SumVolWithVol(s: seq<Order>, k: nat, v: int)
    requires k < |s|
    ensures SumVol(WithVol(s, k, v)) == SumVol(s) - s[k].vol + v
  {
    if k == 0 {
      assert WithVol(s, k, v)[1..] == s[1..];
    } else {
      assert WithVol(s, k, v)[1..] == WithVol(s[1..], k - 1, v);
      SumVolWithVol(s[1..], k - 1, v);
    }
  }

  /** With positive volumes the total is at least the number of orders. */
  lemma {:induction false} SumVolLowerBound(s: seq<Order>)
    requires AllPositive(s)
    ensures SumVol(s) >= |s|
  {
    if s != [] {
      SumVolLowerBound(s[1..]);
    }
  }

  /** The search loop of add_bid / add_ask. */
  method FindInsertionPoint(s: seq<Order>, price: int) returns (k: nat)
    ensures k == InsertionPoint(s, price)
  {
    k := 0;
    while k < |s|
      invariant k <= |s|
      invariant forall j :: 0 <= j < k ==> s[j].price < price
    {
      if s[k].price >= price {
        return;
      }
      k := k + 1;
    }
  }

  /** The search loop of amend_order / remove_order over one side. */
  method FindOrder(s: seq<Order>, id: int) returns (k: nat)
    ensures k == IndexOfId(s, id)
  {
    k := 0;
    while k < |s|
      invariant k <= |s|
      invariant forall j :: 0 <= j < k ==> s[j].id != id
    {
      if s[k].id == id {
        return;
      }
      k := k + 1;
    }
  }
}
