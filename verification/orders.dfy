/**
 Order records of app.py and `next_order_id` (app.py:138-139), which numbers
 the order the checkout route appends.
 */
module Orders {
  import opened Optional

  datatype Order = Order(
    id: Option<int>,
    userEmail: string,
    eventId: int,
    status: string,
    createdAt: string)

  /** `o.get("id", 0)`: a missing id reads as 0. */
  function OrderId(o: Order): int {
    o.id.GetOr(0)
  }

  /** The largest id among the orders, a missing one read as 0. */
  function MaxOrderId(orders: seq<Order>): (m: int)
    requires |orders| > 0
    ensures forall i :: 0 <= i < |orders| ==> OrderId(orders[i]) <= m
    ensures exists i :: 0 <= i < |orders| && OrderId(orders[i]) == m
  {
    if |orders| == 1 then OrderId(orders[0])
    else
      var rest := MaxOrderId(orders[1..]);
      assert forall i :: 1 <= i < |orders| ==> orders[i] == orders[1..][i - 1];
      if OrderId(orders[0]) >= rest then OrderId(orders[0]) else rest
  }

  /**
   `next_order_id`: one more than the largest id, and 1 for no orders
   (`max(..., default=0) + 1`).
   */
  function NextOrderId(orders: seq<Order>): (r: int)
    ensures |orders| == 0 ==> r == 1
    ensures forall i :: 0 <= i < |orders| ==> OrderId(orders[i]) < r
    ensures |orders| > 0 ==> exists i :: 0 <= i < |orders| && OrderId(orders[i]) == r - 1
  {
    if |orders| == 0 then 1 else MaxOrderId(orders) + 1
  }

  /** No two orders share an id, a missing one read as 0. */
  predicate IdsDistinct(orders: seq<Order>) {
    forall i, j :: 0 <= i < j < |orders| ==> OrderId(orders[i]) != OrderId(orders[j])
  }

  /** Every existing id differs from the next one, so an order numbered with it keeps the ids distinct. */
  lemma NextIdKeepsIdsDistinct(orders: seq<Order>, placed: Order)
    requires IdsDistinct(orders)
    requires placed.id == Some(NextOrderId(orders))
    ensures IdsDistinct(orders + [placed])
  {
    var after := orders + [placed];
    forall i, j | 0 <= i < j < |after|
      ensures OrderId(after[i]) != OrderId(after[j])
    {
      assert after[i] == orders[i];
      if j < |orders| {
        assert after[j] == orders[j];
      }
    }
  }
}
