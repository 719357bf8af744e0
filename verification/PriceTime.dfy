/** One side of the book as a single sequence of resting orders in price-time priority,
    and the greedy sweep an incoming order makes through it. */
module PriceTime {
  import opened Types

  datatype RestingView = RestingView(price: int, id: OrderId, quantity: int, lifetime: RestingLifetime)

  type Queue = seq<RestingView>

  /** On the given side of the book, price p has strict priority over price q. */
  predicate Better(side: Side, p: int, q: int) {
    if side.Buy? then p > q else p < q
  }

  /** An incoming order of side `taker` with this limit trades at `price`; a market order has no limit. */
  predicate Crosses(taker: Side, limit: Option<int>, price: int) {
    match limit
    case None => true
    case Some(l) => if taker.Buy? then l >= price else l <= price
  }

  ghost predicate Sorted(side: Side, q: Queue) {
    forall i, j :: 0 <= i < j < |q| ==> !Better(side, q[j].price, q[i].price)
  }

  ghost predicate DistinctIds(q: Queue) {
    forall i, j :: 0 <= i < j < |q| ==> q[i].id != q[j].id
  }

  ghost predicate Positive(q: Queue) {
    forall i :: 0 <= i < |q| ==> q[i].quantity > 0
  }

  ghost predicate InRange(q: Queue, lo: int, hi: int) {
    forall i :: 0 <= i < |q| ==> lo <= q[i].price <= hi
  }

  function Ids(q: Queue): set<OrderId> {
    set r | r in q :: r.id
  }

  function Shares(q: Queue): int {
    if q == [] then 0 else q[0].quantity + Shares(q[1..])
  }

  function Executed(fills: seq<Execution>): int {
    if fills == [] then 0 else fills[0].executed + Executed(fills[1..])
  }

  /** The orders an incoming order may trade with, wherever they stand in the queue. */
  function Crossing(taker: Side, limit: Option<int>, q: Queue): Queue {
    if q == [] then []
    else (if Crosses(taker, limit, q[0].price) then [q[0]] else []) + Crossing(taker, limit, q[1..])
  }

  // ---------- the sweep ----------

  datatype Sweep = Sweep(fills: seq<Execution>, left: Queue, remaining: int)

  function SweepQueue(taker: Side, limit: Option<int>, want: int, q: Queue): Sweep
    decreases q
  {
    if want <= 0 || q == [] || !Crosses(taker, limit, q[0].price) then
      Sweep([], q, want)
    else if q[0].quantity > want then
      Sweep([Execution(q[0].id, q[0].price, want)], [q[0].(quantity := q[0].quantity - want)] + q[1..], 0)
    else
      var rest := SweepQueue(taker, limit, want - q[0].quantity, q[1..]);
      Sweep([Execution(q[0].id, q[0].price, q[0].quantity)] + rest.fills, rest.left, rest.remaining)
  }

  // ---------- queue updates ----------

  /** Places r behind every order of its own or a better price. */
  function Insert(side: Side, q: Queue, r: RestingView): Queue {
    if q == [] || Better(side, r.price, q[0].price) then [r] + q
    else [q[0]] + Insert(side, q[1..], r)
  }

  function Remove(q: Queue, id: OrderId): Queue {
    if q == [] then []
    else if q[0].id == id then q[1..]
    else [q[0]] + Remove(q[1..], id)
  }

  /** Takes n shares off the order with this id, which keeps its place. */
  function Reduce(q: Queue, id: OrderId, n: int): Queue {
    if q == [] then []
    else if q[0].id == id then [q[0].(quantity := q[0].quantity - n)] + q[1..]
    else [q[0]] + Reduce(q[1..], id, n)
  }

  function WithLifetime(q: Queue, lifetime: RestingLifetime): Queue {
    if q == [] then []
    else (if q[0].lifetime == lifetime then [q[0]] else []) + WithLifetime(q[1..], lifetime)
  }

  function AtPrice(q: Queue, price: int): Queue {
    if q == [] then []
    else (if q[0].price == price then [q[0]] else []) + AtPrice(q[1..], price)
  }

  function Find(q: Queue, id: OrderId): Option<RestingView> {
    if q == [] then None
    else if q[0].id == id then Some(q[0])
    else Find(q[1..], id)
  }
}
