/** Machine widths, enumerations, requests and results of the matching engine. */
module Types {

  datatype Option<+T> = None | Some(value: T)

  const INT32_MAX: int := 0x7FFF_FFFF
  const UINT32_MAX: int := 0xFFFF_FFFF
  const TWO_TO_31: int := 0x8000_0000
  const TWO_TO_32: int := 0x1_0000_0000
  const TWO_TO_63: int := 0x8000_0000_0000_0000
  const TWO_TO_64: int := 0x1_0000_0000_0000_0000

  type Quantity = q: int | -TWO_TO_31 <= q < TWO_TO_31
  type Price = p: int | -TWO_TO_63 <= p < TWO_TO_63
  type OrderId = i: int | 0 <= i < TWO_TO_64

  predicate IsInt32(x: int) {
    -TWO_TO_31 <= x < TWO_TO_31
  }

  /** Two's-complement truncation to 32 bits, signed. */
  function WrapI32(x: int): (r: int)
    ensures -TWO_TO_31 <= r < TWO_TO_31
    ensures (x - r) % TWO_TO_32 == 0
  {
    (x + TWO_TO_31) % TWO_TO_32 - TWO_TO_31
  }

  /** Unsigned 64-bit arithmetic wraps around. */
  function WrapU64(x: int): (r: int)
    ensures 0 <= r < TWO_TO_64
    ensures (x - r) % TWO_TO_64 == 0
  {
    x % TWO_TO_64
  }

  /** A 32-bit counter counts one more. */
  function NextU32(n: nat): nat {
    (n + 1) % TWO_TO_32
  }

  /** A wrapping total carries on as if it had not wrapped. */
  lemma WrapU64Adds(x: int, y: int)
    ensures WrapU64(WrapU64(x) + y) == WrapU64(x + y)
  {
  }

  datatype Side = Buy | Sell

  function Opposite(side: Side): Side {
    if side.Buy? then Sell else Buy
  }

  datatype TimeInForce = Day | Ioc | Fok | Gtc

  datatype RestingLifetime = GoodTillCancel | DayOnly

  datatype LimitOrderRequest =
    LimitOrderRequest(id: OrderId, price: Price, quantity: Quantity, side: Side, tif: TimeInForce)

  datatype MarketOrderRequest = MarketOrderRequest(id: OrderId, quantity: Quantity, side: Side)

  datatype CancelOrderRequest = CancelOrderRequest(id: OrderId)

  datatype ModifyOrderRequest = ModifyOrderRequest(id: OrderId, newQuantity: Quantity, newPrice: Price)

  datatype Execution = Execution(makerId: OrderId, makerPrice: int, executed: int)

  datatype SubmitStatus =
    | Filled
    | PartiallyFilledResting
    | PartiallyFilledCanceled
    | Killed
    | Rejected
    | Resting
    | Canceled

  datatype SubmissionResult =
    SubmissionResult(requested: int, filled: int, status: SubmitStatus, executions: seq<Execution>)

  datatype CancelStatus = Canceled | NotFound

  datatype CancelResult = CancelResult(quantityCancelled: int, status: CancelStatus)

  datatype ModificationStatus = Resubmitted | Canceled | Rejected | NotFound

  datatype ModificationResult =
    ModificationResult(originalQuantity: int, status: ModificationStatus, resubmission: Option<SubmissionResult>)

  datatype PruneResult = PruneResult(sharesErased: int, ordersPruned: nat, levelsErased: nat)
}
