/** v1 transactions: the request shapes and the serial execution they promise. */
module V1Txn {
  import opened Bytes
  import opened KvRange
  import opened Kv

  datatype TargetValue = Version(version: int) | Value(value: Key) | ModRevision(modRevision: int)

  /** `result` and `target` are wire integers; not every value is meaningful. */
  datatype Compare = Compare(result: int, target: int, key: Key, targetValue: Option<TargetValue>)

  const EQUAL := 0
  const GREATER := 1
  const LESS := 2
  const NOT_EQUAL := 3

  const TARGET_VERSION := 0
  const TARGET_VALUE := 1
  const TARGET_MOD_REV := 2

  datatype RequestOp =
    | NoPayload
    | RequestPut(key: Key, value: Key, leaseId: int, prevKv: bool)
    | RequestDelete(key: Key, rangeEnd: Key, prevKv: bool)
    | RequestRange(key: Key, rangeEnd: Key, limit: int, revision: int, keysOnly: bool, countOnly: bool)

  datatype ResponseOp =
    | ResponsePut(prevKv: Option<KeyValue>, revision: int)
    | ResponseDelete(deleted: int, prevKvs: seq<KeyValue>, revision: int)
    | ResponseRange(kvs: seq<KeyValue>, count: int, revision: int)

  datatype Txn = Txn(compares: seq<Compare>, success: seq<RequestOp>, failure: seq<RequestOp>)

  // ----- Compares -----

  datatype Ordering = Lt | Eq | Gt

  function OrderInts(a: int, b: int): Ordering {
    if a < b then Lt else if a == b then Eq else Gt
  }

  function OrderKeys(a: Key, b: Key): Ordering {
    if Less(a, b) then Lt else if a == b then Eq else Gt
  }

  predicate WellFormedCompare(c: Compare) {
    && 0 <= c.result <= 3
    && match c.targetValue
       case None => false
       case Some(Version(_)) => c.target == TARGET_VERSION
       case Some(Value(_)) => c.target == TARGET_VALUE
       case Some(ModRevision(_)) => c.target == TARGET_MOD_REV
  }

  /** An absent key compares as version 0, mod revision 0 and the empty value. */
  function Actual(c: Compare, kv: Option<KeyValue>): Ordering
    requires WellFormedCompare(c)
  {
    match c.targetValue.value
    case Version(v) => OrderInts(if kv.Some? then kv.value.version else 0, v)
    case Value(v) => OrderKeys(if kv.Some? then kv.value.value else [], v)
    case ModRevision(v) => OrderInts(if kv.Some? then kv.value.modRevision else 0, v)
  }

  predicate Holds(c: Compare, kv: Option<KeyValue>)
    requires WellFormedCompare(c)
  {
    var o := Actual(c, kv);
    if c.result == EQUAL then o == Eq
    else if c.result == GREATER then o == Gt
    else if c.result == LESS then o == Lt
    else o != Eq
  }

  // ----- One operation at a time, each seeing the ones before it -----

  predicate WellFormedOp(op: RequestOp) {
    !op.NoPayload? && (op.RequestRange? ==> op.revision == 0)
  }

  predicate WellFormedOps(ops: seq<RequestOp>) {
    forall i :: 0 <= i < |ops| ==> WellFormedOp(ops[i])
  }

  function RemoveRows(s: Store, removed: set<Key>, ts: int): Store {
    map k | k in s :: if k in removed then Tombstone(s[k], ts) else s[k]
  }

  function StoreAfter(s: Store, op: RequestOp, ts: int): Store {
    match op
    case RequestPut(key, value, leaseId, _) => s[key := PutRow(Lookup(s, key), value, leaseId, ts)]
    case RequestDelete(key, rangeEnd, _) => RemoveRows(s, VisibleRows(s, key, rangeEnd).Keys, ts)
    case _ => s
  }

  function KeysOnlyRows(rows: seq<KeyValue>): seq<KeyValue> {
    seq(|rows|, i requires 0 <= i < |rows| => ClearValue(rows[i]))
  }

  /** A listing counts the rows it returns, a count-only one every match. */
  function ResponseTo(s: Store, op: RequestOp, ts: int): ResponseOp
    requires WellFormedOp(op)
  {
    match op
    case RequestPut(key, _, _, prevKv) =>
      ResponsePut(if prevKv then VisibleAt(s, key) else None, ts)
    case RequestDelete(key, rangeEnd, prevKv) =>
      var rows := Listing(VisibleRows(s, key, rangeEnd));
      ResponseDelete(|rows|, if prevKv then rows else [], ts)
    case RequestRange(key, rangeEnd, limit, _, keysOnly, countOnly) =>
      var rows := Listing(VisibleRows(s, key, rangeEnd));
      if countOnly then ResponseRange([], |rows|, ts)
      else
        var page := Truncate(rows, limit);
        ResponseRange(if keysOnly then KeysOnlyRows(page) else page, |page|, ts)
  }

  function RunOps(s: Store, ops: seq<RequestOp>, ts: int): (Store, seq<ResponseOp>)
    requires WellFormedOps(ops)
    decreases |ops|
  {
    if ops == [] then (s, [])
    else
      var rest := RunOps(StoreAfter(s, ops[0], ts), ops[1..], ts);
      (rest.0, [ResponseTo(s, ops[0], ts)] + rest.1)
  }

  datatype TxnResult = TxnResult(store: Store, succeeded: bool, responses: seq<ResponseOp>)

  /** Every part is well formed, reached or not. */
  predicate WellFormed(t: Txn) {
    && (forall i :: 0 <= i < |t.compares| ==> WellFormedCompare(t.compares[i]))
    && WellFormedOps(t.success) && WellFormedOps(t.failure)
  }

  /** A malformed compare does not hold. */
  predicate CompareHolds(s: Store, c: Compare) {
    WellFormedCompare(c) && Holds(c, VisibleAt(s, c.key))
  }

  predicate AllHold(s: Store, compares: seq<Compare>) {
    forall i :: 0 <= i < |compares| ==> CompareHolds(s, compares[i])
  }

  function Branch(t: Txn, succeeded: bool): seq<RequestOp> {
    if succeeded then t.success else t.failure
  }

  /** The operations that the compares choose. */
  function Chosen(s: Store, t: Txn): seq<RequestOp> {
    Branch(t, AllHold(s, t.compares))
  }

  /** The whole transaction as one atomic unit at revision `ts`. */
  function RunTxn(s: Store, t: Txn, ts: int): TxnResult
    requires WellFormedOps(Chosen(s, t))
  {
    var r := RunOps(s, Chosen(s, t), ts);
    TxnResult(r.0, AllHold(s, t.compares), r.1)
  }
}
