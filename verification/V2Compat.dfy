/** The v1-to-v2 translation: snapshot reads, local evaluation by replaying the
    pending write set, and the mutation list handed to Commit. */
module V2Compat {
  import opened Bytes
  import opened KvRange
  import opened Kv
  import opened V1Txn

  datatype Failure = InvalidArgument | Transport

  datatype Attempt<+T> = Ok(value: T) | Fatal(error: Failure)

  // ----- What the server records for each read -----

  datatype ReadIntent = Point(key: Key) | Range(start: Key, end: Key)

  function IntentOf(key: Key, rangeEnd: Key): ReadIntent {
    if IsSingleKey(key, rangeEnd) then Point(key) else Range(key, rangeEnd)
  }

  predicate Covers(r: ReadIntent, k: Key) {
    match r
    case Point(key) => k == key
    case Range(lo, hi) => InInterval(lo, hi, k)
  }

  lemma IntentCovers(key: Key, rangeEnd: Key, k: Key)
    ensures Covers(IntentOf(key, rangeEnd), k) <==> Matches(key, rangeEnd, k)
  {
  }

  // ----- Replay of the pending write set -----

  function ReplayOne(m: Mutation, rows: map<Key, KeyValue>): map<Key, KeyValue> {
    match m
    case Put(key, value, leaseId) => rows[key := KeyValue(key, value, 0, 0, 0, leaseId)]
    case Delete(key) => map k | k in rows && k != key :: rows[k]
    case DeleteRange(lo, hi) => map k | k in rows && !InInterval(lo, hi, k) :: rows[k]
    case Unspecified(_) => rows
  }

  function ReplayRows(ms: seq<Mutation>, rows: map<Key, KeyValue>): map<Key, KeyValue> {
    if ms == [] then rows else ReplayOne(ms[|ms| - 1], ReplayRows(ms[..|ms| - 1], rows))
  }

  function Restrict(rows: map<Key, KeyValue>, key: Key, rangeEnd: Key): map<Key, KeyValue> {
    map k | k in rows && Matches(key, rangeEnd, k) :: rows[k]
  }

  function ReplayedRows(ms: seq<Mutation>, snapshot: seq<KeyValue>, key: Key, rangeEnd: Key): map<Key, KeyValue> {
    Restrict(ReplayRows(ms, Collect(snapshot)), key, rangeEnd)
  }

  /** `replay`: an ordered map of the read rows, updated in place. */
  method Replay(ms: seq<Mutation>, snapshot: seq<KeyValue>, key: Key, rangeEnd: Key)
    returns (out: seq<KeyValue>)
    ensures out == Listing(ReplayedRows(ms, snapshot, key, rangeEnd))
  {
    var rows: map<Key, KeyValue> := map[];
    for i := 0 to |snapshot|
      invariant rows == Collect(snapshot[..i])
    {
      assert snapshot[..i + 1][..i] == snapshot[..i];
      rows := rows[snapshot[i].key := snapshot[i]];
    }
    assert snapshot[..|snapshot|] == snapshot;
    for i := 0 to |ms|
      invariant rows == ReplayRows(ms[..i], Collect(snapshot))
    {
      assert ms[..i + 1][..i] == ms[..i];
      match ms[i]
      case Put(k, v, l) => rows := rows[k := KeyValue(k, v, 0, 0, 0, l)];
      case Delete(k) => rows := map x | x in rows && x != k :: rows[x];
      case DeleteRange(lo, hi) => rows := map x | x in rows && !InInterval(lo, hi, x) :: rows[x];
      case Unspecified(_) =>
    }
    assert ms[..|ms|] == ms;
    out := Listing(map k | k in rows && Matches(key, rangeEnd, k) :: rows[k]);
  }

  // ----- One operation against the snapshot and the pending writes -----

  /** `normalize_range` then `delete_mutation`. */
  function DeleteMutation(key: Key, rangeEnd: Key): Mutation {
    if IsSingleKey(key, rangeEnd) then Delete(key) else DeleteRange(key, rangeEnd)
  }

  function MutationOf(op: RequestOp): seq<Mutation> {
    match op
    case RequestPut(key, value, leaseId, _) => [Put(key, value, leaseId)]
    case RequestDelete(key, rangeEnd, _) => [DeleteMutation(key, rangeEnd)]
    case _ => []
  }

  function OpReads(op: RequestOp): seq<ReadIntent> {
    match op
    case NoPayload => []
    case RequestPut(key, _, _, prevKv) => if prevKv then [Point(key)] else []
    case RequestDelete(key, rangeEnd, _) => [IntentOf(key, rangeEnd)]
    case RequestRange(key, rangeEnd, _, _, _, _) => [IntentOf(key, rangeEnd)]
  }

  /** The response, its revision still 0, computed from one session read. */
  function OpResponse(snap: Store, ms: seq<Mutation>, op: RequestOp): ResponseOp
    requires WellFormedOp(op)
  {
    match op
    case RequestPut(key, _, _, prevKv) =>
      ResponsePut(if prevKv then Lookup(ReplayedRows(ms, SessionRead(snap, key, [], 1, false), key, []), key)
                  else None, 0)
    case RequestDelete(key, rangeEnd, prevKv) =>
      var rows := Listing(ReplayedRows(ms, SessionRead(snap, key, rangeEnd, 0, !prevKv), key, rangeEnd));
      ResponseDelete(|rows|, if prevKv then rows else [], 0)
    case RequestRange(key, rangeEnd, limit, _, keysOnly, countOnly) =>
      var rows := Listing(ReplayedRows(ms, SessionRead(snap, key, rangeEnd, 0, keysOnly || countOnly), key, rangeEnd));
      if countOnly then ResponseRange([], |rows|, 0)
      else
        var page := Truncate(rows, limit);
        ResponseRange(page, |page|, 0)
  }

  datatype Effects = Effects(mutations: seq<Mutation>, responses: seq<ResponseOp>, recorded: seq<ReadIntent>)

  /** `apply_ops` from the effects accumulated so far. */
  function ApplyOps(snap: Store, ops: seq<RequestOp>, e: Effects): Attempt<Effects>
    decreases |ops|
  {
    if ops == [] then Ok(e)
    else if !WellFormedOp(ops[0]) then Fatal(InvalidArgument)
    else
      ApplyOps(snap, ops[1..],
               Effects(e.mutations + MutationOf(ops[0]),
                       e.responses + [OpResponse(snap, e.mutations, ops[0])],
                       e.recorded + OpReads(ops[0])))
  }

  /** Compares are evaluated in order up to the first that fails. */
  function EvalCompares(row: Key -> Option<KeyValue>, compares: seq<Compare>): Attempt<bool>
    decreases |compares|
  {
    if compares == [] then Ok(true)
    else if !WellFormedCompare(compares[0]) then Fatal(InvalidArgument)
    else if !Holds(compares[0], row(compares[0].key)) then Ok(false)
    else EvalCompares(row, compares[1..])
  }

  function CompareKeys(compares: seq<Compare>): set<Key> {
    set i | 0 <= i < |compares| :: compares[i].key
  }

  function PointReads(keys: seq<Key>): seq<ReadIntent> {
    seq(|keys|, i requires 0 <= i < |keys| => Point(keys[i]))
  }

  datatype Built = Built(succeeded: bool, effects: Effects)

  /** `build_txn`: branch choice, mutation list, responses and recorded reads. */
  function BuildTxn(snap: Store, t: Txn): Attempt<Built> {
    match EvalCompares(k => VisibleAt(snap, k), t.compares)
    case Fatal(e) => Fatal(e)
    case Ok(succeeded) =>
      var recorded := PointReads(Enumerate(CompareKeys(t.compares)));
      match ApplyOps(snap, if succeeded then t.success else t.failure, Effects([], [], recorded))
      case Fatal(e) => Fatal(e)
      case Ok(effects) => Ok(Built(succeeded, effects))
  }

  /** `stamp_response`. */
  function Stamp(r: ResponseOp, ts: int): ResponseOp {
    r.(revision := ts)
  }

  function StampAll(rs: seq<ResponseOp>, ts: int): seq<ResponseOp> {
    seq(|rs|, i requires 0 <= i < |rs| => Stamp(rs[i], ts))
  }
}
