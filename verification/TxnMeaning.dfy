/** What a v1 transaction means, said of the store itself: which compares hold,
    which rows a listing returns, what a put or delete answers. */
module TxnMeaning {
  import opened Bytes
  import opened KvRange
  import opened Kv
  import opened V1Txn
  import opened V2Compat
  import opened TxnEquivalence

  // ----- Compares -----

  /** The four results of the wire format: equal, greater, less, not equal. */
  predicate RelatesInts(result: int, a: int, b: int) {
    (result == 0 && a == b) || (result == 1 && a > b) || (result == 2 && a < b) || (result == 3 && a != b)
  }

  predicate RelatesBytes(result: int, a: Key, b: Key) {
    (result == 0 && a == b) || (result == 1 && Less(b, a)) || (result == 2 && Less(a, b)) || (result == 3 && a != b)
  }

  /** The row's version, value or mod revision against the operand; a key that is
      not live has version and mod revision 0 and the empty value. */
  predicate Satisfied(s: Store, c: Compare) {
    var live := c.key in Live(s);
    match c.targetValue
    case None => false
    case Some(Version(v)) => c.target == 0 && RelatesInts(c.result, if live then s[c.key].version else 0, v)
    case Some(Value(v)) => c.target == 1 && RelatesBytes(c.result, if live then s[c.key].value else [], v)
    case Some(ModRevision(v)) => c.target == 2 && RelatesInts(c.result, if live then s[c.key].modRevision else 0, v)
  }

  predicate AllSatisfied(s: Store, compares: seq<Compare>) {
    forall i :: 0 <= i < |compares| ==> Satisfied(s, compares[i])
  }

  lemma HoldsIffSatisfied(s: Store, c: Compare)
    ensures CompareHolds(s, c) <==> Satisfied(s, c)
  {
    if c.targetValue.Some? && c.targetValue.value.Value? {
      var a := if c.key in Live(s) then s[c.key].value else [];
      var b := c.targetValue.value.value;
      Total(a, b);
      NotLess(a, b);
      Irreflexive(a);
    }
  }

  /** A transaction takes its success branch exactly when every compare relates
      its row to its operand as asked. */
  lemma SucceedsIff(s: Store, t: Txn, ts: int)
    requires WellFormedOps(Chosen(s, t))
    ensures RunTxn(s, t, ts).succeeded <==> AllSatisfied(s, t.compares)
  {
    forall i | 0 <= i < |t.compares| ensures CompareHolds(s, t.compares[i]) <==> Satisfied(s, t.compares[i]) {
      HoldsIffSatisfied(s, t.compares[i]);
    }
  }

  /** So does every transaction that the translation accepts. */
  lemma BuildSucceedsIff(s: Store, t: Txn)
    requires BuildTxn(s, t).Ok?
    ensures BuildTxn(s, t).value.succeeded <==> AllSatisfied(s, t.compares)
    ensures WellFormedOps(if AllSatisfied(s, t.compares) then t.success else t.failure)
  {
    ComparesAgree(s, t.compares);
    var e := Effects([], [], PointReads(Enumerate(CompareKeys(t.compares))));
    OpsRefused(s, Branch(t, AllHold(s, t.compares)), e);
    SucceedsIff(s, t, 0);
  }

  // ----- Rows -----

  /** The live keys that a request `(key, range_end)` names. */
  function Selected(s: Store, key: Key, rangeEnd: Key): set<Key> {
    set k | k in Live(s) && (if rangeEnd == [] || rangeEnd == key then k == key
                             else (k == key || Less(key, k)) && Less(k, rangeEnd))
  }

  /** Row `r` is what the store holds, its value left out when only keys were asked for. */
  predicate IsRow(s: Store, r: KeyValue, keysOnly: bool) {
    && r.key in s
    && var row := s[r.key];
       r == KeyValue(r.key, if keysOnly then [] else row.value, row.createRevision, row.modRevision, row.version,
                     row.leaseId)
  }

  /** `rows` are the first `n` selected rows, in key order. */
  ghost predicate IsPage(s: Store, rows: seq<KeyValue>, key: Key, rangeEnd: Key, n: int, keysOnly: bool) {
    && |rows| == n
    && (forall i :: 0 <= i < |rows| ==> rows[i].key in Selected(s, key, rangeEnd) && IsRow(s, rows[i], keysOnly))
    && (forall i, j :: 0 <= i < j < |rows| ==> Less(rows[i].key, rows[j].key))
    && (forall k, i :: k in Selected(s, key, rangeEnd) && 0 <= i < |rows| && Less(k, rows[i].key) ==>
          exists j :: 0 <= j < i && rows[j].key == k)
  }

  lemma NotBefore(ks: seq<Key>, i: nat, j: nat)
    requires StrictlySorted(ks) && i < |ks| && j < |ks| && Less(ks[j], ks[i])
    ensures j < i
  {
    Irreflexive(ks[i]);
    if i < j {
      Asymmetric(ks[i], ks[j]);
    }
  }

  /** The listing is the selected keys in order, each with its row. */
  lemma ListingKeys(s: Store, key: Key, rangeEnd: Key)
    ensures var rows, ks := Listing(VisibleRows(s, key, rangeEnd)), Enumerate(Selected(s, key, rangeEnd));
            && |rows| == |ks| == |Selected(s, key, rangeEnd)|
            && StrictlySorted(ks) && (forall k :: k in ks <==> k in Selected(s, key, rangeEnd))
            && (forall i :: 0 <= i < |ks| ==> ks[i] in s && rows[i] == ToKv(ks[i], s[ks[i]]))
  {
    var visible := VisibleRows(s, key, rangeEnd);
    assert visible.Keys == Selected(s, key, rangeEnd);
    EnumerateSorted(visible.Keys);
    ListingMembers(visible);
  }

  function RowOf(s: Store, k: Key, keysOnly: bool): KeyValue
    requires k in s
  {
    if keysOnly then ClearValue(ToKv(k, s[k])) else ToKv(k, s[k])
  }

  /** The rows of the first `n` of all selected keys. */
  lemma KeysArePage(s: Store, rows: seq<KeyValue>, all: seq<Key>, n: nat, key: Key, rangeEnd: Key, keysOnly: bool)
    requires |rows| == n <= |all| && StrictlySorted(all)
    requires forall k :: k in all <==> k in Selected(s, key, rangeEnd)
    requires forall i :: 0 <= i < n ==> all[i] in s && rows[i] == RowOf(s, all[i], keysOnly)
    ensures IsPage(s, rows, key, rangeEnd, n, keysOnly)
  {
    assert forall i :: 0 <= i < n ==> rows[i].key == all[i] && all[i] in all;
    forall k, i | k in Selected(s, key, rangeEnd) && 0 <= i < n && Less(k, rows[i].key)
      ensures exists j :: 0 <= j < i && rows[j].key == k
    {
      var j :| 0 <= j < |all| && all[j] == k;
      NotBefore(all, i, j);
      assert rows[j].key == k;
    }
  }

  /** How many of `n` matches a listing with this limit returns. */
  function PageSize(n: nat, limit: int): int {
    if limit <= 0 || n <= limit then n else limit
  }

  lemma ListingPage(s: Store, key: Key, rangeEnd: Key, limit: int, keysOnly: bool)
    ensures var page, n := Truncate(Listing(VisibleRows(s, key, rangeEnd)), limit),
                           PageSize(|Selected(s, key, rangeEnd)|, limit);
            && |page| == n
            && IsPage(s, if keysOnly then KeysOnlyRows(page) else page, key, rangeEnd, n, keysOnly)
  {
    ListingKeys(s, key, rangeEnd);
    var all := Enumerate(Selected(s, key, rangeEnd));
    var page := Truncate(Listing(VisibleRows(s, key, rangeEnd)), limit);
    KeysArePage(s, if keysOnly then KeysOnlyRows(page) else page, all, |page|, key, rangeEnd, keysOnly);
  }

  /** A listing returns the first selected rows in key order, as many as the limit
      allows, and counts them; a count-only request counts every selected row. */
  lemma RangeAnswers(s: Store, op: RequestOp, ts: int)
    requires op.RequestRange? && op.revision == 0
    ensures var r, n := ResponseTo(s, op, ts), |Selected(s, op.key, op.rangeEnd)|;
            && r.ResponseRange? && r.revision == ts
            && if op.countOnly then r.kvs == [] && r.count == n
               else r.count == PageSize(n, op.limit)
                    && IsPage(s, r.kvs, op.key, op.rangeEnd, PageSize(n, op.limit), op.keysOnly)
  {
    ListingKeys(s, op.key, op.rangeEnd);
    ListingPage(s, op.key, op.rangeEnd, op.limit, op.keysOnly);
  }

  /** A delete counts every selected row and returns all of them if asked to. */
  lemma DeleteAnswers(s: Store, op: RequestOp, ts: int)
    requires op.RequestDelete?
    ensures var r, n := ResponseTo(s, op, ts), |Selected(s, op.key, op.rangeEnd)|;
            && r.ResponseDelete? && r.revision == ts && r.deleted == n
            && if op.prevKv then IsPage(s, r.prevKvs, op.key, op.rangeEnd, n, false) else r.prevKvs == []
  {
    ListingPage(s, op.key, op.rangeEnd, 0, false);
  }

  /** A put returns the live row it replaces exactly if asked to and there is one. */
  lemma PutAnswers(s: Store, op: RequestOp, ts: int)
    requires op.RequestPut?
    ensures var r := ResponseTo(s, op, ts);
            && r.ResponsePut? && r.revision == ts
            && (r.prevKv.Some? <==> op.prevKv && op.key in Live(s))
            && (r.prevKv.Some? ==> r.prevKv.value.key == op.key && IsRow(s, r.prevKv.value, false))
  {
  }
}
