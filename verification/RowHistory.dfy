/** What a stored row says of everything that was ever written to its key. */
module RowHistory {
  import opened Bytes
  import opened Kv
  import opened Sequencer
  import opened Mvcc

  datatype Write = Wrote(ts: nat, value: Key, leaseId: int) | Erased(ts: nat)

  function WriteOf(m: Mutation, ts: nat, k: Key): seq<Write> {
    if m.Put? && m.key == k then [Wrote(ts, m.value, m.leaseId)]
    else if m.Delete? && m.key == k then [Erased(ts)]
    else if m.DeleteRange? && InInterval(m.key, m.rangeEnd, k) then [Erased(ts)]
    else []
  }

  /** The writes of a key in one decision, in order. */
  function WritesIn(ms: seq<Mutation>, ts: nat, k: Key): seq<Write> {
    if ms == [] then [] else WritesIn(ms[..|ms| - 1], ts, k) + WriteOf(ms[|ms| - 1], ts, k)
  }

  /** The writes of a key in the whole log, in order. */
  function WritesTo(log: seq<Decision>, k: Key): seq<Write> {
    if log == [] then []
    else
      var d := log[|log| - 1];
      WritesTo(log[..|log| - 1], k) + WritesIn(d.mutations, d.ts, k)
  }

  /** Puts, and deletes of what a put had just written. */
  function Effective(w: seq<Write>): nat {
    if w == [] then 0
    else
      var n := |w| - 1;
      Effective(w[..n]) + if w[n].Wrote? || (n > 0 && w[n - 1].Wrote?) then 1 else 0
  }

  predicate FirstPut(w: seq<Write>, i: nat) {
    i < |w| && w[i].Wrote? && forall j :: 0 <= j < i ==> w[j].Erased?
  }

  predicate LastPut(w: seq<Write>, i: nat) {
    i < |w| && w[i].Wrote? && forall j :: i < j < |w| ==> w[j].Erased?
  }

  /** Created by the first put, holding the last one, dead once that one was
      erased, and counting every effective write. */
  predicate Tells(row: Row, w: seq<Write>, first: nat, last: nat) {
    && FirstPut(w, first) && LastPut(w, last)
    && row.createRevision == w[first].ts
    && row.value == w[last].value && row.leaseId == w[last].leaseId
    && (row.deleted <==> last + 1 < |w|)
    && row.modRevision == (if last + 1 < |w| then w[last + 1].ts else w[last].ts)
    && row.version == Effective(w)
  }

  ghost predicate TellsAll(row: Option<Row>, w: seq<Write>) {
    match row
    case None => forall i :: 0 <= i < |w| ==> w[i].Erased?
    case Some(r) => exists first, last :: Tells(r, w, first, last)
  }

  lemma PutTells(row: Option<Row>, w: seq<Write>, x: Write)
    requires TellsAll(row, w) && x.Wrote?
    ensures TellsAll(Some(PutRow(row, x.value, x.leaseId, x.ts)), w + [x])
  {
    var v := w + [x];
    assert v[..|w|] == w;
    var r := PutRow(row, x.value, x.leaseId, x.ts);
    if row.None? {
      NoEffect(w);
      assert Tells(r, v, |w|, |w|);
    } else {
      var first, last :| Tells(row.value, w, first, last);
      assert Tells(r, v, first, |w|);
    }
  }

  lemma {:induction false} NoEffect(w: seq<Write>)
    requires forall i :: 0 <= i < |w| ==> w[i].Erased?
    ensures Effective(w) == 0
  {
    if w != [] {
      NoEffect(w[..|w| - 1]);
    }
  }

  lemma EraseTells(row: Option<Row>, w: seq<Write>, x: Write)
    requires TellsAll(row, w) && x.Erased?
    ensures TellsAll(if row.Some? then Some(Kill(row.value, x.ts)) else None, w + [x])
  {
    var v := w + [x];
    assert v[..|w|] == w;
    if row.Some? {
      var first, last :| Tells(row.value, w, first, last);
      assert Tells(Kill(row.value, x.ts), v, first, last);
    }
  }

  lemma ApplyTells(m: Mutation, ts: nat, s: Store, k: Key, w: seq<Write>)
    requires TellsAll(Lookup(s, k), w)
    ensures TellsAll(Lookup(Apply(m, ts, s), k), w + WriteOf(m, ts, k))
  {
    var x := WriteOf(m, ts, k);
    if x == [] {
      assert w + x == w;
    } else if m.Put? {
      PutTells(Lookup(s, k), w, x[0]);
    } else {
      EraseTells(Lookup(s, k), w, x[0]);
    }
  }

  lemma {:induction false} ApplyAllTells(ms: seq<Mutation>, ts: nat, s: Store, k: Key, w: seq<Write>)
    requires TellsAll(Lookup(s, k), w)
    ensures TellsAll(Lookup(ApplyAll(ms, ts, s), k), w + WritesIn(ms, ts, k))
  {
    if ms == [] {
      assert w + WritesIn(ms, ts, k) == w;
    } else {
      var n := |ms| - 1;
      var rest, x := WritesIn(ms[..n], ts, k), WriteOf(ms[n], ts, k);
      ApplyAllTells(ms[..n], ts, s, k, w);
      ApplyTells(ms[n], ts, ApplyAll(ms[..n], ts, s), k, w + rest);
      assert w + rest + x == w + (rest + x);
    }
  }

  /** After any log, a key has a row exactly when it was ever put, and the row tells
      its first put, its last one, whether and when that was erased, and how many
      writes took effect. */
  lemma {:induction false} RowTellsHistory(log: seq<Decision>, k: Key)
    ensures TellsAll(Lookup(StoreOf(log), k), WritesTo(log, k))
  {
    if log != [] {
      var n := |log| - 1;
      RowTellsHistory(log[..n], k);
      ApplyAllTells(log[n].mutations, log[n].ts, StoreOf(log[..n]), k, WritesTo(log[..n], k));
    }
  }
}
