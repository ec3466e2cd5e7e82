/** Snapshots of the decision log. */
module Mvcc {
  import opened Bytes
  import opened Kv
  import opened Sequencer

  /** The store after every decision, applied in log order. */
  function StoreOf(log: seq<Decision>): Store {
    if log == [] then map[]
    else
      var d := log[|log| - 1];
      ApplyAll(d.mutations, d.ts, StoreOf(log[..|log| - 1]))
  }

  /** The store as of `ts`: later decisions are not visible. */
  function Snapshot(log: seq<Decision>, ts: nat): Store {
    if log == [] then map[]
    else
      var d := log[|log| - 1];
      var before := Snapshot(log[..|log| - 1], ts);
      if d.ts <= ts then ApplyAll(d.mutations, d.ts, before) else before
  }

  lemma {:induction false} SnapshotStable(log: seq<Decision>, d: Decision, ts: nat)
    requires d.ts > ts
    ensures Snapshot(log + [d], ts) == Snapshot(log, ts)
  {
    assert (log + [d])[..|log|] == log;
  }

  lemma {:induction false} StoreOfSnoc(log: seq<Decision>, d: Decision)
    ensures StoreOf(log + [d]) == ApplyAll(d.mutations, d.ts, StoreOf(log))
  {
    assert (log + [d])[..|log|] == log;
  }

  lemma {:induction false} SnapshotComplete(log: seq<Decision>, ts: nat)
    requires forall i :: 0 <= i < |log| ==> log[i].ts <= ts
    ensures Snapshot(log, ts) == StoreOf(log)
  {
    if log != [] {
      SnapshotComplete(log[..|log| - 1], ts);
    }
  }

  /** A key not written after the snapshot reads the same in the latest store. */
  lemma {:induction false} SnapshotAgrees(log: seq<Decision>, ts: nat, k: Key)
    requires IncreasingLog(log) && !WrittenAfter(log, ts, k)
    ensures Lookup(Snapshot(log, ts), k) == Lookup(StoreOf(log), k)
  {
    if log != [] {
      var n := |log| - 1;
      var l, d := log[..n], log[n];
      if d.ts <= ts {
        SnapshotComplete(log, ts);
      } else {
        forall i | 0 <= i < |l| ensures !(l[i].ts > ts && WritesAny(l[i].mutations, k)) {
          assert log[i] == l[i];
        }
        SnapshotAgrees(l, ts, k);
        ApplyFrame(d.mutations, d.ts, StoreOf(l), k);
      }
    }
  }

  lemma {:induction false} StoreNoNewer(log: seq<Decision>, ts: nat)
    requires IncreasingLog(log) && (log != [] ==> log[|log| - 1].ts <= ts)
    ensures NoNewerThan(StoreOf(log), ts)
  {
    if log != [] {
      var n := |log| - 1;
      StoreNoNewer(log[..n], log[n].ts);
      ApplyNoNewer(log[n].mutations, log[n].ts, StoreOf(log[..n]));
    }
  }
}
