/** `ensure_cert` as one loop over the mutable store, with the rivals that get in
    between its read and its write given turn by turn. */
module PkiEnsure {
  import opened Bytes
  import opened PkiStore
  import opened PkiRequest
  import opened PkiMeaning
  import PkiProtocol

  /** One attempt's surroundings: the clock at its read and at its signature, the
      fresh key material, and the rival certificates written in between. */
  datatype Turn = Turn(readAt: int, signAt: int, serial: Key, material: Key, rivals: seq<CertRecord>)

  datatype Outcome = Cert(record: CertRecord) | Invalid | Exhausted

  method Interfere(store: MemoryPkiStore, cn: Name, rivals: seq<CertRecord>)
    requires store.Valid()
    modifies store
    ensures store.Valid()
    ensures VersionOf(store.Contents(), cn) == VersionOf(old(store.Contents()), cn) + |rivals|
    ensures rivals == [] ==> store.Contents() == old(store.Contents())
  {
    for i := 0 to |rivals|
      invariant store.Valid()
      invariant VersionOf(store.Contents(), cn) == VersionOf(old(store.Contents()), cn) + i
      invariant i == 0 ==> store.Contents() == old(store.Contents())
    {
      var slot := store.GetCertWithVersion(cn);
      var ok;
      match slot {
        case None => ok := store.CreateIfAbsent(cn, rivals[i]);
        case Some(x) => ok := store.ReplaceIfVersion(cn, x.version, rivals[i], Retire(x.record));
      }
      assert ok;
    }
  }

  /** The compare-and-swap of one attempt: create when nothing was seen, otherwise
      replace the version seen. */
  method TrySwap(store: MemoryPkiStore, cn: Name, seen: Option<Slot>, record: CertRecord) returns (ok: bool)
    requires store.Valid()
    modifies store
    ensures store.Valid()
    ensures var next := PkiProtocol.Swap(old(store.Contents()), cn, seen, record);
            ok == next.Some? && store.Contents() == if ok then next.value else old(store.Contents())
  {
    match seen {
      case None => ok := store.CreateIfAbsent(cn, record);
      case Some(slot) => ok := store.ReplaceIfVersion(cn, slot.version, record, Retire(slot.record));
    }
  }

  /** The history of the name holds the record, retired. */
  predicate HoldsRetired(st: Certs, cn: Name, r: CertRecord) {
    r.serial in HistoryOf(st, cn) && HistoryOf(st, cn)[r.serial] == Retire(r)
  }

  lemma SwapFacts(st: Certs, cn: Name, seen: Option<Slot>, record: CertRecord)
    ensures var next := PkiProtocol.Swap(st, cn, seen, record);
            && (next.Some? ==> ActiveOf(next.value, cn).Some? && ActiveOf(next.value, cn).value.record == record)
            && (next.Some? && seen.Some? ==> HoldsRetired(next.value, cn, seen.value.record))
            && (next.None? ==> seen != ActiveOf(st, cn))
  {
  }

  function WrittenBy(turns: seq<Turn>): nat {
    if turns == [] then 0 else WrittenBy(turns[..|turns| - 1]) + |turns[|turns| - 1].rivals|
  }

  /** The record was signed in this turn, with the lifetime wanted and the names it
      should carry; the certificate it replaced is in the history. */
  ghost predicate SignedIn(st: Certs, q: Request, turn: Turn, r: CertRecord) {
    && r.commonName == q.cn && r.serial == turn.serial && r.material == turn.material
    && r.notBefore == turn.signAt && r.notAfter == turn.signAt + q.wantTtl
    && match r.parentSerial
       case None => Carries(q, None, r.dnsNames, r.ipAddresses)
       case Some(x) =>
         exists parent: CertRecord :: parent.serial == x && HoldsRetired(st, q.cn, parent)
                                      && Carries(q, Some(parent), r.dnsNames, r.ipAddresses)
  }

  /** One pass of the loop; None means that it lost its race. */
  method Attempt(store: MemoryPkiStore, q: Request, turn: Turn) returns (r: Option<Outcome>)
    requires store.Valid()
    modifies store
    ensures store.Valid() && (r.Some? ==> !r.value.Exhausted?)
    ensures r.Some? && r.value.Cert? ==>
              && ActiveOf(store.Contents(), q.cn).Some?
              && ActiveOf(store.Contents(), q.cn).value.record == r.value.record
              && (Reusable(q, r.value.record, turn.readAt) || SignedIn(store.Contents(), q, turn, r.value.record))
    ensures r == Some(Invalid) <==> Refused(q, RecordOf(ActiveOf(old(store.Contents()), q.cn)), turn.readAt)
    ensures r == Some(Invalid) ==> store.Contents() == old(store.Contents())
    ensures r.None? ==>
              && turn.rivals != []
              && VersionOf(store.Contents(), q.cn) == VersionOf(old(store.Contents()), q.cn) + |turn.rivals|
  {
    var seen := store.GetCertWithVersion(q.cn);
    DecideIff(q, seen, turn.readAt);
    match Decide(q, seen, turn.readAt)
    case InvalidRequest => return Some(Invalid);
    case Answer(record) => return Some(Cert(record));
    case SignNew(san) =>
      var parent := if seen.Some? then Some(seen.value.record.serial) else None;
      var record := CertRecord(q.cn, turn.material, turn.signAt, turn.signAt + q.wantTtl, turn.serial, Active,
                               parent, san.dnsNames, san.ipAddresses);
      Interfere(store, q.cn, turn.rivals);
      SwapFacts(store.Contents(), q.cn, seen, record);
      var ok := TrySwap(store, q.cn, seen, record);
      return if ok then Some(Cert(record)) else None;
  }

  /** An answer is the store's active record; giving up means that a rival wrote in
      every single turn. `used` turns were taken. */
  method EnsureCert(store: MemoryPkiStore, q: Request, turns: seq<Turn>) returns (r: Outcome, used: nat)
    requires store.Valid() && |turns| == PkiProtocol.MAX_REPLACE_ATTEMPTS
    modifies store
    ensures store.Valid() && used <= |turns|
    ensures r.Cert? ==>
              && ActiveOf(store.Contents(), q.cn).Some?
              && ActiveOf(store.Contents(), q.cn).value.record == r.record
              && 0 < used
              && (|| Reusable(q, r.record, turns[used - 1].readAt)
                  || SignedIn(store.Contents(), q, turns[used - 1], r.record))
    ensures r.Exhausted? ==>
              && (forall k :: 0 <= k < |turns| ==> turns[k].rivals != [])
              && VersionOf(store.Contents(), q.cn) == VersionOf(old(store.Contents()), q.cn) + WrittenBy(turns)
  {
    for k := 0 to PkiProtocol.MAX_REPLACE_ATTEMPTS
      invariant store.Valid()
      invariant forall j :: 0 <= j < k ==> turns[j].rivals != []
      invariant VersionOf(store.Contents(), q.cn) == VersionOf(old(store.Contents()), q.cn) + WrittenBy(turns[..k])
    {
      var o := Attempt(store, q, turns[k]);
      if o.Some? {
        return o.value, k + 1;
      }
      assert turns[..k + 1][..k] == turns[..k];
    }
    assert turns[..|turns|] == turns;
    return Exhausted, |turns|;
  }
}
