/** The shared certificate store: versioned compare-and-swap over the active
    record of each common name, plus the retired history. */
module PkiStore {
  import opened Bytes

  type Name = Key

  datatype CertStatus = Active | Retired

  /** `material` stands for the certificate and private key PEM. */
  datatype CertRecord = CertRecord(commonName: Name, material: Key, notBefore: int, notAfter: int, serial: Key,
                                   status: CertStatus, parentSerial: Option<Key>,
                                   dnsNames: seq<Name>, ipAddresses: seq<Name>)

  predicate IsExpired(r: CertRecord, now: int) {
    now > r.notAfter
  }

  function Retire(r: CertRecord): CertRecord {
    r.(status := Retired)
  }

  datatype Slot = Slot(record: CertRecord, version: int)

  datatype Certs = Certs(active: map<Name, Slot>, history: map<Name, map<Key, CertRecord>>)

  const NO_CERTS := Certs(map[], map[])

  function ActiveOf(st: Certs, cn: Name): Option<Slot> {
    if cn in st.active then Some(st.active[cn]) else None
  }

  /** How often the record of a name was written; 0 when it has none. */
  function VersionOf(st: Certs, cn: Name): int {
    if cn in st.active then st.active[cn].version else 0
  }

  function HistoryOf(st: Certs, cn: Name): map<Key, CertRecord> {
    if cn in st.history then st.history[cn] else map[]
  }

  /** Create if absent; None is `AlreadyExists`. */
  function CreateCert(st: Certs, cn: Name, record: CertRecord): Option<Certs> {
    if cn in st.active then None
    else Some(st.(active := st.active[cn := Slot(record, 1)]))
  }

  /** Replace if the version is the expected one; None is `VersionConflict`. */
  function ReplaceActive(st: Certs, cn: Name, expected: int, record: CertRecord, retired: CertRecord): Option<Certs> {
    if VersionOf(st, cn) != expected then None
    else Some(Certs(st.active[cn := Slot(record, expected + 1)],
                    st.history[cn := HistoryOf(st, cn)[retired.serial := retired]]))
  }

  /** `r` is an answer of the active scan, or of the history scan. */
  predicate InActive(st: Certs, serial: Key, r: CertRecord) {
    r.serial == serial && exists cn :: cn in st.active && st.active[cn].record == r
  }

  predicate InHistory(st: Certs, serial: Key, r: CertRecord) {
    exists cn :: cn in st.history && serial in st.history[cn] && st.history[cn][serial] == r
  }

  /** What a search by serial may answer: active records first, then history. */
  ghost predicate FindsSerial(st: Certs, serial: Key, r: CertRecord) {
    InActive(st, serial, r) || ((forall x :: !InActive(st, serial, x)) && InHistory(st, serial, r))
  }

  ghost predicate Among(past: map<Key, CertRecord>, serials: set<Key>, r: CertRecord) {
    exists x :: x in serials && x in past && past[x] == r
  }

  // ----- The in-memory store -----

  class MemoryPkiStore {
    var active: map<Name, CertRecord>
    var activeVersions: map<Name, int>
    var history: map<Name, map<Key, CertRecord>>

    ghost predicate Valid()
      reads this
    {
      active.Keys == activeVersions.Keys
    }

    ghost function Contents(): Certs
      reads this
      requires Valid()
    {
      Certs(map cn | cn in active :: Slot(active[cn], activeVersions[cn]), history)
    }

    constructor ()
      ensures Valid() && Contents() == NO_CERTS
    {
      active, activeVersions, history := map[], map[], map[];
    }

    method GetCertWithVersion(cn: Name) returns (r: Option<Slot>)
      requires Valid()
      ensures r == ActiveOf(Contents(), cn)
    {
      if cn !in active {
        return None;
      }
      var version := if cn in activeVersions then activeVersions[cn] else 1;
      return Some(Slot(active[cn], version));
    }

    method CreateIfAbsent(cn: Name, record: CertRecord) returns (ok: bool)
      requires Valid()
      modifies this
      ensures Valid()
      ensures var next := CreateCert(old(Contents()), cn, record);
              ok == next.Some? && Contents() == if ok then next.value else old(Contents())
    {
      if cn in active {
        return false;
      }
      active := active[cn := record];
      activeVersions := activeVersions[cn := 1];
      return true;
    }

    method ReplaceIfVersion(cn: Name, expected: int, record: CertRecord, retired: CertRecord) returns (ok: bool)
      requires Valid()
      modifies this
      ensures Valid()
      ensures var next := ReplaceActive(old(Contents()), cn, expected, record, retired);
              ok == next.Some? && Contents() == if ok then next.value else old(Contents())
    {
      var current := if cn in activeVersions then activeVersions[cn] else 0;
      if current != expected {
        return false;
      }
      var past := if cn in history then history[cn] else map[];
      history := history[cn := past[retired.serial := retired]];
      active := active[cn := record];
      activeVersions := activeVersions[cn := expected + 1];
      return true;
    }

    method GetBySerial(serial: Key) returns (r: Option<CertRecord>)
      requires Valid()
      ensures r.Some? ==> FindsSerial(Contents(), serial, r.value)
      ensures r.None? ==> forall x :: !FindsSerial(Contents(), serial, x)
    {
      var names := active.Keys;
      while names != {}
        invariant names <= active.Keys
        invariant forall cn :: cn in active.Keys - names ==> active[cn].serial != serial
        decreases |names|
      {
        var cn :| cn in names;
        if active[cn].serial == serial {
          assert Contents().active[cn].record == active[cn];
          return Some(active[cn]);
        }
        names := names - {cn};
      }
      assert forall x :: !InActive(Contents(), serial, x);
      var pasts := history.Keys;
      while pasts != {}
        invariant pasts <= history.Keys
        invariant forall cn :: cn in history.Keys - pasts ==> serial !in history[cn]
        decreases |pasts|
      {
        var cn :| cn in pasts;
        if serial in history[cn] {
          assert InHistory(Contents(), serial, history[cn][serial]);
          return Some(history[cn][serial]);
        }
        pasts := pasts - {cn};
      }
      return None;
    }

    /** The active record and the history of `cn`, minus what has expired. */
    method ListCerts(cn: Name, now: int) returns (out: seq<CertRecord>)
      requires Valid()
      ensures forall r :: r in out <==>
                !IsExpired(r, now)
                && ((ActiveOf(Contents(), cn).Some? && ActiveOf(Contents(), cn).value.record == r)
                    || Among(HistoryOf(Contents(), cn), HistoryOf(Contents(), cn).Keys, r))
    {
      out := [];
      if cn in active && !IsExpired(active[cn], now) {
        out := [active[cn]];
      }
      ghost var first := out;
      var past := if cn in history then history[cn] else map[];
      var serials := past.Keys;
      while serials != {}
        invariant serials <= past.Keys
        invariant forall r :: r in out <==>
                    r in first || (!IsExpired(r, now) && Among(past, past.Keys - serials, r))
        decreases |serials|
      {
        var x :| x in serials;
        ghost var seen := past.Keys - serials;
        if !IsExpired(past[x], now) {
          out := out + [past[x]];
        }
        serials := serials - {x};
        assert past.Keys - serials == seen + {x};
      }
      assert past.Keys - serials == past.Keys;
    }
  }
}
