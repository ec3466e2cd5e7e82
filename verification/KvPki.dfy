/** The certificate store kept in the key-value store: each compare-and-swap is
    one v1 transaction, and those transactions refine the abstract store. */
module KvPki {
  import opened Bytes
  import opened Kv
  import opened V1Txn
  import opened PkiStore

  const SLASH: Byte := 47

  /** "/_pki/v1/certs/" */
  const ACTIVE_PREFIX: Key := [47, 95, 112, 107, 105, 47, 118, 49, 47, 99, 101, 114, 116, 115, 47]

  /** "/_pki/v1/history/" */
  const HISTORY_ROOT: Key := [47, 95, 112, 107, 105, 47, 118, 49, 47, 104, 105, 115, 116, 111, 114, 121, 47]

  function ActiveKey(cn: Name): Key {
    ACTIVE_PREFIX + cn
  }

  function HistoryPrefix(cn: Name): Key {
    HISTORY_ROOT + cn + [SLASH]
  }

  function HistoryKey(cn: Name, serial: Key): Key {
    HISTORY_ROOT + cn + [SLASH] + serial
  }

  /** Serials are hexadecimal, so they hold no separator. */
  predicate IsSerial(x: Key) {
    SLASH !in x
  }

  lemma KeysDisjoint(cn: Name, n: Name, x: Key)
    ensures ActiveKey(cn) != HistoryKey(n, x)
  {
    assert ActiveKey(cn)[9] == 99 && HistoryKey(n, x)[9] == 104;
  }

  lemma ActiveKeyInjective(a: Name, b: Name)
    requires ActiveKey(a) == ActiveKey(b)
    ensures a == b
  {
    assert ActiveKey(a)[|ACTIVE_PREFIX|..] == a && ActiveKey(b)[|ACTIVE_PREFIX|..] == b;
  }

  lemma LongerHoldsSlash(a: Name, x: Key, b: Name, y: Key)
    requires HistoryKey(a, x) == HistoryKey(b, y)
    ensures |x| < |y| ==> SLASH in y
  {
    if |x| < |y| {
      var k := HistoryKey(a, x);
      assert k[|k| - 1 - |x|] == SLASH;
      assert k[|k| - |y|..] == y;
      assert y[|y| - 1 - |x|] == SLASH;
    }
  }

  /** A name may hold slashes; the serial after the last one still tells the
      history keys apart. */
  lemma HistoryKeyInjective(a: Name, x: Key, b: Name, y: Key)
    requires IsSerial(x) && IsSerial(y) && HistoryKey(a, x) == HistoryKey(b, y)
    ensures a == b && x == y
  {
    LongerHoldsSlash(a, x, b, y);
    LongerHoldsSlash(b, y, a, x);
    var k, n := HistoryKey(a, x), |HISTORY_ROOT|;
    assert k[|k| - |x|..] == x && k[|k| - |y|..] == y;
    assert k[n..n + |a|] == a && k[n..n + |b|] == b;
  }

  // ----- The transactions -----

  function VersionIs(key: Key, version: int): Compare {
    Compare(EQUAL, TARGET_VERSION, key, Some(Version(version)))
  }

  function PutOp(key: Key, value: Key): RequestOp {
    RequestPut(key, value, 0, false)
  }

  function CreateTxn(cn: Name, record: CertRecord, enc: CertRecord -> Key): Txn {
    Txn([VersionIs(ActiveKey(cn), 0)], [PutOp(ActiveKey(cn), enc(record))], [])
  }

  function ReplaceTxn(cn: Name, expected: int, record: CertRecord, retired: CertRecord, enc: CertRecord -> Key): Txn {
    Txn([VersionIs(ActiveKey(cn), expected)],
        [PutOp(HistoryKey(cn, retired.serial), enc(retired)), PutOp(ActiveKey(cn), enc(record))], [])
  }

  // ----- The representation -----

  function VersionAt(s: Store, k: Key): int {
    if k in s && !s[k].deleted then s[k].version else 0
  }

  /** The row under `k` holds exactly this value; nothing here is ever deleted. */
  predicate Stores(s: Store, k: Key, value: Option<Key>) {
    match value
    case None => k !in s
    case Some(v) => k in s && !s[k].deleted && s[k].value == v
  }

  function EncodeAt(m: map<Key, CertRecord>, x: Key, enc: CertRecord -> Key): Option<Key> {
    if x in m then Some(enc(m[x])) else None
  }

  function EncodeActive(slot: Option<Slot>, enc: CertRecord -> Key): Option<Key> {
    if slot.Some? then Some(enc(slot.value.record)) else None
  }

  ghost predicate RepresentsActive(s: Store, st: Certs, enc: CertRecord -> Key, cn: Name) {
    && Stores(s, ActiveKey(cn), EncodeActive(ActiveOf(st, cn), enc))
    && (cn in st.active ==> s[ActiveKey(cn)].version == st.active[cn].version)
    && (cn in st.active ==> st.active[cn].version > 0)
  }

  ghost predicate RepresentsHistory(s: Store, st: Certs, enc: CertRecord -> Key, cn: Name, x: Key) {
    Stores(s, HistoryKey(cn, x), EncodeAt(HistoryOf(st, cn), x, enc))
  }

  ghost predicate Represents(s: Store, st: Certs, enc: CertRecord -> Key) {
    && (forall cn :: RepresentsActive(s, st, enc, cn))
    && (forall cn, x :: IsSerial(x) ==> RepresentsHistory(s, st, enc, cn, x))
  }

  lemma EmptyRepresents(enc: CertRecord -> Key)
    ensures Represents(map[], NO_CERTS, enc)
  {
  }

  /** A point read answers the active record and its version. */
  lemma ReadRefines(s: Store, st: Certs, enc: CertRecord -> Key, dec: Key -> Option<CertRecord>, cn: Name)
    requires Represents(s, st, enc) && (forall r :: dec(enc(r)) == Some(r))
    ensures var row := VisibleAt(s, ActiveKey(cn));
            ActiveOf(st, cn) == if row.None? then None
                                else match dec(row.value.value)
                                     case None => None
                                     case Some(r) => Some(Slot(r, row.value.version))
  {
    assert RepresentsActive(s, st, enc, cn);
    if cn in st.active {
      assert dec(enc(st.active[cn].record)) == Some(st.active[cn].record);
    }
  }

  lemma OnePut(s: Store, k: Key, v: Key, ts: int)
    ensures WellFormedOps([PutOp(k, v)])
    ensures RunOps(s, [PutOp(k, v)], ts).0 == s[k := PutRow(Lookup(s, k), v, 0, ts)]
  {
    var op := PutOp(k, v);
    assert [op][1..] == [];
    var after := StoreAfter(s, op, ts);
    assert RunOps(after, [], ts) == (after, []);
  }

  lemma TwoPuts(s: Store, k: Key, v: Key, l: Key, w: Key, ts: int)
    requires k != l
    ensures WellFormedOps([PutOp(k, v), PutOp(l, w)])
    ensures RunOps(s, [PutOp(k, v), PutOp(l, w)], ts).0
         == s[k := PutRow(Lookup(s, k), v, 0, ts)][l := PutRow(Lookup(s, l), w, 0, ts)]
  {
    var ops := [PutOp(k, v), PutOp(l, w)];
    assert ops[1..] == [PutOp(l, w)];
    OnePut(StoreAfter(s, ops[0], ts), l, w, ts);
  }

  lemma CompareVersion(s: Store, key: Key, version: int)
    ensures WellFormedCompare(VersionIs(key, version))
    ensures AllHold(s, [VersionIs(key, version)]) <==> VersionAt(s, key) == version
  {
    assert Holds(VersionIs(key, version), VisibleAt(s, key)) <==> VersionAt(s, key) == version;
    var cs := [VersionIs(key, version)];
    assert AllHold(s, cs) <==> Holds(cs[0], VisibleAt(s, cs[0].key));
  }

  /** The create transaction is the abstract create, and succeeds exactly with it. */
  lemma CreateRefines(s: Store, st: Certs, enc: CertRecord -> Key, cn: Name, record: CertRecord, ts: int)
    requires Represents(s, st, enc)
    ensures var t := CreateTxn(cn, record, enc);
            && WellFormed(t)
            && var v, next := RunTxn(s, t, ts), CreateCert(st, cn, record);
               v.succeeded == next.Some? && Represents(v.store, if next.Some? then next.value else st, enc)
  {
    var t, next := CreateTxn(cn, record, enc), CreateCert(st, cn, record);
    CompareVersion(s, ActiveKey(cn), 0);
    OnePut(s, ActiveKey(cn), enc(record), ts);
    assert RepresentsActive(s, st, enc, cn);
    if next.Some? {
      var s' := s[ActiveKey(cn) := PutRow(None, enc(record), 0, ts)];
      assert RunTxn(s, t, ts).store == s';
      forall n ensures RepresentsActive(s', next.value, enc, n) {
        assert RepresentsActive(s, st, enc, n);
        if n != cn && ActiveKey(n) == ActiveKey(cn) { ActiveKeyInjective(n, cn); }
      }
      forall n, x | IsSerial(x) ensures RepresentsHistory(s', next.value, enc, n, x) {
        assert RepresentsHistory(s, st, enc, n, x);
        KeysDisjoint(cn, n, x);
      }
    }
  }

  lemma ReplacedStore(s: Store, st: Certs, enc: CertRecord -> Key, cn: Name, expected: int, record: CertRecord,
                      retired: CertRecord, ts: int)
    requires Represents(s, st, enc) && IsSerial(retired.serial)
    requires ReplaceActive(st, cn, expected, record, retired).Some?
    ensures var h, a := HistoryKey(cn, retired.serial), ActiveKey(cn);
            var s' := s[h := PutRow(Lookup(s, h), enc(retired), 0, ts)][a := PutRow(Lookup(s, a), enc(record), 0, ts)];
            Represents(s', ReplaceActive(st, cn, expected, record, retired).value, enc)
  {
    var h, a := HistoryKey(cn, retired.serial), ActiveKey(cn);
    var s' := s[h := PutRow(Lookup(s, h), enc(retired), 0, ts)][a := PutRow(Lookup(s, a), enc(record), 0, ts)];
    var st' := ReplaceActive(st, cn, expected, record, retired).value;
    forall n ensures RepresentsActive(s', st', enc, n) {
      assert RepresentsActive(s, st, enc, n);
      KeysDisjoint(n, cn, retired.serial);
      if n != cn && ActiveKey(n) == a { ActiveKeyInjective(n, cn); }
    }
    forall n, x | IsSerial(x) ensures RepresentsHistory(s', st', enc, n, x) {
      assert RepresentsHistory(s, st, enc, n, x);
      KeysDisjoint(cn, n, x);
      if HistoryKey(n, x) == h { HistoryKeyInjective(n, x, cn, retired.serial); }
    }
  }

  /** The replace transaction is the abstract replace: same verdict, and on
      success old record into history and new record active, both or neither. */
  lemma ReplaceRefines(s: Store, st: Certs, enc: CertRecord -> Key, cn: Name, expected: int, record: CertRecord,
                       retired: CertRecord, ts: int)
    requires Represents(s, st, enc) && IsSerial(retired.serial)
    ensures var t := ReplaceTxn(cn, expected, record, retired, enc);
            && WellFormed(t)
            && var v, next := RunTxn(s, t, ts), ReplaceActive(st, cn, expected, record, retired);
               v.succeeded == next.Some? && Represents(v.store, if next.Some? then next.value else st, enc)
  {
    var t, next := ReplaceTxn(cn, expected, record, retired, enc), ReplaceActive(st, cn, expected, record, retired);
    var h, a := HistoryKey(cn, retired.serial), ActiveKey(cn);
    CompareVersion(s, a, expected);
    KeysDisjoint(cn, cn, retired.serial);
    TwoPuts(s, h, enc(retired), a, enc(record), ts);
    assert RepresentsActive(s, st, enc, cn);
    if next.Some? {
      ReplacedStore(s, st, enc, cn, expected, record, retired, ts);
    }
  }

  // ----- Listing one name's history -----

  lemma LongNameHoldsSlash(cn: Name, n: Name, x: Key)
    ensures HasPrefix(HistoryKey(n, x), HistoryPrefix(cn)) && |n| < |cn| ==> SLASH in x
  {
    var k, p := HistoryKey(n, x), HistoryPrefix(cn);
    if HasPrefix(k, p) && |n| < |cn| {
      assert k[|p| - 1] == k[..|p|][|p| - 1] == SLASH;
      assert x[|cn| - |n| - 1] == k[|p| - 1];
    }
  }

  /** The prefix scan that lists a name's history sees exactly that name and the
      names that extend it past a separator. */
  lemma HistoryScanHits(cn: Name, n: Name, x: Key)
    requires IsSerial(x)
    ensures HasPrefix(HistoryKey(n, x), HistoryPrefix(cn)) <==> n == cn || HasPrefix(n, cn + [SLASH])
  {
    var k, p, r := HistoryKey(n, x), HistoryPrefix(cn), |HISTORY_ROOT|;
    if HasPrefix(k, p) && |n| > |cn| {
      assert n == k[r..r + |n|] && cn + [SLASH] == p[r..];
      assert n[..|cn| + 1] == k[r..|p|] == p[r..];
    }
    LongNameHoldsSlash(cn, n, x);
    if HasPrefix(k, p) && |n| == |cn| {
      assert n == k[r..r + |n|] && cn == p[r..r + |cn|];
      assert k[r..r + |n|] == k[..|p|][r..r + |n|];
    }
    if HasPrefix(n, cn + [SLASH]) {
      assert k[..|p|] == HISTORY_ROOT + n[..|cn| + 1];
    }
    if n == cn {
      assert k[..|p|] == p;
    }
  }

  /** So listing "a" also returns the history of "a/b". */
  lemma HistoryScanLeaks()
    ensures HasPrefix(HistoryKey([97, SLASH, 98], [49]), HistoryPrefix([97]))
  {
    HistoryScanHits([97], [97, SLASH, 98], [49]);
    assert HasPrefix([97, SLASH, 98], [97] + [SLASH]);
  }
}
