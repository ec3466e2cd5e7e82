/** Subject alternative names and lifetimes: what a request effectively asks for. */
module PkiRequest {
  import opened Bytes
  import opened PkiStore

  datatype San = San(dnsNames: seq<Name>, ipAddresses: seq<Name>)

  const NO_SAN := San([], [])

  predicate IsDnsByte(c: Byte) {
    || 48 <= c <= 57 || 65 <= c <= 90 || 97 <= c <= 122       // 0-9 A-Z a-z
    || c == 45 || c == 46 || c == 95 || c == 42               // - . _ *
  }

  predicate IsDnsName(name: Name) {
    0 < |name| <= 253 && forall i :: 0 <= i < |name| ==> IsDnsByte(name[i])
  }

  function Members(names: seq<Name>): set<Name> {
    set n | n in names
  }

  predicate ValidSan(san: San, isIp: Name -> bool) {
    && (forall i :: 0 <= i < |san.dnsNames| ==> IsDnsName(san.dnsNames[i]))
    && (forall i :: 0 <= i < |san.ipAddresses| ==> isIp(san.ipAddresses[i]))
  }

  /** Validated, sorted and without duplicates. */
  function Normalized(san: San, isIp: Name -> bool): Option<San> {
    if ValidSan(san, isIp) then
      Some(San(Enumerate(Members(san.dnsNames)), Enumerate(Members(san.ipAddresses))))
    else None
  }

  method Normalize(san: San, isIp: Name -> bool) returns (r: Option<San>)
    ensures r == Normalized(san, isIp)
  {
    for i := 0 to |san.dnsNames|
      invariant forall j :: 0 <= j < i ==> IsDnsName(san.dnsNames[j])
    {
      if !IsDnsName(san.dnsNames[i]) {
        return None;
      }
    }
    for i := 0 to |san.ipAddresses|
      invariant forall j :: 0 <= j < i ==> isIp(san.ipAddresses[j])
    {
      if !isIp(san.ipAddresses[i]) {
        return None;
      }
    }
    return Some(San(Enumerate(Members(san.dnsNames)), Enumerate(Members(san.ipAddresses))));
  }

  ghost predicate IsNormal(san: San) {
    StrictlySorted(san.dnsNames) && StrictlySorted(san.ipAddresses)
  }

  ghost predicate SameSans(a: San, b: San) {
    Members(a.dnsNames) == Members(b.dnsNames) && Members(a.ipAddresses) == Members(b.ipAddresses)
  }

  /** Two valid requests normalise alike exactly when they name the same sets, in
      whatever order and multiplicity; validity itself depends on the sets only. */
  lemma NormalizedCanonical(a: San, b: San, isIp: Name -> bool)
    ensures SameSans(a, b) ==> Normalized(a, isIp) == Normalized(b, isIp)
    ensures Normalized(a, isIp).Some? && Normalized(a, isIp) == Normalized(b, isIp) ==> SameSans(a, b)
    ensures Normalized(a, isIp).Some? ==>
              && IsNormal(Normalized(a, isIp).value)
              && SameSans(a, Normalized(a, isIp).value)
  {
    if SameSans(a, b) {
      if ValidSan(a, isIp) { SameValidity(a, b, isIp); }
      if ValidSan(b, isIp) { SameValidity(b, a, isIp); }
    }
    EnumerateSorted(Members(a.dnsNames));
    EnumerateSorted(Members(a.ipAddresses));
    EnumerateSorted(Members(b.dnsNames));
    EnumerateSorted(Members(b.ipAddresses));
    assert Members(Enumerate(Members(a.dnsNames))) == Members(a.dnsNames);
    assert Members(Enumerate(Members(a.ipAddresses))) == Members(a.ipAddresses);
    assert Members(Enumerate(Members(b.dnsNames))) == Members(b.dnsNames);
    assert Members(Enumerate(Members(b.ipAddresses))) == Members(b.ipAddresses);
  }

  lemma SameValidity(a: San, b: San, isIp: Name -> bool)
    requires SameSans(a, b) && ValidSan(a, isIp)
    ensures ValidSan(b, isIp)
  {
    forall i | 0 <= i < |b.dnsNames| ensures IsDnsName(b.dnsNames[i]) {
      assert b.dnsNames[i] in Members(a.dnsNames);
      var j :| 0 <= j < |a.dnsNames| && a.dnsNames[j] == b.dnsNames[i];
    }
    forall i | 0 <= i < |b.ipAddresses| ensures isIp(b.ipAddresses[i]) {
      assert b.ipAddresses[i] in Members(a.ipAddresses);
      var j :| 0 <= j < |a.ipAddresses| && a.ipAddresses[j] == b.ipAddresses[i];
    }
  }

  /** Requested names, else the record's when inherited, else the common name. */
  function EffectiveSan(cn: Name, requested: San, inherit: bool, existing: Option<CertRecord>): Option<San> {
    if requested != NO_SAN then Some(requested)
    else if inherit && existing.Some? && (existing.value.dnsNames != [] || existing.value.ipAddresses != []) then
      Some(San(existing.value.dnsNames, existing.value.ipAddresses))
    else if IsDnsName(cn) then Some(San([cn], []))
    else None
  }

  const TWO_64 := 0x1_0000_0000_0000_0000

  /** The signed difference reread as an unsigned 64-bit number. */
  function RecordTtl(r: CertRecord): int {
    var d := r.notAfter - r.notBefore;
    if d >= 0 then d else d + TWO_64
  }

  /** One issue, rotate or renew request against one common name. */
  datatype Request = Request(cn: Name, wantTtl: nat, force: bool, san: San, inherit: bool)

  datatype Decision = Answer(record: CertRecord) | SignNew(san: San) | InvalidRequest

  predicate Satisfies(r: CertRecord, san: San, wantTtl: nat) {
    san.dnsNames == r.dnsNames && san.ipAddresses == r.ipAddresses && RecordTtl(r) == wantTtl
  }

  /** What `ensure_cert` does with the record it just read. */
  function Decide(q: Request, seen: Option<Slot>, now: int): Decision {
    match seen
    case None =>
      (match EffectiveSan(q.cn, q.san, q.inherit, None)
       case None => InvalidRequest
       case Some(san) => SignNew(san))
    case Some(slot) =>
      var reusable := !q.force && !IsExpired(slot.record, now);
      var asked := EffectiveSan(q.cn, q.san, false, Some(slot.record));
      if reusable && asked.None? then InvalidRequest
      else if reusable && Satisfies(slot.record, asked.value, q.wantTtl) then Answer(slot.record)
      else
        match EffectiveSan(q.cn, q.san, q.inherit, Some(slot.record))
        case None => InvalidRequest
        case Some(san) => SignNew(san)
  }
}
