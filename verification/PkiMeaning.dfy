/** What a certificate request asks for, said of the record it is answered with. */
module PkiMeaning {
  import opened Bytes
  import opened PkiStore
  import opened PkiRequest

  /** Letters, digits and four marks make a host name. */
  lemma DnsByteIff(c: Byte)
    ensures var x := c as char;
            IsDnsByte(c) <==> '0' <= x <= '9' || 'A' <= x <= 'Z' || 'a' <= x <= 'z' || x in {'-', '.', '_', '*'}
  {
  }

  predicate HasNames(r: CertRecord) {
    r.dnsNames != [] || r.ipAddresses != []
  }

  /** The names of a certificate for `q` that replaces `previous`: the requested
      ones; without any, those of the certificate replaced if they are inherited
      and there are any; otherwise the common name alone. */
  predicate Carries(q: Request, previous: Option<CertRecord>, dnsNames: seq<Name>, ipAddresses: seq<Name>) {
    if q.san.dnsNames != [] || q.san.ipAddresses != [] then
      dnsNames == q.san.dnsNames && ipAddresses == q.san.ipAddresses
    else if q.inherit && previous.Some? && HasNames(previous.value) then
      dnsNames == previous.value.dnsNames && ipAddresses == previous.value.ipAddresses
    else IsDnsName(q.cn) && dnsNames == [q.cn] && ipAddresses == []
  }

  predicate NoNames(q: Request, previous: Option<CertRecord>) {
    && q.san.dnsNames == [] && q.san.ipAddresses == []
    && !(q.inherit && previous.Some? && HasNames(previous.value))
    && !IsDnsName(q.cn)
  }

  /** Nothing to certify. An issue that might answer the record read does not inherit
      from it. */
  predicate Refused(q: Request, previous: Option<CertRecord>, now: int) {
    || NoNames(q, previous)
    || (!q.force && previous.Some? && now <= previous.value.notAfter && NoNames(q.(inherit := false), None))
  }

  /** The validity in seconds, as an unsigned 64-bit difference. */
  predicate LastsFor(r: CertRecord, ttl: nat) {
    r.notAfter - r.notBefore == ttl
    || (r.notAfter < r.notBefore && r.notAfter - r.notBefore + 0x1_0000_0000_0000_0000 == ttl)
  }

  /** The record is unexpired and has the names and the lifetime asked for, none inherited. */
  predicate Reusable(q: Request, r: CertRecord, now: int) {
    !q.force && now <= r.notAfter && LastsFor(r, q.wantTtl)
    && Carries(q.(inherit := false), None, r.dnsNames, r.ipAddresses)
  }

  function RecordOf(seen: Option<Slot>): Option<CertRecord> {
    if seen.Some? then Some(seen.value.record) else None
  }

  /** Issuing, rotating and renewing: the record read is answered exactly when it is
      reusable, the request is refused exactly when it leaves no names to certify,
      and otherwise the certificate signed carries the names that it should. */
  lemma DecideIff(q: Request, seen: Option<Slot>, now: int)
    ensures forall r :: Decide(q, seen, now) == Answer(r) <==> RecordOf(seen) == Some(r) && Reusable(q, r, now)
    ensures Decide(q, seen, now).InvalidRequest? <==> Refused(q, RecordOf(seen), now)
    ensures Decide(q, seen, now).SignNew? ==>
              var san := Decide(q, seen, now).san; Carries(q, RecordOf(seen), san.dnsNames, san.ipAddresses)
  {
  }
}
