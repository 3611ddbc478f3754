/** The address-family check of `set_cf_record` (cf-ddns.py:77-93). */
module Address {
  import opened Options

  /** `is_ipv4` and `is_ipv6`: the operating system's `inet_pton` for AF_INET and AF_INET6,
      kept abstract as two predicates on the address text. The model's classifier always
      answers; the source functions turn only `socket.error` into False and can raise otherwise. */
  datatype Classifier = Classifier(isIPv4: string -> bool, isIPv6: string -> bool)

  /** Why an address was refused for the requested record type. */
  datatype Rejection =
    | IPv6ForA(addr: string)
    | NotIPv4(addr: string)
    | IPv4ForAAAA(addr: string)
    | NotIPv6(addr: string)

  /** The line printed before `exit(1)`. */
  function Message(r: Rejection): (m: string)
    ensures |m| > |r.addr| && m[..|r.addr|] == r.addr
  {
    match r
    case IPv6ForA(a) => a + " is an IPv6 address. Use --type AAAA."
    case NotIPv4(a) => a + " is not a valid IPv4 address."
    case IPv4ForAAAA(a) => a + " is an IPv4 address. Use --type A."
    case NotIPv6(a) => a + " is not a valid IPv6 address."
  }

  /** The address belongs to the family the record type names, and only to it;
      a record type other than A and AAAA puts no demand on the address. */
  predicate Fits(rtype: string, addr: string, fam: Classifier)
  {
    (rtype == "A" ==> fam.isIPv4(addr) && !fam.isIPv6(addr)) &&
    (rtype == "AAAA" ==> fam.isIPv6(addr) && !fam.isIPv4(addr))
  }

  /** The checks in source order: None when the address may be published under `rtype`,
      otherwise the refusal of the first check that fails (the wrong family is reported
      before the missing one). */
  function Validate(rtype: string, addr: string, fam: Classifier): (r: Option<Rejection>)
    ensures r.None? <==> Fits(rtype, addr, fam)
    ensures r.Some? ==> r.value.addr == addr && (rtype == "A" || rtype == "AAAA")
    ensures r.Some? && (r.value.IPv6ForA? || r.value.NotIPv4?) ==> rtype == "A"
    ensures r.Some? && (r.value.IPv4ForAAAA? || r.value.NotIPv6?) ==> rtype == "AAAA"
    ensures r == Some(IPv6ForA(addr)) <==> rtype == "A" && fam.isIPv6(addr)
    ensures r == Some(NotIPv4(addr)) <==> rtype == "A" && !fam.isIPv6(addr) && !fam.isIPv4(addr)
    ensures r == Some(IPv4ForAAAA(addr)) <==> rtype == "AAAA" && fam.isIPv4(addr)
    ensures r == Some(NotIPv6(addr)) <==> rtype == "AAAA" && !fam.isIPv4(addr) && !fam.isIPv6(addr)
  {
    if rtype == "A" && fam.isIPv6(addr) then Some(IPv6ForA(addr))
    else if rtype == "A" && !fam.isIPv4(addr) then Some(NotIPv4(addr))
    else if rtype == "AAAA" && fam.isIPv4(addr) then Some(IPv4ForAAAA(addr))
    else if rtype == "AAAA" && !fam.isIPv6(addr) then Some(NotIPv6(addr))
    else None
  }
}
