/** The `__main__` block of cf-ddns.py (176-198): build the record name, pick the address,
    and hand it to `set_cf_record`. */
module Dispatch {
  import opened Options
  import opened Address
  import opened Records
  import opened Trace
  import opened Reconciler
  import opened Resolver
  import opened Strings

  /** The parsed command line, reduced to what the reconciliation reads: `--domain`,
      `--subdomain`, `--content`, `--type` and `--cf-mode`. */
  datatype Args = Args(domain: string, subdomain: Option<string>, content: Option<string>,
                       rtype: string, mode: string)

  /** The fully-qualified record name: `subdomain.domain` for a non-empty subdomain, else the
      zone itself. The zone always ends the name, and a given subdomain can be read back off its front. */
  function Fqdn(subdomain: Option<string>, domain: string): (name: string)
    ensures |name| >= |domain| && name[|name| - |domain|..] == domain
    ensures Truthy(subdomain) <==> |name| > |domain|
    ensures Truthy(subdomain) ==>
      |name| == |subdomain.value| + 1 + |domain| &&
      name[..|subdomain.value|] == subdomain.value && name[|subdomain.value|] == '.'
    ensures !Truthy(subdomain) ==> name == domain
  {
    if Truthy(subdomain) then subdomain.value + "." + domain else domain
  }

  /** The outcome of one run. */
  function RunSpec(args: Args, fam: Classifier, services: seq<Service>, api: Api): Outcome
  {
    var target := Fqdn(args.subdomain, args.domain);
    if Truthy(args.content) then
      Reconcile(target, args.domain, args.content.value, args.rtype, args.mode, fam, api)
    else
      var ip := LastSuccess(services);
      if Truthy(ip) then
        var o := Reconcile(target, args.domain, ip.value, args.rtype, args.mode, fam, api);
        Outcome(Fetches(services) + o.calls, o.status)
      else
        Outcome(Fetches(services), NoExternalIp)
  }

  /** The script's dispatch: an explicit `--content` is published as given; otherwise every
      address service is asked and a truthy answer is published. */
  method Run(args: Args, fam: Classifier, services: seq<Service>, api: Api) returns (o: Outcome)
    ensures o == RunSpec(args, fam, services, api)
  {
    var target := Fqdn(args.subdomain, args.domain);
    if Truthy(args.content) {
      o := SetCfRecord(target, args.domain, args.content.value, args.rtype, args.mode, fam, api);
    } else {
      var ip, fetched := GetExternalIp(services);
      if Truthy(ip) {
        var r := SetCfRecord(target, args.domain, ip.value, args.rtype, args.mode, fam, api);
        o := Outcome(fetched + r.calls, r.status);
      } else {
        o := Outcome(fetched, NoExternalIp);
      }
    }
  }

  /** An explicit `--content` is published as given: no address service is asked. */
  lemma ExplicitContentAsksNoService(args: Args, fam: Classifier, services: seq<Service>, api: Api)
    requires Truthy(args.content)
    ensures forall c :: c in RunSpec(args, fam, services, api).calls ==> !c.Fetch?
    ensures RunSpec(args, fam, services, api) ==
      Reconcile(Fqdn(args.subdomain, args.domain), args.domain, args.content.value, args.rtype, args.mode, fam, api)
  {
  }

  /** Without `--content`, every service is asked, in order, before anything else happens; when
      the discovered address is falsy the run ends with an error log line and no record call. */
  lemma NoAddressNoRecordCall(args: Args, fam: Classifier, services: seq<Service>, api: Api)
    requires !Truthy(args.content)
    ensures var o := RunSpec(args, fam, services, api);
      |o.calls| >= |services| && o.calls[..|services|] == Fetches(services)
    ensures var o := RunSpec(args, fam, services, api);
      !Truthy(LastSuccess(services)) ==>
        o.status == NoExternalIp && forall c :: c in o.calls ==> !IsRecordCall(c)
  {
    var o := RunSpec(args, fam, services, api);
    if Truthy(LastSuccess(services)) {
      assert o.calls[..|services|] == Fetches(services);
    }
  }

  /** A run that is refused for a type/address mismatch makes no DNS provider call. */
  lemma RejectionMakesNoRecordCall(args: Args, fam: Classifier, services: seq<Service>, api: Api)
    ensures var o := RunSpec(args, fam, services, api);
      o.status.Rejected? ==> forall c :: c in o.calls ==> !IsRecordCall(c)
  {
    var target := Fqdn(args.subdomain, args.domain);
    var ip := LastSuccess(services);
    if !Truthy(args.content) && Truthy(ip) {
      var r := Reconcile(target, args.domain, ip.value, args.rtype, args.mode, fam, api);
      assert r.status.Rejected? ==> r.calls == [];
    }
  }

  /** Zone `example.com`, subdomain `home`, an A record holding 203.0.113.5 and the content
      203.0.113.9: one edit of that record with the new content. */
  lemma EditExample(fam: Classifier, mutationOk: bool)
    requires fam.isIPv4("203.0.113.9") && !fam.isIPv6("203.0.113.9")
    ensures var records := [Record("42", "home.example.com", "A", "203.0.113.5")];
      RunSpec(Args("example.com", Some("home"), Some("203.0.113.9"), "A", "1"), fam, [], Api(Some(records), mutationOk)).calls ==
        [RecLoadAll("example.com"), RecEdit("example.com", "A", "42", "home.example.com", "203.0.113.9", "1")]
  {
    var records := [Record("42", "home.example.com", "A", "203.0.113.5")];
    assert Fqdn(Some("home"), "example.com") == "home.example.com";
    DifferentContentIsOneEdit("home.example.com", "example.com", "203.0.113.9", "A", "1", fam, records, mutationOk, 0);
  }

  /** The first service fails and the second answers `198.51.100.7` followed by a newline: that
      address is the one published. */
  lemma FallbackServiceExample(args: Args, fam: Classifier, api: Api)
    requires !Truthy(args.content)
    ensures var services := [Service("http://a.example", None), Service("http://b.example", Some("198.51.100.7\n"))];
      RunSpec(args, fam, services, api) ==
        var o := Reconcile(Fqdn(args.subdomain, args.domain), args.domain, "198.51.100.7", args.rtype, args.mode, fam, api);
        Outcome(Fetches(services) + o.calls, o.status)
  {
    var services := [Service("http://a.example", None), Service("http://b.example", Some("198.51.100.7\n"))];
    assert TrimLeft("198.51.100.7\n") == "198.51.100.7\n";
    assert "198.51.100.7\n"[..|"198.51.100.7\n"| - 1] == "198.51.100.7";
    assert LastSuccess(services) == Some("198.51.100.7");
  }
}
