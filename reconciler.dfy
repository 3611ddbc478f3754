/** `set_cf_record` (cf-ddns.py:74-130): check the address against the record type, list the
    zone, and keep, edit or create the record named `target`. */
module Reconciler {
  import opened Options
  import opened Address
  import opened Records
  import opened Trace

  /** The DNS provider as seen by one run: the zone listing `rec_load_all` returns (None when it
      raises `APIError`), and whether the one edit or create call returns rather than raising. */
  datatype Api = Api(records: Option<seq<Record>>, mutationOk: bool)

  /** The outcome `set_cf_record` produces. */
  function Reconcile(target: string, domain: string, addr: string, rtype: string, mode: string,
                     fam: Classifier, api: Api): (o: Outcome)
    ensures o.status.Rejected? <==> !Fits(rtype, addr, fam)
    ensures o.status.Rejected? ==> o.calls == []
    ensures !o.status.Rejected? ==> 1 <= |o.calls| <= 2 && o.calls[0] == RecLoadAll(domain)
    ensures Fits(rtype, addr, fam) && api.records.None? ==> o == Outcome([RecLoadAll(domain)], ApiError)
    ensures o.status.Rejected? ==> o.status.message == Message(Validate(rtype, addr, fam).value)
  {
    match Validate(rtype, addr, fam)
    case Some(rejection) => Outcome([], Rejected(Message(rejection)))
    case None =>
      match api.records
      case None => Outcome([RecLoadAll(domain)], ApiError)
      case Some(records) =>
        match Decide(records, target, addr)
        case Unchanged => Outcome([RecLoadAll(domain)], Identical)
        case UpdateExisting(id, name) =>
          Outcome([RecLoadAll(domain), RecEdit(domain, rtype, id, name, addr, mode)],
                  if api.mutationOk then Updated else ApiError)
        case AddNew =>
          Outcome([RecLoadAll(domain), RecNew(domain, rtype, addr, target, mode)],
                  if api.mutationOk then Added else ApiError)
  }

  /** The script's own steps: the two checks, the listing, and the `for` loop that keeps
      `rec_name` and `rec_id`, returns on an identical record and breaks on the first name match. */
  method SetCfRecord(target: string, domain: string, addr: string, rtype: string, mode: string,
                     fam: Classifier, api: Api) returns (o: Outcome)
    ensures o == Reconcile(target, domain, addr, rtype, mode, fam, api)
  {
    var rejection := Validate(rtype, addr, fam);
    if rejection.Some? {
      return Outcome([], Rejected(Message(rejection.value)));
    }
    if api.records.None? {
      return Outcome([RecLoadAll(domain)], ApiError);
    }
    var records := api.records.value;
    var recId: Option<string> := None;
    var recName: Option<string> := None;
    for i := 0 to |records|
      invariant recId == None
      invariant forall j :: 0 <= j < i ==> records[j].name != target
    {
      recName := Some(records[i].name);
      if recName.value == target {
        if records[i].content == addr {
          return Outcome([RecLoadAll(domain)], Identical);
        }
        recId := Some(records[i].recId);
        break;
      }
    }
    if Truthy(recId) {
      var call := RecEdit(domain, rtype, recId.value, recName.value, addr, mode);
      o := Outcome([RecLoadAll(domain), call], if api.mutationOk then Updated else ApiError);
    } else {
      var call := RecNew(domain, rtype, addr, target, mode);
      o := Outcome([RecLoadAll(domain), call], if api.mutationOk then Added else ApiError);
    }
  }

  /** A type A address that is IPv6 or not IPv4, or a type AAAA address that is IPv4 or not
      IPv6, ends the run with exit status 1 before any DNS provider call; nothing else does.
      The line printed is the one of the first check that fails. */
  lemma RejectedBeforeAnyCall(target: string, domain: string, addr: string, rtype: string, mode: string,
                              fam: Classifier, api: Api)
    ensures var o := Reconcile(target, domain, addr, rtype, mode, fam, api);
      o.status.Rejected? <==>
        (rtype == "A" && (fam.isIPv6(addr) || !fam.isIPv4(addr))) ||
        (rtype == "AAAA" && (fam.isIPv4(addr) || !fam.isIPv6(addr)))
    ensures var o := Reconcile(target, domain, addr, rtype, mode, fam, api);
      o.status.Rejected? ==> o.calls == []
    ensures var o := Reconcile(target, domain, addr, rtype, mode, fam, api);
      rtype == "A" && fam.isIPv6(addr) ==>
        o.status == Rejected(addr + " is an IPv6 address. Use --type AAAA.")
    ensures var o := Reconcile(target, domain, addr, rtype, mode, fam, api);
      rtype == "A" && !fam.isIPv6(addr) && !fam.isIPv4(addr) ==>
        o.status == Rejected(addr + " is not a valid IPv4 address.")
    ensures var o := Reconcile(target, domain, addr, rtype, mode, fam, api);
      rtype == "AAAA" && fam.isIPv4(addr) ==>
        o.status == Rejected(addr + " is an IPv4 address. Use --type A.")
    ensures var o := Reconcile(target, domain, addr, rtype, mode, fam, api);
      rtype == "AAAA" && !fam.isIPv4(addr) && !fam.isIPv6(addr) ==>
        o.status == Rejected(addr + " is not a valid IPv6 address.")
  {
  }

  /** A listing that raises `APIError` ends the run with the error status after that one call:
      nothing is edited or created, and nothing is retried. */
  lemma ListingFailureMakesNoMutation(target: string, domain: string, addr: string, rtype: string, mode: string,
                                      fam: Classifier, mutationOk: bool)
    requires Fits(rtype, addr, fam)
    ensures var o := Reconcile(target, domain, addr, rtype, mode, fam, Api(None, mutationOk));
      o == Outcome([RecLoadAll(domain)], ApiError) && forall c :: c in o.calls ==> !IsMutation(c)
  {
  }

  /** Record types other than A and AAAA skip the address check: the outcome does not depend
      on how the address would classify. */
  lemma OtherTypesSkipValidation(target: string, domain: string, addr: string, rtype: string, mode: string,
                                 fam: Classifier, other: Classifier, api: Api)
    requires rtype != "A" && rtype != "AAAA"
    ensures Reconcile(target, domain, addr, rtype, mode, fam, api) == Reconcile(target, domain, addr, rtype, mode, other, api)
    ensures !Reconcile(target, domain, addr, rtype, mode, fam, api).status.Rejected?
  {
  }

  /** Every edit or create call carries the zone, the requested type, the address unchanged
      and the requested service mode, under the target name. */
  lemma MutationCarriesRequest(target: string, domain: string, addr: string, rtype: string, mode: string,
                               fam: Classifier, api: Api)
    ensures forall c :: c in Reconcile(target, domain, addr, rtype, mode, fam, api).calls && IsMutation(c) ==>
      c.domain == domain && c.rtype == rtype && c.content == addr && c.mode == mode && c.name == target
  {
  }

  /** The first record named `target` already holds the address: the zone is listed and
      nothing is edited or created. */
  lemma IdenticalRecordIsKept(target: string, domain: string, addr: string, rtype: string, mode: string,
                              fam: Classifier, records: seq<Record>, mutationOk: bool, k: nat)
    requires Fits(rtype, addr, fam)
    requires IsFirstMatch(records, target, k) && records[k].content == addr
    ensures Reconcile(target, domain, addr, rtype, mode, fam, Api(Some(records), mutationOk)) ==
      Outcome([RecLoadAll(domain)], Identical)
  {
    DecideByFirstMatch(records, target, addr, k);
  }

  /** The first record named `target` holds other content and has an id: exactly one edit,
      of that record, and no create. */
  lemma DifferentContentIsOneEdit(target: string, domain: string, addr: string, rtype: string, mode: string,
                                  fam: Classifier, records: seq<Record>, mutationOk: bool, k: nat)
    requires Fits(rtype, addr, fam)
    requires IsFirstMatch(records, target, k) && records[k].content != addr && records[k].recId != ""
    ensures Reconcile(target, domain, addr, rtype, mode, fam, Api(Some(records), mutationOk)) ==
      Outcome([RecLoadAll(domain), RecEdit(domain, rtype, records[k].recId, target, addr, mode)],
              if mutationOk then Updated else ApiError)
  {
    DecideByFirstMatch(records, target, addr, k);
  }

  /** No record is named `target`: exactly one create and no edit. */
  lemma NoMatchIsOneCreate(target: string, domain: string, addr: string, rtype: string, mode: string,
                           fam: Classifier, records: seq<Record>, mutationOk: bool)
    requires Fits(rtype, addr, fam)
    requires forall j :: 0 <= j < |records| ==> records[j].name != target
    ensures Reconcile(target, domain, addr, rtype, mode, fam, Api(Some(records), mutationOk)) ==
      Outcome([RecLoadAll(domain), RecNew(domain, rtype, addr, target, mode)],
              if mutationOk then Added else ApiError)
  {
    DecideWithoutMatch(records, target, addr);
  }

  /** The first record named `target` holds other content but its id is empty (falsy): the
      script creates a second record of that name instead of editing the first. */
  lemma MatchWithoutIdIsRecreated(target: string, domain: string, addr: string, rtype: string, mode: string,
                                  fam: Classifier, records: seq<Record>, mutationOk: bool, k: nat)
    requires Fits(rtype, addr, fam)
    requires IsFirstMatch(records, target, k) && records[k].content != addr && records[k].recId == ""
    ensures Reconcile(target, domain, addr, rtype, mode, fam, Api(Some(records), mutationOk)).calls ==
      [RecLoadAll(domain), RecNew(domain, rtype, addr, target, mode)]
  {
    DecideByFirstMatch(records, target, addr, k);
  }

  /** When every listed record has an id, a create is issued only if no record is named
      `target`, so a run never duplicates a name it found. */
  lemma NoDuplicateWhenIdsPresent(target: string, domain: string, addr: string, rtype: string, mode: string,
                                  fam: Classifier, records: seq<Record>, mutationOk: bool)
    requires forall j :: 0 <= j < |records| ==> records[j].recId != ""
    ensures var o := Reconcile(target, domain, addr, rtype, mode, fam, Api(Some(records), mutationOk));
      (exists c :: c in o.calls && c.RecNew?) ==> forall j :: 0 <= j < |records| ==> records[j].name != target
  {
    match FirstMatch(records, target)
    case None =>
    case Some(k) =>
      DecideByFirstMatch(records, target, addr, k);
  }
}
