/** What one run does to the outside world: the calls it issues, in order, and how it ends. */
module Trace {

  /** A call leaving the process: an HTTP GET to an address-discovery service, or one of the
      three DNS provider client operations `rec_load_all`, `rec_edit` and `rec_new`. */
  datatype Call =
    | Fetch(url: string)
    | RecLoadAll(domain: string)
    | RecEdit(domain: string, rtype: string, recId: string, name: string, content: string, mode: string)
    | RecNew(domain: string, rtype: string, content: string, name: string, mode: string)

  /** How a run ends. `Rejected` is the `exit(1)` after a failed address check; every other
      status ends the process normally, `ApiError` and `NoExternalIp` after an error log line. */
  datatype Status =
    | Identical              // "Identical record already exists."
    | Updated                // "Updated record: ..."
    | Added                  // "Added new record: ..."
    | Rejected(message: string)
    | ApiError               // a CloudFlare.APIError caught at the top level
    | NoExternalIp           // "Sorry, can't do anything without the external IP address. ..."

  datatype Outcome = Outcome(calls: seq<Call>, status: Status)

  /** A call that reads or changes the DNS records of the zone. */
  predicate IsRecordCall(c: Call)
  {
    c.RecLoadAll? || c.RecEdit? || c.RecNew?
  }

  /** A call that changes the DNS records of the zone. */
  predicate IsMutation(c: Call)
  {
    c.RecEdit? || c.RecNew?
  }
}
