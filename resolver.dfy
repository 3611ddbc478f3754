/** `get_external_ip` (cf-ddns.py:133-141): ask every service in turn, keep the stripped body
    of the last one that answered. */
module Resolver {
  import opened Options
  import opened Strings
  import opened Trace

  /** One `--ip-service` URL and what `urlopen(url).read()` gives: the body, or None when it raises. */
  datatype Service = Service(url: string, reply: Option<string>)

  /** The GET requests issued, built the way the loop issues them: the requests for all but the
      last service, then the one for the last. The result asks each service once, in list order. */
  function Fetches(services: seq<Service>): (calls: seq<Call>)
    ensures |calls| == |services|
    ensures forall i :: 0 <= i < |services| ==> calls[i] == Fetch(services[i].url)
  {
    if services == [] then []
    else Fetches(services[..|services| - 1]) + [Fetch(services[|services| - 1].url)]
  }

  /** The service at `i` answered and none after it did. */
  predicate IsLastAnswer(services: seq<Service>, i: int)
  {
    0 <= i < |services| && services[i].reply.Some? &&
    forall j :: i < j < |services| ==> services[j].reply.None?
  }

  /** The address `get_external_ip` returns, read from the end of the list: the stripped body
      of the last service that answered, or None. */
  function LastSuccess(services: seq<Service>): Option<string>
  {
    if services == [] then None
    else match services[|services| - 1].reply
      case Some(body) => Some(Strip(body))
      case None => LastSuccess(services[..|services| - 1])
  }

  /** None exactly when no service answered (in particular for an empty list); otherwise the
      stripped body of a service that answered with no answer after it. */
  lemma {:induction false} LastSuccessIsLastAnswer(services: seq<Service>)
    ensures LastSuccess(services).None? <==> forall j :: 0 <= j < |services| ==> services[j].reply.None?
    ensures LastSuccess(services).Some? ==>
      exists i :: IsLastAnswer(services, i) && LastSuccess(services).value == Strip(services[i].reply.value)
  {
    if services != [] {
      var last := |services| - 1;
      if services[last].reply.Some? {
        assert IsLastAnswer(services, last);
      } else {
        var front := services[..last];
        LastSuccessIsLastAnswer(front);
        assert forall j :: 0 <= j < last ==> front[j] == services[j];
        if LastSuccess(front).Some? {
          var i :| IsLastAnswer(front, i) && LastSuccess(front).value == Strip(front[i].reply.value);
          assert IsLastAnswer(services, i);
        }
      }
    }
  }

  /** The script's loop: `ip` starts as None and is overwritten by every reply that does not raise. */
  method GetExternalIp(services: seq<Service>) returns (ip: Option<string>, fetched: seq<Call>)
    ensures ip == LastSuccess(services)
    ensures fetched == Fetches(services)
  {
    ip := None;
    fetched := [];
    for k := 0 to |services|
      invariant ip == LastSuccess(services[..k])
      invariant fetched == Fetches(services[..k])
    {
      assert services[..k + 1][..k] == services[..k];
      fetched := fetched + [Fetch(services[k].url)];
      if services[k].reply.Some? {
        ip := Some(Strip(services[k].reply.value));
      }
    }
    assert services[..|services|] == services;
  }

  /** A reply that strips to nothing still replaces an earlier good one: the result is then
      the empty (falsy) string. */
  lemma BlankLastReplyWins(services: seq<Service>, url: string, body: string)
    requires forall i :: 0 <= i < |body| ==> IsSpace(body[i])
    ensures LastSuccess(services + [Service(url, Some(body))]) == Some("")
    ensures !Truthy(LastSuccess(services + [Service(url, Some(body))]))
  {
    StripEmptyIffBlank(body);
    assert (services + [Service(url, Some(body))])[|services|].reply == Some(body);
  }

  /** A service that fails after others have answered leaves the result as it was. */
  lemma FailureKeepsEarlierAnswer(services: seq<Service>, url: string)
    ensures LastSuccess(services + [Service(url, None)]) == LastSuccess(services)
  {
    assert (services + [Service(url, None)])[..|services|] == services;
  }
}
