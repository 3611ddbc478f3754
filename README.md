# cf-ddns reconciliation, modelled in Dafny

cf-ddns is a command-line script. It keeps one CloudFlare DNS record pointing at the host's
current address. One run does five things:

- builds the fully-qualified record name from `--subdomain` and `--domain`;
- takes the address from `--content`, or asks a list of "what is my IP" web services;
- checks the address against the requested record type (A needs IPv4, AAAA needs IPv6);
- lists the zone's records through the CloudFlare client;
- leaves the first record with that name alone if it already holds the address, edits it when it has an id, and creates a record otherwise or when no name matches.

The model takes the outside world as inputs:

- a `Classifier` for `is_ipv4`/`is_ipv6`;
- one `Service(url, reply)` per address service, where the reply is None when the request raises;
- an `Api` giving the zone listing (None when `rec_load_all` raises `APIError`) and whether the single edit or create call succeeds.

A run yields an `Outcome`: the calls it issues, in order (`Fetch`, `RecLoadAll`, `RecEdit`, `RecNew`), and a `Status`:

- `Identical`, `Updated` or `Added`;
- `Rejected(message)`: the `exit(1)` after a failed address check;
- `ApiError`: the caught `APIError`;
- `NoExternalIp`: the logged "can't do anything" error.

Modules, one per part of `cf-ddns.py`:

- `Options`: None-or-value and Python truthiness of strings.
- `Strings`: `str.strip()`.
- `Address`: the type/address check.
- `Records`: the record scan as a first-match specification.
- `Trace`: calls and statuses.
- `Reconciler`: `set_cf_record` as a specification function plus a method with the source's loop.
- `Resolver`: `get_external_ip` as a specification function plus a method with the source's loop.
- `Dispatch`: the `__main__` block.

Behaviour of the script that the model keeps:

- A record is matched by name alone; the record type plays no part in matching.
- `--content` takes a single value.
- `--subdomain` is always joined to the zone, even if it already ends in it.
- A run with no usable external address logs an error and ends normally, with exit status 0.
- The address from the services is the reply of the last service that did not raise. A reply that strips to the empty string therefore still replaces an earlier good one (`BlankLastReplyWins`).

## Model

| member | source | states |
|---|---|---|
| Options.Truthy | cf-ddns.py:176-188 | Python truthiness of `None`-or-string as tested by `if args.subdomain:`, `if args.dest_addr:`, `if ip_addr:` and `if rec_id:` (line 116): false for None and for the empty string |
| Strings.TrimLeft | cf-ddns.py:138 | leading half of `strip()`; characterised by `TrimLeftSpec` |
| Strings.TrimRight | cf-ddns.py:138 | trailing half of `strip()`; characterised by `TrimRightSpec` |
| Strings.Strip | cf-ddns.py:138 | `.strip()` on a reply body; `StripKeepsTrimmedPiece` fixes its result uniquely, `StripEmptyIffBlank` and `StripIdempotent` give its other properties |
| Strings.TrimLeftSpec | cf-ddns.py:138 | removing leading whitespace keeps a suffix, drops only whitespace, and leaves no whitespace in front |
| Strings.TrimRightSpec | cf-ddns.py:138 | removing trailing whitespace keeps a prefix, drops only whitespace, and leaves no whitespace at the end |
| Strings.StripKeepsTrimmedPiece | cf-ddns.py:138 | `strip()` yields a contiguous piece of the body, with only whitespace outside it and no whitespace at either end |
| Strings.StripEmptyIffBlank | cf-ddns.py:138 | a body strips to the empty (falsy) string exactly when it is all whitespace |
| Strings.StripIdempotent | cf-ddns.py:138 | stripping a stripped body changes nothing |
| Address.Message | cf-ddns.py:77-93 | each refusal message starts with the offending address |
| Address.Validate | cf-ddns.py:77-93 | the address passes exactly when it fits the family its type names (A: IPv4 and not IPv6; AAAA: IPv6 and not IPv4; any other type: always); under A an IPv6 address gets "is an IPv6 address" and an address of neither family gets "is not a valid IPv4 address", and the mirror for AAAA, each as an if-and-only-if |
| Records.FirstMatch | cf-ddns.py:105-114 | the index found is of a record named the target, with no earlier record of that name; none is found exactly when no record has that name |
| Records.Decide | cf-ddns.py:102-116 | an edit always targets a record named the target and carries a non-empty id; "unchanged" implies some record of that name holds the address |
| Records.DecideByFirstMatch | cf-ddns.py:105-116 | given the first record named the target: unchanged if its content is the address, else an edit of it if its id is truthy, else a create |
| Records.DecideWithoutMatch | cf-ddns.py:102-116 | with no record of the target name the decision is to create |
| Records.LaterRecordsIgnored | cf-ddns.py:105-114 | records after the first name match never affect the decision: cutting them off or appending any others gives the same decision |
| Records.RecordTypeIgnored | cf-ddns.py:105-107 | listings that agree on every record's id, name and content give the same decision whatever the record types |
| Reconciler.Reconcile | cf-ddns.py:74-130 | a run is refused exactly when the address does not fit the type, and then makes no call; otherwise it lists the zone first and issues at most one further call; a refused run carries the line printed for the first check that fails; a listing that raises `APIError` ends the run with the error status after that single call |
| Reconciler.ListingFailureMakesNoMutation | cf-ddns.py:98-100 | when `rec_load_all` raises `APIError` the only call is the listing, nothing is edited or created, and the run ends with the error status |
| Reconciler.SetCfRecord | cf-ddns.py:74-130 | the loop over the listing, with early return on an identical record and break on the first name match, produces exactly the outcome `Reconcile` specifies |
| Reconciler.RejectedBeforeAnyCall | cf-ddns.py:77-100 | type A with an IPv6 or non-IPv4 address, or type AAAA with an IPv4 or non-IPv6 address, and nothing else, ends the run refused with no DNS provider call, carrying the exact line printed for the first failing check (cf-ddns.py:79, 83, 88, 92) |
| Reconciler.OtherTypesSkipValidation | cf-ddns.py:77-93 | for types other than A and AAAA the outcome does not depend on the address classification and is never a refusal |
| Reconciler.MutationCarriesRequest | cf-ddns.py:116-130 | every edit or create call carries the zone, the requested type, the unchanged address, the requested mode and the target name |
| Reconciler.IdenticalRecordIsKept | cf-ddns.py:105-111 | if the first record of the target name already holds the address, the zone is listed and nothing is edited or created |
| Reconciler.DifferentContentIsOneEdit | cf-ddns.py:105-122 | if the first record of the target name holds other content and has an id, the calls are the listing and exactly one edit of that record's id |
| Reconciler.NoMatchIsOneCreate | cf-ddns.py:102-130 | with no record of the target name, the calls are the listing and exactly one create, with no edit |
| Reconciler.MatchWithoutIdIsRecreated | cf-ddns.py:113-127 | if the first record of the target name has an empty id and other content, a second record of that name is created |
| Reconciler.NoDuplicateWhenIdsPresent | cf-ddns.py:102-130 | when every listed record has an id, a create is issued only if no record has the target name |
| Resolver.Fetches | cf-ddns.py:136-138 | built request by request as the loop issues them, the trace is proved to hold exactly one GET per service, the i-th for the i-th service |
| Resolver.LastSuccess | cf-ddns.py:133-141 | the value `get_external_ip` returns; `LastSuccessIsLastAnswer` characterises it and `GetExternalIp` is proved equal to it |
| Resolver.LastSuccessIsLastAnswer | cf-ddns.py:133-141 | the result is None exactly when no service answered (including an empty list); otherwise it is the stripped body of a service that answered with none answering after it |
| Resolver.GetExternalIp | cf-ddns.py:133-141 | the loop that overwrites `ip` on every reply that does not raise returns the last answer and asks every service in order |
| Resolver.BlankLastReplyWins | cf-ddns.py:135-141 | a last reply that is all whitespace overrides earlier answers and yields the falsy empty string |
| Resolver.FailureKeepsEarlierAnswer | cf-ddns.py:136-140 | a service that raises after earlier ones leaves the result unchanged |
| Dispatch.Fqdn | cf-ddns.py:176-179 | the name always ends with the zone; it is longer than the zone exactly when a non-empty subdomain is given, and then consists of that subdomain, a dot and the zone; otherwise it is the zone |
| Dispatch.RunSpec | cf-ddns.py:176-195 | the outcome of one run of the `__main__` dispatch; its promises are `ExplicitContentAsksNoService`, `NoAddressNoRecordCall` and `RejectionMakesNoRecordCall`, and `Run` is proved equal to it |
| Dispatch.Run | cf-ddns.py:176-195 | the dispatch produces exactly the outcome `RunSpec` specifies |
| Dispatch.ExplicitContentAsksNoService | cf-ddns.py:182-184 | with a non-empty `--content` no service is asked and the run is the reconciliation of that content |
| Dispatch.NoAddressNoRecordCall | cf-ddns.py:186-195 | without `--content` every service is asked first, in order; a falsy discovered address ends the run with the error status and no DNS provider call |
| Dispatch.RejectionMakesNoRecordCall | cf-ddns.py:181-191 | a run refused for a type/address mismatch makes no DNS provider call |
| Dispatch.EditExample | cf-ddns.py:176-184 | zone example.com, subdomain home, an A record with 203.0.113.5, content 203.0.113.9: one edit of that record |
| Dispatch.FallbackServiceExample | cf-ddns.py:133-141 | a failing first service and a second one answering "198.51.100.7\n" publish 198.51.100.7 |

## Left out

- Logging (cf-ddns.py:50-57 and every `log.*` call): rotating-file output only. The three log outcomes of a reconciliation appear as the statuses `Identical`, `Updated` and `Added`.
- Command-line parsing, defaults and choices (cf-ddns.py:147-174): `--type` and `--cf-mode` are taken as plain strings. Their defaults ("A", "1") and allowed values are not enforced by the model.
- Python version and import guards (cf-ddns.py:30-43): runtime plumbing.
- `email` and `token`: they are handed to the CloudFlare client constructor, which is not part of this model; `email` is also written to the debug log (cf-ddns.py:95-96), which is left out with the rest of the logging.
- The CloudFlare client itself, and the nested shape of its listing response: foreign library. Its calls are recorded in the trace, and its failures are the `Api` inputs.
- Exceptions other than `APIError` raised by the client or by a malformed listing: the script does not catch them.
- `socket.inet_pton` (cf-ddns.py:60-71): operating-system address parsing, kept abstract in `Classifier`. Whether IPv4 and IPv6 literals overlap is therefore not assumed either way.
- `is_ipv4`/`is_ipv6` raising something other than `socket.error` (cf-ddns.py:60-71): under Python 2 `inet_pton` raises `TypeError` for an address containing a NUL byte, which survives `strip()` and so only a discovered address can hold. The script then dies with a traceback (exit status 1, no DNS call, none of the four refusal lines printed), while the model's `Classifier` always answers and the run ends `Rejected` with a refusal line or proceeds.
- `urlopen(...).read()` (cf-ddns.py:138): network I/O, given as each `Service`'s reply. Whether an HTTP error page counts as a reply depends on the HTTP library, so it is left to that input.
- Process exit codes: `exit(1)` is the `Rejected` status. Every other status stands for a normal exit.
- setup.py: packaging metadata, no logic.
