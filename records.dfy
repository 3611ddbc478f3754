/** The record scan of `set_cf_record` (cf-ddns.py:102-116) as a pure specification:
    the first record, in list order, whose name is the target decides what happens. */
module Records {
  import opened Options

  /** One entry of the zone listing; of its fields the scan reads only `name`, `content` and `recId`. */
  datatype Record = Record(recId: string, name: string, rtype: string, content: string)

  /** What the scan leads to. */
  datatype Decision =
    | Unchanged                              // the first name match already holds the address
    | UpdateExisting(recId: string, name: string)  // edit that record in place
    | AddNew                                 // create a new record

  /** The index of the first record named `target`, if any. */
  function FirstMatch(records: seq<Record>, target: string): (k: Option<nat>)
    ensures k.Some? ==> k.value < |records| && records[k.value].name == target
    ensures k.Some? ==> forall j :: 0 <= j < k.value ==> records[j].name != target
    ensures k.None? <==> forall j :: 0 <= j < |records| ==> records[j].name != target
  {
    if records == [] then None
    else if records[0].name == target then Some(0)
    else match FirstMatch(records[1..], target)
      case None => None
      case Some(k) => Some(k + 1)
  }

  /** The decision the scan reaches for publishing `addr` under `target`. */
  function Decide(records: seq<Record>, target: string, addr: string): (d: Decision)
    ensures d.UpdateExisting? ==> d.name == target && d.recId != ""
    ensures d.Unchanged? ==> exists j :: 0 <= j < |records| && records[j].name == target && records[j].content == addr
  {
    match FirstMatch(records, target)
    case None => AddNew
    case Some(k) =>
      if records[k].content == addr then Unchanged
      else if records[k].recId != "" then UpdateExisting(records[k].recId, records[k].name)
      else AddNew
  }

  /** `k` is the first record named `target`. */
  predicate IsFirstMatch(records: seq<Record>, target: string, k: nat)
  {
    k < |records| && records[k].name == target &&
    forall j :: 0 <= j < k ==> records[j].name != target
  }

  /** The decision is taken from the first name match alone: keep it when its content is
      already `addr`, edit it when it has a (truthy) id, and create a record otherwise. */
  lemma DecideByFirstMatch(records: seq<Record>, target: string, addr: string, k: nat)
    requires IsFirstMatch(records, target, k)
    ensures Decide(records, target, addr) ==
      if records[k].content == addr then Unchanged
      else if records[k].recId != "" then UpdateExisting(records[k].recId, target)
      else AddNew
  {
  }

  /** With no record named `target` the decision is to create one. */
  lemma DecideWithoutMatch(records: seq<Record>, target: string, addr: string)
    requires forall j :: 0 <= j < |records| ==> records[j].name != target
    ensures Decide(records, target, addr) == AddNew
  {
  }

  /** Records after the first name match are never looked at: dropping them, or appending
      anything, leaves the decision as it was. */
  lemma LaterRecordsIgnored(records: seq<Record>, target: string, addr: string, k: nat, tail: seq<Record>)
    requires IsFirstMatch(records, target, k)
    ensures Decide(records[..k + 1] + tail, target, addr) == Decide(records, target, addr)
  {
    var shorter := records[..k + 1] + tail;
    assert IsFirstMatch(shorter, target, k) by {
      assert shorter[k] == records[k];
      forall j | 0 <= j < k ensures shorter[j].name != target {
        assert shorter[j] == records[j];
      }
    }
    DecideByFirstMatch(shorter, target, addr, k);
    DecideByFirstMatch(records, target, addr, k);
  }

  /** The record type takes no part in matching: two listings that agree on every record's
      id, name and content lead to the same decision whatever their types. */
  lemma RecordTypeIgnored(records: seq<Record>, others: seq<Record>, target: string, addr: string)
    requires |records| == |others|
    requires forall j :: 0 <= j < |records| ==>
      records[j].recId == others[j].recId && records[j].name == others[j].name && records[j].content == others[j].content
    ensures Decide(records, target, addr) == Decide(others, target, addr)
  {
    match FirstMatch(records, target)
    case None =>
      DecideWithoutMatch(records, target, addr);
      DecideWithoutMatch(others, target, addr);
    case Some(k) =>
      assert IsFirstMatch(others, target, k);
      DecideByFirstMatch(records, target, addr, k);
      DecideByFirstMatch(others, target, addr, k);
  }
}
