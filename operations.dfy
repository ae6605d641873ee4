/** The operations provider: which wallet actions a coin offers, and a cache
    of whether each address is delegated, filled from a delegation check on
    the chain. */
module Operations {
  import opened Common

  datatype ActionType = ImportAccount | AddToken | Delegate

  /** The extra actions offered for a protocol identifier. */
  function GetActionsForCoin(identifier: string): (r: seq<ActionType>)
    ensures (Delegate in r) <==> identifier == "xtz" || identifier == "xtz-kt"
    ensures (AddToken in r) <==> identifier == "eth"
    ensures (ImportAccount in r) <==> identifier == "xtz"
    ensures r == [] <==> identifier != "eth" && identifier != "xtz" && identifier != "xtz-kt"
    ensures forall i, j :: 0 <= i < j < |r| ==> r[i] != r[j]
    ensures forall i, j :: 0 <= i < |r| && 0 <= j < |r| && r[i] == ImportAccount && r[j] == Delegate ==> i < j
  {
    if identifier == "eth" then [AddToken]
    else if identifier == "xtz" then [ImportAccount, Delegate]
    else if identifier == "xtz-kt" then [Delegate]
    else []
  }

  /** The on-chain delegation check of an address; `Err` when it rejects. */
  type DelegationCheck = string -> Result<bool>

  /** The cache after a query for `address` answered `answer`: a failed query
      changes nothing. */
  function AfterQuery(statuses: map<string, bool>, address: string, answer: Result<bool>): (r: map<string, bool>)
    ensures answer.Ok? ==> address in r && r[address] == answer.value
    ensures answer.Err? ==> r == statuses
    ensures forall a :: a != address ==> (a in r <==> a in statuses)
    ensures forall a :: a != address && a in r ==> r[a] == statuses[a]
  {
    if answer.Ok? then statuses[address := answer.value] else statuses
  }

  /** Whether a lookup has to ask the chain. */
  predicate NeedsQuery(statuses: map<string, bool>, address: string, refresh: bool) {
    refresh || address !in statuses
  }

  /** A lookup that finds its address cached answers from the cache; once a
      query has succeeded, the next plain lookup of that address is a hit that
      returns the queried value. */
  lemma QueryFillsCache(statuses: map<string, bool>, address: string, answer: Result<bool>)
    requires answer.Ok?
    ensures var after := AfterQuery(statuses, address, answer);
      !NeedsQuery(after, address, false) && after[address] == answer.value
  {
  }

  /** Every cached address re-checked: a successful check replaces the cached
      value, a failed one keeps it. */
  function Refreshed(statuses: map<string, bool>, check: DelegationCheck): (r: map<string, bool>)
    ensures r.Keys == statuses.Keys
    ensures forall a :: a in r && check(a).Ok? ==> r[a] == check(a).value
    ensures forall a :: a in r && check(a).Err? ==> r[a] == statuses[a]
  {
    map a | a in statuses :: if check(a).Ok? then check(a).value else statuses[a]
  }

  /** Refreshing twice against the same answers is refreshing once. */
  lemma RefreshIsIdempotent(statuses: map<string, bool>, check: DelegationCheck)
    ensures Refreshed(Refreshed(statuses, check), check) == Refreshed(statuses, check)
  {
  }

  /** `log` names each address of `done` once. */
  ghost predicate LogsExactly(log: seq<string>, done: set<string>) {
    |log| == |done| && forall a :: a in log <==> a in done
  }

  /** The addresses of `done` hold their refreshed values, the others their old ones. */
  ghost predicate RefreshedSoFar(current: map<string, bool>, before: map<string, bool>, check: DelegationCheck, done: set<string>) {
    && current.Keys == before.Keys
    && forall a :: a in before ==> current[a] == if a in done then Refreshed(before, check)[a] else before[a]
  }

  /** Midway through a refresh of `before`: `entries` are still to do, the
      addresses of `done` were queried once each, in the order of `log`. */
  ghost predicate RefreshProgress(current: map<string, bool>, queried: seq<string>, before: map<string, bool>,
                                  check: DelegationCheck, earlier: seq<string>, entries: set<string>,
                                  done: set<string>, log: seq<string>) {
    && entries + done == before.Keys && entries !! done
    && RefreshedSoFar(current, before, check, done)
    && queried == earlier + log
    && LogsExactly(log, done)
  }

  lemma RefreshStep(current: map<string, bool>, queried: seq<string>, before: map<string, bool>,
                    check: DelegationCheck, earlier: seq<string>, entries: set<string>,
                    done: set<string>, log: seq<string>, address: string)
    requires RefreshProgress(current, queried, before, check, earlier, entries, done, log) && address in entries
    ensures RefreshProgress(AfterQuery(current, address, check(address)), queried + [address], before, check, earlier,
                            entries - {address}, done + {address}, log + [address])
  {
    LogsOneMore(log, done, address);
    RefreshedOneMore(current, before, check, done, address);
    assert earlier + log + [address] == earlier + (log + [address]);
  }

  lemma LogsOneMore(log: seq<string>, done: set<string>, address: string)
    requires LogsExactly(log, done) && address !in done
    ensures LogsExactly(log + [address], done + {address})
  {
    assert |done + {address}| == |done| + 1;
  }

  lemma RefreshedOneMore(current: map<string, bool>, before: map<string, bool>, check: DelegationCheck,
                         done: set<string>, address: string)
    requires RefreshedSoFar(current, before, check, done) && address in before
    ensures RefreshedSoFar(AfterQuery(current, address, check(address)), before, check, done + {address})
  {
  }

  lemma RefreshFinished(current: map<string, bool>, queried: seq<string>, before: map<string, bool>,
                        check: DelegationCheck, earlier: seq<string>, done: set<string>, log: seq<string>)
    requires RefreshProgress(current, queried, before, check, earlier, {}, done, log)
    ensures current == Refreshed(before, check)
    ensures |queried| == |earlier| + |before.Keys|
    ensures queried[..|earlier|] == earlier
    ensures forall a :: a in before <==> a in queried[|earlier|..]
  {
    assert queried[|earlier|..] == log;
  }

  class OperationsProvider {
    /** The current value of the status subject. */
    var delegationStatuses: map<string, bool>
    /** The addresses checked on the chain so far, in order. */
    ghost var queried: seq<string>

    constructor ()
      ensures delegationStatuses == map[] && queried == []
    {
      delegationStatuses := map[];
      queried := [];
    }

    method SetDelegationStatusOfAddress(address: string, delegated: bool)
      modifies this
      ensures delegationStatuses == old(delegationStatuses)[address := delegated]
      ensures queried == old(queried)
    {
      delegationStatuses := delegationStatuses[address := delegated];
    }

    /** The cached status, or, when asked to refresh or when nothing is cached,
        the chain's answer, which is then cached. A failed check rejects and
        leaves the cache as it was. */
    method GetDelegationStatusOfAddress(address: string, refresh: bool, checkDelegated: DelegationCheck)
      returns (status: Result<bool>)
      modifies this
      ensures !NeedsQuery(old(delegationStatuses), address, refresh) ==>
        && status == Ok(old(delegationStatuses)[address])
        && delegationStatuses == old(delegationStatuses)
        && queried == old(queried)
      ensures NeedsQuery(old(delegationStatuses), address, refresh) ==>
        && status == checkDelegated(address)
        && delegationStatuses == AfterQuery(old(delegationStatuses), address, status)
        && queried == old(queried) + [address]
    {
      if refresh || address !in delegationStatuses {
        queried := queried + [address];
        var checked := checkDelegated(address);
        if checked.Err? {
          return Err(checked.message);
        }
        SetDelegationStatusOfAddress(address, checked.value);
        return Ok(checked.value);
      }
      return Ok(delegationStatuses[address]);
    }

    /** Re-checks one more cached address for `RefreshAllDelegationStatuses`. */
    method RefreshOne(address: string, checkDelegated: DelegationCheck, ghost before: map<string, bool>,
                      ghost earlier: seq<string>, ghost entries: set<string>, ghost done: set<string>,
                      ghost log: seq<string>)
      requires address in entries
      requires RefreshProgress(delegationStatuses, queried, before, checkDelegated, earlier, entries, done, log)
      modifies this
      ensures RefreshProgress(delegationStatuses, queried, before, checkDelegated, earlier,
                              entries - {address}, done + {address}, log + [address])
    {
      RefreshStep(delegationStatuses, queried, before, checkDelegated, earlier, entries, done, log, address);
      var _ := GetDelegationStatusOfAddress(address, true, checkDelegated);
    }

    /** Re-checks every cached address; each failure is reported and swallowed. */
    method RefreshAllDelegationStatuses(checkDelegated: DelegationCheck)
      modifies this
      ensures delegationStatuses == Refreshed(old(delegationStatuses), checkDelegated)
      ensures |queried| == |old(queried)| + |old(delegationStatuses).Keys|
      ensures queried[..|old(queried)|] == old(queried)
      ensures forall a :: a in old(delegationStatuses) <==> a in queried[|old(queried)|..]
    {
      ghost var before := delegationStatuses;
      ghost var earlier := queried;
      var entries := delegationStatuses.Keys;
      ghost var done: set<string> := {};
      ghost var log: seq<string> := [];
      while entries != {}
        invariant RefreshProgress(delegationStatuses, queried, before, checkDelegated, earlier, entries, done, log)
        decreases |entries|
      {
        var address :| address in entries;
        RefreshOne(address, checkDelegated, before, earlier, entries, done, log);
        entries := entries - {address};
        done := done + {address};
        log := log + [address];
      }
      RefreshFinished(delegationStatuses, queried, before, checkDelegated, earlier, done, log);
    }
  }
}
