/** The per-wallet transaction list page: the cached and freshly fetched
    transactions are merged by hash (a fresh record replaces a cached one) and
    shown newest first; further pages are loaded ten at a time, and a refresh
    that ends within three seconds of its start leaves the loader to a timer for
    the rest of that time (a timer left over from an earlier refresh still hides
    the loader when it fires). */
module CoinInfo {
  import opened Common

  const TransactionLimit: nat := 10
  const MinLoadingTime: int := 3000
  const AeIdentifier: string := "ae"

  /** The fields of a wallet transaction that the page reads; `timestamp` is the sort key. */
  datatype Transaction = Transaction(hash: string, timestamp: int, amount: int)

  /** Some record of `s` has hash `h`. */
  predicate HasHash(s: seq<Transaction>, h: string) {
    exists i :: 0 <= i < |s| && s[i].hash == h
  }

  predicate DistinctHashes(s: seq<Transaction>) {
    forall i, j :: 0 <= i < j < |s| ==> s[i].hash != s[j].hash
  }

  predicate SortedNewestFirst(s: seq<Transaction>) {
    forall i, j :: 0 <= i < j < |s| ==> s[i].timestamp >= s[j].timestamp
  }

  lemma HasHashAppend(a: seq<Transaction>, b: seq<Transaction>, h: string)
    ensures HasHash(a + b, h) <==> HasHash(a, h) || HasHash(b, h)
  {
    if HasHash(a + b, h) {
      var i :| 0 <= i < |a + b| && (a + b)[i].hash == h;
      if i >= |a| {
        assert b[i - |a|].hash == h;
      }
    }
    if HasHash(a, h) {
      var i :| 0 <= i < |a| && a[i].hash == h;
      assert (a + b)[i].hash == h;
    }
    if HasHash(b, h) {
      var i :| 0 <= i < |b| && b[i].hash == h;
      assert (a + b)[|a| + i].hash == h;
    }
  }

  // ---------------------------------------------------------------------------
  // The map keyed by hash

  /** `Map.set(tx.hash, tx)` on an insertion-ordered map, kept as its list of
      values: an existing key keeps its place and takes the new value, a new
      key goes last. */
  function Put(m: seq<Transaction>, tx: Transaction): (r: seq<Transaction>)
    requires DistinctHashes(m)
    ensures |r| == if HasHash(m, tx.hash) then |m| else |m| + 1
    ensures forall i :: 0 <= i < |m| ==> r[i] == (if m[i].hash == tx.hash then tx else m[i])
    ensures !HasHash(m, tx.hash) ==> r[|m|] == tx
    ensures DistinctHashes(r)
  {
    if m == [] then [tx]
    else if m[0].hash == tx.hash then [tx] + m[1..]
    else
      var rest := Put(m[1..], tx);
      assert HasHash(m, tx.hash) <==> HasHash(m[1..], tx.hash) by {
        assert m == [m[0]] + m[1..];
        HasHashAppend([m[0]], m[1..], tx.hash);
      }
      assert forall i :: 0 <= i < |rest| ==> rest[i].hash != m[0].hash by {
        forall i | 0 <= i < |rest|
          ensures rest[i].hash != m[0].hash
        {
          if i < |m| - 1 {
            assert rest[i] == (if m[i + 1].hash == tx.hash then tx else m[i + 1]);
          }
        }
      }
      ConsDistinct(m[0], rest);
      [m[0]] + rest
  }

  lemma ConsDistinct(x: Transaction, rest: seq<Transaction>)
    requires DistinctHashes(rest)
    requires forall i :: 0 <= i < |rest| ==> rest[i].hash != x.hash
    ensures DistinctHashes([x] + rest)
  {
    var r := [x] + rest;
    forall i, j | 0 <= i < j < |r|
      ensures r[i].hash != r[j].hash
    {
      assert r[j] == rest[j - 1];
      if i > 0 {
        assert r[i] == rest[i - 1];
      }
    }
  }

  /** The values of `new Map(entries)` for the entries keyed by hash, in the
      map's insertion order. */
  function Entries(s: seq<Transaction>): (r: seq<Transaction>)
    ensures DistinctHashes(r)
  {
    if s == [] then [] else Put(Entries(s[..|s| - 1]), s[|s| - 1])
  }

  lemma EntriesSnoc(s: seq<Transaction>, t: Transaction)
    ensures Entries(s + [t]) == Put(Entries(s), t)
  {
    assert (s + [t])[..|s|] == s;
  }

  /** The last record with hash `h`. */
  function Latest(s: seq<Transaction>, h: string): (r: Option<Transaction>)
    ensures r.None? <==> !HasHash(s, h)
    ensures r.Some? ==> r.value in s && r.value.hash == h
  {
    if s == [] then None
    else if s[|s| - 1].hash == h then Some(s[|s| - 1])
    else
      assert s == s[..|s| - 1] + [s[|s| - 1]];
      HasHashAppend(s[..|s| - 1], [s[|s| - 1]], h);
      Latest(s[..|s| - 1], h)
  }

  /** `Put` adds exactly the key of the record it stores. */
  lemma PutHashes(m: seq<Transaction>, tx: Transaction, h: string)
    requires DistinctHashes(m)
    ensures HasHash(Put(m, tx), h) <==> HasHash(m, h) || h == tx.hash
  {
    var r := Put(m, tx);
    if HasHash(r, h) {
      var i :| 0 <= i < |r| && r[i].hash == h;
      if i < |m| && m[i].hash != tx.hash {
        assert m[i].hash == h;
      }
    }
    if HasHash(m, h) {
      var i :| 0 <= i < |m| && m[i].hash == h;
      assert r[i].hash == h;
    }
    if h == tx.hash {
      if HasHash(m, h) {
        var i :| 0 <= i < |m| && m[i].hash == h;
        assert r[i] == tx;
      } else {
        assert r[|m|] == tx;
      }
    }
  }

  /** The map's keys are exactly the hashes of `s`. */
  lemma {:induction false} EntriesHashes(s: seq<Transaction>, h: string)
    ensures HasHash(Entries(s), h) <==> HasHash(s, h)
  {
    if s != [] {
      var p, t := s[..|s| - 1], s[|s| - 1];
      assert s == p + [t];
      EntriesHashes(p, h);
      PutHashes(Entries(p), t, h);
      HasHashAppend(p, [t], h);
      assert HasHash([t], h) <==> h == t.hash by {
        if h == t.hash {
          assert [t][0].hash == h;
        }
      }
    }
  }

  /** Each value of the map is the last record of `s` with its hash. */
  lemma {:induction false} EntriesAreLatest(s: seq<Transaction>)
    ensures forall i :: 0 <= i < |Entries(s)| ==> Latest(s, Entries(s)[i].hash) == Some(Entries(s)[i])
  {
    if s != [] {
      var p, t := s[..|s| - 1], s[|s| - 1];
      EntriesAreLatest(p);
      var m := Entries(p);
      var r := Entries(s);
      assert r == Put(m, t);
      forall i | 0 <= i < |r|
        ensures Latest(s, r[i].hash) == Some(r[i])
      {
        if i < |m| && m[i].hash != t.hash {
          assert r[i] == m[i];
          assert Latest(s, m[i].hash) == Latest(p, m[i].hash);
        }
      }
    }
  }

  // ---------------------------------------------------------------------------
  // Newest first

  /** Places `x` before the first element older than it, so that elements of
      equal timestamp keep their order. */
  function Insert(s: seq<Transaction>, x: Transaction): (r: seq<Transaction>)
    ensures multiset(r) == multiset(s) + multiset{x}
  {
    if s == [] then [x]
    else if s[0].timestamp < x.timestamp then [x] + s
    else
      assert s == [s[0]] + s[1..];
      [s[0]] + Insert(s[1..], x)
  }

  lemma {:induction false} InsertSorted(s: seq<Transaction>, x: Transaction)
    requires SortedNewestFirst(s)
    ensures SortedNewestFirst(Insert(s, x))
  {
    if s == [] {
    } else if s[0].timestamp < x.timestamp {
      forall y | y in s
        ensures x.timestamp >= y.timestamp
      {
        var k :| 0 <= k < |s| && s[k] == y;
        assert s[0].timestamp >= s[k].timestamp || k == 0;
      }
      ConsSorted(x, s);
    } else {
      var rest := Insert(s[1..], x);
      InsertSorted(s[1..], x);
      forall y | y in rest
        ensures s[0].timestamp >= y.timestamp
      {
        assert y in multiset(rest);
        if y != x {
          assert y in multiset(s[1..]);
          var k :| 0 <= k < |s[1..]| && s[1..][k] == y;
          assert s[k + 1] == y;
        }
      }
      ConsSorted(s[0], rest);
    }
  }

  /** A list newest first stays so with a record no older than any of its own in front. */
  lemma ConsSorted(x: Transaction, s: seq<Transaction>)
    requires SortedNewestFirst(s)
    requires forall y :: y in s ==> x.timestamp >= y.timestamp
    ensures SortedNewestFirst([x] + s)
  {
    var r := [x] + s;
    forall i, j | 0 <= i < j < |r|
      ensures r[i].timestamp >= r[j].timestamp
    {
      assert r[j] == s[j - 1] && r[j] in s;
      if i > 0 {
        assert r[i] == s[i - 1];
      }
    }
  }

  /** `sort((a, b) => b.timestamp - a.timestamp)` as a stable insertion sort. */
  function SortNewestFirst(s: seq<Transaction>): (r: seq<Transaction>)
    ensures multiset(r) == multiset(s)
    ensures SortedNewestFirst(r)
  {
    if s == [] then []
    else
      assert s == s[..|s| - 1] + [s[|s| - 1]];
      var sorted := SortNewestFirst(s[..|s| - 1]);
      InsertSorted(sorted, s[|s| - 1]);
      Insert(sorted, s[|s| - 1])
  }

  lemma {:induction false} InsertOldest(s: seq<Transaction>, x: Transaction)
    requires forall y :: y in s ==> y.timestamp >= x.timestamp
    ensures Insert(s, x) == s + [x]
  {
    if s != [] {
      InsertOldest(s[1..], x);
    }
  }

  /** A list already newest first is left exactly as it is. */
  lemma {:induction false} SortKeepsSortedList(s: seq<Transaction>)
    requires SortedNewestFirst(s)
    ensures SortNewestFirst(s) == s
  {
    if s != [] {
      var p := s[..|s| - 1];
      assert SortedNewestFirst(p);
      SortKeepsSortedList(p);
      InsertOldest(p, s[|s| - 1]);
    }
  }

  // ---------------------------------------------------------------------------
  // Merging

  /** `mergeTransactions`: without a previous list the fetched one is taken as
      it is; otherwise one record per hash, the later one winning, newest first. */
  function Merged(oldTransactions: Option<seq<Transaction>>, newTransactions: seq<Transaction>): seq<Transaction> {
    match oldTransactions
    case None => newTransactions
    case Some(o) => SortNewestFirst(Entries(o + newTransactions))
  }

  /** Two lists holding the same records hold the same hashes. */
  lemma SameRecordsSameHashes(a: seq<Transaction>, b: seq<Transaction>, h: string)
    requires multiset(a) == multiset(b)
    ensures HasHash(a, h) ==> HasHash(b, h)
  {
    if HasHash(a, h) {
      var i :| 0 <= i < |a| && a[i].hash == h;
      assert a[i] in multiset(b);
      var j :| 0 <= j < |b| && b[j] == a[i];
    }
  }

  /** Every hash of either list appears, every record shown is the latest one
      with its hash, and the list is newest first. */
  lemma MergedIsLatestPerHash(oldTransactions: seq<Transaction>, newTransactions: seq<Transaction>)
    ensures var r := Merged(Some(oldTransactions), newTransactions);
      && SortedNewestFirst(r)
      && (forall h :: HasHash(r, h) <==> HasHash(oldTransactions, h) || HasHash(newTransactions, h))
      && (forall i :: 0 <= i < |r| ==> Latest(oldTransactions + newTransactions, r[i].hash) == Some(r[i]))
  {
    var all := oldTransactions + newTransactions;
    var e := Entries(all);
    var r := Merged(Some(oldTransactions), newTransactions);
    EntriesAreLatest(all);
    forall h
      ensures HasHash(r, h) <==> HasHash(oldTransactions, h) || HasHash(newTransactions, h)
    {
      EntriesHashes(all, h);
      SameRecordsSameHashes(r, e, h);
      SameRecordsSameHashes(e, r, h);
      HasHashAppend(oldTransactions, newTransactions, h);
    }
    forall i | 0 <= i < |r|
      ensures Latest(all, r[i].hash) == Some(r[i])
    {
      assert r[i] in multiset(e);
      var k :| 0 <= k < |e| && e[k] == r[i];
    }
  }

  /** A record of the fetched list replaces the cached record with the same hash. */
  lemma {:induction false} LatestPrefersLaterPart(a: seq<Transaction>, b: seq<Transaction>, h: string)
    requires HasHash(b, h)
    ensures Latest(a + b, h) == Latest(b, h)
  {
    var last := b[|b| - 1];
    assert (a + b)[..|a + b| - 1] == a + b[..|b| - 1];
    assert (a + b)[|a + b| - 1] == last;
    if last.hash != h {
      assert b == b[..|b| - 1] + [last];
      HasHashAppend(b[..|b| - 1], [last], h);
      LatestPrefersLaterPart(a, b[..|b| - 1], h);
    }
  }

  /** Where a hash occurs in the fetched list, the merged list shows the
      fetched record, whatever was cached. */
  lemma FetchedRecordWins(oldTransactions: seq<Transaction>, newTransactions: seq<Transaction>)
    ensures var r := Merged(Some(oldTransactions), newTransactions);
      forall i :: 0 <= i < |r| && HasHash(newTransactions, r[i].hash) ==> Latest(newTransactions, r[i].hash) == Some(r[i])
  {
    var r := Merged(Some(oldTransactions), newTransactions);
    MergedIsLatestPerHash(oldTransactions, newTransactions);
    forall i | 0 <= i < |r| && HasHash(newTransactions, r[i].hash)
      ensures Latest(newTransactions, r[i].hash) == Some(r[i])
    {
      LatestPrefersLaterPart(oldTransactions, newTransactions, r[i].hash);
    }
  }

  /** Two merged records never share a hash. */
  lemma MergedHasDistinctHashes(oldTransactions: seq<Transaction>, newTransactions: seq<Transaction>)
    ensures DistinctHashes(Merged(Some(oldTransactions), newTransactions))
  {
    var all := oldTransactions + newTransactions;
    var r := Merged(Some(oldTransactions), newTransactions);
    MergedIsLatestPerHash(oldTransactions, newTransactions);
    forall i, j | 0 <= i < j < |r|
      ensures r[i].hash != r[j].hash
    {
      if r[i].hash == r[j].hash {
        assert r[i] == r[j];
        DistinctEntriesOccurOnce(Entries(all), r[i]);
        RepeatedRecordCountsTwice(r, i, j);
        assert false;
      }
    }
  }

  lemma RepeatedRecordCountsTwice(r: seq<Transaction>, i: nat, j: nat)
    requires i < j < |r| && r[i] == r[j]
    ensures multiset(r)[r[i]] >= 2
  {
    assert r == r[..j] + r[j..];
    assert multiset(r) == multiset(r[..j]) + multiset(r[j..]);
    assert r[..j][i] == r[i];
    assert r[j..][0] == r[j];
  }

  /** `records.forEach(tx => transactionMap.set(tx.hash, tx))` on a map that
      already holds the entries of `before`. */
  method PutAll(m: seq<Transaction>, ghost before: seq<Transaction>, records: seq<Transaction>)
    returns (r: seq<Transaction>)
    requires m == Entries(before)
    ensures r == Entries(before + records)
  {
    r := m;
    assert before + records[..0] == before;
    for i := 0 to |records|
      invariant r == Entries(before + records[..i])
    {
      EntriesSnoc(before + records[..i], records[i]);
      ExtendSlice(before, records, i);
      r := Put(r, records[i]);
    }
    assert records[..|records|] == records;
  }

  lemma ExtendSlice(a: seq<Transaction>, b: seq<Transaction>, i: nat)
    requires i < |b|
    ensures (a + b[..i]) + [b[i]] == a + b[..i + 1]
  {
  }

  lemma {:induction false} DistinctEntriesOccurOnce(m: seq<Transaction>, x: Transaction)
    requires DistinctHashes(m)
    ensures multiset(m)[x] <= 1
  {
    if m != [] {
      assert m == [m[0]] + m[1..];
      assert DistinctHashes(m[1..]);
      DistinctEntriesOccurOnce(m[1..], x);
    }
  }

  /** `mergeTransactions` itself: a map filled entry by entry, then sorted. */
  method MergeTransactions(oldTransactions: Option<seq<Transaction>>, newTransactions: seq<Transaction>)
    returns (merged: seq<Transaction>)
    ensures merged == Merged(oldTransactions, newTransactions)
  {
    if oldTransactions.None? {
      return newTransactions;
    }
    var o := oldTransactions.value;
    var transactionMap := PutAll([], [], o);
    assert [] + o == o;
    transactionMap := PutAll(transactionMap, o, newTransactions);
    merged := SortNewestFirst(transactionMap);
  }

  // ---------------------------------------------------------------------------
  // Paging

  /** The offset of the next page: the next multiple of the page size above `txOffset`. */
  function NextOffset(txOffset: nat): (offset: nat)
    ensures offset % TransactionLimit == 0
    ensures txOffset < offset <= txOffset + TransactionLimit
  {
    txOffset + TransactionLimit - txOffset % TransactionLimit
  }

  /** A fetch of `limit` transactions starting at `offset` (the wallet's network query). */
  type Fetch = (nat, nat) -> seq<Transaction>

  class CoinInfoPage {
    const protocolIdentifier: string
    const currentBalance: real
    var aeMigratedTokens: real
    var transactions: seq<Transaction>
    var txOffset: nat
    var infiniteEnabled: bool
    var isRefreshing: bool
    var refreshStarted: int
    var showLoader: bool
    /** Delay of the pending timer that hides the loader, if one was set. */
    var hideLoaderAfter: Option<int>

    constructor (protocolIdentifier: string, currentBalance: real)
      ensures this.protocolIdentifier == protocolIdentifier && this.currentBalance == currentBalance
      ensures aeMigratedTokens == 0.0 && transactions == [] && txOffset == 0
      ensures !infiniteEnabled && !isRefreshing && !showLoader && hideLoaderAfter.None?
    {
      this.protocolIdentifier := protocolIdentifier;
      this.currentBalance := currentBalance;
      aeMigratedTokens := 0.0;
      transactions := [];
      txOffset := 0;
      infiniteEnabled := false;
      isRefreshing := false;
      refreshStarted := 0;
      showLoader := false;
      hideLoaderAfter := None;
    }

    predicate WalletIsAe()
    {
      protocolIdentifier == AeIdentifier
    }

    /** The small banner: balance or history on the old chain and tokens awaiting migration. */
    predicate ShowAeMigrationBanner()
      reads this
    {
      WalletIsAe() && (currentBalance > 0.0 || |transactions| > 0) && aeMigratedTokens > 0.0
    }

    /** The full-page migration screen: tokens awaiting migration and nothing else. */
    predicate ShowAeMigrationScreen()
      reads this
    {
      WalletIsAe() && (currentBalance == 0.0 && |transactions| == 0) && aeMigratedTokens > 0.0
    }

    predicate ShowNoTransactionScreen()
      reads this
    {
      |transactions| == 0 && !ShowAeMigrationScreen()
    }

    /** At most one of the banner, the migration screen and the empty-list screen is shown. */
    lemma ScreensAreExclusive()
      ensures !(ShowAeMigrationBanner() && ShowAeMigrationScreen())
      ensures !(ShowAeMigrationScreen() && ShowNoTransactionScreen())
      ensures !WalletIsAe() ==> (ShowNoTransactionScreen() <==> transactions == [])
    {
    }

    /** The `isRefreshing` setter: a refresh that starts shows the loader; one
        that ends hides it at once only after the minimum loading time,
        otherwise sets a timer for the rest of that time. */
    method SetRefreshing(refreshing: bool, now: int)
      modifies this
      ensures isRefreshing == refreshing
      ensures transactions == old(transactions) && txOffset == old(txOffset)
      ensures infiniteEnabled == old(infiniteEnabled) && aeMigratedTokens == old(aeMigratedTokens)
      ensures !old(isRefreshing) && refreshing ==>
        refreshStarted == now && showLoader && hideLoaderAfter == old(hideLoaderAfter)
      ensures old(isRefreshing) && !refreshing ==>
        && refreshStarted == old(refreshStarted)
        && (if old(refreshStarted) + MinLoadingTime < now
            then !showLoader && hideLoaderAfter == old(hideLoaderAfter)
            else showLoader == old(showLoader) && hideLoaderAfter == Some(MinLoadingTime + old(refreshStarted) - now))
      ensures old(isRefreshing) == refreshing ==>
        refreshStarted == old(refreshStarted) && showLoader == old(showLoader) && hideLoaderAfter == old(hideLoaderAfter)
      ensures old(showLoader) && !showLoader ==> now - refreshStarted > MinLoadingTime
    {
      if !isRefreshing && refreshing {
        refreshStarted := now;
        showLoader := true;
      }
      if isRefreshing && !refreshing {
        if refreshStarted + MinLoadingTime < now {
          showLoader := false;
        } else {
          hideLoaderAfter := Some(MinLoadingTime + refreshStarted - now);
        }
      }
      isRefreshing := refreshing;
    }

    /** The timer set by `SetRefreshing` fires. */
    method HideLoaderTimeout()
      requires hideLoaderAfter.Some?
      modifies this
      ensures !showLoader && hideLoaderAfter.None?
      ensures transactions == old(transactions) && isRefreshing == old(isRefreshing)
      ensures refreshStarted == old(refreshStarted) && txOffset == old(txOffset)
      ensures infiniteEnabled == old(infiniteEnabled) && aeMigratedTokens == old(aeMigratedTokens)
    {
      showLoader := false;
      hideLoaderAfter := None;
    }

    /** Merges the first page into the cached list (read from the cache only
        when the page holds nothing) and enables infinite scrolling. */
    method LoadInitialTransactions(cached: Option<seq<Transaction>>, fetch: Fetch, now: int)
      modifies this
      ensures var base := if |old(transactions)| == 0 then cached else Some(old(transactions));
        transactions == Merged(base, fetch(TransactionLimit, 0))
      ensures txOffset == |transactions| && infiniteEnabled && !isRefreshing
      ensures aeMigratedTokens == old(aeMigratedTokens) && refreshStarted == old(refreshStarted)
      ensures !old(isRefreshing) ==> showLoader == old(showLoader) && hideLoaderAfter == old(hideLoaderAfter)
      ensures old(isRefreshing) ==>
        if old(refreshStarted) + MinLoadingTime < now
        then !showLoader && hideLoaderAfter == old(hideLoaderAfter)
        else showLoader == old(showLoader) && hideLoaderAfter == Some(MinLoadingTime + old(refreshStarted) - now)
    {
      var base: Option<seq<Transaction>> := Some(transactions);
      if |transactions| == 0 {
        base := cached;
      }
      var fetched := fetch(TransactionLimit, 0);
      var merged := MergeTransactions(base, fetched);
      ShowFirstPage(merged, now);
    }

    /** The end of the initial load: the merged list is shown, the refresh
        ends, and infinite scrolling continues after it. */
    method ShowFirstPage(merged: seq<Transaction>, now: int)
      modifies this
      ensures transactions == merged && txOffset == |merged| && infiniteEnabled && !isRefreshing
      ensures aeMigratedTokens == old(aeMigratedTokens) && refreshStarted == old(refreshStarted)
      ensures !old(isRefreshing) ==> showLoader == old(showLoader) && hideLoaderAfter == old(hideLoaderAfter)
      ensures old(isRefreshing) ==>
        if old(refreshStarted) + MinLoadingTime < now
        then !showLoader && hideLoaderAfter == old(hideLoaderAfter)
        else showLoader == old(showLoader) && hideLoaderAfter == Some(MinLoadingTime + old(refreshStarted) - now)
    {
      transactions := merged;
      SetRefreshing(false, now);
      txOffset := |merged|;
      infiniteEnabled := true;
    }

    /** Loads the next page; a short page turns infinite scrolling off. */
    method DoInfinite(fetch: Fetch)
      modifies this
      ensures !old(infiniteEnabled) ==> transactions == old(transactions) && txOffset == old(txOffset) && !infiniteEnabled
      ensures old(infiniteEnabled) ==>
        var page := fetch(TransactionLimit, NextOffset(old(txOffset)));
        && transactions == Merged(Some(old(transactions)), page)
        && txOffset == |transactions|
        && (infiniteEnabled <==> |page| >= TransactionLimit)
      ensures isRefreshing == old(isRefreshing) && showLoader == old(showLoader)
      ensures refreshStarted == old(refreshStarted) && hideLoaderAfter == old(hideLoaderAfter)
      ensures aeMigratedTokens == old(aeMigratedTokens)
    {
      if !infiniteEnabled {
        return;
      }
      var offset := NextOffset(txOffset);
      var newTransactions := fetch(TransactionLimit, offset);
      transactions := MergeTransactions(Some(transactions), newTransactions);
      txOffset := |transactions|;
      if |newTransactions| < TransactionLimit {
        infiniteEnabled := false;
      }
    }

    /** A refresh: the loader starts; on the `ae` chain the list is only
        loaded while the status service enables it, otherwise it is cleared. */
    method DoRefresh(aeTxListEnabled: bool, cached: Option<seq<Transaction>>, fetch: Fetch, started: int, finished: int)
      modifies this
      ensures WalletIsAe() && !aeTxListEnabled ==>
        transactions == [] && txOffset == old(txOffset) && infiniteEnabled == old(infiniteEnabled)
      ensures !(WalletIsAe() && !aeTxListEnabled) ==>
        var base := if |old(transactions)| == 0 then cached else Some(old(transactions));
        && transactions == Merged(base, fetch(TransactionLimit, 0))
        && txOffset == |transactions| && infiniteEnabled
      ensures !isRefreshing && aeMigratedTokens == old(aeMigratedTokens)
      ensures var start := if old(isRefreshing) then old(refreshStarted) else started;
        && refreshStarted == start
        && if start + MinLoadingTime < finished
           then !showLoader && hideLoaderAfter == old(hideLoaderAfter)
           else showLoader == (old(showLoader) || !old(isRefreshing))
                && hideLoaderAfter == Some(MinLoadingTime + start - finished)
    {
      SetRefreshing(true, started);
      if WalletIsAe() && !aeTxListEnabled {
        transactions := [];
        SetRefreshing(false, finished);
      } else {
        LoadInitialTransactions(cached, fetch, finished);
      }
    }
  }
}
