/** A wallet's balance at each price timestamp, reconstructed backwards from
    the current balance by undoing the transactions that happened between
    consecutive timestamps. Price timestamps are in milliseconds, transaction
    timestamps in seconds (0 standing for a missing one). */
module MarketData {
  import opened Common

  datatype WalletTransaction = WalletTransaction(
    timestamp: int,
    from: seq<string>,
    to: seq<string>,
    isInbound: bool,
    amount: int,
    fee: int)

  /** What the walk reads of a wallet: its balance in base units and its protocol. */
  datatype Wallet = Wallet(balance: int, decimals: nat, marketSymbol: string)

  datatype BalanceAtTimestamp = BalanceAtTimestamp(timestamp: real, balance: real, marketSymbol: string)

  /** `new BigNumber(ms).div(1000)`. */
  function Seconds(ms: int): real {
    ms as real / 1000.0
  }

  /** `balance.shiftedBy(-decimals)`: base units to whole coins, the decimal
      point moved left one place per decimal. */
  function Shifted(balance: int, decimals: nat): real {
    if decimals == 0 then balance as real else Shifted(balance, decimals - 1) / 10.0
  }

  function Head(s: seq<string>): Option<string> {
    if s == [] then None else Some(s[0])
  }

  /** A transaction that can matter: it has a timestamp and is later than the oldest price. */
  predicate Relevant(tx: WalletTransaction, oldest: int) {
    tx.timestamp != 0 && tx.timestamp as real > Seconds(oldest)
  }

  /** The test of line 82 for the timestamp at `i` of the newest-first list:
      the conditional binds looser than `&&`, so the transaction must have a
      timestamp before `newestFirst[i]`, a non-zero next (older) timestamp must
      exist, and the transaction must lie after it. */
  predicate InWindow(tx: WalletTransaction, newestFirst: seq<int>, i: nat) {
    if && i < |newestFirst|
       && tx.timestamp != 0
       && (tx.timestamp as real) < Seconds(newestFirst[i])
       && i + 1 < |newestFirst|
       && newestFirst[i + 1] != 0
    then tx.timestamp as real > Seconds(newestFirst[i + 1])
    else false
  }

  /** How a transaction changed the balance: nothing when it was sent to its
      own sender, +amount when received, -(amount + fee) when sent. */
  function Contribution(tx: WalletTransaction): (c: int)
    ensures Head(tx.to) == Head(tx.from) ==> c == 0
    ensures Head(tx.to) != Head(tx.from) && tx.isInbound ==> c == tx.amount
    ensures Head(tx.to) != Head(tx.from) && !tx.isInbound ==> c == -(tx.amount + tx.fee)
  {
    var selfTx := Head(tx.to) == Head(tx.from);
    if selfTx then 0
    else if tx.isInbound then tx.amount
    else -(tx.amount + tx.fee)
  }

  function SumContributions(txs: seq<WalletTransaction>): int {
    if txs == [] then 0 else Contribution(txs[0]) + SumContributions(txs[1..])
  }

  /** The relevant transactions between the timestamps at `i` and `i + 1`. */
  function Window(relevant: seq<WalletTransaction>, newestFirst: seq<int>, i: nat): seq<WalletTransaction> {
    if relevant == [] then []
    else (if InWindow(relevant[0], newestFirst, i) then [relevant[0]] else []) + Window(relevant[1..], newestFirst, i)
  }

  /** The window of every position of the newest-first walk. */
  function Windows(relevant: seq<WalletTransaction>, newestFirst: seq<int>): (r: seq<seq<WalletTransaction>>)
    ensures |r| == |newestFirst|
    ensures forall i :: 0 <= i < |r| ==> r[i] == Window(relevant, newestFirst, i)
  {
    seq(|newestFirst|, i requires 0 <= i < |newestFirst| => Window(relevant, newestFirst, i))
  }

  /** The net change undone over the first `k` windows of the walk. */
  function Undone(windows: seq<seq<WalletTransaction>>, k: nat): int
    requires k <= |windows|
  {
    if k == 0 then 0
    else Undone(windows, k - 1) + SumContributions(windows[k - 1])
  }

  /** The transactions with a timestamp later than the oldest price timestamp. */
  function RelevantTransactions(fetched: Result<seq<WalletTransaction>>, oldest: int): seq<WalletTransaction> {
    var transactions := if fetched.Ok? then fetched.value else [];
    RelevantAmong(transactions, oldest)
  }

  function RelevantAmong(transactions: seq<WalletTransaction>, oldest: int): seq<WalletTransaction> {
    if transactions == [] then []
    else
      (if Relevant(transactions[0], oldest) then [transactions[0]] else [])
        + RelevantAmong(transactions[1..], oldest)
  }

  /** One record per timestamp, balances shifted to whole coins. */
  function Report(newestFirst: seq<int>, balances: seq<int>, decimals: nat, symbol: string): (r: seq<BalanceAtTimestamp>)
    requires |balances| == |newestFirst|
    ensures |r| == |newestFirst|
    ensures forall k :: 0 <= k < |r| ==>
      r[k] == BalanceAtTimestamp(Seconds(newestFirst[k]), Shifted(balances[k], decimals), symbol)
  {
    seq(|newestFirst|, k requires 0 <= k < |newestFirst| =>
      BalanceAtTimestamp(Seconds(newestFirst[k]), Shifted(balances[k], decimals), symbol))
  }

  // ---------------------------------------------------------------------------
  // The walk as written

  /** The balances the `map` callback reports from position `i` on: a
      non-empty window is subtracted from the running balance, and the balance
      is then reported for position `i`. */
  function WalkAsWritten(windows: seq<seq<WalletTransaction>>, i: nat, balance: int): (r: seq<int>)
    requires i <= |windows|
    ensures |r| == |windows| - i
    decreases |windows| - i
  {
    if i == |windows| then []
    else
      var newTransactions := windows[i];
      var next := if |newTransactions| == 0 then balance else balance - SumContributions(newTransactions);
      [next] + WalkAsWritten(windows, i + 1, next)
  }

  /** `walletBalancesAtTimestamps` as written; `fetched` is the outcome of the
      transaction query, whose failure counts as no transactions. */
  function BalancesAsWritten(wallet: Wallet, fetched: Result<seq<WalletTransaction>>, timestamps: seq<int>)
    : (r: seq<BalanceAtTimestamp>)
    ensures |r| == |timestamps|
  {
    if timestamps == [] then []
    else
      var newestFirst := Reverse(timestamps);
      var relevant := RelevantTransactions(fetched, timestamps[0]);
      var walk := WalkAsWritten(Windows(relevant, newestFirst), 0, wallet.balance);
      Reverse(Report(newestFirst, walk, wallet.decimals, wallet.marketSymbol))
  }

  lemma EmptyWindowUndoesNothing(w: seq<WalletTransaction>)
    ensures |w| == 0 ==> SumContributions(w) == 0
  {
  }

  lemma {:induction false} WalkAsWrittenClosedForm(windows: seq<seq<WalletTransaction>>, i: nat, balance: int, k: nat)
    requires i <= |windows| && k < |windows| - i
    ensures WalkAsWritten(windows, i, balance)[k] == balance - (Undone(windows, i + k + 1) - Undone(windows, i))
    decreases k
  {
    var next := balance - SumContributions(windows[i]);
    var rest := WalkAsWritten(windows, i + 1, next);
    WalkAsWrittenStep(windows, i, balance);
    UndoneStep(windows, i);
    if k > 0 {
      WalkAsWrittenClosedForm(windows, i + 1, next, k - 1);
      assert ([next] + rest)[k] == rest[k - 1];
    }
  }

  /** One step of the walk as written: the window is undone before reporting. */
  lemma WalkAsWrittenStep(windows: seq<seq<WalletTransaction>>, i: nat, balance: int)
    requires i < |windows|
    ensures var next := balance - SumContributions(windows[i]);
      WalkAsWritten(windows, i, balance) == [next] + WalkAsWritten(windows, i + 1, next)
  {
    EmptyWindowUndoesNothing(windows[i]);
  }

  lemma UndoneStep(windows: seq<seq<WalletTransaction>>, i: nat)
    requires i < |windows|
    ensures Undone(windows, i + 1) == Undone(windows, i) + SumContributions(windows[i])
  {
  }

  /** The balance reported at the `k`-th newest timestamp already has the
      transactions of the `k`-th window undone, although they happened before it. */
  lemma AsWrittenUndoesOneWindowTooMany(windows: seq<seq<WalletTransaction>>, balance: int, k: nat)
    requires k < |windows|
    ensures WalkAsWritten(windows, 0, balance)[k] == balance - Undone(windows, k + 1)
  {
    WalkAsWrittenClosedForm(windows, 0, balance, k);
  }

  /** Two price timestamps (1 s and 3 s), a current balance of 100 and one
      payment of 10 received at 2 s: the walk reports 90 at 3 s, after the
      payment had arrived. */
  lemma AsWrittenMisreportsNewest()
    ensures var tx := WalletTransaction(2, ["sender"], ["me"], true, 10, 1);
      BalancesAsWritten(Wallet(100, 0, "xtz"), Ok([tx]), [1000, 3000])
        == [BalanceAtTimestamp(1.0, 90.0, "xtz"), BalanceAtTimestamp(3.0, 90.0, "xtz")]
  {
    var tx := WalletTransaction(2, ["sender"], ["me"], true, 10, 1);
    var relevant := RelevantTransactions(Ok([tx]), 1000);
    assert Relevant(tx, 1000);
    assert RelevantAmong([], 1000) == [];
    assert RelevantAmong([tx], 1000) == [tx] + RelevantAmong([tx][1..], 1000);
    assert [tx][1..] == [];
    assert relevant == [tx];
    var a := Reverse([1000, 3000]);
    assert a == [3000, 1000];
    assert InWindow(tx, a, 0);
    assert !InWindow(tx, a, 1);
    assert Window(relevant, a, 0) == [tx];
    assert Window(relevant, a, 1) == [];
    var windows := Windows(relevant, a);
    assert windows == [[tx], []];
    assert SumContributions([tx]) == 10;
    assert WalkAsWritten(windows, 0, 100) == [90, 90];
    var report := Report(a, [90, 90], 0, "xtz");
    assert report == [BalanceAtTimestamp(3.0, 90.0, "xtz"), BalanceAtTimestamp(1.0, 90.0, "xtz")];
  }

  // ---------------------------------------------------------------------------
  // The walk as intended

  /** Reports the running balance for position `i` and only then undoes the
      transactions between that timestamp and the next older one. */
  function WalkCorrected(windows: seq<seq<WalletTransaction>>, i: nat, balance: int): (r: seq<int>)
    requires i <= |windows|
    ensures |r| == |windows| - i
    decreases |windows| - i
  {
    if i == |windows| then []
    else [balance] + WalkCorrected(windows, i + 1, balance - SumContributions(windows[i]))
  }

  function BalancesCorrected(wallet: Wallet, fetched: Result<seq<WalletTransaction>>, timestamps: seq<int>)
    : (r: seq<BalanceAtTimestamp>)
    ensures |r| == |timestamps|
    ensures forall k :: 0 <= k < |r| ==> r[k].timestamp == Seconds(timestamps[k]) && r[k].marketSymbol == wallet.marketSymbol
  {
    if timestamps == [] then []
    else
      var newestFirst := Reverse(timestamps);
      var relevant := RelevantTransactions(fetched, timestamps[0]);
      ReportCorrected(newestFirst, Windows(relevant, newestFirst), wallet.balance, wallet.decimals, wallet.marketSymbol)
  }

  /** The corrected walk over the newest-first windows, reported oldest first. */
  function ReportCorrected(newestFirst: seq<int>, windows: seq<seq<WalletTransaction>>, balance: int, decimals: nat,
                           symbol: string): (r: seq<BalanceAtTimestamp>)
    requires |windows| == |newestFirst|
    ensures |r| == |newestFirst|
  {
    Reverse(Report(newestFirst, WalkCorrected(windows, 0, balance), decimals, symbol))
  }

  lemma {:induction false} WalkCorrectedClosedForm(windows: seq<seq<WalletTransaction>>, i: nat, balance: int, k: nat)
    requires i <= |windows| && k < |windows| - i
    ensures WalkCorrected(windows, i, balance)[k] == balance - (Undone(windows, i + k) - Undone(windows, i))
    decreases k
  {
    var next := balance - SumContributions(windows[i]);
    var rest := WalkCorrected(windows, i + 1, next);
    WalkCorrectedStep(windows, i, balance);
    if k > 0 {
      WalkCorrectedClosedForm(windows, i + 1, next, k - 1);
      UndoneStep(windows, i);
      assert ([balance] + rest)[k] == rest[k - 1];
    }
  }

  /** One step of the corrected walk: the balance is reported before its window is undone. */
  lemma WalkCorrectedStep(windows: seq<seq<WalletTransaction>>, i: nat, balance: int)
    requires i < |windows|
    ensures WalkCorrected(windows, i, balance)
      == [balance] + WalkCorrected(windows, i + 1, balance - SumContributions(windows[i]))
  {
  }

  /** The `k`-th newest timestamp reports the current balance with exactly the
      windows after it undone; the newest one reports the current balance. */
  lemma CorrectedUndoesLaterWindows(windows: seq<seq<WalletTransaction>>, balance: int, k: nat)
    requires k < |windows|
    ensures WalkCorrected(windows, 0, balance)[k] == balance - Undone(windows, k)
    ensures WalkCorrected(windows, 0, balance)[0] == balance
  {
    WalkCorrectedClosedForm(windows, 0, balance, k);
  }

  /** The record for the `j`-th timestamp, oldest first, carries the wallet's
      balance with the windows of every later timestamp undone. */
  lemma CorrectedBalanceAtTimestamp(wallet: Wallet, fetched: Result<seq<WalletTransaction>>, timestamps: seq<int>, j: nat)
    requires j < |timestamps|
    ensures BalancesCorrected(wallet, fetched, timestamps)[j].balance
      == Shifted(wallet.balance - Undone(Windows(RelevantTransactions(fetched, timestamps[0]), Reverse(timestamps)),
                                         |timestamps| - 1 - j), wallet.decimals)
  {
    var newestFirst := Reverse(timestamps);
    var windows := Windows(RelevantTransactions(fetched, timestamps[0]), newestFirst);
    BalancesCorrectedIsReport(wallet, fetched, timestamps);
    ReportedWalkAt(newestFirst, windows, wallet.balance, wallet.decimals, wallet.marketSymbol, j, |timestamps| - 1 - j);
  }

  lemma BalancesCorrectedIsReport(wallet: Wallet, fetched: Result<seq<WalletTransaction>>, timestamps: seq<int>)
    requires timestamps != []
    ensures |Reverse(timestamps)| == |timestamps|
    ensures |Windows(RelevantTransactions(fetched, timestamps[0]), Reverse(timestamps))| == |timestamps|
    ensures BalancesCorrected(wallet, fetched, timestamps)
         == ReportCorrected(Reverse(timestamps), Windows(RelevantTransactions(fetched, timestamps[0]), Reverse(timestamps)),
                            wallet.balance, wallet.decimals, wallet.marketSymbol)
  {
  }

  /** Position `j` of the corrected report, for any windows. */
  lemma ReportedWalkAt(newestFirst: seq<int>, windows: seq<seq<WalletTransaction>>, balance: int, decimals: nat,
                       symbol: string, j: nat, k: nat)
    requires |windows| == |newestFirst| && j < |newestFirst| && k == |newestFirst| - 1 - j
    ensures ReportCorrected(newestFirst, windows, balance, decimals, symbol)[j].balance
      == Shifted(balance - Undone(windows, k), decimals)
  {
    var report := Report(newestFirst, WalkCorrected(windows, 0, balance), decimals, symbol);
    assert Reverse(report)[j] == report[k];
    CorrectedUndoesLaterWindows(windows, balance, k);
  }

  /** On the same input the corrected walk reports 100 at 3 s. */
  lemma CorrectedReportsNewest()
    ensures var tx := WalletTransaction(2, ["sender"], ["me"], true, 10, 1);
      BalancesCorrected(Wallet(100, 0, "xtz"), Ok([tx]), [1000, 3000])
        == [BalanceAtTimestamp(1.0, 90.0, "xtz"), BalanceAtTimestamp(3.0, 100.0, "xtz")]
  {
    var tx := WalletTransaction(2, ["sender"], ["me"], true, 10, 1);
    var relevant := RelevantTransactions(Ok([tx]), 1000);
    assert Relevant(tx, 1000);
    assert RelevantAmong([], 1000) == [];
    assert RelevantAmong([tx], 1000) == [tx] + RelevantAmong([tx][1..], 1000);
    assert [tx][1..] == [];
    assert relevant == [tx];
    var a := Reverse([1000, 3000]);
    assert a == [3000, 1000];
    assert InWindow(tx, a, 0);
    assert !InWindow(tx, a, 1);
    assert Window(relevant, a, 0) == [tx];
    assert Window(relevant, a, 1) == [];
    var windows := Windows(relevant, a);
    assert windows == [[tx], []];
    assert SumContributions([tx]) == 10;
    assert WalkCorrected(windows, 0, 100) == [100, 90];
    var report := Report(a, [100, 90], 0, "xtz");
    assert report == [BalanceAtTimestamp(3.0, 100.0, "xtz"), BalanceAtTimestamp(1.0, 90.0, "xtz")];
  }

  // ---------------------------------------------------------------------------
  // The service method

  /** `walletBalancesAtTimestamps` with the walk in its corrected order. The
      caller's array is reversed in place, as `Array.prototype.reverse` does. */
  method WalletBalancesAtTimestamps(wallet: Wallet, fetched: Result<seq<WalletTransaction>>, timestamps: array<int>)
    returns (balances: seq<BalanceAtTimestamp>)
    modifies timestamps
    ensures balances == BalancesCorrected(wallet, fetched, old(timestamps[..]))
    ensures timestamps[..] == Reverse(old(timestamps[..]))
  {
    if timestamps.Length == 0 {
      return [];
    }
    var relevantTransactions := RelevantTransactions(fetched, timestamps[0]);
    ReverseInPlace(timestamps);
    var mapped := MapNewestFirst(wallet, relevantTransactions, timestamps);
    balances := Reverse(mapped);
  }

  /** The `map` over the newest-first timestamps, carrying the running balance. */
  method MapNewestFirst(wallet: Wallet, relevant: seq<WalletTransaction>, timestamps: array<int>)
    returns (mapped: seq<BalanceAtTimestamp>)
    ensures mapped == Report(timestamps[..], WalkCorrected(Windows(relevant, timestamps[..]), 0, wallet.balance),
                             wallet.decimals, wallet.marketSymbol)
  {
    var newestFirst := timestamps[..];
    ghost var windows := Windows(relevant, newestFirst);
    ghost var walk := WalkCorrected(windows, 0, wallet.balance);
    var balance := wallet.balance;
    mapped := [];
    var index := 0;
    while index < timestamps.Length
      invariant 0 <= index <= timestamps.Length == |newestFirst| == |walk|
      invariant mapped == Report(newestFirst[..index], walk[..index], wallet.decimals, wallet.marketSymbol)
      invariant balance == wallet.balance - Undone(windows, index)
    {
      var timestamp := timestamps[index];
      var newTransactions := Window(relevant, newestFirst, index);
      WalkStep(relevant, newestFirst, wallet.balance, index, balance);
      ReportSnoc(newestFirst, walk, index, wallet.decimals, wallet.marketSymbol);
      mapped := mapped + [BalanceAtTimestamp(Seconds(timestamp), Shifted(balance, wallet.decimals), wallet.marketSymbol)];
      if |newTransactions| > 0 {
        balance := balance - SumContributions(newTransactions);
      }
      index := index + 1;
    }
    assert newestFirst[..index] == newestFirst && walk[..index] == walk;
  }

  /** One position of the walk: the running balance is the corrected walk's
      value there, and undoing that position's window (nothing when it is
      empty) gives the running balance of the next. */
  lemma WalkStep(relevant: seq<WalletTransaction>, newestFirst: seq<int>, start: int, i: nat, balance: int)
    requires i < |newestFirst|
    requires balance == start - Undone(Windows(relevant, newestFirst), i)
    ensures WalkCorrected(Windows(relevant, newestFirst), 0, start)[i] == balance
    ensures (if |Window(relevant, newestFirst, i)| > 0 then balance - SumContributions(Window(relevant, newestFirst, i))
             else balance) == start - Undone(Windows(relevant, newestFirst), i + 1)
  {
    var windows := Windows(relevant, newestFirst);
    assert windows[i] == Window(relevant, newestFirst, i);
    CorrectedUndoesLaterWindows(windows, start, i);
    EmptyWindowUndoesNothing(windows[i]);
  }

  /** The report of one more position is the report so far and that position's record. */
  lemma ReportSnoc(newestFirst: seq<int>, balances: seq<int>, i: nat, decimals: nat, symbol: string)
    requires i < |newestFirst| == |balances|
    ensures Report(newestFirst[..i + 1], balances[..i + 1], decimals, symbol)
         == Report(newestFirst[..i], balances[..i], decimals, symbol)
            + [BalanceAtTimestamp(Seconds(newestFirst[i]), Shifted(balances[i], decimals), symbol)]
  {
    var longer := Report(newestFirst[..i + 1], balances[..i + 1], decimals, symbol);
    var shorter := Report(newestFirst[..i], balances[..i], decimals, symbol);
    assert forall k :: 0 <= k < i ==> longer[k] == shorter[k];
  }

  /** `Array.prototype.reverse`. */
  method ReverseInPlace(a: array<int>)
    modifies a
    ensures a[..] == Reverse(old(a[..]))
  {
    var n := a.Length;
    var i := 0;
    while i < n / 2
      invariant 0 <= i <= n / 2
      invariant forall k :: 0 <= k < i ==> a[k] == old(a[n - 1 - k]) && a[n - 1 - k] == old(a[k])
      invariant forall k :: i <= k < n - i ==> a[k] == old(a[k])
    {
      a[i], a[n - 1 - i] := a[n - 1 - i], a[i];
      i := i + 1;
    }
  }
}
