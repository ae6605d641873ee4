/** The transaction QR page: the prepared data shown as a QR code, and the
    summary shown when several transactions of one protocol are signed
    together. */
module TransactionQr {
  import opened Common

  /** A big number as parsed from a transaction field. */
  datatype Num = Finite(value: real) | NaN

  datatype Transaction = Transaction(protocolIdentifier: string, amount: Num, fee: Num)

  datatype AggregatedInfo = AggregatedInfo(numberOfTxs: nat, totalAmount: Num, totalFees: Num)

  /** What the route hands the page. */
  datatype Special = Special(data: string, airGapTxs: Option<seq<Transaction>>)

  const MaxQrDataLength: nat := 2800

  /** Big-number addition: NaN absorbs everything. */
  function Plus(a: Num, b: Num): (r: Num)
    ensures r.NaN? <==> a.NaN? || b.NaN?
    ensures r.Finite? ==> r.value == a.value + b.value
  {
    if a.NaN? || b.NaN? then NaN else Finite(a.value + b.value)
  }

  /** Left fold of `Plus` from zero. */
  function Sum(ns: seq<Num>): (r: Num)
  {
    if ns == [] then Finite(0.0) else Plus(Sum(ns[..|ns| - 1]), ns[|ns| - 1])
  }

  function Amounts(txs: seq<Transaction>): (r: seq<Num>)
    ensures |r| == |txs| && forall i :: 0 <= i < |txs| ==> r[i] == txs[i].amount
  {
    if txs == [] then [] else Amounts(txs[..|txs| - 1]) + [txs[|txs| - 1].amount]
  }

  function Fees(txs: seq<Transaction>): (r: seq<Num>)
    ensures |r| == |txs| && forall i :: 0 <= i < |txs| ==> r[i] == txs[i].fee
  {
    if txs == [] then [] else Fees(txs[..|txs| - 1]) + [txs[|txs| - 1].fee]
  }

  /** The numbers that are not NaN, in order. */
  function WithoutNaN(ns: seq<Num>): (r: seq<Num>)
    ensures |r| <= |ns|
    ensures forall i :: 0 <= i < |r| ==> r[i].Finite? && r[i] in ns
  {
    if ns == [] then []
    else WithoutNaN(ns[..|ns| - 1]) + (if ns[|ns| - 1].NaN? then [] else [ns[|ns| - 1]])
  }

  function TotalAmount(txs: seq<Transaction>): Num {
    Sum(WithoutNaN(Amounts(txs)))
  }

  function TotalFees(txs: seq<Transaction>): Num {
    Sum(Fees(txs))
  }

  /** The reference sum: every finite number counted once, NaN counted as 0. */
  function FiniteSum(ns: seq<Num>): real {
    if ns == [] then 0.0
    else FiniteSum(ns[..|ns| - 1]) + (if ns[|ns| - 1].Finite? then ns[|ns| - 1].value else 0.0)
  }

  /** A sum is NaN exactly when one of its terms is; otherwise it is the sum of
      all terms. */
  lemma {:induction false} SumIsNaNIffSomeTermIs(ns: seq<Num>)
    ensures Sum(ns).NaN? <==> exists i :: 0 <= i < |ns| && ns[i].NaN?
    ensures Sum(ns).Finite? ==> Sum(ns).value == FiniteSum(ns)
  {
    if ns != [] {
      var init := ns[..|ns| - 1];
      SumIsNaNIffSomeTermIs(init);
      if Sum(init).NaN? {
        var i :| 0 <= i < |init| && init[i].NaN?;
        assert ns[i] == init[i];
      }
      if exists i :: 0 <= i < |ns| && ns[i].NaN? {
        var i :| 0 <= i < |ns| && ns[i].NaN?;
        if i < |init| {
          assert init[i] == ns[i];
        }
      }
    }
  }

  /** Dropping NaN terms loses nothing from the reference sum. */
  lemma {:induction false} WithoutNaNKeepsFiniteSum(ns: seq<Num>)
    ensures FiniteSum(WithoutNaN(ns)) == FiniteSum(ns)
  {
    if ns != [] {
      var init := ns[..|ns| - 1];
      var last := ns[|ns| - 1];
      var kept := WithoutNaN(init);
      WithoutNaNKeepsFiniteSum(init);
      if last.Finite? {
        var extended := kept + [last];
        assert WithoutNaN(ns) == extended;
        assert extended[..|kept|] == kept;
        assert FiniteSum(extended) == FiniteSum(kept) + last.value;
        assert FiniteSum(ns) == FiniteSum(init) + last.value;
      } else {
        assert WithoutNaN(ns) == kept + [];
        assert kept + [] == kept;
        assert FiniteSum(ns) == FiniteSum(init);
      }
    }
  }

  /** The total amount is never NaN: a NaN amount is skipped, every other one
      is added. */
  lemma TotalAmountSkipsNaN(txs: seq<Transaction>)
    ensures TotalAmount(txs) == Finite(FiniteSum(Amounts(txs)))
  {
    var kept := WithoutNaN(Amounts(txs));
    SumIsNaNIffSomeTermIs(kept);
    WithoutNaNKeepsFiniteSum(Amounts(txs));
  }

  /** The total fee is NaN as soon as one fee is; otherwise it is the sum of
      all fees. */
  lemma TotalFeesNaNIffSomeFeeIs(txs: seq<Transaction>)
    ensures TotalFees(txs).NaN? <==> exists i :: 0 <= i < |txs| && txs[i].fee.NaN?
    ensures TotalFees(txs).Finite? ==> TotalFees(txs).value == FiniteSum(Fees(txs))
  {
    SumIsNaNIffSomeTermIs(Fees(txs));
    if exists i :: 0 <= i < |txs| && txs[i].fee.NaN? {
      var i :| 0 <= i < |txs| && txs[i].fee.NaN?;
      assert Fees(txs)[i].NaN?;
    }
  }

  /** Summing two batches of numbers is adding their sums. */
  lemma {:induction false} SumAppend(a: seq<Num>, b: seq<Num>)
    ensures Sum(a + b) == Plus(Sum(a), Sum(b))
  {
    if b == [] {
      assert a + b == a;
    } else {
      var all := a + b;
      assert all[..|all| - 1] == a + b[..|b| - 1];
      SumAppend(a, b[..|b| - 1]);
    }
  }

  predicate SameProtocol(txs: seq<Transaction>)
    requires txs != []
  {
    forall i :: 0 <= i < |txs| ==> txs[i].protocolIdentifier == txs[0].protocolIdentifier
  }

  /** The summary, given only for more than one transaction, all of the first
      one's protocol. */
  function Aggregate(airGapTxs: Option<seq<Transaction>>): (r: Option<AggregatedInfo>)
    ensures r.Some? <==> airGapTxs.Some? && |airGapTxs.value| > 1 && SameProtocol(airGapTxs.value)
    ensures r.Some? ==>
      && r.value.numberOfTxs == |airGapTxs.value|
      && r.value.totalAmount == Finite(FiniteSum(Amounts(airGapTxs.value)))
      && (r.value.totalFees.NaN? <==> exists i :: 0 <= i < |airGapTxs.value| && airGapTxs.value[i].fee.NaN?)
      && (r.value.totalFees.Finite? ==> r.value.totalFees.value == FiniteSum(Fees(airGapTxs.value)))
  {
    if airGapTxs.Some? && |airGapTxs.value| > 1 && SameProtocol(airGapTxs.value) then
      var txs := airGapTxs.value;
      TotalAmountSkipsNaN(txs);
      TotalFeesNaNIffSomeFeeIs(txs);
      Some(AggregatedInfo(|txs|, TotalAmount(txs), TotalFees(txs)))
    else
      None
  }

  class TransactionQrPage {
    var preparedDataQR: string
    var airGapTxs: Option<seq<Transaction>>
    var isBrowser: bool
    var qrDataTooBig: bool
    var displayRawData: bool
    var aggregatedInfo: Option<AggregatedInfo>

    /** Takes the route's data when there is any; `hybrid` is whether the
        platform is a native app. */
    constructor (special: Option<Special>, hybrid: bool)
      ensures special.None? ==> preparedDataQR == "" && airGapTxs == None && !qrDataTooBig && aggregatedInfo == None
      ensures special.Some? ==>
        && preparedDataQR == special.value.data
        && airGapTxs == special.value.airGapTxs
        && (qrDataTooBig <==> |special.value.data| > MaxQrDataLength)
        && aggregatedInfo == Aggregate(special.value.airGapTxs)
      ensures isBrowser == !hybrid && !displayRawData
    {
      preparedDataQR := "";
      airGapTxs := None;
      qrDataTooBig := false;
      displayRawData := false;
      aggregatedInfo := None;
      if special.Some? {
        airGapTxs := special.value.airGapTxs;
        preparedDataQR := special.value.data;
        qrDataTooBig := |special.value.data| > MaxQrDataLength;
        aggregatedInfo := Aggregate(special.value.airGapTxs);
      }
      isBrowser := !hybrid;
    }

    method ToggleDisplayRawData()
      modifies this
      ensures displayRawData == !old(displayRawData)
      ensures preparedDataQR == old(preparedDataQR) && airGapTxs == old(airGapTxs)
      ensures isBrowser == old(isBrowser) && qrDataTooBig == old(qrDataTooBig)
      ensures aggregatedInfo == old(aggregatedInfo)
    {
      displayRawData := !displayRawData;
    }
  }
}
