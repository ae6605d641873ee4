/** Shared vocabulary of the wallet model: optional values, results of fetches
    that may fail, exact quotients that may be undefined, and the abstract
    display items that the delegation extensions hand to the UI. */
module Common {

  datatype Option<+T> = None | Some(value: T) {
    function GetOr(default: T): T {
      match this
      case Some(v) => v
      case None => default
    }
  }

  /** The outcome of a query that may fail; `Err` carries the rejection reason. */
  datatype Result<+T> = Ok(value: T) | Err(message: string) {
    predicate IsFailure() { Err? }

    function PropagateFailure<U>(): Result<U>
      requires Err?
    {
      Err(message)
    }

    function Extract(): T
      requires Ok?
    {
      value
    }
  }

  /** The value of a BigNumber quotient. Dividing by zero gives NaN or
      Infinity there; the model keeps those apart from every exact value
      without distinguishing them. */
  datatype Quotient = Exact(value: real) | NotFinite

  function Divide(n: real, d: real): (q: Quotient)
    ensures q.Exact? <==> d != 0.0
    ensures q.Exact? ==> q.value * d == n
  {
    if d == 0.0 then NotFinite else Exact(n / d)
  }

  /** BigNumber `lt`: false whenever the receiver is NaN or +Infinity. Every
      quotient compared in this model has a non-negative numerator, so a
      `NotFinite` never stands for -Infinity here. */
  predicate LessThan(q: Quotient, bound: real) {
    q.Exact? && q.value < bound
  }

  /** Product of a quotient with a finite factor (NaN and Infinity absorb). */
  function Scale(q: Quotient, factor: real): (r: Quotient)
    ensures r.Exact? <==> q.Exact?
    ensures q.Exact? ==> r.value == q.value * factor
  {
    match q
    case Exact(v) => Exact(v * factor)
    case NotFinite => NotFinite
  }

  /** `usageDetails` of a delegatee: how much of its capacity is taken. */
  datatype UsageDetails = UsageDetails(usage: Quotient, current: real, total: real)

  /** What a display item shows; formatting (amount converter, decimal pipe,
      relative dates) belongs to the UI and is not modelled. */
  datatype Text =
    | Literal(s: string)              // a fixed string or a translation key
    | Amount(amount: real)            // an amount in base units, before unit shifting
    | NotANumber                      // a NaN or Infinity handed to the amount converter
    | Percent(ratio: real)            // ratio * 100 followed by '%'
    | FromNow(time: int)              // moment(time).fromNow()
    | FromNowWithDate(time: int)      // "fromNow (LLL date)"
    | Schedule(cycles: int, when: string)

  /** An icon-and-text widget, identifiable by `id` for later replacement. */
  datatype DisplayItem = IconText(id: Option<string>, icon: string, text: Text, description: string)

  /** The elements of `s` that satisfy `p`, in their original order. */
  function Filter<T>(s: seq<T>, p: T -> bool): (r: seq<T>)
    ensures |r| <= |s|
    ensures forall i :: 0 <= i < |r| ==> r[i] in s && p(r[i])
    ensures forall i :: 0 <= i < |s| && p(s[i]) ==> s[i] in r
  {
    if s == [] then []
    else (if p(s[0]) then [s[0]] else []) + Filter(s[1..], p)
  }

  lemma {:induction false} FilterAppend<T>(a: seq<T>, b: seq<T>, p: T -> bool)
    ensures Filter(a + b, p) == Filter(a, p) + Filter(b, p)
  {
    if a == [] {
      assert a + b == b;
    } else {
      assert (a + b)[1..] == a[1..] + b;
      FilterAppend(a[1..], b, p);
    }
  }

  function Reverse<T>(s: seq<T>): (r: seq<T>)
    ensures |r| == |s|
    ensures forall i :: 0 <= i < |s| ==> r[i] == s[|s| - 1 - i]
  {
    if s == [] then [] else Reverse(s[1..]) + [s[0]]
  }

}
