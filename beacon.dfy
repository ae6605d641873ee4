/** The Beacon service's list of requests forwarded to the vault, and how a
    signed message coming back from the vault is matched against it. */
module Beacon {
  import opened Common

  /** A forwarded request payload: a plain string (a payload to sign), or an
      operation record whose `binaryTransaction` may be absent. */
  datatype Payload = Text(text: string) | Operation(binaryTransaction: Option<string>)

  datatype Response =
    | BroadcastResponse(id: string, transactionHash: string)
    | SignPayloadResponse(id: string, signature: string)
    | OperationResponse(id: string, transactionHash: string)

  datatype PendingRequest = PendingRequest(messageId: string, payload: Payload)

  const ClientNotReady := "Client not ready"
  const SignatureLength: nat := 128

  /** JavaScript's string conversion of a payload, as `startsWith` applies it
      to its argument. */
  function AsString(p: Payload): (r: string)
    ensures p.Text? ==> r == p.text
    ensures p.Operation? ==> r == "[object Object]"
  {
    match p
    case Text(t) => t
    case Operation(_) => "[object Object]"
  }

  /** `payload.binaryTransaction` converted to a string: a missing property
      (always so on a string payload) reads as "undefined". */
  function BinaryTransactionString(p: Payload): (r: string)
    ensures p.Operation? && p.binaryTransaction.Some? ==> r == p.binaryTransaction.value
    ensures p.Text? || p.binaryTransaction.None? ==> r == "undefined"
  {
    match p
    case Text(_) => "undefined"
    case Operation(b) => b.GetOr("undefined")
  }

  predicate StartsWith(s: string, prefix: string) {
    |prefix| <= |s| && s[..|prefix|] == prefix
  }

  /** `s.substr(start)`: a negative start counts from the end, clamped at 0. */
  function Substr(s: string, start: int): (r: string)
    ensures 0 <= start <= |s| ==> r == s[start..]
    ensures start < 0 && -start <= |s| ==> r == s[|s| + start..]
    ensures start < 0 && -start > |s| ==> r == s
    ensures start > |s| ==> r == []
  {
    var from := if start < 0 then (if |s| + start < 0 then 0 else |s| + start) else start;
    if from > |s| then [] else s[from..]
  }

  /** The signature cut from a signed payload. */
  function SignatureOf(signedMessage: string): (r: string)
  {
    Substr(signedMessage, |signedMessage| - SignatureLength)
  }

  /** A signed message of at least 128 characters yields its last 128. */
  lemma SignatureIsLastCharacters(signedMessage: string)
    requires |signedMessage| >= SignatureLength
    ensures |SignatureOf(signedMessage)| == SignatureLength
    ensures signedMessage == signedMessage[..|signedMessage| - SignatureLength] + SignatureOf(signedMessage)
  {
    assert SignatureOf(signedMessage) == signedMessage[|signedMessage| - SignatureLength..];
  }

  /** A shorter one is cut a second time from its end: 100 characters yield
      only the last 28. */
  lemma ShortSignedMessageIsCutTwice(signedMessage: string)
    requires SignatureLength / 2 <= |signedMessage| < SignatureLength
    ensures |SignatureOf(signedMessage)| == SignatureLength - |signedMessage|
    ensures SignatureOf(signedMessage) == signedMessage[2 * |signedMessage| - SignatureLength..]
  {
  }

  /** The response a request gets from a signed message, tried in order: the
      same payload is a broadcast; a payload the message starts with was
      signed; a message starting with the operation's bytes was an operation.
      `None` keeps the request pending. */
  function Answer(signedMessage: string, hash: string, request: PendingRequest): (r: Option<Response>)
    ensures r.Some? ==> r.value.id == request.messageId
  {
    if request.payload == Text(signedMessage) then
      Some(BroadcastResponse(request.messageId, hash))
    else if StartsWith(signedMessage, AsString(request.payload)) then
      Some(SignPayloadResponse(request.messageId, SignatureOf(signedMessage)))
    else if StartsWith(signedMessage, BinaryTransactionString(request.payload)) then
      Some(OperationResponse(request.messageId, hash))
    else
      None
  }

  /** Which response a request gets, and when it gets none. */
  lemma AnswerCases(signedMessage: string, hash: string, request: PendingRequest)
    ensures var r := Answer(signedMessage, hash, request);
      && (request.payload == Text(signedMessage) ==> r == Some(BroadcastResponse(request.messageId, hash)))
      && (request.payload != Text(signedMessage) && StartsWith(signedMessage, AsString(request.payload)) ==>
            r == Some(SignPayloadResponse(request.messageId, SignatureOf(signedMessage))))
      && (request.payload != Text(signedMessage) && !StartsWith(signedMessage, AsString(request.payload))
            && StartsWith(signedMessage, BinaryTransactionString(request.payload)) ==>
            r == Some(OperationResponse(request.messageId, hash)))
      && (r.Some? && r.value.SignPayloadResponse? ==>
            StartsWith(signedMessage, AsString(request.payload)) && r.value.signature == SignatureOf(signedMessage))
      && (r.Some? && !r.value.SignPayloadResponse? ==> r.value.transactionHash == hash)
      && (r.None? <==>
            && request.payload != Text(signedMessage)
            && !StartsWith(signedMessage, AsString(request.payload))
            && !StartsWith(signedMessage, BinaryTransactionString(request.payload)))
  {
  }

  /** An operation record whose transaction bytes begin the signed message is
      answered with an operation response carrying the hash, unless its string
      form already begins the message. */
  lemma OperationMatchesByBinaryTransaction(signedMessage: string, hash: string, id: string, bytes: string)
    requires StartsWith(signedMessage, bytes) && !StartsWith(signedMessage, "[object Object]")
    ensures Answer(signedMessage, hash, PendingRequest(id, Operation(Some(bytes)))) == Some(OperationResponse(id, hash))
  {
  }

  /** The requests that stay pending, in their order. */
  function Unmatched(requests: seq<PendingRequest>, signedMessage: string, hash: string): (r: seq<PendingRequest>)
    ensures |r| <= |requests|
  {
    if requests == [] then []
    else
      var last := requests[|requests| - 1];
      Unmatched(requests[..|requests| - 1], signedMessage, hash)
        + (if Answer(signedMessage, hash, last).None? then [last] else [])
  }

  /** The kept requests are requests no answer matched. */
  lemma {:induction false} UnmatchedAreUnanswered(requests: seq<PendingRequest>, signedMessage: string, hash: string)
    ensures forall i :: 0 <= i < |Unmatched(requests, signedMessage, hash)| ==>
      var kept := Unmatched(requests, signedMessage, hash)[i];
      kept in requests && Answer(signedMessage, hash, kept).None?
  {
    if requests != [] {
      var init := requests[..|requests| - 1];
      UnmatchedAreUnanswered(init, signedMessage, hash);
      forall i | 0 <= i < |Unmatched(init, signedMessage, hash)|
        ensures Unmatched(init, signedMessage, hash)[i] in requests
      {
        assert Unmatched(init, signedMessage, hash)[i] in init;
      }
    }
  }

  /** The responses sent, one per matched request, in request order. */
  function Responses(requests: seq<PendingRequest>, signedMessage: string, hash: string): (r: seq<Response>)
    ensures |r| <= |requests|
  {
    if requests == [] then []
    else
      var last := requests[|requests| - 1];
      var answer := Answer(signedMessage, hash, last);
      Responses(requests[..|requests| - 1], signedMessage, hash)
        + (if answer.Some? then [answer.value] else [])
  }

  /** Every request either stays pending or gets exactly one response. */
  lemma {:induction false} EachRequestAnsweredOnceOrKept(requests: seq<PendingRequest>, signedMessage: string, hash: string)
    ensures |Unmatched(requests, signedMessage, hash)| + |Responses(requests, signedMessage, hash)| == |requests|
  {
    if requests != [] {
      EachRequestAnsweredOnceOrKept(requests[..|requests| - 1], signedMessage, hash);
    }
  }

  /** A request no answer matches is kept. */
  lemma {:induction false} UnansweredRequestIsKept(requests: seq<PendingRequest>, signedMessage: string, hash: string, i: nat)
    requires i < |requests| && Answer(signedMessage, hash, requests[i]).None?
    ensures requests[i] in Unmatched(requests, signedMessage, hash)
  {
    if i < |requests| - 1 {
      UnansweredRequestIsKept(requests[..|requests| - 1], signedMessage, hash, i);
    }
  }

  /** Every response answers some request, by that request's id. */
  lemma {:induction false} ResponsesAnswerRequests(requests: seq<PendingRequest>, signedMessage: string, hash: string, k: nat)
    requires k < |Responses(requests, signedMessage, hash)|
    ensures exists i :: 0 <= i < |requests| && Answer(signedMessage, hash, requests[i]) == Some(Responses(requests, signedMessage, hash)[k])
  {
    var init := requests[..|requests| - 1];
    if k < |Responses(init, signedMessage, hash)| {
      ResponsesAnswerRequests(init, signedMessage, hash, k);
      var i :| 0 <= i < |init| && Answer(signedMessage, hash, init[i]) == Some(Responses(init, signedMessage, hash)[k]);
      assert requests[i] == init[i];
    } else {
      assert Answer(signedMessage, hash, requests[|requests| - 1]) == Some(Responses(requests, signedMessage, hash)[k]);
    }
  }

  /** The same signed message arriving again answers nothing more. */
  lemma {:induction false} SecondDeliveryAnswersNothing(requests: seq<PendingRequest>, signedMessage: string, hash: string)
    ensures Responses(Unmatched(requests, signedMessage, hash), signedMessage, hash) == []
  {
    if requests != [] {
      var init := requests[..|requests| - 1];
      var last := requests[|requests| - 1];
      var kept := Unmatched(init, signedMessage, hash);
      SecondDeliveryAnswersNothing(init, signedMessage, hash);
      if Answer(signedMessage, hash, last).None? {
        assert (kept + [last])[..|kept|] == kept;
        assert Responses(kept + [last], signedMessage, hash) == Responses(kept, signedMessage, hash);
      } else {
        assert Unmatched(requests, signedMessage, hash) == kept;
      }
    }
  }

  /** The pending list and the responses split over a concatenation of
      requests: a request added later is matched on its own. */
  lemma {:induction false} UnmatchedDistributes(before: seq<PendingRequest>, after: seq<PendingRequest>, signedMessage: string, hash: string)
    ensures Unmatched(before + after, signedMessage, hash) == Unmatched(before, signedMessage, hash) + Unmatched(after, signedMessage, hash)
  {
    if after == [] {
      assert before + after == before;
    } else {
      var all := before + after;
      var init := after[..|after| - 1];
      var last := after[|after| - 1];
      assert all[..|all| - 1] == before + init;
      assert all[|all| - 1] == last;
      var tail := if Answer(signedMessage, hash, last).None? then [last] else [];
      assert Unmatched(all, signedMessage, hash) == Unmatched(before + init, signedMessage, hash) + tail;
      assert Unmatched(after, signedMessage, hash) == Unmatched(init, signedMessage, hash) + tail;
      UnmatchedDistributes(before, init, signedMessage, hash);
    }
  }

  lemma {:induction false} ResponsesDistribute(before: seq<PendingRequest>, after: seq<PendingRequest>, signedMessage: string, hash: string)
    ensures Responses(before + after, signedMessage, hash) == Responses(before, signedMessage, hash) + Responses(after, signedMessage, hash)
  {
    if after == [] {
      assert before + after == before;
    } else {
      var all := before + after;
      var init := after[..|after| - 1];
      var last := after[|after| - 1];
      assert all[..|all| - 1] == before + init;
      assert all[|all| - 1] == last;
      var tail := if Answer(signedMessage, hash, last).Some? then [Answer(signedMessage, hash, last).value] else [];
      assert Responses(all, signedMessage, hash) == Responses(before + init, signedMessage, hash) + tail;
      assert Responses(after, signedMessage, hash) == Responses(init, signedMessage, hash) + tail;
      ResponsesDistribute(before, init, signedMessage, hash);
    }
  }

  class BeaconService {
    /** Whether the wallet client exists. */
    var hasClient: bool
    var requests: seq<PendingRequest>
    /** The responses handed to the client, in order. */
    var sent: seq<Response>
    /** The errors passed to the error handler, in order. */
    var reported: seq<string>

    constructor (hasClient: bool)
      ensures this.hasClient == hasClient
      ensures requests == [] && sent == [] && reported == []
    {
      this.hasClient := hasClient;
      requests := [];
      sent := [];
      reported := [];
    }

    method AddVaultRequest(messageId: string, requestPayload: Payload)
      modifies this
      ensures requests == old(requests) + [PendingRequest(messageId, requestPayload)]
      ensures hasClient == old(hasClient) && sent == old(sent) && reported == old(reported)
    {
      requests := requests + [PendingRequest(messageId, requestPayload)];
    }

    /** Hands a response to the client; without one, fails. */
    method Respond(message: Response) returns (outcome: Result<Response>)
      modifies this
      ensures outcome == if hasClient then Ok(message) else Err(ClientNotReady)
      ensures sent == old(sent) + (if hasClient then [message] else [])
      ensures hasClient == old(hasClient) && requests == old(requests) && reported == old(reported)
    {
      if !hasClient {
        return Err(ClientNotReady);
      }
      sent := sent + [message];
      return Ok(message);
    }

    /** What the responses sent so far left behind: with a client they were
        sent, without one each was reported as "Client not ready". */
    ghost predicate DeliveredSoFar(answered: seq<Response>, sent0: seq<Response>, reported0: seq<string>)
      reads this
    {
      && (hasClient ==> sent == sent0 + answered && reported == reported0)
      && (!hasClient ==> sent == sent0 && reported == reported0 + Repeat(ClientNotReady, |answered|))
    }

    /** Sends one response; a failure goes to the error handler. */
    method Deliver(message: Response, ghost answered: seq<Response>, ghost sent0: seq<Response>, ghost reported0: seq<string>)
      requires DeliveredSoFar(answered, sent0, reported0)
      modifies this
      ensures hasClient == old(hasClient) && requests == old(requests)
      ensures DeliveredSoFar(answered + [message], sent0, reported0)
    {
      var outcome := Respond(message);
      if outcome.Err? {
        reported := reported + [outcome.message];
        RepeatSnoc(ClientNotReady, |answered|);
      }
    }

    /** Answers every pending request the signed message matches and drops
        it; a failed response goes to the error handler. */
    method GetVaultRequest(signedMessage: string, hash: string)
      modifies this
      ensures requests == Unmatched(old(requests), signedMessage, hash)
      ensures hasClient == old(hasClient)
      ensures hasClient ==> sent == old(sent) + Responses(old(requests), signedMessage, hash) && reported == old(reported)
      ensures !hasClient ==>
        && sent == old(sent)
        && reported == old(reported) + Repeat(ClientNotReady, |Responses(old(requests), signedMessage, hash)|)
    {
      var pending := requests;
      var kept: seq<PendingRequest> := [];
      ghost var answered: seq<Response> := [];
      for i := 0 to |pending|
        invariant Scanned(pending, i, signedMessage, hash, kept, answered)
        invariant requests == old(requests) && hasClient == old(hasClient)
        invariant DeliveredSoFar(answered, old(sent), old(reported))
      {
        var answer := Answer(signedMessage, hash, pending[i]);
        ScanStep(pending, i, signedMessage, hash, kept, answered, answer);
        if answer.Some? {
          Deliver(answer.value, answered, old(sent), old(reported));
          answered := answered + [answer.value];
        } else {
          kept := kept + [pending[i]];
        }
      }
      ScanFinished(pending, signedMessage, hash, kept, answered);
      requests := kept;
    }
  }

  /** Scanning one more pending request either keeps it or answers it. */
  /** The first `i` pending requests have been scanned: `kept` holds those
      left unanswered and `answered` the responses to the others. */
  ghost predicate Scanned(pending: seq<PendingRequest>, i: nat, signedMessage: string, hash: string,
                          kept: seq<PendingRequest>, answered: seq<Response>)
  {
    && i <= |pending|
    && kept == Unmatched(pending[..i], signedMessage, hash)
    && answered == Responses(pending[..i], signedMessage, hash)
  }

  /** Scanning one more pending request either keeps it or answers it. */
  lemma ScanStep(pending: seq<PendingRequest>, i: nat, signedMessage: string, hash: string,
                 kept: seq<PendingRequest>, answered: seq<Response>, answer: Option<Response>)
    requires i < |pending| && Scanned(pending, i, signedMessage, hash, kept, answered)
    requires answer == Answer(signedMessage, hash, pending[i])
    ensures answer.None? ==> Scanned(pending, i + 1, signedMessage, hash, kept + [pending[i]], answered)
    ensures answer.Some? ==> Scanned(pending, i + 1, signedMessage, hash, kept, answered + [answer.value])
  {
    assert pending[..i + 1][..i] == pending[..i];
  }

  lemma ScanFinished(pending: seq<PendingRequest>, signedMessage: string, hash: string,
                     kept: seq<PendingRequest>, answered: seq<Response>)
    requires Scanned(pending, |pending|, signedMessage, hash, kept, answered)
    ensures kept == Unmatched(pending, signedMessage, hash)
    ensures answered == Responses(pending, signedMessage, hash)
  {
    assert pending[..|pending|] == pending;
  }

  lemma RepeatSnoc<T>(x: T, n: nat)
    ensures Repeat(x, n + 1) == Repeat(x, n) + [x]
  {
  }

  /** `n` copies of `x`. */
  function Repeat<T>(x: T, n: nat): (r: seq<T>)
    ensures |r| == n && forall i :: 0 <= i < n ==> r[i] == x
  {
    if n == 0 then [] else Repeat(x, n - 1) + [x]
  }
}
