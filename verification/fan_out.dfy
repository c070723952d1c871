/**
 * `FanOutService.forward`: one POST of the raw webhook body to every
 * cooperative of a registry snapshot, folded into a delivery report. The
 * network is an oracle that decides each attempt; `Promise.allSettled` over
 * callbacks that never reject is an order-preserving map over the snapshot.
 */
module FanOut {
  import opened Options
  import opened JsString
  import opened CoopTable

  const WebhookPath := "/backend/v1/extensions/chatcoop/livekit-webhook"
  const WebhookContentType := "application/webhook+json"
  const UnknownError := "unknown"

  /** One outbound POST: target URL, headers, body and timeout. */
  datatype Delivery = Delivery(url: string, contentType: string, authorization: Option<string>, body: string, timeoutMs: int)

  /** How an attempt ended: delivered, or failed with the error's message. */
  datatype Attempt = Delivered | Failed(message: string)

  /** One entry of the report's error list. */
  datatype FanOutError = FanOutError(coop: string, error: string)

  datatype FanOutResult = FanOutResult(total: nat, success: nat, failed: nat, errors: seq<FanOutError>)

  /** The report together with the deliveries that were attempted. */
  datatype Forwarded = Forwarded(result: FanOutResult, deliveries: seq<Delivery>)

  /** The network: the outcome of the `i`-th delivery of a call. */
  type Network = (nat, Delivery) -> Attempt

  /** The controller endpoint of a cooperative. */
  function DeliveryUrl(announce: string): string {
    "https://" + announce + WebhookPath
  }

  /** The POST for one cooperative; `Authorization` goes along only when the
      inbound header is a truthy string. */
  function DeliveryFor(coop: CoopEntry, rawBody: string, authHeader: Option<string>, timeoutMs: int): Delivery {
    var authorization := if authHeader.Some? && Truthy(authHeader.value) then authHeader else None;
    Delivery(DeliveryUrl(coop.announce), WebhookContentType, authorization, rawBody, timeoutMs)
  }

  /** `error || 'unknown'`. */
  function ErrorText(a: Attempt): string
    requires a.Failed?
  {
    if a.message == "" then UnknownError else a.message
  }

  /** The number of delivered attempts. */
  function CountDelivered(attempts: seq<Attempt>): (n: nat)
    ensures n <= |attempts|
    decreases |attempts|
  {
    if |attempts| == 0 then 0
    else CountDelivered(attempts[..|attempts| - 1]) + (if attempts[|attempts| - 1].Delivered? then 1 else 0)
  }

  /** The error list: one entry per failed attempt, in snapshot order. */
  function ErrorsOf(coops: seq<CoopEntry>, attempts: seq<Attempt>): seq<FanOutError>
    requires |coops| == |attempts|
    decreases |attempts|
  {
    if |attempts| == 0 then []
    else
      var n := |attempts| - 1;
      ErrorsOf(coops[..n], attempts[..n])
        + (if attempts[n].Failed? then [FanOutError(coops[n].username, ErrorText(attempts[n]))] else [])
  }

  /** The positions of the failed attempts, in increasing order. */
  function FailedIndices(attempts: seq<Attempt>): (idx: seq<nat>)
    ensures forall j :: 0 <= j < |idx| ==> idx[j] < |attempts| && attempts[idx[j]].Failed?
    ensures forall j, k :: 0 <= j < k < |idx| ==> idx[j] < idx[k]
    ensures forall i :: 0 <= i < |attempts| && attempts[i].Failed? ==> i in idx
    decreases |attempts|
  {
    if |attempts| == 0 then []
    else
      var n := |attempts| - 1;
      FailedIndices(attempts[..n]) + (if attempts[n].Failed? then [n] else [])
  }

  /** `forward(rawBody, authHeader)` over the snapshot `coops`. */
  function Forward(coops: seq<CoopEntry>, rawBody: string, authHeader: Option<string>, timeoutMs: int, net: Network): (f: Forwarded)
    ensures |coops| == 0 ==> f == Forwarded(FanOutResult(0, 0, 0, []), [])
    ensures |f.deliveries| == |coops|
    ensures forall i :: 0 <= i < |coops| ==>
              && f.deliveries[i].url == "https://" + coops[i].announce + WebhookPath
              && f.deliveries[i].body == rawBody
              && f.deliveries[i].contentType == WebhookContentType
              && f.deliveries[i].timeoutMs == timeoutMs
              && (f.deliveries[i].authorization.Some? <==> authHeader.Some? && authHeader.value != "")
              && (f.deliveries[i].authorization.Some? ==> f.deliveries[i].authorization == authHeader)
    ensures f.result.total == |coops| && f.result.success + f.result.failed == f.result.total
    ensures f.result.success == CountDelivered(Outcomes(f.deliveries, net))
    ensures f.result.errors == ErrorsOf(coops, Outcomes(f.deliveries, net))
  {
    if |coops| == 0 then Forwarded(FanOutResult(0, 0, 0, []), [])
    else
      var deliveries := seq(|coops|, i requires 0 <= i < |coops| => DeliveryFor(coops[i], rawBody, authHeader, timeoutMs));
      var attempts := Outcomes(deliveries, net);
      var succeeded := CountDelivered(attempts);
      Forwarded(FanOutResult(|coops|, succeeded, |coops| - succeeded, ErrorsOf(coops, attempts)), deliveries)
  }

  /** Each delivery attempted exactly once, in order. */
  function Outcomes(deliveries: seq<Delivery>, net: Network): (attempts: seq<Attempt>)
    ensures |attempts| == |deliveries|
    ensures forall i :: 0 <= i < |deliveries| ==> attempts[i] == net(i, deliveries[i])
  {
    seq(|deliveries|, i requires 0 <= i < |deliveries| => net(i, deliveries[i]))
  }

  /** The delivered count is the number of positions whose attempt was delivered. */
  lemma {:induction false} CountDeliveredIsSetSize(attempts: seq<Attempt>)
    ensures CountDelivered(attempts) == |set i | 0 <= i < |attempts| && attempts[i].Delivered?|
    decreases |attempts|
  {
    if |attempts| > 0 {
      var n := |attempts| - 1;
      var prefix := attempts[..n];
      CountDeliveredIsSetSize(prefix);
      var before := set i | 0 <= i < |prefix| && prefix[i].Delivered?;
      var all := set i | 0 <= i < |attempts| && attempts[i].Delivered?;
      if attempts[n].Delivered? {
        assert all == before + {n};
      } else {
        assert all == before;
      }
    }
  }

  /** Failed and delivered attempts add up to all of them. */
  lemma {:induction false} FailedCount(attempts: seq<Attempt>)
    ensures |FailedIndices(attempts)| + CountDelivered(attempts) == |attempts|
    decreases |attempts|
  {
    if |attempts| > 0 {
      FailedCount(attempts[..|attempts| - 1]);
    }
  }

  /** The `j`-th error entry belongs to the `j`-th failed coop. */
  lemma {:induction false} ErrorsFollowFailures(coops: seq<CoopEntry>, attempts: seq<Attempt>)
    requires |coops| == |attempts|
    ensures |ErrorsOf(coops, attempts)| == |FailedIndices(attempts)|
    ensures forall j :: 0 <= j < |FailedIndices(attempts)| ==>
              ErrorsOf(coops, attempts)[j] ==
                FanOutError(coops[FailedIndices(attempts)[j]].username, ErrorText(attempts[FailedIndices(attempts)[j]]))
    decreases |attempts|
  {
    if |attempts| > 0 {
      var n := |attempts| - 1;
      ErrorsFollowFailures(coops[..n], attempts[..n]);
      var idx := FailedIndices(attempts[..n]);
      forall j | 0 <= j < |idx|
        ensures coops[..n][idx[j]] == coops[idx[j]] && attempts[..n][idx[j]] == attempts[idx[j]]
      {
      }
    }
  }

  /** The report of one `forward` call: the error list has one entry per
      failed coop, in snapshot order, carrying the coop's username and the
      attempt's message (or "unknown"); `success` counts the delivered ones. */
  lemma ForwardReport(coops: seq<CoopEntry>, rawBody: string, authHeader: Option<string>, timeoutMs: int, net: Network)
    ensures var f := Forward(coops, rawBody, authHeader, timeoutMs, net);
            var attempts := Outcomes(f.deliveries, net);
            && f.result.success == |set i | 0 <= i < |coops| && attempts[i].Delivered?|
            && |f.result.errors| == f.result.failed
            && |f.result.errors| == |FailedIndices(attempts)|
            && forall j :: 0 <= j < |f.result.errors| ==>
                 var i := FailedIndices(attempts)[j];
                 f.result.errors[j] == FanOutError(coops[i].username, ErrorText(attempts[i]))
                 && (attempts[i].message != "" ==> f.result.errors[j].error == attempts[i].message)
                 && (attempts[i].message == "" ==> f.result.errors[j].error == UnknownError)
  {
    var f := Forward(coops, rawBody, authHeader, timeoutMs, net);
    var attempts := Outcomes(f.deliveries, net);
    CountDeliveredIsSetSize(attempts);
    FailedCount(attempts);
    ErrorsFollowFailures(coops, attempts);
  }

  /** Two coops, the first timing out and the second answering: one success,
      one failure, and only the first in the error list. */
  lemma OneTimeoutOneSuccess(a: CoopEntry, b: CoopEntry, rawBody: string, authHeader: Option<string>, timeoutMs: int, net: Network)
    requires net(0, DeliveryFor(a, rawBody, authHeader, timeoutMs)) == Failed("timeout of 5000ms exceeded")
    requires net(1, DeliveryFor(b, rawBody, authHeader, timeoutMs)) == Delivered
    ensures Forward([a, b], rawBody, authHeader, timeoutMs, net).result ==
              FanOutResult(2, 1, 1, [FanOutError(a.username, "timeout of 5000ms exceeded")])
  {
    var f := Forward([a, b], rawBody, authHeader, timeoutMs, net);
    var attempts := Outcomes(f.deliveries, net);
    assert f.deliveries[0] == DeliveryFor(a, rawBody, authHeader, timeoutMs);
    assert f.deliveries[1] == DeliveryFor(b, rawBody, authHeader, timeoutMs);
    assert attempts == [Failed("timeout of 5000ms exceeded"), Delivered];
    var first := [Failed("timeout of 5000ms exceeded")];
    assert attempts[..1] == first && first[..0] == [];
    assert [a, b][..1] == [a] && [a][..0] == [];
    assert CountDelivered(first) == 0;
    assert CountDelivered(attempts) == 1;
    assert ErrorsOf([a], first) == [FanOutError(a.username, "timeout of 5000ms exceeded")];
  }
}
