/**
 * `WebhookHandler.handle`: the inbound gate for LiveKit webhooks. Signature
 * verification (`WebhookReceiver.receive`) is an oracle that yields the parsed
 * event or fails; the fan-out is an oracle that returns a report or throws.
 * `Relay` plugs the modelled `FanOut.Forward` over the registry's current
 * snapshot into the gate.
 */
module WebhookHandler {
  import opened Options
  import opened CoopTable
  import opened CoopRegistry
  import opened FanOut

  const StatusOk := 200
  const StatusUnauthorized := 401
  const StatusInternalError := 500
  const InvalidSignature := "Invalid webhook signature"
  const InternalServerError := "Internal server error"

  datatype Room = Room(name: string)

  /** The parts of a verified LiveKit event the handler reads. */
  datatype WebhookEvent = WebhookEvent(event: string, room: Option<Room>)

  /** What `receive` does: resolve with the event or reject. */
  datatype Verification = Verified(event: WebhookEvent) | Rejected(message: string)

  /** What `forward` does: resolve with a report or throw. */
  datatype ForwardOutcome = Returned(result: FanOutResult) | Threw(message: string)

  /** The arguments of one `forward` call. */
  datatype ForwardCall = ForwardCall(rawBody: string, authHeader: Option<string>)

  datatype FanOutSummary = FanOutSummary(total: nat, success: nat, failed: nat)

  /** The JSON body of the response. */
  datatype ReplyBody =
    | ErrorReply(error: string)
    | EventReply(event: string, room: Option<string>, fanOut: FanOutSummary)

  datatype Reply = Reply(status: nat, body: ReplyBody)

  /** The response together with the `forward` calls made on the way. */
  datatype Handled = Handled(reply: Reply, forwardCalls: seq<ForwardCall>)

  type Verifier = (string, Option<string>) -> Verification
  type Forwarder = (string, Option<string>) -> ForwardOutcome

  /** `event.room?.name`. */
  function RoomName(e: WebhookEvent): Option<string> {
    match e.room
    case Some(r) => Some(r.name)
    case None => None
  }

  /** The report counts the response exposes; the error list stays inside. */
  function Summary(r: FanOutResult): FanOutSummary {
    FanOutSummary(r.total, r.success, r.failed)
  }

  /** `handle(req, res)` for a request with body `rawBody` and `Authorization`
      header `authHeader`. */
  function Handle(rawBody: string, authHeader: Option<string>, verify: Verifier, forward: Forwarder): (h: Handled)
    ensures h.reply.status in {StatusOk, StatusUnauthorized, StatusInternalError}
    ensures h.reply.status == StatusUnauthorized <==> verify(rawBody, authHeader).Rejected?
    ensures h.reply.status == StatusUnauthorized ==>
              h.reply.body == ErrorReply(InvalidSignature) && h.forwardCalls == []
    ensures verify(rawBody, authHeader).Verified? ==> h.forwardCalls == [ForwardCall(rawBody, authHeader)]
    ensures h.reply.status == StatusOk <==>
              verify(rawBody, authHeader).Verified? && forward(rawBody, authHeader).Returned?
    ensures h.reply.status == StatusOk ==>
              var e := verify(rawBody, authHeader).event;
              var r := forward(rawBody, authHeader).result;
              && h.reply.body.EventReply?
              && h.reply.body.event == e.event
              && (h.reply.body.room.Some? <==> e.room.Some?)
              && (e.room.Some? ==> h.reply.body.room == Some(e.room.value.name))
              && h.reply.body.fanOut == FanOutSummary(r.total, r.success, r.failed)
    ensures h.reply.status == StatusInternalError ==> h.reply.body == ErrorReply(InternalServerError)
  {
    match verify(rawBody, authHeader)
    case Rejected(_) => Handled(Reply(StatusUnauthorized, ErrorReply(InvalidSignature)), [])
    case Verified(e) =>
      var calls := [ForwardCall(rawBody, authHeader)];
      match forward(rawBody, authHeader)
      case Threw(_) => Handled(Reply(StatusInternalError, ErrorReply(InternalServerError)), calls)
      case Returned(r) => Handled(Reply(StatusOk, EventReply(e.event, RoomName(e), Summary(r))), calls)
  }

  /** The response and every POST to a cooperative that one request causes. */
  datatype Relayed = Relayed(reply: Reply, deliveries: seq<Delivery>)

  /** The deliveries made by a sequence of `forward` calls. */
  function DeliveriesOf(coops: seq<CoopEntry>, calls: seq<ForwardCall>, timeoutMs: int, net: Network): seq<Delivery>
    decreases |calls|
  {
    if |calls| == 0 then []
    else Forward(coops, calls[0].rawBody, calls[0].authHeader, timeoutMs, net).deliveries
           + DeliveriesOf(coops, calls[1..], timeoutMs, net)
  }

  /** `forward` as the running service wires it: the modelled fan-out over a
      fixed coop list. */
  function ForwardOver(coops: seq<CoopEntry>, timeoutMs: int, net: Network): Forwarder {
    (b: string, a: Option<string>) => Returned(Forward(coops, b, a, timeoutMs, net).result)
  }

  /** The gate makes no delivery on a rejected request, and on a verified one
      exactly the deliveries of a single fan-out of the raw body. */
  lemma GateDeliveries(coops: seq<CoopEntry>, rawBody: string, authHeader: Option<string>, verify: Verifier, timeoutMs: int, net: Network)
    ensures var h := Handle(rawBody, authHeader, verify, ForwardOver(coops, timeoutMs, net));
            var ds := DeliveriesOf(coops, h.forwardCalls, timeoutMs, net);
            && (verify(rawBody, authHeader).Rejected? ==> ds == [])
            && (verify(rawBody, authHeader).Verified? ==> ds == Forward(coops, rawBody, authHeader, timeoutMs, net).deliveries)
            && forall d :: d in ds ==> d.body == rawBody
  {
    var h := Handle(rawBody, authHeader, verify, ForwardOver(coops, timeoutMs, net));
    if verify(rawBody, authHeader).Verified? {
      assert h.forwardCalls[1..] == [];
      var f := Forward(coops, rawBody, authHeader, timeoutMs, net);
      assert forall d :: d in f.deliveries ==> d.body == rawBody;
    }
  }

  /** The running relay: the gate with the modelled fan-out over the registry's
      current snapshot. */
  function Relay(reg: Registry, rawBody: string, authHeader: Option<string>, verify: Verifier, timeoutMs: int, net: Network): (out: Relayed)
    ensures verify(rawBody, authHeader).Rejected? ==>
              out.reply == Reply(StatusUnauthorized, ErrorReply(InvalidSignature)) && out.deliveries == []
    ensures out.reply.status != StatusInternalError
    ensures verify(rawBody, authHeader).Verified? ==>
              && out.reply.status == StatusOk
              && out.reply.body.EventReply?
              && out.reply.body.fanOut.total == |GetActiveCoops(reg)|
              && out.reply.body.fanOut.success + out.reply.body.fanOut.failed == out.reply.body.fanOut.total
              && |out.deliveries| == |GetActiveCoops(reg)|
              && forall d :: d in out.deliveries ==> d.body == rawBody
  {
    var coops := GetActiveCoops(reg);
    var h := Handle(rawBody, authHeader, verify, ForwardOver(coops, timeoutMs, net));
    GateDeliveries(coops, rawBody, authHeader, verify, timeoutMs, net);
    Relayed(h.reply, DeliveriesOf(coops, h.forwardCalls, timeoutMs, net))
  }
}
