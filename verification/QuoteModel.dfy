/**
 One quote row, what the handlers and external services do to it, and a ledger of
 what the outside world confirmed.  Every handler is one atomic command; each
 external call's reply is part of the command, so any reply is possible.
 */
module QuoteModel {
  import opened Wrappers
  import opened Money

  datatype Status = PendingApproval | Approved | Sent | Accepted | Rejected | NeedsRevision | Superseded

  datatype Payment = Unpaid | Paid | Refunded | PaymentFailed

  datatype EventKind = PaymentEvent | RefundEvent | FailureEvent | OtherEvent

  /** The columns of the quote row that the handlers read or write. */
  datatype Row = Row(
    status: Status,
    approvedAt: Option<int>,
    finalEx: Option<int>,
    vat: Option<int>,
    finalInc: Option<int>,
    total: Option<int>,
    linkId: Option<string>,
    linkUrl: Option<string>,
    payment: Option<Payment>,
    paidAt: Option<int>,
    orderId: Option<string>,
    pushAttempts: nat,
    draftId: Option<string>,
    notifiedAt: Option<int>)

  datatype Link = Link(id: string, url: string, amount: int)

  /** What the outside world has confirmed so far. */
  datatype Ledger = Ledger(
    links: seq<Link>,                    // one entry per confirmed payment link
    linkCancellations: nat,
    createOrderCalls: nat,
    realOrders: seq<string>,             // ids of confirmed real orders
    realCancellations: nat,
    customerMails: seq<Option<string>>,  // one entry per accepted send, with the draft id it returned
    operatorMails: nat,
    manualSaves: nat)

  datatype State = State(row: Row, log: Ledger)

  /** A row as it is inserted: nothing linked, pushed, mailed or notified yet. */
  function Fresh(status: Status, finalEx: Option<int>, vat: Option<int>, finalInc: Option<int>, total: Option<int>): State {
    State(Row(status, None, finalEx, vat, finalInc, total, None, None, None, None, None, 0, None, None),
          Ledger([], 0, 0, [], 0, [], 0, 0))
  }

  datatype LinkReply = LinkMade(id: string, url: string) | LinkRefused
  datatype OrderReply = OrderMade(id: string) | OrderRefused
  datatype MailReply = MailAccepted(id: string) | MailRefused

  /** Settings and surroundings at the time of a command. */
  datatype Env = Env(
    stripeReady: bool,       // enabled, connected and platform-configured
    printlogicKey: bool,
    printlogicDryRun: bool,
    mailReady: bool,         // Missive enabled with token and sender
    customerEmail: bool)

  datatype Command =
    | Patch(to: Status, now: int, env: Env, link: LinkReply, mail: MailReply)
    | BulkApprove(now: int, env: Env, link: LinkReply, mail: MailReply)
    | BulkReject
    | RejectEngagement                     // of the conversation the quote belongs to
    | Supersede                            // the customer changed their mind
    | ManualPrice(inc: nat, ex: Option<int>, rate: real, now: int, sent: bool)
    | CreateLink(env: Env, link: LinkReply)
    | CancelLink(confirmed: bool)
    | StripeEvent(kind: EventKind, now: int)
    | PushOrder(env: Env, dryId: string, reply: OrderReply)
    | CancelOrder(env: Env, confirmed: bool)
    | Notify(now: int, sent: bool)
    | Reprice(finalInc: int, total: int)

  predicate IsDry(id: string) {
    "DRY-" <= id
  }

  /** What the service clients guarantee: ids are never empty, real ids are not dry-run ids, a PATCH names a known status. */
  predicate Plausible(c: Command) {
    && (c.Patch? || c.BulkApprove? || c.CreateLink? ==> c.link.LinkMade? ==> c.link.id != "" && c.link.url != "")
    && (c.PushOrder? ==> IsDry(c.dryId) && (c.reply.OrderMade? ==> c.reply.id != "" && !IsDry(c.reply.id)))
    && (c.Patch? ==> c.to != Superseded)
    && (c.ManualPrice? ==> c.rate >= 0.0)
  }

  // --------------------------------------------------------- external effects

  function Amount(row: Row): int {
    if row.total.Some? && row.total.value != 0 then row.total.value
    else if row.finalInc.Some? then row.finalInc.value
    else 0
  }

  /** A payment link is created when Stripe is ready, the row holds none, the amount is positive, and Stripe agrees. */
  function Linked(s: State, env: Env, reply: LinkReply): State {
    var q := s.row;
    if !env.stripeReady || (q.linkId.Some? && q.linkUrl.Some?) || Amount(q) <= 0 || reply.LinkRefused? then s
    else
      State(q.(linkId := Some(reply.id), linkUrl := Some(reply.url), payment := Some(Unpaid)),
            s.log.(links := s.log.links + [Link(reply.id, reply.url, Amount(q))]))
  }

  /** A customer mail goes out unless a draft id is already held; a send may be accepted without an id. */
  function Mailed(s: State, env: Env, reply: MailReply): State {
    if !env.mailReady || s.row.draftId.Some? || !env.customerEmail || reply.MailRefused? then s
    else
      var id := if reply.id == "" then None else Some(reply.id);
      State(s.row.(draftId := id), s.log.(customerMails := s.log.customerMails + [id]))
  }

  /** The operator is told once per life-cycle stage. */
  function Notified(s: State, now: int, sent: bool): State {
    if s.row.notifiedAt.Some? || !sent then s
    else State(s.row.(notifiedAt := Some(now)), s.log.(operatorMails := s.log.operatorMails + 1))
  }

  // ------------------------------------------------------------------ handlers

  function ApprovalEffects(s: State, env: Env, link: LinkReply, mail: MailReply): State {
    Mailed(Linked(s, env, link), env, mail)
  }

  function ApprovedRow(q: Row, now: int): Row {
    q.(status := Approved, approvedAt := if q.approvedAt.None? then Some(now) else q.approvedAt)
  }

  function ApprovedNow(s: State, now: int, env: Env, link: LinkReply, mail: MailReply): State {
    var t := s.(row := ApprovedRow(s.row, now));
    if s.row.status == Approved then t else ApprovalEffects(t, env, link, mail)
  }

  /** The hand-typed price goes into the canonical columns, and the quote enters the approval stage unannounced. */
  function PricedByHand(q: Row, inc: int, net: int): Row {
    q.(finalEx := Some(net), vat := Some(inc - net), finalInc := Some(inc), total := Some(inc),
       notifiedAt := None, status := PendingApproval)
  }

  function StoredPrice(s: State, inc: int, net: int): State {
    State(PricedByHand(s.row, inc, net), s.log.(manualSaves := s.log.manualSaves + 1))
  }

  function ManuallyPriced(s: State, inc: nat, ex: Option<int>, rate: real, now: int, sent: bool): State
    requires rate >= 0.0
  {
    if s.row.status != NeedsRevision then s
    else
      var net := if ex.Some? then ex.value else Net(inc, rate);
      Notified(StoredPrice(s, inc, net), now, sent)
  }

  function LinkCancelled(s: State, confirmed: bool): State {
    var q := s.row;
    if q.linkId.None? || !confirmed then s
    else
      State(q.(linkId := None, linkUrl := None, payment := if q.payment == Some(Unpaid) then None else q.payment),
            s.log.(linkCancellations := s.log.linkCancellations + 1))
  }

  /** Stripe events move the payment status; a paid quote is only moved by a refund. */
  function PaymentMoved(q: Row, kind: EventKind, now: int): Row {
    if kind == OtherEvent || (q.payment == Some(Paid) && kind != RefundEvent) then q
    else
      match kind
      case PaymentEvent => q.(payment := Some(Paid), paidAt := Some(now))
      case RefundEvent => q.(payment := Some(Refunded))
      case _ => q.(payment := Some(PaymentFailed))
  }

  function Pushed(s: State, env: Env, dryId: string, reply: OrderReply): State {
    var q := s.row;
    if (!env.printlogicKey && !env.printlogicDryRun) || (q.orderId.Some? && !IsDry(q.orderId.value)) then s
    else
      var called := s.log.(createOrderCalls := s.log.createOrderCalls + 1);
      var tried := q.(pushAttempts := q.pushAttempts + 1);
      if env.printlogicDryRun then State(tried.(orderId := Some(dryId)), called)
      else if reply.OrderMade? then
        State(tried.(orderId := Some(reply.id)), called.(realOrders := called.realOrders + [reply.id]))
      else State(tried, called)
  }

  function OrderCancelled(s: State, env: Env, confirmed: bool): State {
    var q := s.row;
    if q.orderId.None? then s
    else if IsDry(q.orderId.value) then s.(row := q.(orderId := None))
    else if !env.printlogicKey || !confirmed then s
    else State(q.(orderId := None), s.log.(realCancellations := s.log.realCancellations + 1))
  }

  /** Rejecting the engagement takes quotes that wait for the operator out of the queue, priced or not. */
  function AfterEngagementReject(status: Status): Status {
    if status == PendingApproval || status == NeedsRevision then Rejected else status
  }

  function Step(s: State, c: Command): State
    requires Plausible(c)
  {
    match c
    case Patch(to, now, env, link, mail) =>
      if to == Approved then
        (if s.row.status == NeedsRevision then s else ApprovedNow(s, now, env, link, mail))
      else s.(row := s.row.(status := to))
    case BulkApprove(now, env, link, mail) =>
      if s.row.status == NeedsRevision then s else ApprovedNow(s, now, env, link, mail)
    case BulkReject => s.(row := s.row.(status := Rejected))
    case RejectEngagement => s.(row := s.row.(status := AfterEngagementReject(s.row.status)))
    case Supersede => s.(row := s.row.(status := if s.row.status == PendingApproval then Superseded else s.row.status))
    case ManualPrice(inc, ex, rate, now, sent) => ManuallyPriced(s, inc, ex, rate, now, sent)
    case CreateLink(env, link) => Linked(s, env, link)
    case CancelLink(confirmed) => LinkCancelled(s, confirmed)
    case StripeEvent(kind, now) => s.(row := PaymentMoved(s.row, kind, now))
    case PushOrder(env, dryId, reply) => Pushed(s, env, dryId, reply)
    case CancelOrder(env, confirmed) => OrderCancelled(s, env, confirmed)
    case Notify(now, sent) => Notified(s, now, sent)
    case Reprice(finalInc, total) => s.(row := s.row.(finalInc := Some(finalInc), total := Some(total)))
  }

  ghost predicate AllPlausible(run: seq<Command>) {
    forall i | 0 <= i < |run| :: Plausible(run[i])
  }

  /** The state after a run of commands, in any order. */
  function Run(s: State, run: seq<Command>): State
    requires AllPlausible(run)
    decreases |run|
  {
    if run == [] then s else Step(Run(s, run[..|run| - 1]), run[|run| - 1])
  }
}
