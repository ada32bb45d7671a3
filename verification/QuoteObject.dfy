/** The quote row as the handlers see it: an object whose columns they assign behind guards. */
module QuoteObject {
  import opened Wrappers
  import opened Money
  import opened QuoteModel
  import opened QuoteLedgers

  class Quote {
    var status: Status
    var approvedAt: Option<int>
    var finalEx: Option<int>
    var vat: Option<int>
    var finalInc: Option<int>
    var total: Option<int>
    var linkId: Option<string>
    var linkUrl: Option<string>
    var payment: Option<Payment>
    var paidAt: Option<int>
    var orderId: Option<string>
    var pushAttempts: nat
    var draftId: Option<string>
    var notifiedAt: Option<int>
    ghost var log: Ledger

    function View(): Row
      reads this
    {
      Row(status, approvedAt, finalEx, vat, finalInc, total, linkId, linkUrl, payment, paidAt,
          orderId, pushAttempts, draftId, notifiedAt)
    }

    ghost function Now(): State
      reads this
    {
      State(View(), log)
    }

    /** The columns balance with what the outside world has confirmed. */
    ghost predicate Valid()
      reads this
    {
      Inv(Now())
    }

    constructor (status: Status, finalEx: Option<int>, vat: Option<int>, finalInc: Option<int>, total: Option<int>)
      ensures Valid() && Now() == Fresh(status, finalEx, vat, finalInc, total)
    {
      this.status := status;
      this.finalEx, this.vat, this.finalInc, this.total := finalEx, vat, finalInc, total;
      approvedAt, linkId, linkUrl, payment, paidAt := None, None, None, None, None;
      orderId, pushAttempts, draftId, notifiedAt := None, 0, None, None;
      log := Ledger([], 0, 0, [], 0, [], 0, 0);
      new;
      FreshSatisfiesInv(status, finalEx, vat, finalInc, total);
    }

    /** Asks Stripe for a link; touches the link and payment columns only. */
    method CreateLink(env: Env, reply: LinkReply) returns (ok: bool)
      requires Valid()
      modifies `linkId, `linkUrl, `payment, `log
      ensures Valid() && Now() == Linked(old(Now()), env, reply)
      ensures ok ==> linkId.Some? && linkUrl.Some?
      ensures ok <==> env.stripeReady && ((old(linkId).Some? && old(linkUrl).Some?) ||
                        (Amount(old(View())) > 0 && reply.LinkMade?))
      ensures log.links != old(log.links) ==> log.links[|log.links| - 1].amount > 0 && payment == Some(Unpaid)
    {
      LinkedKeepsInv(Now(), env, reply);
      if !env.stripeReady {
        return false;
      }
      if linkId.Some? && linkUrl.Some? {
        return true;
      }
      var amount := if total.Some? && total.value != 0 then total.value
                    else if finalInc.Some? then finalInc.value else 0;
      if amount <= 0 {
        return false;
      }
      if reply.LinkMade? {
        linkId := Some(reply.id);
        linkUrl := Some(reply.url);
        payment := Some(Unpaid);
        log := log.(links := log.links + [Link(reply.id, reply.url, amount)]);
        return true;
      }
      ok := false;
    }

    method CancelLink(confirmed: bool)
      requires Valid()
      modifies `linkId, `linkUrl, `payment, `log
      ensures Valid() && Now() == LinkCancelled(old(Now()), confirmed)
      ensures linkId.Some? ==> linkId == old(linkId) && linkUrl == old(linkUrl)
      ensures old(payment) != Some(Unpaid) ==> payment == old(payment)
    {
      StepKeepsInv(Now(), QuoteModel.CancelLink(confirmed));
      if linkId.None? {
        return;
      }
      if confirmed {
        linkId := None;
        linkUrl := None;
        if payment == Some(Unpaid) {
          payment := None;
        }
        log := log.(linkCancellations := log.linkCancellations + 1);
      }
    }

    method ApplyEvent(kind: EventKind, now: int)
      requires Valid()
      modifies `payment, `paidAt
      ensures Valid() && Now() == State(PaymentMoved(old(View()), kind, now), old(log))
      ensures old(payment) == Some(Paid) && payment != Some(Paid) ==> kind == RefundEvent && payment == Some(Refunded)
    {
      StepKeepsInv(Now(), StripeEvent(kind, now));
      var newStatus;
      match kind {
        case PaymentEvent => newStatus := Paid;
        case RefundEvent => newStatus := Refunded;
        case FailureEvent => newStatus := PaymentFailed;
        case OtherEvent => return;
      }
      if payment == Some(Paid) && newStatus != Refunded {
        return;
      }
      payment := Some(newStatus);
      if newStatus == Paid {
        paidAt := Some(now);
      }
    }

    method PushOrder(env: Env, dryId: string, reply: OrderReply)
      requires Valid()
      modifies `orderId, `pushAttempts, `log
      ensures Plausible(QuoteModel.PushOrder(env, dryId, reply)) ==> Valid()
      ensures Now() == Pushed(old(Now()), env, dryId, reply)
      ensures HoldsRealOrder(old(View())) ==> orderId == old(orderId) && pushAttempts == old(pushAttempts)
    {
      ghost var was := Now();
      if !env.printlogicKey && !env.printlogicDryRun {
        return;
      }
      if orderId.Some? && !IsDry(orderId.value) {
        return;
      }
      log := log.(createOrderCalls := log.createOrderCalls + 1);
      pushAttempts := pushAttempts + 1;
      if env.printlogicDryRun {
        orderId := Some(dryId);
      } else if reply.OrderMade? {
        orderId := Some(reply.id);
        log := log.(realOrders := log.realOrders + [reply.id]);
      }
      assert Now() == Pushed(was, env, dryId, reply);
      if Plausible(QuoteModel.PushOrder(env, dryId, reply)) {
        PushKeepsInv(was, env, dryId, reply);
      }
    }

    method CancelOrder(env: Env, confirmed: bool)
      requires Valid()
      modifies `orderId, `log
      ensures Valid() && Now() == OrderCancelled(old(Now()), env, confirmed)
      ensures orderId.None? || orderId == old(orderId)
    {
      CancelKeepsInv(Now(), env, confirmed);
      if orderId.None? {
        return;
      }
      if IsDry(orderId.value) {
        orderId := None;
      } else if env.printlogicKey && confirmed {
        orderId := None;
        log := log.(realCancellations := log.realCancellations + 1);
      }
    }

    method SendDraft(env: Env, reply: MailReply)
      requires Valid()
      modifies `draftId, `log
      ensures Valid() && Now() == Mailed(old(Now()), env, reply)
      ensures old(draftId).Some? ==> draftId == old(draftId) && log == old(log)
    {
      MailedKeepsInv(Now(), env, reply);
      if !env.mailReady || draftId.Some? || !env.customerEmail {
        return;
      }
      if reply.MailAccepted? {
        draftId := if reply.id == "" then None else Some(reply.id);
        log := log.(customerMails := log.customerMails + [draftId]);
      }
    }

    /** Both operator triggers: ready for approval, and manual review. */
    method TriggerNotification(now: int, sent: bool)
      requires Valid()
      modifies `notifiedAt, `log
      ensures Valid() && Now() == Notified(old(Now()), now, sent)
      ensures old(notifiedAt).Some? ==> notifiedAt == old(notifiedAt) && log == old(log)
    {
      StepKeepsInv(Now(), Notify(now, sent));
      if notifiedAt.Some? {
        return;
      }
      if sent {
        notifiedAt := Some(now);
        log := log.(operatorMails := log.operatorMails + 1);
      }
    }

    /** The first transition into "approved": payment link first, then the mail that embeds it. */
    method FireIntegrations(env: Env, link: LinkReply, mail: MailReply)
      requires Valid()
      modifies `linkId, `linkUrl, `payment, `draftId, `log
      ensures Valid() && Now() == ApprovalEffects(old(Now()), env, link, mail)
    {
      var linked := CreateLink(env, link);
      SendDraft(env, mail);
    }

    method MarkApproved(now: int)
      modifies `status, `approvedAt
      ensures View() == ApprovedRow(old(View()), now)
    {
      status := Approved;
      if approvedAt.None? {
        approvedAt := Some(now);
      }
    }

    method UpdateStatus(to: Status, now: int, env: Env, link: LinkReply, mail: MailReply) returns (conflict: bool)
      requires Plausible(Patch(to, now, env, link, mail))
      requires Valid()
      modifies `status, `approvedAt, `linkId, `linkUrl, `payment, `draftId, `log
      ensures Valid() && Now() == Step(old(Now()), Patch(to, now, env, link, mail))
      ensures conflict <==> old(status) == NeedsRevision && to == Approved
      ensures old(approvedAt).Some? ==> approvedAt == old(approvedAt)
    {
      StepKeepsInv(Now(), Patch(to, now, env, link, mail));
      var previous := status;
      if previous == NeedsRevision && to == Approved {
        return true;
      }
      conflict := false;
      if to == Approved {
        MarkApproved(now);
        assert Now() == old(Now()).(row := ApprovedRow(old(View()), now));
        if previous != Approved {
          FireIntegrations(env, link, mail);
        }
      } else {
        status := to;
      }
    }

    method BulkApproveOne(now: int, env: Env, link: LinkReply, mail: MailReply) returns (failed: bool)
      requires Plausible(BulkApprove(now, env, link, mail))
      requires Valid()
      modifies `status, `approvedAt, `linkId, `linkUrl, `payment, `draftId, `log
      ensures Valid() && Now() == Step(old(Now()), BulkApprove(now, env, link, mail))
      ensures failed <==> old(status) == NeedsRevision
      ensures !failed ==> status == Approved && approvedAt.Some?
      ensures old(approvedAt).Some? ==> approvedAt == old(approvedAt)
    {
      StepKeepsInv(Now(), BulkApprove(now, env, link, mail));
      if status == NeedsRevision {
        return true;
      }
      failed := false;
      var previous := status;
      MarkApproved(now);
      assert Now() == old(Now()).(row := ApprovedRow(old(View()), now));
      if previous != Approved {
        FireIntegrations(env, link, mail);
      }
    }

    method BulkRejectOne()
      requires Valid()
      modifies `status
      ensures Valid() && Now() == Step(old(Now()), BulkReject)
    {
      StepKeepsInv(Now(), BulkReject);
      status := Rejected;
    }

    /** The conversation's reject button: a waiting quote leaves the operator's queue. */
    method RejectWithEngagement()
      requires Valid()
      modifies `status
      ensures Valid() && Now() == Step(old(Now()), RejectEngagement)
      ensures status != PendingApproval && status != NeedsRevision
    {
      StepKeepsInv(Now(), RejectEngagement);
      if status == PendingApproval || status == NeedsRevision {
        status := Rejected;
      }
    }

    /** A newer quote of the conversation replaces this one while it is pending. */
    method MarkSuperseded()
      requires Valid()
      modifies `status
      ensures Valid() && Now() == Step(old(Now()), Supersede)
      ensures status != PendingApproval
    {
      StepKeepsInv(Now(), Supersede);
      if status == PendingApproval {
        status := Superseded;
      }
    }

    /** The typed price in the canonical columns; the operator will be told again. */
    method StorePrice(inc: nat, net: int)
      requires Valid()
      modifies `status, `finalEx, `vat, `finalInc, `total, `notifiedAt, `log
      ensures Valid() && Now() == StoredPrice(old(Now()), inc, net)
    {
      StoredPriceKeepsInv(Now(), inc, net);
      finalEx, vat := Some(net), Some(inc - net);
      finalInc, total := Some(inc), Some(inc);
      notifiedAt := None;
      status := PendingApproval;
      log := log.(manualSaves := log.manualSaves + 1);
    }

    method SaveManualPrice(inc: nat, ex: Option<int>, rate: real, now: int, sent: bool) returns (conflict: bool)
      requires rate >= 0.0
      requires Valid()
      modifies `status, `finalEx, `vat, `finalInc, `total, `notifiedAt, `log
      ensures Valid() && Now() == ManuallyPriced(old(Now()), inc, ex, rate, now, sent)
      ensures conflict <==> old(status) != NeedsRevision
      ensures !conflict ==> finalInc == total == Some(inc) && finalEx.Some? && vat.Some? && finalEx.value + vat.value == inc
    {
      if status != NeedsRevision {
        return true;
      }
      StorePrice(inc, if ex.Some? then ex.value else Net(inc, rate));
      TriggerNotification(now, sent);
      conflict := false;
    }
  }
}
