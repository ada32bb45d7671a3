/** When exactly each column of a quote and each external effect changes, whatever the command. */
module QuoteSteps {
  import opened Wrappers
  import opened Money
  import opened QuoteModel
  import opened QuoteLedgers

  // ------------------------------------------------------------ PrintLogic

  /** A push that calls the order service: the key or the dry run is set, and no real order is held. */
  ghost predicate CallsPrintLogic(s: State, c: Command) {
    && c.PushOrder? && (c.env.printlogicKey || c.env.printlogicDryRun)
    && (s.row.orderId.None? || IsDry(s.row.orderId.value))
  }

  /** A confirmed real order is logged exactly on a real call that succeeds, and its id is what the row then holds - a dry-run id gives way. */
  lemma OrderIsMadeIff(s: State, c: Command)
    requires Plausible(c)
    ensures var t := Step(s, c);
            && (t.log.createOrderCalls == s.log.createOrderCalls + (if CallsPrintLogic(s, c) then 1 else 0))
            && (t.row.pushAttempts == s.row.pushAttempts + (if CallsPrintLogic(s, c) then 1 else 0))
            && (t.log.realOrders != s.log.realOrders <==>
                  CallsPrintLogic(s, c) && !c.env.printlogicDryRun && c.reply.OrderMade?)
            && (t.log.realOrders != s.log.realOrders ==>
                  t.log.realOrders == s.log.realOrders + [c.reply.id] && t.row.orderId == Some(c.reply.id))
            && (CallsPrintLogic(s, c) && c.env.printlogicDryRun ==> t.row.orderId == Some(c.dryId))
            && (CallsPrintLogic(s, c) && !c.env.printlogicDryRun && c.reply.OrderRefused? ==> t.row.orderId == s.row.orderId)
  {
  }

  /** An order is given up exactly by a cancel: a dry-run one at once, a real one with the key and PrintLogic's word. */
  lemma OrderIsCancelledIff(s: State, c: Command)
    requires Plausible(c) && s.row.orderId.Some?
    ensures var t, confirmedOnly := Step(s, c), !IsDry(s.row.orderId.value);
            && (t.row.orderId.None? <==> c.CancelOrder? && (confirmedOnly ==> c.env.printlogicKey && c.confirmed))
            && (t.log.realCancellations == s.log.realCancellations + (if confirmedOnly && t.row.orderId.None? then 1 else 0))
  {
  }

  ghost predicate NoConfirmedCancel(run: seq<Command>) {
    forall i | 0 <= i < |run| :: !(run[i].CancelOrder? && run[i].confirmed && run[i].env.printlogicKey)
  }

  /** After a confirmed push every further push is a no-op, and the order stays, until a confirmed cancellation. */
  lemma {:induction false} PushedOnce(s: State, run: seq<Command>, again: Command)
    requires AllPlausible(run) && NoConfirmedCancel(run) && HoldsRealOrder(s.row)
    requires Plausible(again) && again.PushOrder?
    ensures Run(s, run).row.orderId == s.row.orderId && Run(s, run).log.realOrders == s.log.realOrders
    ensures Run(s, run).log.createOrderCalls == s.log.createOrderCalls
    ensures Step(Run(s, run), again) == Run(s, run)
    decreases |run|
  {
    if run != [] {
      var n := |run| - 1;
      PushedOnce(s, run[..n], again);
      assert !(run[n].CancelOrder? && run[n].confirmed && run[n].env.printlogicKey);
      HeldOrderStays(Run(s, run[..n]), run[n]);
    }
  }

  lemma HeldOrderStays(s: State, c: Command)
    requires Plausible(c) && HoldsRealOrder(s.row) && !(c.CancelOrder? && c.confirmed && c.env.printlogicKey)
    ensures Step(s, c).row.orderId == s.row.orderId && Step(s, c).log.realOrders == s.log.realOrders
    ensures Step(s, c).log.createOrderCalls == s.log.createOrderCalls
  {
    OrderIsMadeIff(s, c);
    OrderIsCancelledIff(s, c);
    RealOrderIsNeverReplaced(s, c);
  }

  // ------------------------------------------------------------------ paid

  /** A quote becomes paid exactly by a payment event, at that event's time. */
  lemma PaidBeginsIff(s: State, c: Command)
    requires Plausible(c) && s.row.payment != Some(Paid)
    ensures Step(s, c).row.payment == Some(Paid) <==> c.StripeEvent? && c.kind == PaymentEvent
    ensures Step(s, c).row.payment == Some(Paid) ==> Step(s, c).row.paidAt == Some(c.now)
  {
  }

  /** What the other events leave: a failure reads failed unless paid, a refund reads refunded, anything else nothing. */
  lemma EventsReadAs(s: State, kind: EventKind, now: int)
    ensures var before, after := s.row, Step(s, StripeEvent(kind, now)).row;
            && (kind == FailureEvent ==> after.payment == if before.payment == Some(Paid) then Some(Paid) else Some(PaymentFailed))
            && (kind == RefundEvent ==> after.payment == Some(Refunded))
            && (kind == OtherEvent ==> after == before)
            && (kind != PaymentEvent ==> after.paidAt == before.paidAt)
            && Step(s, StripeEvent(kind, now)).log == s.log
  {
  }

  /** A run that ends paid had a payment event after its newest link. */
  ghost predicate PaidSinceLink(s: State, run: seq<Command>)
    requires AllPlausible(run)
    decreases |run|
  {
    run != [] &&
    (var n := |run| - 1;
     (run[n].StripeEvent? && run[n].kind == PaymentEvent)
     || (Run(s, run).log.links == Run(s, run[..n]).log.links && PaidSinceLink(s, run[..n])))
  }

  lemma {:induction false} PaidHadAPayment(s: State, run: seq<Command>)
    requires AllPlausible(run) && s.row.payment != Some(Paid) && Run(s, run).row.payment == Some(Paid)
    ensures PaidSinceLink(s, run)
    decreases |run|
  {
    if run != [] {
      var n := |run| - 1;
      var before := Run(s, run[..n]);
      if before.row.payment == Some(Paid) {
        PaidHadAPayment(s, run[..n]);
        LinkIsMadeIff(before, run[n]);
      } else {
        PaidBeginsIff(before, run[n]);
      }
    }
  }

  // ------------------------------------------------------------------ links

  /** A link is given up exactly by a confirmed cancel; only "unpaid" is forgotten with it. */
  lemma LinkIsCancelledIff(s: State, c: Command)
    requires Plausible(c) && s.row.linkId.Some?
    ensures var t := Step(s, c);
            && (t.row.linkId.None? <==> c.CancelLink? && c.confirmed)
            && (t.row.linkId.None? ==>
                  t.row.linkUrl.None? && t.row.payment == if s.row.payment == Some(Unpaid) then None else s.row.payment)
            && (t.log.linkCancellations == s.log.linkCancellations + if t.row.linkId.None? then 1 else 0)
  {
  }

  // --------------------------------------------------------- operator mails

  /** The operator is mailed exactly when told to: not yet told since the last price was typed in, and the send works. */
  lemma OperatorIsMailedIff(s: State, c: Command)
    requires Plausible(c)
    ensures var t := Step(s, c);
            var tells := (c.Notify? && s.row.notifiedAt.None? && c.sent)
                         || (c.ManualPrice? && s.row.status == NeedsRevision && c.sent);
            && t.log.operatorMails == s.log.operatorMails + (if tells then 1 else 0)
            && (tells ==> t.row.notifiedAt == Some(c.now))
            && (!tells ==> t.row.notifiedAt == if c.ManualPrice? && s.row.status == NeedsRevision then None else s.row.notifiedAt)
  {
  }

  // ----------------------------------------------------------------- status

  /** A patch stores the status it names, except that needs_revision cannot be approved; nothing else moves with it. */
  lemma PatchStoresStatus(s: State, c: Command)
    requires Plausible(c) && c.Patch?
    ensures var t := Step(s, c);
            && t.row.status == (if c.to == Approved && s.row.status == NeedsRevision then NeedsRevision else c.to)
            && (c.to != Approved ==> t == s.(row := s.row.(status := c.to)))
  {
  }

  /** A bulk approve and a bulk reject store theirs; the rest of the commands touch no status but by pricing or leaving the queue. */
  lemma OtherStatusChanges(s: State, c: Command)
    requires Plausible(c) && !c.Patch?
    ensures var was, now := s.row.status, Step(s, c).row.status;
            && (now == Approved && was != Approved <==> c.BulkApprove? && was != NeedsRevision && was != Approved)
            && (now == PendingApproval && was != PendingApproval <==> c.ManualPrice? && was == NeedsRevision)
            && (now == Superseded && was != Superseded <==> c.Supersede? && was == PendingApproval)
            && (now == Rejected && was != Rejected <==>
                  (c.BulkReject? && was != Rejected)
                  || (c.RejectEngagement? && (was == PendingApproval || was == NeedsRevision)))
            && (now != was ==> now in {Approved, PendingApproval, Superseded, Rejected})
  {
  }

  /** The first approval is dated, whichever endpoint it came through. */
  lemma ApprovalIsDated(s: State, c: Command)
    requires Plausible(c)
    ensures var t := Step(s, c);
            var approves := ((c.Patch? && c.to == Approved) || c.BulkApprove?) && s.row.status != NeedsRevision;
            && (approves ==> t.row.approvedAt == if s.row.approvedAt.Some? then s.row.approvedAt else Some(c.now))
            && (!approves ==> t.row.approvedAt == s.row.approvedAt)
  {
  }

  /** A typed price is stored exactly on a quote that needs revision: as typed, with the given or the derived net. */
  lemma ManualPriceIsStoredIff(s: State, c: Command)
    requires Plausible(c) && c.ManualPrice?
    ensures var t, q := Step(s, c), s.row;
            && (q.status != NeedsRevision ==> t == s)
            && (q.status == NeedsRevision ==>
                  && t.row.finalInc == t.row.total == Some(c.inc)
                  && t.row.finalEx == Some(if c.ex.Some? then c.ex.value else Net(c.inc, c.rate))
                  && t.log.manualSaves == s.log.manualSaves + 1)
  {
  }

  /** No column moves but by the commands it belongs to. */
  lemma EachColumnHasItsCommands(s: State, c: Command)
    requires Plausible(c)
    ensures var q, q' := s.row, Step(s, c).row;
            && ((q'.finalEx, q'.vat) != (q.finalEx, q.vat) ==> c.ManualPrice?)
            && ((q'.finalInc, q'.total) != (q.finalInc, q.total) ==> c.ManualPrice? || c.Reprice?)
            && (q'.payment != q.payment ==> c.StripeEvent? || c.CancelLink? || MakesLink(s, c))
            && (q'.paidAt != q.paidAt ==> c.StripeEvent? && c.kind == PaymentEvent)
            && ((q'.linkId, q'.linkUrl) != (q.linkId, q.linkUrl) ==> c.CancelLink? || MakesLink(s, c))
            && (q'.orderId != q.orderId ==> c.PushOrder? || c.CancelOrder?)
            && (q'.draftId != q.draftId ==> ApprovesAnew(s, c) && q.draftId.None?)
  {
  }

  /** A change of artwork or delivery stores the new price with VAT and the new total, and nothing else. */
  lemma RepriceStores(s: State, finalInc: int, total: int)
    ensures Step(s, Reprice(finalInc, total)) == State(s.row.(finalInc := Some(finalInc), total := Some(total)), s.log)
  {
  }

  /** Dry-run ids are those that begin with "DRY-". */
  lemma DryIds(id: string)
    ensures IsDry(id) <==> |id| >= 4 && id[..4] == "DRY-"
  {
  }

  /** A run is its commands, one after the other. */
  lemma RunIsStepwise(s: State, run: seq<Command>, c: Command)
    requires AllPlausible(run + [c])
    ensures AllPlausible(run) && Plausible(c)
    ensures Run(s, []) == s && Run(s, run + [c]) == Step(Run(s, run), c)
  {
    var all := run + [c];
    assert all[|run|] == c && all[..|run|] == run;
    assert forall i | 0 <= i < |run| :: all[i] == run[i];
  }
}
