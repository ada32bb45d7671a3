/** What holds of a quote after every run of commands, in any order and with any replies. */
module QuoteLedgers {
  import opened Wrappers
  import opened Money
  import opened QuoteModel

  // ----------------------------------------------------------- the invariants

  ghost function Newest<T>(log: seq<T>): Option<T> {
    if log == [] then None else Some(log[|log| - 1])
  }

  /**
   Links: id and url are set together and are those of the newest confirmed link; confirmed
   creations minus cancellations is what is held; every link was for a positive amount.
   */
  ghost predicate LinksBalance(s: State) {
    && (s.row.linkId.Some? <==> s.row.linkUrl.Some?)
    && |s.log.links| == s.log.linkCancellations + (if s.row.linkId.Some? then 1 else 0)
    && (s.row.linkId.Some? ==>
          var newest := Newest(s.log.links).value; s.row.linkId == Some(newest.id) && s.row.linkUrl == Some(newest.url))
    && (forall i | 0 <= i < |s.log.links| :: s.log.links[i].amount > 0)
  }

  ghost predicate HoldsRealOrder(q: Row) {
    q.orderId.Some? && !IsDry(q.orderId.value)
  }

  /** Orders: confirmed real orders minus cancellations is what is held, and it is the newest; every create call is an attempt. */
  ghost predicate OrdersBalance(s: State) {
    && |s.log.realOrders| == s.log.realCancellations + (if HoldsRealOrder(s.row) then 1 else 0)
    && (HoldsRealOrder(s.row) ==> s.row.orderId == Newest(s.log.realOrders))
    && s.row.pushAttempts == s.log.createOrderCalls
  }

  /** Only the newest mail can carry an id, which is the held draft: once one came back, none is sent again. */
  ghost predicate IdEndsMails(s: State) {
    && (forall i | 0 <= i < |s.log.customerMails| - 1 :: s.log.customerMails[i].None?)
    && (s.log.customerMails == [] ==> s.row.draftId.None?)
    && (s.log.customerMails != [] ==> Newest(s.log.customerMails) == Some(s.row.draftId))
  }

  /** Mails: a send that returned an id is the held draft and the last mail; operator mails are bounded by life-cycle stages. */
  ghost predicate MailsBounded(s: State) {
    && IdEndsMails(s)
    && s.log.operatorMails <= s.log.manualSaves + (if s.row.notifiedAt.Some? then 1 else 0)
  }

  ghost predicate Inv(s: State) {
    LinksBalance(s) && OrdersBalance(s) && MailsBounded(s) && (s.row.payment == Some(Paid) ==> s.row.paidAt.Some?)
  }

  lemma LinkedKeepsInv(s: State, env: Env, reply: LinkReply)
    requires Inv(s)
    ensures Inv(Linked(s, env, reply))
  {
  }

  lemma MailedKeepsInv(s: State, env: Env, reply: MailReply)
    requires Inv(s)
    ensures Inv(Mailed(s, env, reply))
  {
  }

  lemma ApprovalKeepsInv(s: State, now: int, env: Env, link: LinkReply, mail: MailReply)
    requires Inv(s)
    ensures Inv(ApprovedNow(s, now, env, link, mail))
  {
    var t := s.(row := ApprovedRow(s.row, now));
    LinkedKeepsInv(t, env, link);
    MailedKeepsInv(Linked(t, env, link), env, mail);
  }

  lemma PushKeepsInv(s: State, env: Env, dryId: string, reply: OrderReply)
    requires Inv(s) && Plausible(PushOrder(env, dryId, reply))
    ensures Inv(Pushed(s, env, dryId, reply))
  {
  }

  lemma CancelKeepsInv(s: State, env: Env, confirmed: bool)
    requires Inv(s)
    ensures Inv(OrderCancelled(s, env, confirmed))
  {
  }

  lemma StoredPriceKeepsInv(s: State, inc: int, net: int)
    requires Inv(s)
    ensures Inv(StoredPrice(s, inc, net))
  {
  }

  lemma PaymentStepsKeepInv(s: State, c: Command)
    requires Inv(s) && (c.CancelLink? || c.StripeEvent? || c.Reprice?)
    ensures Inv(Step(s, c))
  {
  }

  lemma StageStepsKeepInv(s: State, c: Command)
    requires Inv(s) && Plausible(c)
    requires !c.Patch? && !c.BulkApprove? && !c.CreateLink? && !c.PushOrder? && !c.CancelOrder?
    requires !c.CancelLink? && !c.StripeEvent? && !c.Reprice?
    ensures Inv(Step(s, c))
  {
  }

  lemma StepKeepsInv(s: State, c: Command)
    requires Inv(s) && Plausible(c)
    ensures Inv(Step(s, c))
  {
    match c
    case Patch(to, now, env, link, mail) => ApprovalKeepsInv(s, now, env, link, mail);
    case BulkApprove(now, env, link, mail) => ApprovalKeepsInv(s, now, env, link, mail);
    case CreateLink(env, link) => LinkedKeepsInv(s, env, link);
    case PushOrder(env, dryId, reply) => PushKeepsInv(s, env, dryId, reply);
    case CancelOrder(env, confirmed) => CancelKeepsInv(s, env, confirmed);
    case CancelLink(_) => PaymentStepsKeepInv(s, c);
    case StripeEvent(_, _) => PaymentStepsKeepInv(s, c);
    case Reprice(_, _) => PaymentStepsKeepInv(s, c);
    case _ => StageStepsKeepInv(s, c);
  }

  /** The payment-link ledger, the PrintLogic ledger and the mail bounds, after any run from a fresh quote. */
  lemma {:induction false} LedgersAfterRun(start: State, run: seq<Command>)
    requires AllPlausible(run) && Inv(start)
    ensures Inv(Run(start, run))
    decreases |run|
  {
    if run != [] {
      LedgersAfterRun(start, run[..|run| - 1]);
      StepKeepsInv(Run(start, run[..|run| - 1]), run[|run| - 1]);
    }
  }

  /** A new quote: nothing linked, paid, pushed, mailed or told, and every ledger at zero. */
  lemma FreshSatisfiesInv(status: Status, ex: Option<int>, vat: Option<int>, inc: Option<int>, total: Option<int>)
    ensures var s := Fresh(status, ex, vat, inc, total);
            && Inv(s)
            && s.log == Ledger([], 0, 0, [], 0, [], 0, 0)
            && s.row == Row(status, None, ex, vat, inc, total, None, None, None, None, None, 0, None, None)
  {
  }

  /** How many sends returned an id. */
  function Count(mails: seq<Option<string>>): nat {
    if mails == [] then 0
    else Count(mails[..|mails| - 1]) + if mails[|mails| - 1].Some? then 1 else 0
  }

  lemma {:induction false} CountOfNone(mails: seq<Option<string>>)
    requires forall i | 0 <= i < |mails| :: mails[i].None?
    ensures Count(mails) == 0
  {
    if mails != [] {
      CountOfNone(mails[..|mails| - 1]);
    }
  }

  /** The sends that returned an id are exactly the held draft. */
  lemma IdsAreTheDraft(s: State)
    requires IdEndsMails(s)
    ensures Count(s.log.customerMails) == if s.row.draftId.Some? then 1 else 0
  {
    var mails := s.log.customerMails;
    if mails != [] {
      CountOfNone(mails[..|mails| - 1]);
    }
  }

  /** From a fresh row: at most one customer mail with a draft id, and one operator mail more than manual saves. */
  lemma MailBounds(status: Status, ex: Option<int>, vat: Option<int>, inc: Option<int>, total: Option<int>, run: seq<Command>)
    requires AllPlausible(run)
    ensures var s := Run(Fresh(status, ex, vat, inc, total), run);
            && Count(s.log.customerMails) == (if s.row.draftId.Some? then 1 else 0)
            && Count(s.log.customerMails) <= 1 && s.log.operatorMails <= 1 + s.log.manualSaves
  {
    FreshSatisfiesInv(status, ex, vat, inc, total);
    LedgersAfterRun(Fresh(status, ex, vat, inc, total), run);
    IdsAreTheDraft(Run(Fresh(status, ex, vat, inc, total), run));
  }

  // ------------------------------------------------------- how often the customer is mailed

  /** The command approves the quote as it stands: a status patch or a bulk approve, not held back by the gate. */
  ghost predicate ApprovesAnew(s: State, c: Command) {
    && ((c.Patch? && c.to == Approved) || c.BulkApprove?)
    && s.row.status != Approved && s.row.status != NeedsRevision
  }

  /** One more customer mail goes out exactly on a fresh approval that finds no held draft id and is accepted. */
  lemma MailIsSentIff(s: State, c: Command)
    requires Plausible(c)
    ensures var before, after := s.log.customerMails, Step(s, c).log.customerMails;
            && (after != before <==>
                  && ApprovesAnew(s, c) && c.env.mailReady && c.env.customerEmail
                  && s.row.draftId.None? && c.mail.MailAccepted?)
            && (after != before ==> after == before + [Step(s, c).row.draftId])
            && (after != before && c.mail.id != "" ==> Step(s, c).row.draftId == Some(c.mail.id))
            && (s.row.draftId.Some? ==> Step(s, c).row.draftId == s.row.draftId)
            && (after == before ==> Step(s, c).row.draftId == s.row.draftId)
  {
  }

  ghost predicate MailGetsAnId(c: Command) {
    (c.Patch? || c.BulkApprove?) && c.mail.MailAccepted? ==> c.mail.id != ""
  }

  ghost predicate EveryMailGetsAnId(run: seq<Command>) {
    forall i | 0 <= i < |run| :: MailGetsAnId(run[i])
  }

  ghost predicate AllWithId(mails: seq<Option<string>>) {
    forall i | 0 <= i < |mails| :: mails[i].Some?
  }

  lemma NextMailKeepsId(s: State, c: Command)
    requires Plausible(c) && MailGetsAnId(c) && AllWithId(s.log.customerMails)
    ensures AllWithId(Step(s, c).log.customerMails)
  {
    MailIsSentIff(s, c);
  }

  lemma {:induction false} MailsKeepTheirId(start: State, run: seq<Command>)
    requires AllPlausible(run) && EveryMailGetsAnId(run) && AllWithId(start.log.customerMails)
    ensures AllWithId(Run(start, run).log.customerMails)
    decreases |run|
  {
    if run != [] {
      var n := |run| - 1;
      MailsKeepTheirId(start, run[..n]);
      NextMailKeepsId(Run(start, run[..n]), run[n]);
    }
  }

  /** From a fresh row the customer is mailed at most once if every accepted send returns an id; in any run all mails but the last came back without one. */
  lemma CustomerMailedOnce(status: Status, ex: Option<int>, vat: Option<int>, inc: Option<int>, total: Option<int>,
                           run: seq<Command>)
    requires AllPlausible(run)
    ensures var mails := Run(Fresh(status, ex, vat, inc, total), run).log.customerMails;
            && (EveryMailGetsAnId(run) ==> |mails| <= 1)
            && forall i | 0 <= i < |mails| - 1 :: mails[i].None?
  {
    var start := Fresh(status, ex, vat, inc, total);
    FreshSatisfiesInv(status, ex, vat, inc, total);
    LedgersAfterRun(start, run);
    if EveryMailGetsAnId(run) {
      MailsKeepTheirId(start, run);
      var mails := Run(start, run).log.customerMails;
      assert mails == [] || mails[0].Some?;
    }
  }

  /** The customer-mail bound does need the id: a send accepted without one is repeated on the next approval. */
  lemma MailsWithoutIdRepeat(env: Env)
    requires env.mailReady && env.customerEmail
    ensures var approve := Patch(Approved, 0, env, LinkRefused, MailAccepted(""));
            var start := Fresh(PendingApproval, None, None, None, None);
            var reject := Patch(Rejected, 0, env, LinkRefused, MailRefused);
            |Step(Step(Step(start, approve), reject), approve).log.customerMails| == 2
  {
  }

  // --------------------------------------------------------------- write-once

  lemma {:induction false} ApprovedAtIsWriteOnce(s: State, run: seq<Command>)
    requires AllPlausible(run) && s.row.approvedAt.Some?
    ensures Run(s, run).row.approvedAt == s.row.approvedAt
    decreases |run|
  {
    if run != [] {
      ApprovedAtIsWriteOnce(s, run[..|run| - 1]);
    }
  }

  /** A real order id is only ever given up through a cancellation; a dry-run id may be promoted to a real one. */
  lemma RealOrderIsNeverReplaced(s: State, c: Command)
    requires Plausible(c) && HoldsRealOrder(s.row)
    ensures Step(s, c).row.orderId == s.row.orderId
            || (c.CancelOrder? && Step(s, c).row.orderId.None? && Step(s, c).log.realCancellations == s.log.realCancellations + 1)
    ensures c.PushOrder? ==> Step(s, c) == s
  {
  }

  // --------------------------------------------------------- paid is sticky

  /** What a customer owes for the quote: the total, or the price with VAT when the total is missing or zero. */
  ghost predicate Owes(q: Row, amount: int) {
    if q.total.Some? && q.total.value != 0 then amount == q.total.value else q.finalInc == Some(amount)
  }

  ghost predicate OwesSomething(q: Row) {
    if q.total.Some? && q.total.value != 0 then q.total.value > 0 else q.finalInc.Some? && q.finalInc.value > 0
  }

  /** The command asks for a payment link, its guards let it, and Stripe makes one. */
  ghost predicate MakesLink(s: State, c: Command) {
    && (c.CreateLink? || ApprovesAnew(s, c))
    && c.env.stripeReady && (s.row.linkId.None? || s.row.linkUrl.None?)
    && OwesSomething(s.row) && c.link.LinkMade?
  }

  /** Those guards decide it: a link is confirmed exactly then, for what is owed, and reads "unpaid". */
  lemma LinkIsMadeIff(s: State, c: Command)
    requires Plausible(c)
    ensures Step(s, c).log.links != s.log.links <==> MakesLink(s, c)
    ensures MakesLink(s, c) ==>
              && (exists amount :: Owes(s.row, amount) &&
                    Step(s, c).log.links == s.log.links + [Link(c.link.id, c.link.url, amount)])
              && Step(s, c).row.payment == Some(Unpaid)
              && Step(s, c).row.linkId == Some(c.link.id) && Step(s, c).row.linkUrl == Some(c.link.url)
  {
    if MakesLink(s, c) {
      assert Owes(s.row, Amount(s.row));
    }
  }

  /** A paid quote stops being paid in exactly two ways: a refund event, or a new link (whose creation writes "unpaid"). */
  lemma PaidEndsIff(s: State, c: Command)
    requires Plausible(c) && s.row.payment == Some(Paid)
    ensures Step(s, c).row.payment != Some(Paid) <==> ((c.StripeEvent? && c.kind == RefundEvent) || MakesLink(s, c))
    ensures MakesLink(s, c) ==> Step(s, c).row.payment == Some(Unpaid) && (s.row.linkId.None? || s.row.linkUrl.None?)
  {
    LinkIsMadeIff(s, c);
  }

  ghost predicate NoCancelLink(run: seq<Command>) {
    forall i | 0 <= i < |run| :: !run[i].CancelLink?
  }

  ghost predicate NoRefund(run: seq<Command>) {
    forall i | 0 <= i < |run| :: !(run[i].StripeEvent? && run[i].kind == RefundEvent)
  }

  ghost predicate Settled(s: State) {
    && s.row.linkId.Some? && s.row.linkUrl.Some?
    && s.row.payment.Some? && s.row.payment != Some(Unpaid)
  }

  /** With the link kept, a payment outcome is never forgotten, the paid time never cleared, and without a refund paid stays paid. */
  lemma {:induction false} PaidIsSticky(s: State, run: seq<Command>)
    requires AllPlausible(run) && NoCancelLink(run) && Settled(s)
    ensures Settled(Run(s, run))
    ensures s.row.paidAt.Some? ==> Run(s, run).row.paidAt.Some?
    ensures NoRefund(run) && s.row.payment == Some(Paid) ==>
              Run(s, run).row.payment == Some(Paid) && Run(s, run).row.paidAt == s.row.paidAt
    decreases |run|
  {
    if run != [] {
      PaidIsSticky(s, run[..|run| - 1]);
    }
  }

  /** Without that condition it can be forgotten: cancel the link of a paid quote, create a new one, and it reads "unpaid". */
  lemma PaidCanBeForgotten(env: Env)
    requires env.stripeReady
    ensures var create := CreateLink(env, LinkMade("plink_1", "https://pay"));
            var start := Fresh(Approved, None, None, Some(1000), Some(1000));
            var paid := Step(Step(start, create), StripeEvent(PaymentEvent, 1));
            var after := Step(Step(paid, CancelLink(true)), create);
            paid.row.payment == Some(Paid) && after.row.payment == Some(Unpaid)
  {
  }

  /** Delivering any event twice in a row is as good as once. */
  lemma RepeatedEventIsHarmless(q: Row, kind: EventKind, now: int, later: int)
    ensures PaymentMoved(PaymentMoved(q, kind, now), kind, later).payment == PaymentMoved(q, kind, now).payment
    ensures kind == PaymentEvent ==> PaymentMoved(PaymentMoved(q, kind, now), kind, later) == PaymentMoved(q, kind, now)
  {
  }

  // ----------------------------------------------------- unpriced quotes

  ghost predicate Unpriced(s: State) {
    s.row.status == NeedsRevision && s.row.finalInc.None?
  }

  /** The command walks a quote out of needs_revision by a status change the gate does not stop: a patch, a bulk reject, or the reject of its conversation. */
  ghost predicate SidestepsPricing(c: Command) {
    (c.Patch? && c.to != Approved && c.to != NeedsRevision) || c.BulkReject? || c.RejectEngagement?
  }

  /** An unpriced quote leaves needs_revision still unpriced exactly by such a command. */
  lemma UnpricedLeavesIff(s: State, c: Command)
    requires Plausible(c) && Unpriced(s)
    ensures (Step(s, c).row.status != NeedsRevision && Step(s, c).row.finalInc.None?) <==> SidestepsPricing(c)
  {
  }

  ghost predicate GateRespected(s: State, run: seq<Command>)
    requires AllPlausible(run)
    decreases |run|
  {
    run == [] ||
    (var n := |run| - 1;
     GateRespected(s, run[..n]) && (Run(s, run[..n]).row.status == NeedsRevision ==> !SidestepsPricing(run[n])))
  }

  /** If no run step sidesteps the gate, an approved quote has a price. */
  lemma {:induction false} ApprovedImpliesPriced(s: State, run: seq<Command>)
    requires AllPlausible(run) && Unpriced(s) && GateRespected(s, run)
    ensures Run(s, run).row.status == NeedsRevision || Run(s, run).row.finalInc.Some?
    decreases |run|
  {
    if run != [] {
      ApprovedImpliesPriced(s, run[..|run| - 1]);
    }
  }

  /** The gate alone does not ensure it: whatever walks around it, a patch to approved then approves and mails the quote unpriced, though never links it. */
  lemma UnpricedQuoteCanBeApproved(out: Command, env: Env)
    requires Plausible(out) && SidestepsPricing(out)
    requires env.mailReady && env.customerEmail && env.stripeReady
    ensures var start := Fresh(NeedsRevision, None, None, None, None);
            var approve := Patch(Approved, 1, env, LinkMade("plink_1", "https://pay"), MailAccepted("d1"));
            var end := Step(Step(start, out), approve);
            && end.row.status == Approved && end.row.finalInc.None? && end.row.total.None?
            && end.log.links == [] && end.log.customerMails == [Some("d1")]
  {
  }

  /** A manual price is split to the cent; when the ex-VAT part is derived, grossing it up misses by at most a cent. */
  lemma ManualPriceSplits(s: State, inc: nat, ex: Option<int>, rate: real, now: int, sent: bool)
    requires 0.0 <= rate < 2.0 && s.row.status == NeedsRevision
    ensures var q := ManuallyPriced(s, inc, ex, rate, now, sent).row;
            && q.finalEx.Some? && q.vat.Some? && q.finalInc == q.total == Some(inc)
            && q.finalEx.value + q.vat.value == inc
            && (ex.None? ==> -1 <= Gross(q.finalEx.value, rate) - inc <= 1)
            && q.status == PendingApproval
  {
    GrossOfNetWithinOneCent(inc, rate);
  }
}
