/** What each handler of the gate leaves behind, and when exactly; the assistant's turns over whole runs. */
module EngagementSteps {
  import opened Wrappers
  import opened EngagementModel
  import opened EngagementSafety

  // ---------------------------------------------------------- the webhook

  /** The mail gets as far as the assistant: not junk, thread not rejected, classifier not confused, and either a quote request or one for the operator's eyes. */
  ghost predicate ReachesAssistant(q: Row, mail: Inbound) {
    && !mail.junk && q.status != EngagementRejected && mail.confidence >= 0.2
    && (mail.verdict || mail.confidence < mail.threshold || q.assistantTurns > 0)
  }

  /** The reply is for the operator: low confidence, or no quote request on a thread already answered. */
  ghost predicate ForOperator(q: Row, mail: Inbound) {
    mail.confidence < mail.threshold || (q.assistantTurns > 0 && !mail.verdict)
  }

  /** Everything that does not reach the assistant is dropped without a trace. */
  lemma WebhookDrops(s: State, mail: Inbound)
    requires !ReachesAssistant(s.row, mail)
    ensures HandleWebhook(s, mail) == s
  {
  }

  /** A reply is parked exactly when the mail reaches the assistant, it replies, and the reply is for the operator, who is mailed unless told before. */
  lemma WebhookParksIff(s: State, mail: Inbound)
    ensures var t := HandleWebhook(s, mail);
            var parks := ReachesAssistant(s.row, mail) && mail.chat.reply.Some? && ForOperator(s.row, mail);
            && t.log.parkings == (if parks then s.log.parkings + [mail.chat.reply.value] else s.log.parkings)
            && t.row.parked == (if parks then mail.chat.reply else s.row.parked)
            && (parks ==> t.row.status == PendingEngagement && t.log.posts == s.log.posts)
            && t.log.engagementMails ==
                 s.log.engagementMails + (if parks && s.row.notifiedAt.None? && mail.notified then 1 else 0)
            && t.row.notifiedAt ==
                 (if parks && s.row.notifiedAt.None? && mail.notified then Some(mail.now) else s.row.notifiedAt)
            && t.row.draftedAt == s.row.draftedAt && t.row.approvedAt == s.row.approvedAt
            && t.row.rejectedAt == s.row.rejectedAt && t.row.threaded == s.row.threaded
  {
  }

  /** The assistant's turn is recorded: its turns and quotes, and its status unless the reply was parked. */
  lemma WebhookRecordsChat(s: State, mail: Inbound)
    requires ReachesAssistant(s.row, mail)
    ensures var q := HandleWebhook(s, mail).row;
            && q.assistantTurns == mail.chat.turns && q.quotes == mail.chat.quotes
            && (mail.chat.reply.None? || !ForOperator(s.row, mail) ==>
                  q.status == if mail.chat.newStatus.Some? then Open(mail.chat.newStatus.value) else s.row.status)
  {
  }

  // ------------------------------------------------------------ the buttons

  /** The approval runs the assistant again. */
  ghost predicate ReplaysAssistant(q: Row, click: Approval) {
    && (q.status == PendingEngagement || q.status == EngagementApproved) && q.draftedAt.None?
    && q.threaded && !Written(q.parked) && click.hasBody
  }

  /** An approval that takes effect is dated once, approves the thread, marks a shipped reply, and records the assistant's turn only if it ran. */
  lemma ApprovalIsRecorded(s: State, click: Approval)
    ensures var q, q' := s.row, HandleApprove(s, click).row;
            var acts := (q.status == PendingEngagement || q.status == EngagementApproved) && q.draftedAt.None?;
            && (!acts ==> HandleApprove(s, click) == s)
            && (acts ==> q'.approvedAt == if q.approvedAt.Some? then q.approvedAt else Some(click.now))
            && (acts && (!q.threaded || Written(q.parked)) ==> q'.status == EngagementApproved)
            && (acts && q.threaded && Written(q.parked) ==>
                  q'.draftedAt == if click.missiveReady && click.posted then Some(click.now) else None)
            && (if ReplaysAssistant(q, click) then
                  && q'.assistantTurns == click.chat.turns && q'.quotes == click.chat.quotes
                  && q'.status == if click.chat.newStatus.Some? then Open(click.chat.newStatus.value) else EngagementApproved
                else q'.assistantTurns == q.assistantTurns && q'.quotes == q.quotes)
            && q'.parked == q.parked && q'.notifiedAt == q.notifiedAt && q'.rejectedAt == q.rejectedAt
            && q'.threaded == q.threaded && HandleApprove(s, click).log.parkings == s.log.parkings
            && HandleApprove(s, click).log.engagementMails == s.log.engagementMails
  {
  }

  /** A reject takes effect exactly on a pending or rejected thread; it is dated once and moves nothing but status and quotes. */
  lemma RejectTakesEffectIff(s: State, now: int)
    ensures var q, t := s.row, HandleReject(s, now);
            if q.status == PendingEngagement || q.status == EngagementRejected then
              && t.row.status == EngagementRejected
              && t.row.rejectedAt == (if q.rejectedAt.Some? then q.rejectedAt else Some(now))
              && t == State(q.(status := t.row.status, rejectedAt := t.row.rejectedAt, quotes := t.row.quotes), s.log)
            else t == s
  {
  }

  // ------------------------------------------------ the assistant, over runs

  /** The assistant's turn that a command brings about, if it does. */
  ghost function ChatOf(q: Row, c: Command): Option<Chat> {
    match c
    case Webhook(mail) => if ReachesAssistant(q, mail) then Some(mail.chat) else None
    case Approve(click) => if ReplaysAssistant(q, click) then Some(click.chat) else None
    case Reject(_) => None
  }

  /** The newest turn of the assistant in a run. */
  ghost function NewestChat(s: State, run: seq<Command>): Option<Chat>
    decreases |run|
  {
    if run == [] then None
    else
      var n := |run| - 1;
      var chat := ChatOf(Run(s, run[..n]).row, run[n]);
      if chat.Some? then chat else NewestChat(s, run[..n])
  }

  lemma StepRecordsChat(s: State, c: Command)
    ensures var chat := ChatOf(s.row, c);
            Step(s, c).row.assistantTurns == if chat.Some? then chat.value.turns else s.row.assistantTurns
  {
    match c
    case Webhook(mail) =>
      if ReachesAssistant(s.row, mail) {
        WebhookRecordsChat(s, mail);
      } else {
        WebhookDrops(s, mail);
      }
    case Approve(click) => ApprovalIsRecorded(s, click);
    case Reject(now) => RejectTakesEffectIff(s, now);
  }

  /** In every run of a new thread the recorded turns are those of the assistant's newest run. */
  lemma {:induction false} TurnsAreTheNewest(threaded: bool, stage: string, quotes: map<nat, QuoteRow>, run: seq<Command>)
    ensures var chat := NewestChat(NewThread(threaded, stage, quotes), run);
            Run(NewThread(threaded, stage, quotes), run).row.assistantTurns == if chat.Some? then chat.value.turns else 0
    decreases |run|
  {
    if run != [] {
      var n := |run| - 1;
      TurnsAreTheNewest(threaded, stage, quotes, run[..n]);
      StepRecordsChat(Run(NewThread(threaded, stage, quotes), run[..n]), run[n]);
    }
  }

  /** Every turn of the assistant in the run leaves at least one assistant message. */
  ghost predicate Replies(run: seq<Command>) {
    forall i | 0 <= i < |run| ::
      (run[i].Webhook? ==> run[i].mail.chat.turns > 0) && (run[i].Approve? ==> run[i].click.chat.turns > 0)
  }

  lemma {:induction false} EngagedStaysEngaged(s: State, run: seq<Command>)
    requires s.row.assistantTurns > 0 && Replies(run)
    ensures Run(s, run).row.assistantTurns > 0
    decreases |run|
  {
    if run != [] {
      var n := |run| - 1;
      EngagedStaysEngaged(s, run[..n]);
      StepRecordsChat(Run(s, run[..n]), run[n]);
    }
  }

  /**
   Once a webhook has posted a reply, no later confident non-quote is dropped in silence: as long as
   the thread is not rejected the reply is parked, and the operator is mailed if not told before.
   */
  lemma AnsweredThreadIsNeverDropped(start: State, first: Inbound, later: seq<Command>, mail: Inbound)
    requires Posted(start, HandleWebhook(start, first)).Some? && first.chat.turns > 0 && Replies(later)
    requires !mail.junk && !mail.verdict && mail.confidence >= 0.2 && mail.confidence >= mail.threshold && mail.chat.reply.Some?
    requires Run(HandleWebhook(start, first), later).row.status != EngagementRejected
    ensures var s := Run(HandleWebhook(start, first), later); var t := HandleWebhook(s, mail);
            && t.row.status == PendingEngagement && t.row.parked == mail.chat.reply
            && t.log.parkings == s.log.parkings + [mail.chat.reply.value] && t.log.posts == s.log.posts
            && (s.row.notifiedAt.None? && mail.notified ==> t.log.engagementMails == s.log.engagementMails + 1)
  {
    PostingNeedsAssistant(start, first);
    EngagedStaysEngaged(HandleWebhook(start, first), later);
    WebhookParksIff(Run(HandleWebhook(start, first), later), mail);
  }

  lemma PostingNeedsAssistant(s: State, mail: Inbound)
    requires Posted(s, HandleWebhook(s, mail)).Some?
    ensures HandleWebhook(s, mail).row.assistantTurns == mail.chat.turns
  {
    if ReachesAssistant(s.row, mail) {
      WebhookRecordsChat(s, mail);
    } else {
      WebhookDrops(s, mail);
    }
  }
}
