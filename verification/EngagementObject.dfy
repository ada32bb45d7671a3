/** The conversation row as the webhook and the two dashboard buttons update it. */
module EngagementObject {
  import opened Wrappers
  import opened EngagementModel
  import opened EngagementSafety

  class Conversation {
    const threaded: bool
    var status: Status
    var assistantTurns: nat
    var parked: Option<Parked>
    var draftedAt: Option<int>
    var notifiedAt: Option<int>
    var approvedAt: Option<int>
    var rejectedAt: Option<int>
    var quotes: map<nat, QuoteRow>
    ghost var log: Ledger

    function View(): Row
      reads this
    {
      Row(threaded, status, assistantTurns, parked, draftedAt, notifiedAt, approvedAt, rejectedAt, quotes)
    }

    ghost function Now(): State
      reads this
    {
      State(View(), log)
    }

    /** Every post so far was justified, and the columns agree with the ledger. */
    ghost predicate Valid()
      reads this
    {
      Inv(Now())
    }

    constructor (threaded: bool, stage: string, quotes: map<nat, QuoteRow>)
      ensures Valid() && Now() == NewThread(threaded, stage, quotes)
    {
      this.threaded, status, assistantTurns, this.quotes := threaded, Open(stage), 0, quotes;
      parked, draftedAt, notifiedAt, approvedAt, rejectedAt := None, None, None, None, None;
      log := Ledger([], [], 0);
      new;
      NewThreadSatisfiesInv(threaded, stage, quotes);
    }

    /** The assistant's turn: it appends to the thread, may move the status and may write quotes. */
    method RunAssistant(chat: Chat)
      modifies `status, `assistantTurns, `quotes
      ensures View() == AfterChat(old(View()), chat)
    {
      if chat.newStatus.Some? {
        status := Open(chat.newStatus.value);
      }
      assistantTurns := chat.turns;
      quotes := chat.quotes;
    }

    /** Tells the operator once per conversation. */
    method TriggerEngagementMail(now: int, sent: bool)
      modifies `notifiedAt, `log
      ensures Now() == MailedOperator(old(Now()), now, sent)
      ensures old(notifiedAt).Some? ==> notifiedAt == old(notifiedAt) && log == old(log)
      ensures log.engagementMails <= old(log).engagementMails + 1
      ensures log.engagementMails > old(log).engagementMails ==> old(notifiedAt).None? && notifiedAt == Some(now)
    {
      if notifiedAt.Some? {
        return;
      }
      if sent {
        notifiedAt := Some(now);
        log := log.(engagementMails := log.engagementMails + 1);
      }
    }

    /** One webhook delivery; the approval and rejection columns are out of its reach. */
    method Receive(mail: Inbound)
      requires Valid()
      modifies `status, `assistantTurns, `quotes, `parked, `notifiedAt, `log
      ensures Valid() && Now() == HandleWebhook(old(Now()), mail)
    {
      WebhookKeepsInv(Now(), mail);
      if mail.junk || status == EngagementRejected || mail.confidence < LOW_FLOOR {
        return;
      }
      var needsApproval := mail.confidence < mail.threshold || (assistantTurns > 0 && !mail.verdict);
      if !needsApproval && !mail.verdict {
        return;
      }
      RunAssistant(mail.chat);
      if mail.chat.reply.None? {
        return;
      }
      if needsApproval {
        status := PendingEngagement;
        parked := mail.chat.reply;
        log := log.(parkings := log.parkings + [mail.chat.reply.value]);
        TriggerEngagementMail(mail.now, mail.notified);
      } else if mail.posted {
        log := log.(posts := log.posts + [Direct(mail.verdict, mail.confidence, mail.threshold)]);
      }
    }

    /** The approve button; it neither parks nor mails the operator. */
    method Approve(click: Approval) returns (refused: bool)
      requires Valid()
      modifies `status, `assistantTurns, `quotes, `draftedAt, `approvedAt, `log
      ensures Valid() && Now() == HandleApprove(old(Now()), click)
      ensures refused <==> old(status) !in {PendingEngagement, EngagementApproved}
      ensures log.parkings == old(log.parkings) && log.engagementMails == old(log.engagementMails)
    {
      ApproveKeepsInv(Now(), click);
      if status != PendingEngagement && status != EngagementApproved {
        return true;
      }
      refused := false;
      if draftedAt.Some? {
        return;
      }
      if approvedAt.None? {
        approvedAt := Some(click.now);
      }
      Replay(click);
    }

    /** Ships the cached reply, or runs the assistant on the mail again. */
    method Replay(click: Approval)
      modifies `status, `assistantTurns, `quotes, `draftedAt, `log
      ensures Now() == ReplayOnApproval(old(Now()), click)
    {
      ghost var gate := status;
      if !threaded {
        status := EngagementApproved;
        return;
      }
      if parked.Some? && parked.value.reply != "" && parked.value.html != "" {
        status := EngagementApproved;
        if click.missiveReady && click.posted {
          draftedAt := Some(click.now);
          log := log.(posts := log.posts + [Cached(gate, parked.value, |log.parkings|)]);
        }
        return;
      }
      if !click.hasBody {
        return;
      }
      status := EngagementApproved;
      RunAssistant(click.chat);
      if click.chat.reply.Some? && click.missiveReady && click.posted {
        log := log.(posts := log.posts + [Replayed(gate, |log.parkings|)]);
      }
    }

    method RejectQuotes()
      modifies `quotes
      ensures quotes == QuotesRejected(old(View()))
    {
      ghost var goal := QuotesRejected(View());
      var proposed := if parked.Some? then parked.value.quoteId else None;
      if proposed.Some? && proposed.value in quotes && AwaitingOperator(quotes[proposed.value]) {
        quotes := quotes[proposed.value := quotes[proposed.value].(status := Rejected)];
      }
      quotes := RejectOwn(quotes);
      assert quotes.Keys == goal.Keys;
    }

    /** Every quote of the conversation that still waits for the operator. */
    static method RejectOwn(before: map<nat, QuoteRow>) returns (after: map<nat, QuoteRow>)
      ensures after.Keys == before.Keys
      ensures forall id | id in before :: after[id] ==
                if before[id].own && AwaitingOperator(before[id]) then before[id].(status := Rejected) else before[id]
    {
      after := before;
      var waiting := set id | id in before && before[id].own && AwaitingOperator(before[id]);
      while waiting != {}
        invariant after.Keys == before.Keys
        invariant forall id | id in waiting :: id in before && before[id].own && AwaitingOperator(before[id])
        invariant forall id | id in before :: after[id] ==
                    if before[id].own && AwaitingOperator(before[id]) && id !in waiting
                    then before[id].(status := Rejected) else before[id]
        decreases waiting
      {
        var id :| id in waiting;
        after := after[id := after[id].(status := Rejected)];
        waiting := waiting - {id};
      }
    }

    /** The reject button: nothing is posted, parked or mailed. */
    method Reject(now: int) returns (refused: bool)
      requires Valid()
      modifies `status, `rejectedAt, `quotes
      ensures Valid() && Now() == HandleReject(old(Now()), now)
      ensures refused <==> old(status) !in {PendingEngagement, EngagementRejected}
    {
      if status != PendingEngagement && status != EngagementRejected {
        return true;
      }
      refused := false;
      status := EngagementRejected;
      if rejectedAt.None? {
        rejectedAt := Some(now);
      }
      RejectQuotes();
    }
  }
}
