/**
 The engagement gate in front of the e-mail channel: a webhook decides by confidence
 whether a reply is posted, parked for approval or dropped; a person then approves or
 rejects the conversation.  One conversation row per thread, one atomic step per handler.
 */
module EngagementModel {
  import opened Wrappers

  const LOW_FLOOR: real := 0.2

  datatype Status = Open(stage: string) | PendingEngagement | EngagementApproved | EngagementRejected

  datatype QuoteStatus = PendingApproval | NeedsRevision | Rejected | Other(stage: string)

  /** A quote row; `own` when it belongs to this conversation. */
  datatype QuoteRow = QuoteRow(own: bool, status: QuoteStatus)

  /** A reply pre-rendered for approval. */
  datatype Parked = Parked(reply: string, html: string, quoteId: Option<nat>)

  /** The conversation row, with the parts of its classification blob that the handlers test. */
  datatype Row = Row(
    threaded: bool,               // has an e-mail thread to post to
    status: Status,
    assistantTurns: nat,
    parked: Option<Parked>,
    draftedAt: Option<int>,
    notifiedAt: Option<int>,
    approvedAt: Option<int>,
    rejectedAt: Option<int>,
    quotes: map<nat, QuoteRow>)

  /** A posted draft with its grounds: the triage figures, or the status at the click and how many replies had been parked by then. */
  datatype Post =
    | Direct(verdict: bool, confidence: real, threshold: real)
    | Cached(gate: Status, reply: Parked, parkings: nat)
    | Replayed(gate: Status, parkings: nat)

  datatype Ledger = Ledger(posts: seq<Post>, parkings: seq<Parked>, engagementMails: nat)

  datatype State = State(row: Row, log: Ledger)

  /** What a run of the assistant leaves behind; an empty reply ends the handler. */
  datatype Chat = Chat(reply: Option<Parked>, newStatus: Option<string>, turns: nat, quotes: map<nat, QuoteRow>)

  datatype Inbound = Inbound(junk: bool, verdict: bool, confidence: real, threshold: real, chat: Chat,
                             posted: bool, notified: bool, now: int)

  datatype Approval = Approval(now: int, missiveReady: bool, posted: bool, hasBody: bool, chat: Chat)

  datatype Command = Webhook(mail: Inbound) | Approve(click: Approval) | Reject(now: int)

  // ----------------------------------------------------------------- pieces

  function AfterChat(q: Row, chat: Chat): Row {
    q.(status := if chat.newStatus.Some? then Open(chat.newStatus.value) else q.status,
       assistantTurns := chat.turns, quotes := chat.quotes)
  }

  predicate NeedsApproval(q: Row, mail: Inbound) {
    mail.confidence < mail.threshold || (q.assistantTurns > 0 && !mail.verdict)
  }

  /** Dropped before the assistant runs: junk, rejected thread, confused classifier, or confident junk on a fresh thread. */
  predicate Dropped(q: Row, mail: Inbound) {
    || mail.junk
    || q.status == EngagementRejected
    || mail.confidence < LOW_FLOOR
    || (!NeedsApproval(q, mail) && !mail.verdict)
  }

  function MailedOperator(s: State, now: int, sent: bool): State {
    if s.row.notifiedAt.Some? || !sent then s
    else State(s.row.(notifiedAt := Some(now)), s.log.(engagementMails := s.log.engagementMails + 1))
  }

  function HandleWebhook(s: State, mail: Inbound): State {
    if Dropped(s.row, mail) then s
    else
      var q := AfterChat(s.row, mail.chat);
      if mail.chat.reply.None? then s.(row := q)
      else if NeedsApproval(s.row, mail) then
        var reply := mail.chat.reply.value;
        MailedOperator(State(q.(status := PendingEngagement, parked := Some(reply)),
                             s.log.(parkings := s.log.parkings + [reply])), mail.now, mail.notified)
      else if mail.posted then
        State(q, s.log.(posts := s.log.posts + [Direct(mail.verdict, mail.confidence, mail.threshold)]))
      else s.(row := q)
  }

  /** A parked reply that can be shipped as it is. */
  predicate Usable(parked: Option<Parked>) {
    parked.Some? && parked.value.reply != "" && parked.value.html != ""
  }

  predicate HasCachedReply(q: Row) {
    Usable(q.parked)
  }

  /** Ships the cached reply, or runs the assistant again when nothing usable was parked. */
  function ReplayOnApproval(s: State, click: Approval): State {
    var q := s.row;
    if !q.threaded then s.(row := q.(status := EngagementApproved))
    else if HasCachedReply(q) then
      if click.missiveReady && click.posted then
        State(q.(status := EngagementApproved, draftedAt := Some(click.now)),
              s.log.(posts := s.log.posts + [Cached(q.status, q.parked.value, |s.log.parkings|)]))
      else s.(row := q.(status := EngagementApproved))
    else if !click.hasBody then s
    else
      var after := AfterChat(q.(status := EngagementApproved), click.chat);
      if click.chat.reply.Some? && click.missiveReady && click.posted then
        State(after, s.log.(posts := s.log.posts + [Replayed(q.status, |s.log.parkings|)]))
      else s.(row := after)
  }

  predicate Approvable(status: Status) {
    status == PendingEngagement || status == EngagementApproved
  }

  function HandleApprove(s: State, click: Approval): State {
    var q := s.row;
    if !Approvable(q.status) then s
    else if q.draftedAt.Some? then s
    else ReplayOnApproval(s.(row := q.(approvedAt := if q.approvedAt.None? then Some(click.now) else q.approvedAt)), click)
  }

  predicate AwaitingOperator(r: QuoteRow) {
    r.status == PendingApproval || r.status == NeedsRevision
  }

  /** The proposed quote, and every quote of the conversation, stops waiting for the operator. */
  function QuotesRejected(q: Row): map<nat, QuoteRow> {
    var proposed := if q.parked.Some? then q.parked.value.quoteId else None;
    map id | id in q.quotes ::
      if AwaitingOperator(q.quotes[id]) && (q.quotes[id].own || proposed == Some(id))
      then q.quotes[id].(status := Rejected) else q.quotes[id]
  }

  function HandleReject(s: State, now: int): State {
    var q := s.row;
    if q.status != PendingEngagement && q.status != EngagementRejected then s
    else
      s.(row := q.(status := EngagementRejected, quotes := QuotesRejected(q),
                   rejectedAt := if q.rejectedAt.None? then Some(now) else q.rejectedAt))
  }

  function Step(s: State, c: Command): State {
    match c
    case Webhook(mail) => HandleWebhook(s, mail)
    case Approve(click) => HandleApprove(s, click)
    case Reject(now) => HandleReject(s, now)
  }

  function Run(s: State, run: seq<Command>): State
    decreases |run|
  {
    if run == [] then s else Step(Run(s, run[..|run| - 1]), run[|run| - 1])
  }

  function NewThread(threaded: bool, stage: string, quotes: map<nat, QuoteRow>): State {
    State(Row(threaded, Open(stage), 0, None, None, None, None, None, quotes), Ledger([], [], 0))
  }
}
