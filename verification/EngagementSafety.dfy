/** What the gate guarantees over whole runs, and where it is weaker than its own description. */
module EngagementSafety {
  import opened Wrappers
  import opened EngagementModel

  function CachedPosts(posts: seq<Post>): seq<Post> {
    if posts == [] then []
    else
      var n := |posts| - 1;
      CachedPosts(posts[..n]) + if posts[n].Cached? then [posts[n]] else []
  }

  lemma CachedPostsSnoc(posts: seq<Post>, post: Post)
    ensures CachedPosts(posts + [post]) == CachedPosts(posts) + if post.Cached? then [post] else []
  {
    assert (posts + [post])[..|posts|] == posts;
  }

  // ----------------------------------------------------------- the invariants

  /** A reply with both its texts. */
  ghost predicate Written(parked: Option<Parked>) {
    parked.Some? && |parked.value.reply| > 0 && |parked.value.html| > 0
  }

  /** The reply parked last among the first n. */
  function Newest(parkings: seq<Parked>, n: nat): Option<Parked>
    requires n <= |parkings|
  {
    if n == 0 then None else Some(parkings[n - 1])
  }

  /**
   Every post was allowed: a confident positive verdict; or an approval of a pending or approved
   thread, which ships the reply parked most recently at that moment, or writes a new one when
   there was none to ship.
   */
  ghost predicate Justified(post: Post, parkings: seq<Parked>) {
    match post
    case Direct(verdict, confidence, threshold) => verdict && confidence >= threshold && confidence >= LOW_FLOOR
    case Cached(gate, reply, n) =>
      Approvable(gate) && n <= |parkings| && Newest(parkings, n) == Some(reply) && Written(Some(reply))
    case Replayed(gate, n) =>
      Approvable(gate) && n <= |parkings| && !Written(Newest(parkings, n))
  }

  ghost predicate AllJustified(log: Ledger) {
    forall i | 0 <= i < |log.posts| :: Justified(log.posts[i], log.parkings)
  }

  /** The blob's fields and the ledger tell the same story. */
  ghost predicate InStep(s: State) {
    && |CachedPosts(s.log.posts)| == (if s.row.draftedAt.Some? then 1 else 0)
    && s.row.parked == Newest(s.log.parkings, |s.log.parkings|)
    && s.log.engagementMails == (if s.row.notifiedAt.Some? then 1 else 0)
  }

  ghost predicate Inv(s: State) {
    AllJustified(s.log) && InStep(s)
  }

  lemma PostIsJustified(log: Ledger, post: Post)
    requires AllJustified(log) && Justified(post, log.parkings)
    ensures AllJustified(log.(posts := log.posts + [post]))
  {
  }

  lemma ParkingKeepsJustified(log: Ledger, reply: Parked)
    requires AllJustified(log)
    ensures AllJustified(log.(parkings := log.parkings + [reply]))
  {
    forall i | 0 <= i < |log.posts|
      ensures Justified(log.posts[i], log.parkings + [reply])
    {
      assert Justified(log.posts[i], log.parkings);
    }
  }

  /** The columns the invariant reads, other than the mark of a posted reply. */
  ghost predicate SameBlob(q: Row, q': Row) {
    q.parked == q'.parked && q.notifiedAt == q'.notifiedAt
  }

  lemma ColumnsKeepInv(s: State, q: Row)
    requires Inv(s) && SameBlob(s.row, q) && q.draftedAt == s.row.draftedAt
    ensures Inv(s.(row := q))
  {
  }

  lemma PostKeepsInv(s: State, q: Row, post: Post)
    requires Inv(s) && SameBlob(s.row, q) && Justified(post, s.log.parkings)
    requires if post.Cached? then s.row.draftedAt.None? && q.draftedAt.Some? else q.draftedAt == s.row.draftedAt
    ensures Inv(State(q, s.log.(posts := s.log.posts + [post])))
  {
    PostIsJustified(s.log, post);
    CachedPostsSnoc(s.log.posts, post);
  }

  lemma ParkingKeepsInv(s: State, q: Row, reply: Parked)
    requires Inv(s) && q.parked == Some(reply) && q.notifiedAt == s.row.notifiedAt && q.draftedAt == s.row.draftedAt
    ensures Inv(State(q, s.log.(parkings := s.log.parkings + [reply])))
  {
    ParkingKeepsJustified(s.log, reply);
  }

  lemma MailKeepsInv(s: State, now: int, sent: bool)
    requires Inv(s)
    ensures Inv(MailedOperator(s, now, sent))
  {
  }

  lemma WebhookKeepsInv(s: State, mail: Inbound)
    requires Inv(s)
    ensures Inv(HandleWebhook(s, mail))
  {
    if !Dropped(s.row, mail) {
      var q := AfterChat(s.row, mail.chat);
      if mail.chat.reply.Some? && NeedsApproval(s.row, mail) {
        var reply := mail.chat.reply.value;
        var parked := q.(status := PendingEngagement, parked := Some(reply));
        ParkingKeepsInv(s, parked, reply);
        MailKeepsInv(State(parked, s.log.(parkings := s.log.parkings + [reply])), mail.now, mail.notified);
      } else if mail.chat.reply.Some? && mail.posted {
        PostKeepsInv(s, q, Direct(mail.verdict, mail.confidence, mail.threshold));
      } else {
        ColumnsKeepInv(s, q);
      }
    }
  }

  lemma CachedReplyKeepsInv(s: State, click: Approval)
    requires Inv(s) && Approvable(s.row.status) && s.row.draftedAt.None? && s.row.threaded && HasCachedReply(s.row)
    ensures Inv(ReplayOnApproval(s, click))
  {
    var q := s.row.(status := EngagementApproved);
    if click.missiveReady && click.posted {
      PostKeepsInv(s, q.(draftedAt := Some(click.now)), Cached(s.row.status, s.row.parked.value, |s.log.parkings|));
    } else {
      ColumnsKeepInv(s, q);
    }
  }

  lemma FallbackKeepsInv(s: State, click: Approval)
    requires Inv(s) && Approvable(s.row.status) && s.row.threaded && !HasCachedReply(s.row) && click.hasBody
    ensures Inv(ReplayOnApproval(s, click))
  {
    var after := AfterChat(s.row.(status := EngagementApproved), click.chat);
    if click.chat.reply.Some? && click.missiveReady && click.posted {
      PostKeepsInv(s, after, Replayed(s.row.status, |s.log.parkings|));
    } else {
      ColumnsKeepInv(s, after);
    }
  }

  lemma ReplayKeepsInv(s: State, click: Approval)
    requires Inv(s) && Approvable(s.row.status) && s.row.draftedAt.None?
    ensures Inv(ReplayOnApproval(s, click))
  {
    if !s.row.threaded {
      ColumnsKeepInv(s, s.row.(status := EngagementApproved));
    } else if HasCachedReply(s.row) {
      CachedReplyKeepsInv(s, click);
    } else if click.hasBody {
      FallbackKeepsInv(s, click);
    }
  }

  lemma ApproveKeepsInv(s: State, click: Approval)
    requires Inv(s)
    ensures Inv(HandleApprove(s, click))
  {
    if Approvable(s.row.status) && s.row.draftedAt.None? {
      var q := s.row.(approvedAt := if s.row.approvedAt.None? then Some(click.now) else s.row.approvedAt);
      ColumnsKeepInv(s, q);
      ReplayKeepsInv(s.(row := q), click);
    }
  }

  lemma StepKeepsInv(s: State, c: Command)
    requires Inv(s)
    ensures Inv(Step(s, c))
  {
    match c
    case Webhook(mail) => WebhookKeepsInv(s, mail);
    case Approve(click) => ApproveKeepsInv(s, click);
    case Reject(now) => ColumnsKeepInv(s, HandleReject(s, now).row);
  }

  lemma NewThreadSatisfiesInv(threaded: bool, stage: string, quotes: map<nat, QuoteRow>)
    ensures Inv(NewThread(threaded, stage, quotes))
  {
  }

  /**
   After any run of a new thread: every post is justified, the cached reply was posted at most
   once, and the operator got at most one engagement mail.
   */
  lemma {:induction false} GateHoldsOverRuns(threaded: bool, stage: string, quotes: map<nat, QuoteRow>, run: seq<Command>)
    ensures var s := Run(NewThread(threaded, stage, quotes), run);
            Inv(s) && |CachedPosts(s.log.posts)| <= 1 && s.log.engagementMails <= 1
    decreases |run|
  {
    if run == [] {
      NewThreadSatisfiesInv(threaded, stage, quotes);
    } else {
      GateHoldsOverRuns(threaded, stage, quotes, run[..|run| - 1]);
      StepKeepsInv(Run(NewThread(threaded, stage, quotes), run[..|run| - 1]), run[|run| - 1]);
    }
  }

  /** A webhook posts exactly on a true verdict that clears both the floor and the threshold (and a reply, and the service, at hand). */
  lemma WebhookPostsIff(s: State, mail: Inbound)
    ensures |HandleWebhook(s, mail).log.posts| > |s.log.posts| <==>
              && !mail.junk && s.row.status != EngagementRejected
              && mail.verdict && mail.confidence >= 0.2 && mail.confidence >= mail.threshold
              && mail.chat.reply.Some? && mail.posted
  {
  }

  // ------------------------------------------------------------ rejected is final

  /** Once rejected, nothing is posted, parked or mailed again, and the status stays. */
  lemma {:induction false} RejectedStaysSilent(s: State, run: seq<Command>)
    requires s.row.status == EngagementRejected
    ensures Run(s, run).row.status == EngagementRejected && Run(s, run).log == s.log
    ensures Run(s, run).row.parked == s.row.parked
    decreases |run|
  {
    if run != [] {
      RejectedStaysSilent(s, run[..|run| - 1]);
    }
  }

  /** A reject that takes effect leaves no quote of the conversation, nor the proposed one, waiting; other quotes are untouched. */
  lemma RejectClearsQueue(s: State, now: int)
    requires HandleReject(s, now).row.status == EngagementRejected
    ensures s.row.status == PendingEngagement || s.row.status == EngagementRejected
    ensures var before, after := s.row.quotes, HandleReject(s, now).row.quotes;
            && after.Keys == before.Keys
            && (forall id | id in after && after[id].own :: after[id].status != PendingApproval && after[id].status != NeedsRevision)
            && (forall id | id in after && s.row.parked.Some? && s.row.parked.value.quoteId == Some(id) ::
                  after[id].status != PendingApproval && after[id].status != NeedsRevision)
            && (forall id | id in after && after[id] != before[id] ::
                  before[id].status in {PendingApproval, NeedsRevision} && after[id] == before[id].(status := Rejected))
            && (forall id | id in after && !before[id].own &&
                  !(s.row.parked.Some? && s.row.parked.value.quoteId == Some(id)) :: after[id] == before[id])
  {
  }

  lemma RejectingAgainChangesNoQuote(s: State, now: int, later: int)
    requires HandleReject(s, now).row.status == EngagementRejected
    ensures HandleReject(HandleReject(s, now), later).row.quotes == HandleReject(s, now).row.quotes
  {
  }

  /** The queue stays clear: no later run of the gate's own steps changes a quote of a rejected conversation. */
  lemma {:induction false} RejectedQueueStaysClear(s: State, now: int, run: seq<Command>)
    requires HandleReject(s, now).row.status == EngagementRejected
    ensures Run(HandleReject(s, now), run).row.quotes == HandleReject(s, now).row.quotes
    decreases |run|
  {
    if run != [] {
      var rejected, before := HandleReject(s, now), Run(HandleReject(s, now), run[..|run| - 1]);
      RejectedQueueStaysClear(s, now, run[..|run| - 1]);
      RejectedStaysSilent(rejected, run[..|run| - 1]);
      if run[|run| - 1].Reject? {
        RejectingAgainChangesNoQuote(s, now, run[|run| - 1].now);
        assert QuotesRejected(before.row) == QuotesRejected(rejected.row);
      }
    }
  }

  // ------------------------------------------- where the gate is weaker than described

  /** The draft that a step posted, if any. */
  function Posted(s: State, t: State): Option<Post> {
    if |t.log.posts| > |s.log.posts| then Some(t.log.posts[|s.log.posts|]) else None
  }

  /** An approval ships the parked reply exactly on an open gate, the first time, with a usable reply and the service at hand. */
  lemma ApprovePostsIff(s: State, click: Approval)
    ensures var post := Posted(s, HandleApprove(s, click));
            && (post.Some? && post.value.Cached? <==>
                  && Approvable(s.row.status) && s.row.draftedAt.None? && s.row.threaded
                  && Written(s.row.parked) && click.missiveReady && click.posted)
            && (post.Some? && post.value.Cached? ==> s.row.parked == Some(post.value.reply))
            && HandleApprove(s, click).log.posts == s.log.posts + if post.Some? then [post.value] else []
  {
  }

  /** It posts a newly written reply exactly when nothing usable was parked and the assistant answers the old mail. */
  lemma ApproveReplaysIff(s: State, click: Approval)
    ensures var post := Posted(s, HandleApprove(s, click));
            post.Some? && post.value.Replayed? <==>
              && Approvable(s.row.status) && s.row.draftedAt.None? && s.row.threaded && !Written(s.row.parked)
              && click.hasBody && click.chat.reply.Some? && click.missiveReady && click.posted
  {
  }

  /** Over whole runs: an approval sends the reply on show exactly if no parked reply was ever sent before. */
  lemma ShownReplyIsSentIff(threaded: bool, stage: string, quotes: map<nat, QuoteRow>, run: seq<Command>, click: Approval)
    requires var s := Run(NewThread(threaded, stage, quotes), run);
             s.row.threaded && Approvable(s.row.status) && HasCachedReply(s.row)
    requires click.missiveReady && click.posted
    ensures var s := Run(NewThread(threaded, stage, quotes), run);
            Posted(s, HandleApprove(s, click)) == Some(Cached(s.row.status, s.row.parked.value, |s.log.parkings|))
            <==> CachedPosts(s.log.posts) == []
  {
    GateHoldsOverRuns(threaded, stage, quotes, run);
  }

  lemma StepAfterDraft(s: State, c: Command)
    requires s.row.draftedAt.Some?
    ensures Step(s, c).row.draftedAt == s.row.draftedAt
    ensures CachedPosts(Step(s, c).log.posts) == CachedPosts(s.log.posts)
  {
    if c.Webhook? && |Step(s, c).log.posts| > |s.log.posts| {
      CachedPostsSnoc(s.log.posts, Direct(c.mail.verdict, c.mail.confidence, c.mail.threshold));
    }
  }

  /** After the cached reply went out, approving again does nothing - whatever has been parked since. */
  lemma {:induction false} NothingIsApprovedTwice(s: State, run: seq<Command>, click: Approval)
    requires s.row.draftedAt.Some?
    ensures Run(s, run).row.draftedAt == s.row.draftedAt
    ensures CachedPosts(Run(s, run).log.posts) == CachedPosts(s.log.posts)
    ensures HandleApprove(Run(s, run), click) == Run(s, run)
    decreases |run|
  {
    if run != [] {
      NothingIsApprovedTwice(s, run[..|run| - 1], click);
      StepAfterDraft(Run(s, run[..|run| - 1]), run[|run| - 1]);
    }
  }

  /** The mail is one that gets a reply parked for approval. */
  ghost predicate Parks(mail: Inbound) {
    && !mail.junk && LOW_FLOOR <= mail.confidence < mail.threshold && Written(mail.chat.reply)
  }

  lemma ParkedForApproval(s: State, mail: Inbound)
    requires s.row.status != EngagementRejected && Parks(mail)
    ensures var t := HandleWebhook(s, mail);
            && t.row.status == PendingEngagement && t.row.parked == mail.chat.reply && t.row.threaded == s.row.threaded
            && t.row.draftedAt == s.row.draftedAt
            && t.log.posts == s.log.posts && t.log.parkings == s.log.parkings + [mail.chat.reply.value]
  {
  }

  lemma SentOnApproval(s: State, click: Approval)
    requires s.row.status == PendingEngagement && s.row.threaded && s.row.draftedAt.None? && HasCachedReply(s.row)
    requires click.missiveReady && click.posted
    ensures var t := HandleApprove(s, click);
            && t.row.status == EngagementApproved && t.row.draftedAt.Some? && t.row.threaded
            && t.log.posts == s.log.posts + [Cached(PendingEngagement, s.row.parked.value, |s.log.parkings|)]
  {
  }

  lemma RunSnoc(s: State, run: seq<Command>, c: Command)
    ensures Run(s, run + [c]) == Step(Run(s, run), c)
  {
    assert (run + [c])[..|run|] == run;
  }

  lemma RunOfThree(s: State, a: Command, b: Command, c: Command)
    ensures Run(s, [a, b, c]) == Step(Step(Step(s, a), b), c)
  {
    RunSnoc(s, [], a);
    RunSnoc(s, [a], b);
    RunSnoc(s, [a, b], c);
    assert [] + [a] == [a] && [a] + [b] == [a, b] && [a, b] + [c] == [a, b, c];
  }

  /** Park, approve, park again: the second reply is on show and pending, the first one posted. */
  lemma ParkApprovePark(start: State, first: Inbound, click: Approval, second: Inbound) returns (s: State)
    requires start.row.threaded && start.row.status.Open? && start.row.draftedAt.None? && start.log == Ledger([], [], 0)
    requires Parks(first) && Parks(second) && click.missiveReady && click.posted
    ensures s == Run(start, [Webhook(first), Approve(click), Webhook(second)])
    ensures s.log.posts == [Cached(PendingEngagement, first.chat.reply.value, 1)] && s.row.draftedAt.Some?
    ensures s.row.status == PendingEngagement && s.row.parked == second.chat.reply
  {
    var parked := Step(start, Webhook(first));
    ParkedForApproval(start, first);
    var sent := Step(parked, Approve(click));
    SentOnApproval(parked, click);
    s := Step(sent, Webhook(second));
    ParkedForApproval(sent, second);
    RunOfThree(start, Webhook(first), Approve(click), Webhook(second));
  }

  /** And no approval in any continuation sends the second reply. */
  lemma SecondReplyIsStranded(stage: string, quotes: map<nat, QuoteRow>, first: Inbound, click: Approval, second: Inbound,
                              later: seq<Command>, again: Approval) returns (s: State)
    requires Parks(first) && Parks(second) && click.missiveReady && click.posted
    ensures s == Run(NewThread(true, stage, quotes), [Webhook(first), Approve(click), Webhook(second)])
    ensures s.log.posts == [Cached(PendingEngagement, first.chat.reply.value, 1)]
    ensures s.row.status == PendingEngagement && s.row.parked == second.chat.reply
    ensures CachedPosts(Run(s, later).log.posts) == s.log.posts
    ensures HandleApprove(Run(s, later), again) == Run(s, later)
  {
    s := ParkApprovePark(NewThread(true, stage, quotes), first, click, second);
    CachedPostsSnoc([], s.log.posts[0]);
    assert [] + [s.log.posts[0]] == s.log.posts;
    NothingIsApprovedTwice(s, later, again);
  }

  /** After a fallback post a further approval posts again exactly while the assistant has not moved the status away. */
  lemma FallbackPostsAgainIff(s: State, click: Approval, again: Approval)
    requires Posted(s, HandleApprove(s, click)) == Some(Replayed(s.row.status, |s.log.parkings|))
    requires again.hasBody && again.chat.reply.Some? && again.missiveReady && again.posted
    ensures var t := HandleApprove(s, click);
            Posted(t, HandleApprove(t, again)) == Some(Replayed(EngagementApproved, |s.log.parkings|))
            <==> click.chat.newStatus.None?
  {
    ApproveReplaysIff(s, click);
    ApproveReplaysIff(HandleApprove(s, click), again);
  }

  /** The fallback path keeps no memory of having posted: two approvals, two mails. */
  lemma FallbackCanPostTwice(s: State, click: Approval)
    requires s.row.status == PendingEngagement && s.row.threaded && s.row.draftedAt.None? && !HasCachedReply(s.row)
    requires click.missiveReady && click.posted && click.hasBody && click.chat.reply.Some? && click.chat.newStatus.None?
    ensures HandleApprove(HandleApprove(s, click), click).log.posts ==
            s.log.posts + [Replayed(PendingEngagement, |s.log.parkings|), Replayed(EngagementApproved, |s.log.parkings|)]
  {
  }

  /** Confident non-quotes: dropped on a fresh thread, put before the operator on an engaged one. */
  lemma ConfidentNonQuote(s: State, mail: Inbound)
    requires !mail.junk && !mail.verdict && mail.confidence >= mail.threshold && mail.confidence >= LOW_FLOOR
    requires s.row.status != EngagementRejected && mail.chat.reply.Some?
    ensures s.row.assistantTurns == 0 ==> HandleWebhook(s, mail) == s
    ensures s.row.assistantTurns > 0 ==>
              var t := HandleWebhook(s, mail);
              t.row.status == PendingEngagement && t.row.parked == mail.chat.reply && t.log.posts == s.log.posts
  {
  }
}
