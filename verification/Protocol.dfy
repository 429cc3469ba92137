/**
 The numbered command and acknowledgement protocol: what every life keeps of it,
 whatever the worker sends, and when a Stop is the last message.
 */
module Protocol {
  import opened Safety
  import opened Control
  import opened Tracking

  // ---- What was posted and what was answered, from the moments -----------------

  /** The command a moment puts on the control pipe, if it does. */
  function PostedBy(w: Tracked, m: Moment): seq<Command> {
    match m
    case Schedule(_, what, write) =>
      if !w.reaped && write == Written && |w.mail.unanswered| < MAX_UNANSWERED then [what] else []
    case AskStop(_, write) =>
      if !w.reaped && write == Written && w.rung.step == Unasked then [Stop] else []
    case _ => []
  }

  /** The answer a moment takes in, if it takes one. */
  function AnsweredBy(w: Tracked, m: Moment): seq<Ack> {
    match m
    case Receive(_, AckRecord(ack)) => if w.channel == Open && Expected(w.mail, ack) then [ack] else []
    case _ => []
  }

  ghost function Posts(life: Life, n: nat): seq<Command>
    requires n <= |life.moments| < |life.states|
  {
    if n == 0 then [] else Posts(life, n - 1) + PostedBy(life.states[n - 1], life.moments[n - 1])
  }

  ghost function Answers(life: Life, n: nat): seq<Ack>
    requires n <= |life.moments| < |life.states|
  {
    if n == 0 then [] else Answers(life, n - 1) + AnsweredBy(life.states[n - 1], life.moments[n - 1])
  }

  /** The sequence number of the i-th message, counting from 0. */
  function SequenceOf(i: nat): nat {
    (1 + i) % SEQUENCES
  }

  /** How many of the answers say the command was carried out. */
  function CountDone(answers: seq<Ack>): nat {
    if answers == [] then 0
    else CountDone(answers[..|answers| - 1]) + (if answers[|answers| - 1].status == Done then 1 else 0)
  }

  /** Whether a worker that carried out exactly the commands answered Done is paused. */
  function PausedAfter(posts: seq<Command>, answers: seq<Ack>): bool
    requires |answers| <= |posts|
    decreases |answers|
  {
    if answers == [] then false
    else
      var k := |answers| - 1;
      if answers[k].status == Done && posts[k] == Pause then true
      else if answers[k].status == Done && posts[k] == Resume then false
      else PausedAfter(posts, answers[..k])
  }

  /** The idle time of the last duty such a worker took. */
  function IdleAfter(posts: seq<Command>, answers: seq<Ack>): int
    requires |answers| <= |posts|
    decreases |answers|
  {
    if answers == [] then 0
    else
      var k := |answers| - 1;
      if answers[k].status == Done && posts[k].SetDuty? then IdleNs(posts[k].busyPermille, posts[k].periodNs)
      else IdleAfter(posts, answers[..k])
  }

  // ---- What every life keeps -----------------------------------------------------

  /** The mail of a worker agrees with what was posted and answered. */
  ghost predicate Agrees(mail: Mail, posts: seq<Command>, answers: seq<Ack>) {
    && mail.sent == |posts|
    && |answers| <= |posts|
    && mail.done == CountDone(answers)
    && mail.done + mail.refused == |answers|
    && |mail.unanswered| == |posts| - |answers|
    && mail.nextSequence == SequenceOf(|posts|)
    && (forall i :: 0 <= i < |mail.unanswered| ==>
          && mail.unanswered[i].sequence == SequenceOf(|answers| + i)
          && mail.unanswered[i].command == posts[|answers| + i])
    && (forall i :: 0 <= i < |answers| ==> answers[i].sequence == SequenceOf(i))
    && mail.paused == PausedAfter(posts, answers)
    && mail.idleAllowanceNs == IdleAfter(posts, answers)
  }

  lemma {:induction false} ReplayIgnoresLaterPosts(posts: seq<Command>, more: seq<Command>, answers: seq<Ack>)
    requires |answers| <= |posts|
    ensures PausedAfter(posts + more, answers) == PausedAfter(posts, answers)
    ensures IdleAfter(posts + more, answers) == IdleAfter(posts, answers)
    decreases |answers|
  {
    if answers != [] {
      ReplayIgnoresLaterPosts(posts, more, answers[..|answers| - 1]);
    }
  }

  lemma PostingAgrees(mail: Mail, posts: seq<Command>, answers: seq<Ack>, what: Command, nowNs: int)
    requires Agrees(mail, posts, answers)
    ensures Agrees(Posted(mail, what, nowNs), posts + [what], answers)
  {
    hide PausedAfter, IdleAfter, CountDone;
    ReplayIgnoresLaterPosts(posts, [what], answers);
  }

  lemma AnswerAgrees(mail: Mail, posts: seq<Command>, answers: seq<Ack>, ack: Ack)
    requires Agrees(mail, posts, answers) && Expected(mail, ack)
    ensures Agrees(Acknowledged(mail, ack), posts, answers + [ack])
  {
    assert (answers + [ack])[..|answers|] == answers;
    assert mail.unanswered[0].command == posts[|answers|];
  }

  lemma MomentAgrees(w: Tracked, m: Moment, posts: seq<Command>, answers: seq<Ack>, options: Options)
    requires Agrees(w.mail, posts, answers)
    ensures Agrees(After(w, m, options).mail, posts + PostedBy(w, m), answers + AnsweredBy(w, m))
  {
    assert posts + [] == posts && answers + [] == answers;
    match m {
      case Schedule(at, what, write) =>
        if PostedBy(w, m) != [] { PostingAgrees(w.mail, posts, answers, what, at); }
      case AskStop(at, write) =>
        if PostedBy(w, m) != [] { PostingAgrees(w.mail, posts, answers, Stop, at); }
      case Receive(_, AckRecord(ack)) =>
        if AnsweredBy(w, m) != [] { AnswerAgrees(w.mail, posts, answers, ack); }
      case _ =>
    }
  }

  /**
   In every life, whatever the worker sends: each message is answered at most
   once and in order, the counts add up, and whether the worker is held paused
   and how long it may idle are the replay of exactly the commands it answered Done.
   */
  lemma {:induction false} MailIsTheReplay(life: Life, n: nat, options: Options)
    requires life.Valid(options) && n <= |life.moments|
    ensures Agrees(life.states[n].mail, Posts(life, n), Answers(life, n))
    ensures var mail := life.states[n].mail; mail.sent == mail.done + mail.refused + |mail.unanswered|
  {
    if n > 0 {
      MailIsTheReplay(life, n - 1, options);
      assert life.Follows(n - 1, options);
      MomentAgrees(life.states[n - 1], life.moments[n - 1], Posts(life, n - 1), Answers(life, n - 1), options);
    }
  }

  /** At most 64 messages are unanswered before the stop is asked, and never more than 65. */
  lemma {:induction false} UnansweredIsBounded(life: Life, n: nat, options: Options)
    requires life.Valid(options) && n <= |life.moments|
    ensures |life.states[n].mail.unanswered| <= MAX_UNANSWERED + 1
    ensures |life.states[n].mail.unanswered| > MAX_UNANSWERED ==>
              exists s :: 0 <= s < n && life.moments[s].AskStop?
  {
    if n > 0 {
      assert life.Follows(n - 1, options);
      UnansweredIsBounded(life, n - 1, options);
      if exists s :: 0 <= s < n - 1 && life.moments[s].AskStop? {
        var s :| 0 <= s < n - 1 && life.moments[s].AskStop?;
        assert MayFollow(life.moments[s], life.moments[n - 1]);
      }
    }
  }

  /** The scheduled commands among the first n moments that found too many messages unanswered. */
  ghost function Overflows(life: Life, n: nat): nat
    requires n <= |life.moments| < |life.states|
  {
    if n == 0 then 0
    else
      Overflows(life, n - 1)
      + if life.moments[n - 1].Schedule? && |life.states[n - 1].mail.unanswered| >= MAX_UNANSWERED then 1 else 0
  }

  /** Every command dropped is counted: one for each that found the most messages unanswered, and no other. */
  lemma {:induction false} DropsAreCounted(life: Life, n: nat, options: Options)
    requires life.Valid(options) && n <= |life.moments|
    ensures life.states[n].mail.dropped == Overflows(life, n)
  {
    if n > 0 {
      assert life.Follows(n - 1, options);
      DropsAreCounted(life, n - 1, options);
    }
  }

  // ---- Nothing follows a Stop ------------------------------------------------------

  /** The commands the schedule hands this worker, in order. */
  function ScheduledIn(moments: seq<Moment>): seq<Command> {
    if moments == [] then []
    else
      var last := moments[|moments| - 1];
      ScheduledIn(moments[..|moments| - 1]) + (if last.Schedule? then [last.command] else [])
  }

  predicate StopIsLast(posts: seq<Command>) {
    forall i :: 0 <= i < |posts| && posts[i] == Stop ==> i == |posts| - 1
  }

  /** Without a Stop in the schedule, the only Stop is request_stop's and nothing is sent after it. */
  lemma {:induction false} NothingFollowsStop(life: Life, n: nat, options: Options)
    requires life.Valid(options) && n <= |life.moments|
    requires Stop !in ScheduledIn(life.moments[..n])
    ensures StopIsLast(Posts(life, n))
    ensures Stop in Posts(life, n) ==> exists s :: 0 <= s < n && life.moments[s].AskStop?
  {
    if n > 0 {
      assert life.moments[..n][..n - 1] == life.moments[..n - 1];
      assert life.Follows(n - 1, options);
      NothingFollowsStop(life, n - 1, options);
      if Stop in Posts(life, n - 1) {
        var s :| 0 <= s < n - 1 && life.moments[s].AskStop?;
        assert MayFollow(life.moments[s], life.moments[n - 1]);
      }
    }
  }

  lemma {:induction false} PostsArePrefix(life: Life, m: Moment, n: nat, options: Options)
    requires n <= |life.moments| && |life.states| == |life.moments| + 1
    ensures Posts(life.Then(m, options), n) == Posts(life, n)
  {
    if n > 0 {
      PostsArePrefix(life, m, n - 1, options);
    }
  }

  lemma PostsAppend(life: Life, m: Moment, options: Options)
    requires |life.states| == |life.moments| + 1
    ensures Posts(life.Then(m, options), |life.moments| + 1) == Posts(life, |life.moments|) + PostedBy(life.Now(), m)
    ensures ScheduledIn(life.Then(m, options).moments) ==
            ScheduledIn(life.moments) + if m.Schedule? then [m.command] else []
  {
    PostsArePrefix(life, m, |life.moments|, options);
    assert life.Then(m, options).moments[..|life.moments|] == life.moments;
  }

  /** A worker with nothing unanswered, running and unasked. */
  predicate AtRest(w: Tracked) {
    w.mail.unanswered == [] && w.channel == Open && !w.reaped && w.rung.step == Unasked
  }

  /** A moment of a life in which nothing happens but messages, all at one instant. */
  predicate Quiet(m: Moment) {
    m.atNs == 0 && (m.Schedule? || m.Receive?)
  }

  /** A message taken by the pipe and answered Done leaves the worker at rest. */
  lemma PostThenAnswer(w: Tracked, what: Command, options: Options)
    requires AtRest(w)
    ensures var posted := After(w, Schedule(0, what, Written), options);
            AtRest(After(posted, Receive(0, AckRecord(Ack(w.mail.nextSequence, Done))), options))
  {
  }

  ghost predicate QuietLife(life: Life, options: Options) {
    life.Valid(options) && forall i :: 0 <= i < |life.moments| ==> Quiet(life.moments[i])
  }

  lemma QuietGoesOn(life: Life, m: Moment, options: Options)
    requires QuietLife(life, options) && Quiet(m)
    ensures QuietLife(life.Then(m, options), options)
    ensures life.Then(m, options).Now() == After(life.Now(), m, options)
  {
    LifeGoesOn(life, m, options);
  }

  /** A quiet life goes on by one command and its answer. */
  lemma PlayedOnce(before: Life, what: Command, options: Options) returns (life: Life)
    requires QuietLife(before, options) && AtRest(before.Now())
    ensures QuietLife(life, options) && AtRest(life.Now())
    ensures ScheduledIn(life.moments) == ScheduledIn(before.moments) + [what]
    ensures Posts(life, |life.moments|) == Posts(before, |before.moments|) + [what]
  {
    var post := Schedule(0, what, Written);
    QuietGoesOn(before, post, options);
    PostsAppend(before, post, options);
    var posted := before.Then(post, options);
    var answer := Receive(0, AckRecord(Ack(before.Now().mail.nextSequence, Done)));
    QuietGoesOn(posted, answer, options);
    PostsAppend(posted, answer, options);
    life := posted.Then(answer, options);
    PostThenAnswer(before.Now(), what, options);
  }

  /** The life in which every command of a schedule is so played. */
  lemma {:induction false} PlayedOut(commands: seq<Command>, options: Options) returns (life: Life)
    ensures QuietLife(life, options) && AtRest(life.Now())
    ensures ScheduledIn(life.moments) == commands
    ensures Posts(life, |life.moments|) == commands
  {
    if commands == [] {
      life := Life([], [Launched(0)]);
    } else {
      var n := |commands| - 1;
      var before := PlayedOut(commands[..n], options);
      life := PlayedOnce(before, commands[n], options);
      assert commands == commands[..n] + [commands[n]];
    }
  }

  /** With a Stop in the schedule, a run can send messages after it. */
  lemma ScheduledStopIsFollowed(commands: seq<Command>, options: Options) returns (life: Life)
    requires Stop in commands
    ensures life.Valid(options) && ScheduledIn(life.moments) == commands
    ensures !StopIsLast(Posts(life, |life.moments|))
  {
    var before := PlayedOut(commands, options);
    var ask := AskStop(0, Written);
    LifeGoesOn(before, ask, options);
    PostsAppend(before, ask, options);
    life := before.Then(ask, options);
    assert Posts(life, |life.moments|) == commands + [Stop];
    var i :| 0 <= i < |commands| && commands[i] == Stop;
    assert Posts(life, |life.moments|)[i] == Stop;
  }

  /**
   The condition is exact: a Stop is the last message of every run of a
   schedule if and only if the schedule holds none.
   */
  lemma StopIsLastIffNotScheduled(commands: seq<Command>, options: Options)
    ensures Stop !in commands <==>
            forall life: Life :: life.Valid(options) && ScheduledIn(life.moments) <= commands
                                 ==> StopIsLast(Posts(life, |life.moments|))
  {
    if Stop in commands {
      var life := ScheduledStopIsFollowed(commands, options);
      assert !StopIsLast(Posts(life, |life.moments|));
    } else {
      forall life: Life | life.Valid(options) && ScheduledIn(life.moments) <= commands
        ensures StopIsLast(Posts(life, |life.moments|))
      {
        assert life.moments[..|life.moments|] == life.moments;
        NothingFollowsStop(life, |life.moments|, options);
      }
    }
  }

  // ---- Record channels ------------------------------------------------------------------

  /** How this moment closes an open channel, if it does. */
  predicate Closes(w: Tracked, m: Moment, how: Channel) {
    match how
    case Closed => m.End? && m.how == CleanEnd
    case Truncated => m.End? && m.how == TruncatedFrame
    case Corrupt =>
      || (m.End? && m.how == CorruptFrame)
      || (m.Receive? && m.record.BadRecord?)
      || (&& m.Receive? && m.record.AckRecord?
          && (w.mail.unanswered == [] || w.mail.unanswered[0].sequence != m.record.ack.sequence))
    case Open => false
  }

  /** One of the first n moments found the channel open and closed it so. */
  ghost predicate ClosedBy(life: Life, n: nat, how: Channel)
    requires n <= |life.moments| < |life.states|
  {
    exists k :: 0 <= k < n && life.states[k].channel == Open && Closes(life.states[k], life.moments[k], how)
  }

  /**
   Over every life a channel is closed, truncated or corrupt exactly if the first
   moment that closed it says so; nothing reopens it or changes how it ended.
   */
  lemma {:induction false} ChannelIsHistory(life: Life, n: nat, options: Options)
    requires life.Valid(options) && n <= |life.moments|
    ensures forall how :: how != Open ==> (life.states[n].channel == how <==> ClosedBy(life, n, how))
  {
    if n > 0 {
      ChannelIsHistory(life, n - 1, options);
      assert life.Follows(n - 1, options);
      forall how | how != Open ensures life.states[n].channel == how <==> ClosedBy(life, n, how) {
        var w, m := life.states[n - 1], life.moments[n - 1];
        assert ClosedBy(life, n, how) <==> ClosedBy(life, n - 1, how) || (w.channel == Open && Closes(w, m, how));
      }
    }
  }
}
