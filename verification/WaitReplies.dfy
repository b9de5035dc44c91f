/** What WAIT replies, over runs: the number of replicas whose last ACK has reached the bytes of
    the writes that had been sent when the WAIT began. */
module WaitReplies {
  import opened Seqs
  import opened Resp
  import opened Replication
  import opened WaitGuarantees
  import opened Tables

  /** The step answers a WAIT: one that begins, at once, or the one in progress. */
  ghost predicate Answers(s: System, e: Event) {
    match e
    case WaitFor(wanted) => |Reached(s.acked, Size(Writes(s.sent)))| >= wanted
    case PollWait(timedOut) => s.waiting && (|Reached(s.acked, s.captured)| >= s.wanted || timedOut)
    case _ => false
  }

  /** The step begins a WAIT that is not answered at once. */
  ghost predicate StartsWaiting(s: System, e: Event) { e.WaitFor? && !Answers(s, e) }

  lemma {:induction false} OthersReplyNothing(s: System, e: Event, s': System)
    requires Shaped(s) && Step(s, e) == Some(s') && !e.WaitFor? && !e.PollWait?
    ensures s'.replies == s.replies && s'.waiting == s.waiting && s'.wanted == s.wanted
    ensures s'.captured == s.captured && s'.capturedAt == s.capturedAt
  {
  }

  lemma {:induction false} BeginReplies(s: System, wanted: int, s': System)
    requires Shaped(s) && s.offset == Size(Writes(s.sent)) && Step(s, WaitFor(wanted)) == Some(s')
    ensures s'.captured == Size(Writes(s.sent)) && s'.capturedAt == |s.sent| && s'.wanted == wanted
    ensures s'.acked == s.acked
    ensures var reached := |Reached(s.acked, Size(Writes(s.sent)))|;
            && s'.replies == (if reached >= wanted then s.replies + [reached] else s.replies)
            && s'.waiting == (s.waiting || reached < wanted)
  {
    CountIsSize(s.acked, s.offset);
  }

  lemma {:induction false} PollReplies(s: System, timedOut: bool, s': System)
    requires Shaped(s) && Step(s, PollWait(timedOut)) == Some(s')
    ensures s'.captured == s.captured && s'.capturedAt == s.capturedAt && s'.wanted == s.wanted && s'.acked == s.acked
    ensures var reached := |Reached(s.acked, s.captured)|;
            var ends := s.waiting && (reached >= s.wanted || timedOut);
            s'.replies == (if ends then s.replies + [reached] else s.replies) && s'.waiting == (s.waiting && !ends)
  {
    CountIsSize(s.acked, s.captured);
  }

  lemma {:induction false} MasterStep(s: System, e: Event)
    requires MasterAt(s) && Proper(e) && Step(s, e).Some?
    ensures MasterAt(Step(s, e).value)
  {
    if e.Client? {
      ClientKeepsMaster(s, e.event, e.bytes);
    } else if e.WaitFor? {
      WaitKeepsMaster(s, e.wanted);
    } else if e.Deliver? {
      DeliverKeepsMaster(s, e);
    } else if e.Report? {
      ReportKeepsMaster(s, e);
    }
  }

  lemma {:induction false} MasterRunStep(states: seq<System>, events: seq<Event>, i: nat)
    requires IsRun(states, events) && i < |events| && MasterAt(states[i])
    ensures MasterAt(states[i + 1])
  {
    AtStep(states, events, i);
    MasterStep(states[i], events[i]);
  }

  lemma {:induction false} StartOfRun(states: seq<System>, events: seq<Event>)
    requires IsRun(states, events)
    ensures MasterAt(states[0])
  {
  }

  /** With or without replicas, the master's offsets count the bytes of its writes. */
  lemma {:induction false} MasterAlways(states: seq<System>, events: seq<Event>, i: nat)
    requires IsRun(states, events) && i <= |events|
    ensures MasterAt(states[i])
  {
    var holds := (s: System) => MasterAt(s);
    StartOfRun(states, events);
    forall k | 0 <= k < i && holds(states[k]) ensures holds(states[k + 1]) {
      MasterRunStep(states, events, k);
    }
    Carries(states, holds, 0, i);
  }

  /** Each step of a run: WAIT is answered, at once or later, exactly when the replicas that have
      reached its offset are enough or its time is up, and the answer is their number; the offset
      is that of the writes sent when the last WAIT began. */
  lemma {:induction false} StepReplies(states: seq<System>, events: seq<Event>, i: nat)
    requires IsRun(states, events) && i < |events|
    ensures var s, e, s' := states[i], events[i], states[i + 1];
            && s'.captured == (if e.WaitFor? then Size(Writes(s.sent)) else s.captured)
            && s'.capturedAt == (if e.WaitFor? then |s.sent| else s.capturedAt)
            && s'.wanted == (if e.WaitFor? then e.wanted else s.wanted)
            && s'.replies == s.replies + (if Answers(s, e) then [|Reached(s.acked, s'.captured)|] else [])
            && s'.waiting == ((s.waiting && !(e.PollWait? && Answers(s, e))) || StartsWaiting(s, e))
  {
    var s, e, s' := states[i], events[i], states[i + 1];
    AtStep(states, events, i);
    MasterAlways(states, events, i);
    if e.WaitFor? {
      BeginReplies(s, e.wanted, s');
    } else if e.PollWait? {
      PollReplies(s, e.timedOut, s');
    } else {
      OthersReplyNothing(s, e, s');
    }
  }

  lemma {:induction false} SentOnlyGrows(s: System, e: Event)
    requires Shaped(s) && Step(s, e).Some?
    ensures s.sent <= Step(s, e).value.sent
  {
  }

  /** What the state keeps of a WAIT that met the stream `sent`, until the next one begins. */
  ghost predicate Remembers(s: System, sent: seq<Request>, wanted: int) {
    && s.captured == Size(Writes(sent)) && s.capturedAt == |sent| && s.wanted == wanted
    && sent <= s.sent
  }

  lemma {:induction false} RememberedStep(states: seq<System>, events: seq<Event>, i: nat, sent: seq<Request>,
      wanted: int)
    requires IsRun(states, events) && i < |events|
    requires if events[i].WaitFor? then states[i].sent == sent && events[i].wanted == wanted
             else Remembers(states[i], sent, wanted)
    ensures Remembers(states[i + 1], sent, wanted)
  {
    StepReplies(states, events, i);
    AtStep(states, events, i);
    SentOnlyGrows(states[i], events[i]);
  }

  /** The WAIT that began at step b is the last one begun before state p. */
  ghost predicate LastBegun(events: seq<Event>, b: nat, p: nat) {
    b < p <= |events| && events[b].WaitFor? && forall k | b < k < p :: !events[k].WaitFor?
  }

  lemma {:induction false} SinceWait(states: seq<System>, events: seq<Event>, b: nat, p: nat)
    requires IsRun(states, events) && LastBegun(events, b, p)
    ensures Remembers(states[p], states[b].sent, events[b].wanted)
  {
    var sent, wanted := states[b].sent, events[b].wanted;
    var holds := (s: System) => Remembers(s, sent, wanted);
    RememberedStep(states, events, b, sent, wanted);
    forall k | b + 1 <= k < p && holds(states[k]) ensures holds(states[k + 1]) {
      RememberedStep(states, events, k, sent, wanted);
    }
    Carries(states, holds, b + 1, p);
  }

  lemma {:induction false} AnswersKeepAcks(s: System, e: Event)
    requires Shaped(s) && Step(s, e).Some? && Answers(s, e)
    ensures Step(s, e).value.acked == s.acked
  {
  }

  /** The answer to the WAIT that began at step b, given at step p: the number of replicas whose last
      ACK has reached the bytes of all the writes sent before it; and while at most one WAIT has
      sent GETACKs, that many replicas hold all of these writes. */
  lemma {:induction false} AnswerIsSound(states: seq<System>, events: seq<Event>, b: nat, p: nat)
    requires IsRun(states, events) && LastBegun(events, b, p + 1) && states[p + 1].replies != states[p].replies
    ensures var writes, s := Writes(states[b].sent), states[p + 1];
            var reached := Reached(s.acked, Size(writes));
            && s.replies == states[p].replies + [|reached|]
            && (GetAcks(s.sent) <= 1 ==> reached <= Holders(s, writes) && |reached| <= |Holders(s, writes)|)
  {
    StepReplies(states, events, p);
    SinceWait(states, events, b, p + 1);
    AtStep(states, events, p);
    if Answers(states[p], events[p]) {
      AnswersKeepAcks(states[p], events[p]);
    }
    assert states[p + 1].sent[..|states[b].sent|] == states[b].sent;
    if GetAcks(states[p + 1].sent) <= 1 {
      FirstWaitIsSound(states, events, p + 1);
    }
  }
}
