/** Properties of the game engine's phases and of its driver loop. */
module GameProperties {
  import opened Wrappers
  import opened GameModel

  /** The answer counters are sane: never negative, and while answers are
      accepted, never more answers than wanted. */
  predicate Counters(s: State)
  {
    0 <= s.gotAnswers && (s.acceptingAnswers ==> s.gotAnswers <= s.wantAnswers)
  }

  /** The bound as it is usually stated, without the standing `0 <= gotAnswers`. */
  predicate AnswerBounds(s: State)
  {
    s.acceptingAnswers ==> 0 <= s.gotAnswers <= s.wantAnswers
  }

  lemma WireValuesDistinct(a: Status, b: Status)
    ensures Wire(a) == Wire(b) <==> a == b
    ensures Wire(Dead) == 3 && Wire(HostWaiting) == 0
  {
  }

  /** The lifetime default is applied once: a chosen lifetime is kept. */
  lemma LifetimeStable(maxGameTime: int)
    ensures Lifetime(Lifetime(maxGameTime)) == Lifetime(maxGameTime)
    ensures Lifetime(0) == 45 * Minute
  {
  }

  /** WaitForHost only sets the status, and leaves the host-waiting phase
      exactly when a host is attached. */
  lemma WaitForHostLeavesOnHost(qs: seq<QuizQuestion>, s: State)
    ensures var t := Eval(qs, s, Phase.WaitForHost);
            && t.sent == []
            && t.state == s.(status := t.state.status)
            && (t.result == Goto(Phase.Sustain) <==> s.host.Some?)
            && (t.result == Goto(Phase.WaitForHost) <==> s.host.None?)
            && (t.state.status == Waiting <==> s.host.Some?)
            && (t.state.status == HostWaiting <==> s.host.None?)
  {
  }

  /** Before the countdown is done Question changes nothing and self-loops,
      and sends one NewQuestion to the host followed by one countdown to each
      player, in player order. */
  lemma QuestionAnnounces(qs: seq<QuizQuestion>, s: State)
    requires !s.countdownDone && 0 <= s.currentQuestion < |qs| && s.host.Some?
    ensures var t := Eval(qs, s, Phase.Question);
            && t.state == s && t.result == Goto(Phase.Question)
            && |t.sent| == 1 + |s.players|
            && t.sent[0] == NewQuestion(s.host.value, qs[s.currentQuestion], s.currentQuestion + 1, |qs|)
            && forall k :: 0 <= k < |s.players| ==> t.sent[1 + k] == QuestionCount(s.players[k], 10)
  {
  }

  /** Once the countdown is done, Question opens the round: it accepts
      answers, wants one per current player and has none yet. */
  lemma QuestionOpensRound(qs: seq<QuizQuestion>, s: State)
    requires s.countdownDone
    ensures var t := Eval(qs, s, Phase.Question);
            && t.result == Goto(Phase.AcceptAnswers) && t.sent == []
            && t.state.acceptingAnswers && t.state.gotAnswers == 0 && t.state.wantAnswers == |s.players|
            && t.state.(acceptingAnswers := s.acceptingAnswers, gotAnswers := s.gotAnswers, wantAnswers := s.wantAnswers) == s
  {
  }

  /** AcceptAnswers closes the round exactly when enough answers are in, and
      never touches the counters. */
  lemma AcceptAnswersClosesWhenAnswered(qs: seq<QuizQuestion>, s: State)
    ensures var t := Eval(qs, s, Phase.AcceptAnswers);
            && t.sent == []
            && t.state == s.(acceptingAnswers := t.state.acceptingAnswers)
            && (t.result == Goto(Phase.Sustain) <==> s.gotAnswers >= s.wantAnswers)
            && (t.result == Goto(Phase.AcceptAnswers) <==> s.gotAnswers < s.wantAnswers)
            && (t.state.acceptingAnswers <==> s.gotAnswers < s.wantAnswers)
  {
  }

  /** Sustain is idle: same state, same phase, nothing sent. */
  lemma SustainIsIdle(qs: seq<QuizQuestion>, s: State)
    ensures Eval(qs, s, Phase.Sustain) == Transition(s, Goto(Phase.Sustain), [])
  {
  }

  /** The ending phases return the nil phase and change nothing. */
  lemma EndingPhasesReturnNil(qs: seq<QuizQuestion>, s: State, sf: Phase)
    requires sf == Phase.GameEnding || sf == Phase.GameTerminate
    ensures Eval(qs, s, sf) == Transition(s, Goto(Phase.Nil), [])
  {
  }

  /** Only Question writes the counters, and only to (0, number of players). */
  lemma OnlyQuestionWritesCounters(qs: seq<QuizQuestion>, s: State, sf: Phase)
    ensures var t := Eval(qs, s, sf);
            (t.state.gotAnswers, t.state.wantAnswers) == (s.gotAnswers, s.wantAnswers)
            || (sf == Phase.Question && s.countdownDone && (t.state.gotAnswers, t.state.wantAnswers) == (0, |s.players|))
  {
  }

  /** No phase breaks the counter invariant. */
  lemma PhasesKeepCounters(qs: seq<QuizQuestion>, s: State, sf: Phase)
    requires Counters(s)
    ensures Counters(Eval(qs, s, sf).state)
    ensures AnswerBounds(Eval(qs, s, sf).state)
  {
  }

  /** The usual statement alone is not kept by AcceptAnswers: from a record
      that is not accepting answers and holds a negative count it starts
      accepting with that count. The standing `0 <= gotAnswers` of Counters
      is needed. */
  lemma AnswerBoundsAloneNotKept()
    ensures var s := ZeroState.(gotAnswers := -1, wantAnswers := 0);
            AnswerBounds(s) && !AnswerBounds(Eval([], s, Phase.AcceptAnswers).state)
  {
  }

  /** The zero record satisfies the counter invariant. */
  lemma ZeroStateCounters()
    ensures Counters(ZeroState) && AnswerBounds(ZeroState)
  {
  }

  /** An action keeps the counter invariant, whatever the phase. */
  ghost predicate ActionKeepsCounters(e: Event)
  {
    e.Act? ==> forall s: State, sf: Phase :: Counters(s) ==> Counters(e.perform(s, sf).0)
  }

  predicate AllCounters(states: seq<State>)
  {
    forall k :: 0 <= k < |states| ==> Counters(states[k])
  }

  /** If the actions keep the counter invariant, every state the driver
      reaches and every snapshot it hands out satisfies it. */
  lemma {:induction false} DriveKeepsCounters(qs: seq<QuizQuestion>, c: Config, events: seq<Event>)
    requires Counters(c.state) && AllCounters(c.replies)
    requires forall k :: 0 <= k < |events| ==> ActionKeepsCounters(events[k])
    ensures Counters(Drive(qs, c, events).last.state)
    ensures AllCounters(Drive(qs, c, events).last.replies)
    decreases |events|
  {
    if c.sf != Phase.Nil && events != [] && !events[0].Deadline? {
      assert ActionKeepsCounters(events[0]);
      var h := Handle(c, events[0]);
      assert Counters(h.state);
      PhasesKeepCounters(qs, h.state, h.sf);
      var t := Eval(qs, h.state, h.sf);
      if !t.result.Panic? {
        forall k | 0 <= k < |events[1..]|
          ensures ActionKeepsCounters(events[1..][k])
        {
          assert events[1..][k] == events[k + 1];
        }
        DriveKeepsCounters(qs, h.(state := t.state, sf := t.result.next, sent := h.sent + t.sent), events[1..]);
      }
    }
  }

  /** The deadline exits at once: nothing is dequeued and nothing changes.
      An exhausted stream means the driver waits for the deadline. */
  lemma DeadlineExitsAtOnce(qs: seq<QuizQuestion>, c: Config, events: seq<Event>)
    requires c.sf != Phase.Nil
    requires events == [] || events[0].Deadline?
    ensures Drive(qs, c, events) == Outcome(DeadlineExceeded, c, 0)
  {
  }

  /** A request served by the driver is answered with the record as it was
      before the phase is called. */
  lemma RequestAnswersCurrentState(qs: seq<QuizQuestion>, c: Config, events: seq<Event>)
    requires c.sf != Phase.Nil && events != [] && events[0].Request?
    ensures var o := Drive(qs, c, events);
            0 < o.consumed && |c.replies| < |o.last.replies| && o.last.replies[|c.replies|] == c.state
  {
    var h := Handle(c, events[0]);
    assert h.replies == c.replies + [c.state];
  }

  /** Whether an event keeps Sustain current: any non-deadline event whose
      action, run in Sustain, leaves Sustain. */
  ghost predicate KeepsSustain(e: Event)
  {
    && !e.Deadline?
    && (e.Act? ==> forall s: State :: e.perform(s, Phase.Sustain).1 == Phase.Sustain)
  }

  /** Once Sustain is current, events that do not rewrite the phase keep it
      current: every event is dequeued, nothing is sent, and the loop ends
      only with the deadline. */
  lemma {:induction false} SustainStable(qs: seq<QuizQuestion>, c: Config, events: seq<Event>)
    requires c.sf == Phase.Sustain
    requires forall k :: 0 <= k < |events| ==> KeepsSustain(events[k])
    ensures var o := Drive(qs, c, events);
            && o.exit == DeadlineExceeded && o.consumed == |events|
            && o.last.sf == Phase.Sustain && o.last.sent == c.sent
    decreases |events|
  {
    if events != [] {
      assert KeepsSustain(events[0]);
      var h := Handle(c, events[0]);
      assert h.sf == Phase.Sustain;
      forall k | 0 <= k < |events[1..]|
        ensures KeepsSustain(events[1..][k])
      {
        assert events[1..][k] == events[k + 1];
      }
      var t := Eval(qs, h.state, h.sf);
      assert t == Transition(h.state, Goto(Phase.Sustain), []);
      var c1 := h.(state := t.state, sf := t.result.next, sent := h.sent + t.sent);
      assert c1.sent == h.sent + [] == c.sent;
      SustainStable(qs, c1, events[1..]);
    }
  }

  /** n copies of the same record. */
  function Copies(s: State, n: nat): (r: seq<State>)
    ensures |r| == n && forall k :: 0 <= k < n ==> r[k] == s
  {
    if n == 0 then [] else Copies(s, n - 1) + [s]
  }

  /** Reads alone, while Sustain is current, never change the record: each
      is answered with the same snapshot. */
  lemma {:induction false} SustainReadsOnly(qs: seq<QuizQuestion>, c: Config, events: seq<Event>)
    requires c.sf == Phase.Sustain
    requires forall k :: 0 <= k < |events| ==> events[k].Request?
    ensures var o := Drive(qs, c, events);
            && o.exit == DeadlineExceeded && o.consumed == |events|
            && o.last.state == c.state && o.last.sf == Phase.Sustain
            && o.last.replies == c.replies + Copies(c.state, |events|)
    decreases |events|
  {
    if events != [] {
      var h := Handle(c, events[0]);
      assert events[0].Request?;
      assert h == c.(replies := c.replies + [c.state]);
      assert forall k :: 0 <= k < |events[1..]| ==> events[1..][k] == events[k + 1];
      var t := Eval(qs, h.state, h.sf);
      var c1 := h.(state := t.state, sf := t.result.next, sent := h.sent + t.sent);
      assert c1 == h by { assert h.sent + [] == h.sent; }
      SustainReadsOnly(qs, h, events[1..]);
      assert [c.state] + Copies(c.state, |events| - 1) == Copies(c.state, |events|);
    }
  }

  /** An action that installs GameEnding or GameTerminate ends the loop on
      that same event: the post statement calls the ending phase, which
      returns nil, and the loop exits normally with the action's record.
      Nothing after it is dequeued, so a following message (such as the
      host saying it is finished) is never handled. */
  lemma ActionEndingStopsLoop(qs: seq<QuizQuestion>, c: Config, events: seq<Event>)
    requires c.sf != Phase.Nil && events != [] && events[0].Act?
    requires events[0].perform(c.state, c.sf).1 == Phase.GameEnding
          || events[0].perform(c.state, c.sf).1 == Phase.GameTerminate
    ensures var o := Drive(qs, c, events);
            && o.exit == Terminated && o.consumed == 1
            && o.last.state == events[0].perform(c.state, c.sf).0
            && o.last.sf == Phase.Nil && o.last.sent == c.sent
  {
  }

  /** An action that clears the phase makes the loop call a nil StateFunc:
      the driver faults after that one event, with the action's record. */
  lemma NilPhaseFaults(qs: seq<QuizQuestion>, c: Config, events: seq<Event>)
    requires c.sf != Phase.Nil && events != [] && events[0].Act?
    requires events[0].perform(c.state, c.sf).1 == Phase.Nil
    ensures var o := Drive(qs, c, events);
            && o.exit == Panicked && o.consumed == 1
            && o.last.state == events[0].perform(c.state, c.sf).0 && o.last.sent == c.sent
  {
  }

  /** While WaitForHost is current, an action that attaches the host moves
      the game to Waiting with Sustain current, in that same iteration, and
      read requests keep it there until the deadline. */
  lemma HostAttachedReachesWaiting(qs: seq<QuizQuestion>, c: Config, events: seq<Event>)
    requires c.sf == Phase.WaitForHost && events != [] && events[0].Act?
    requires events[0].perform(c.state, c.sf).0.host.Some?
    requires events[0].perform(c.state, c.sf).1 == Phase.WaitForHost
    requires forall k :: 1 <= k < |events| ==> events[k].Request?
    ensures var o := Drive(qs, c, events);
            && o.exit == DeadlineExceeded && o.consumed == |events| && o.last.sf == Phase.Sustain
            && o.last.state == events[0].perform(c.state, c.sf).0.(status := Waiting)
  {
    var h := Handle(c, events[0]);
    var t := Eval(qs, h.state, h.sf);
    var c1 := h.(state := t.state, sf := t.result.next, sent := h.sent + t.sent);
    assert c1.sf == Phase.Sustain && c1.state == events[0].perform(c.state, c.sf).0.(status := Waiting);
    assert forall k :: 0 <= k < |events[1..]| ==> events[1..][k] == events[k + 1];
    SustainReadsOnly(qs, c1, events[1..]);
  }
}
