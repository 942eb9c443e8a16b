/** A running game instance: the record and the current phase are fields the
    phase methods and the driver loop update in place. */
module Game {
  import opened Wrappers
  import opened GameModel

  class Game {
    const pin: Pin
    const questions: seq<QuizQuestion>
    /** The deadline armed at construction. */
    const timeout: int

    var state: State
    /** The current StateFunc. */
    var sf: Phase
    /** PINs this game published on the reaper channel. */
    var reaper: seq<Pin>
    /** Whether the deadline's resources have been released. */
    var cancelled: bool
    /** Messages dispatched to the host and players, in dispatch order. */
    var outbox: seq<Message>
    /** Snapshots handed to readers, in order. */
    var replies: seq<State>

    /** NewGame: the zero state, no phase until Run starts. */
    constructor (pin: Pin, questions: seq<QuizQuestion>, maxGameTime: int)
      ensures this.pin == pin && this.questions == questions
      ensures timeout == Lifetime(maxGameTime)
      ensures state == ZeroState && sf == Phase.Nil
      ensures reaper == [] && !cancelled && outbox == [] && replies == []
    {
      var lifetime := maxGameTime;
      if lifetime == 0 {
        lifetime := MaxGameTime;
      }
      this.pin := pin;
      this.questions := questions;
      timeout := lifetime;
      state := ZeroState;
      sf := Phase.Nil;
      reaper := [];
      cancelled := false;
      outbox := [];
      replies := [];
    }

    /** The host is still connecting: HostWaiting until a host is attached,
        then Waiting and Sustain. */
    method WaitForHost() returns (r: PhaseResult)
      modifies this`state
      ensures old(state).host.None? ==> state == old(state).(status := HostWaiting) && r == Goto(Phase.WaitForHost)
      ensures old(state).host.Some? ==> state == old(state).(status := Waiting) && r == Goto(Phase.Sustain)
    {
      state := state.(status := HostWaiting);
      if state.host.Some? {
        state := state.(status := Waiting);
        return Goto(Phase.Sustain);
      }
      return Goto(Phase.WaitForHost);
    }

    /** Showing a question. Once the countdown is done, snapshot the player
        count and start accepting answers; before that, send the question to
        the host and a countdown to every player and stay in the current
        phase. */
    method Question() returns (r: PhaseResult)
      modifies this`state, this`outbox
      ensures old(state).countdownDone ==>
        && state == old(state).(acceptingAnswers := true, gotAnswers := 0, wantAnswers := |old(state).players|)
        && r == Goto(Phase.AcceptAnswers) && outbox == old(outbox)
      ensures !old(state).countdownDone ==> state == old(state)
      ensures !old(state).countdownDone && (!(0 <= state.currentQuestion < |questions|) || state.host.None?) ==>
        r == Panic && outbox == old(outbox)
      ensures !old(state).countdownDone && 0 <= state.currentQuestion < |questions| && state.host.Some? ==>
        && r == Goto(sf)
        && outbox == old(outbox)
                     + [NewQuestion(state.host.value, questions[state.currentQuestion], state.currentQuestion + 1, |questions|)]
                     + QuestionCounts(state.players)
    {
      if state.countdownDone {
        state := state.(acceptingAnswers := true, gotAnswers := 0, wantAnswers := |state.players|);
        return Goto(Phase.AcceptAnswers);
      }
      if !(0 <= state.currentQuestion < |questions|) {
        // index out of range
        return Panic;
      }
      if state.host.None? {
        // nil host dereference
        return Panic;
      }
      var q := NewQuestion(state.host.value, questions[state.currentQuestion], state.currentQuestion + 1, |questions|);
      outbox := outbox + [q];
      var players := state.players;
      var k := 0;
      while k < |players|
        modifies this`outbox
        invariant 0 <= k <= |players|
        invariant outbox == old(outbox) + [q] + QuestionCounts(players[..k])
      {
        assert players[..k + 1][..k] == players[..k];
        outbox := outbox + [QuestionCount(players[k], CountdownSeconds)];
        k := k + 1;
      }
      assert players[..k] == players;
      r := Goto(sf);
    }

    /** Accepting answers until every player of the round has answered. */
    method AcceptAnswers() returns (r: PhaseResult)
      modifies this`state
      ensures old(state).gotAnswers >= old(state).wantAnswers ==>
        state == old(state).(acceptingAnswers := false) && r == Goto(Phase.Sustain)
      ensures old(state).gotAnswers < old(state).wantAnswers ==>
        state == old(state).(acceptingAnswers := true) && r == Goto(Phase.AcceptAnswers)
    {
      state := state.(acceptingAnswers := true);
      if state.gotAnswers >= state.wantAnswers {
        state := state.(acceptingAnswers := false);
        return Goto(Phase.Sustain);
      }
      return Goto(Phase.AcceptAnswers);
    }

    /** The end screen; the loop stops on its next check. */
    method GameEnding() returns (r: PhaseResult)
      ensures r == Goto(Phase.Nil)
    {
      return Goto(Phase.Nil);
    }

    /** Terminates the loop on its next check. */
    method GameTerminate() returns (r: PhaseResult)
      ensures r == Goto(Phase.Nil)
    {
      return Goto(Phase.Nil);
    }

    /** Keeps the game in the current phase. */
    method Sustain() returns (r: PhaseResult)
      ensures r == Goto(sf)
    {
      return Goto(sf);
    }

    /** `game.sf()`: calls the current phase. */
    method CallPhase() returns (r: PhaseResult)
      modifies this`state, this`outbox
      ensures var t := Eval(questions, old(state), sf);
              state == t.state && r == t.result && outbox == old(outbox) + t.sent
    {
      match sf
      case WaitForHost => r := WaitForHost();
      case Question => r := Question();
      case AcceptAnswers => r := AcceptAnswers();
      case GameEnding => r := GameEnding();
      case GameTerminate => r := GameTerminate();
      case Sustain => r := Sustain();
      case Nil =>
        // calling a nil StateFunc
        r := Panic;
    }

    /** The main loop: starting in WaitForHost, handle one event per
        iteration and replace the phase with what the phase returns, until
        the phase is Nil, the deadline fires or a phase faults. On every exit
        the game is marked Dead, its PIN is published to the reaper once and
        the deadline is released. */
    method Run(events: seq<Event>) returns (exit: Exit)
      modifies this
      ensures var o := Drive(questions, Config(old(state), Phase.WaitForHost, old(replies), old(outbox)), events);
              && exit == o.exit
              && state == o.last.state.(status := Dead)
              && sf == o.last.sf && replies == o.last.replies && outbox == o.last.sent
      ensures state.status == Dead
      ensures reaper == old(reaper) + [pin]
      ensures cancelled
    {
      ghost var o0 := Drive(questions, Config(state, Phase.WaitForHost, replies, outbox), events);
      sf := Phase.WaitForHost;
      var i := 0;
      exit := Terminated;
      while sf != Phase.Nil
        invariant 0 <= i <= |events|
        invariant exit == Terminated && reaper == old(reaper)
        invariant Drive(questions, Config(state, sf, replies, outbox), events[i..]).exit == o0.exit
        invariant Drive(questions, Config(state, sf, replies, outbox), events[i..]).last == o0.last
        decreases |events| - i
      {
        if i == |events| || events[i].Deadline? {
          exit := DeadlineExceeded;
          break;
        }
        ghost var before := Config(state, sf, replies, outbox);
        match events[i] {
          case Act(perform) =>
            var next := perform(state, sf);
            state, sf := next.0, next.1;
          case Request =>
            replies := replies + [state];
        }
        assert Config(state, sf, replies, outbox) == Handle(before, events[i]);
        assert events[i..][1..] == events[i + 1..];
        ghost var t := Eval(questions, state, sf);
        i := i + 1;
        var r := CallPhase();
        assert state == t.state && r == t.result && outbox == before.sent + t.sent;
        if r.Panic? {
          exit := Panicked;
          break;
        }
        sf := r.next;
      }
      state := state.(status := Dead);
      reaper := reaper + [pin];
      cancelled := true;
    }
  }
}
