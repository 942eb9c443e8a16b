/** The per-game session engine as values: the state record, the phases of
    the finite state machine, what calling a phase does, and what the driver
    loop does with a stream of events. The class in module Game is proved
    against these functions. */
module GameModel {
  import opened Wrappers

  /** Game status. The wire values are those of the `iota` constants. */
  datatype Status = HostWaiting | Waiting | Running | Dead

  function Wire(st: Status): (v: int)
    ensures 0 <= v <= 3
    ensures v == 3 <==> st == Dead
  {
    match st
    case HostWaiting => 0
    case Waiting => 1
    case Running => 2
    case Dead => 3
  }

  /** Durations are nanoseconds, as Go's time.Duration. */
  const Minute: int := 60 * 1_000_000_000
  const MaxGameTime: int := 45 * Minute
  /** Players needed to leave Waiting; only the (unmodelled) actions use it. */
  const MinPlayers: int := 3
  /** The countdown every player is sent with a new question. */
  const CountdownSeconds: int := 10

  /** The deadline armed by NewGame: a zero lifetime selects MaxGameTime,
      any other value is used as given. */
  function Lifetime(maxGameTime: int): (d: int)
    ensures d != 0
    ensures maxGameTime != 0 ==> d == maxGameTime
    ensures maxGameTime == 0 ==> d == MaxGameTime
  {
    if maxGameTime == 0 then MaxGameTime else maxGameTime
  }

  /** Opaque participants and quiz content: only identity matters here. */
  type Pin = nat
  datatype Host = Host(id: nat)
  datatype Player = Player(handle: nat)
  datatype QuizQuestion = QuizQuestion(id: nat)

  /** The state record a game owns. */
  datatype State = State(
    status: Status,
    host: Option<Host>,
    players: seq<Player>,
    currentQuestion: int,
    countdownDone: bool,
    acceptingAnswers: bool,
    wantAnswers: int,
    gotAnswers: int)

  /** The zero value of the record, which is what a new game holds. */
  const ZeroState: State := State(HostWaiting, None, [], 0, false, false, 0, 0)

  /** The phase functions, and Nil for the nil StateFunc. */
  datatype Phase = WaitForHost | Question | AcceptAnswers | GameEnding | GameTerminate | Sustain | Nil

  /** Outbound messages, in the order the phases dispatch them. */
  datatype Message =
    | NewQuestion(host: Host, question: QuizQuestion, index: int, total: int)
    | QuestionCount(player: Player, count: int)

  /** What calling a phase yields: the next phase, or a Go run-time panic. */
  datatype PhaseResult = Goto(next: Phase) | Panic

  datatype Transition = Transition(state: State, result: PhaseResult, sent: seq<Message>)

  /** The QuestionCount messages, one per player in order. */
  function QuestionCounts(players: seq<Player>): (r: seq<Message>)
    ensures |r| == |players|
    ensures forall k :: 0 <= k < |players| ==> r[k] == QuestionCount(players[k], CountdownSeconds)
  {
    if players == [] then []
    else QuestionCounts(players[..|players| - 1]) + [QuestionCount(players[|players| - 1], CountdownSeconds)]
  }

  /** Calling the current phase `sf` on state `s` for a quiz with questions `qs`.
      A phase that "returns game.sf" returns `sf` itself. Calling Nil is a
      nil function call; Question with an out-of-range index or without a host
      faults before any state change. */
  function Eval(qs: seq<QuizQuestion>, s: State, sf: Phase): (t: Transition)
    ensures sf == Nil ==> t.result == Panic
    ensures t.result == Panic ==> t.state == s && t.sent == []
    ensures t.result.Goto? ==> t.result.next != GameEnding && t.result.next != GameTerminate
    ensures t.sent != [] ==> sf == Question && t.state == s
    ensures t.state.status == s.status || sf == WaitForHost
    ensures t.state.host == s.host && t.state.players == s.players
    ensures t.state.currentQuestion == s.currentQuestion && t.state.countdownDone == s.countdownDone
  {
    match sf
    case WaitForHost =>
      if s.host.Some? then Transition(s.(status := Waiting), Goto(Sustain), [])
      else Transition(s.(status := HostWaiting), Goto(WaitForHost), [])
    case Question =>
      if s.countdownDone then
        Transition(s.(acceptingAnswers := true, gotAnswers := 0, wantAnswers := |s.players|), Goto(AcceptAnswers), [])
      else if !(0 <= s.currentQuestion < |qs|) || s.host.None? then
        Transition(s, Panic, [])
      else
        var msg := NewQuestion(s.host.value, qs[s.currentQuestion], s.currentQuestion + 1, |qs|);
        Transition(s, Goto(sf), [msg] + QuestionCounts(s.players))
    case AcceptAnswers =>
      if s.gotAnswers >= s.wantAnswers then Transition(s.(acceptingAnswers := false), Goto(Sustain), [])
      else Transition(s.(acceptingAnswers := true), Goto(AcceptAnswers), [])
    case GameEnding => Transition(s, Goto(Nil), [])
    case GameTerminate => Transition(s, Goto(Nil), [])
    case Sustain => Transition(s, Goto(sf), [])
    case Nil => Transition(s, Panic, [])
  }

  /** One event the driver multiplexes: the deadline, an action from the
      inbox (it may rewrite the state and the current phase), or a read
      request. */
  datatype Event =
    | Deadline
    | Act(perform: (State, Phase) -> (State, Phase))
    | Request

  /** The driver's view: the record, the current phase, the snapshots handed
      to readers and the messages dispatched so far. */
  datatype Config = Config(state: State, sf: Phase, replies: seq<State>, sent: seq<Message>)

  datatype Exit = Terminated | DeadlineExceeded | Panicked

  /** How the loop ended, the configuration at that moment, and how many
      events it dequeued. */
  datatype Outcome = Outcome(exit: Exit, last: Config, consumed: nat)

  /** Handling one non-deadline event. */
  function Handle(c: Config, e: Event): (r: Config)
    requires !e.Deadline?
    ensures r.sent == c.sent
    ensures e.Act? ==> r.replies == c.replies
    ensures e.Request? ==> r.state == c.state && r.sf == c.sf && r.replies == c.replies + [c.state]
  {
    match e
    case Act(perform) =>
      var next := perform(c.state, c.sf);
      c.(state := next.0, sf := next.1)
    case Request => c.(replies := c.replies + [c.state])
  }

  /** The driver loop over an event stream. When the stream runs out the
      driver would block until the deadline fires, so that too exits on the
      deadline. */
  function Drive(qs: seq<QuizQuestion>, c: Config, events: seq<Event>): (o: Outcome)
    ensures o.consumed <= |events|
    ensures c.replies <= o.last.replies && c.sent <= o.last.sent
    ensures o.exit == Terminated ==> o.last.sf == Nil
    ensures o.exit == DeadlineExceeded ==> o.consumed == |events| || events[o.consumed].Deadline?
    ensures o.exit == Panicked ==> 0 < o.consumed
    decreases |events|
  {
    if c.sf == Nil then Outcome(Terminated, c, 0)
    else if events == [] || events[0].Deadline? then Outcome(DeadlineExceeded, c, 0)
    else
      var h := Handle(c, events[0]);
      var t := Eval(qs, h.state, h.sf);
      if t.result.Panic? then Outcome(Panicked, h.(state := t.state, sent := h.sent + t.sent), 1)
      else
        var o := Drive(qs, h.(state := t.state, sf := t.result.next, sent := h.sent + t.sent), events[1..]);
        o.(consumed := o.consumed + 1)
  }
}
