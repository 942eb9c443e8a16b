# Gahoot! game session engine and quiz finder, in Dafny

This project models two parts of Gahoot!, a self-hostable quiz game.

**The per-game session engine** (`game/game.go`). Each live game owns one state record. The record holds the status, the host, the players, the current question, the countdown flag, the accepting-answers flag and the wanted/received answer counters. A driver loop runs the game as a finite state machine:

- It starts in `WaitForHost`.
- Each iteration it handles exactly one event: the deadline, an action, or a read request.
- It then replaces the current phase with whatever that phase returns.
- It stops when the phase is nil. On every exit it marks the game Dead, publishes the game's PIN to the reaper and releases the deadline.

The phases are `WaitForHost`, `Question`, `AcceptAnswers`, `GameEnding`, `GameTerminate` and `Sustain`.

**The quiz finder** (`frontend/src/find.ts`). It holds three fields: a selected category, an optional search term, and an "anything matched" latch. Its matching rule works like this:

- A search term matches quiz names case-insensitively by prefix, and overrides the category.
- Without a search term, online uploads match the `shared` category, and any quiz matches `all` or its own category.

Layout:

- `wrappers.dfy` (`Wrappers`): `Option`.
- `game_model.dfy` (`GameModel`): the record, the `Phase` datatype (`Nil` is the nil StateFunc), outbound messages, and `Eval`, which calls a phase. It also holds the event stream and `Drive`, the driver loop as a function over that stream.
- `game.dfy` (`Game`): class `Game`. Its phase methods update `state` in place. `CallPhase` is `game.sf()`. `Run` is the loop, proved equal to `Drive`.
- `game_properties.dfy` (`GameProperties`): lemmas about the phases and the loop.
- `ascii.dfy` (`Ascii`): ASCII `toLowerCase` and `startsWith`.
- `find.dfy` (`Find`): `MatchRule` and class `Finder`.

Modelling choices:

- A Go run-time panic is its own exit path, `Panicked`. Three things panic in the source:
  - `Question` indexing `Questions` out of range.
  - `Question` sending through a nil host.
  - The loop calling a nil `StateFunc`, which happens after an action sets the phase to nil.
- Go runs deferred functions while panicking, so `Run` marks the game Dead and publishes the PIN on this path too.
- When the event stream runs out, the loop exits on the deadline, because `context.WithTimeout` always fires in the end.
- The answer-counter invariant is `Counters`: `0 <= gotAnswers`, and `gotAnswers <= wantAnswers` while answers are accepted. The shorter form, `acceptingAnswers ==> 0 <= gotAnswers <= wantAnswers`, is not kept by `AcceptAnswers` alone (`AnswerBoundsAloneNotKept`).
- Each player's countdown is the constant 10 (game/game.go:147-149).
- A non-zero lifetime is used as given; there is no cap (game/game.go:69-73).
- `Question` sends again each time it is called, until the countdown is done (game/game.go:128-152).
- The only round snapshot is the player count, `wantAnswers` (game/game.go:131).
- After a host attaches, `Sustain` is current (game/game.go:117-120); no phase of its own stands for the Waiting status.
- `GameEnding` returns nil at once (game/game.go:170-172), although its doc comment says it accepts one more message. An action that installs it ends the loop on that same event (`ActionEndingStopsLoop`), so no further message is handled.

## Model

| member | source | states |
|---|---|---|
| GameModel.Wire | game/game.go:10-20 | status wire values lie in 0..3, and only Dead has value 3 |
| GameModel.Lifetime | game/game.go:68-73 | the armed deadline is never zero; a zero lifetime selects 45 minutes; any other lifetime is used unchanged |
| GameModel.QuestionCounts | game/game.go:146-150 | exactly one countdown message of 10 per player, in player order |
| GameModel.Eval | game/game.go:100-182 | calling a phase: nil faults; a fault changes nothing and sends nothing; no phase returns GameEnding or GameTerminate; only Question sends, and then leaves the record unchanged; only WaitForHost writes the status; no phase touches the host, the players, the question index or the countdown flag |
| GameModel.Handle | game/game.go:101-108 | handling an event sends nothing; an action leaves the snapshots alone; a read request appends a copy of the record to the snapshots and changes neither the record nor the phase |
| GameModel.Drive | game/game.go:89-110 | the loop dequeues at most the events given; snapshots and sent messages only grow; a normal exit has the nil phase current; a deadline exit happens at a deadline event or at the end of the stream; a fault exit follows a dequeued event |
| Game.Game.constructor | game/game.go:68-83 | NewGame: zero record, no phase yet, the deadline is `Lifetime(maxGameTime)`, nothing published or sent |
| Game.Game.WaitForHost | game/game.go:114-122 | without a host: status HostWaiting and stay in WaitForHost; with a host: status Waiting and go to Sustain; no other field changes |
| Game.Game.Question | game/game.go:128-153 | after the countdown: accept answers, got = 0, want = number of players, go to AcceptAnswers; before it: record unchanged, one NewQuestion (index+1, total) to the host, then one countdown of 10 per player in order, and return the current phase; a bad index or missing host faults |
| Game.Game.AcceptAnswers | game/game.go:157-165 | enough answers: stop accepting and go to Sustain; otherwise accept answers and stay; counters untouched |
| Game.Game.GameEnding | game/game.go:170-172 | returns the nil phase |
| Game.Game.GameTerminate | game/game.go:174-177 | returns the nil phase |
| Game.Game.Sustain | game/game.go:179-182 | returns the current phase |
| Game.Game.CallPhase | game/game.go:100 | calling the current phase changes the record, returns and sends exactly what `Eval` says; calling nil faults |
| Game.Game.Run | game/game.go:89-110 | the loop starts in WaitForHost and ends as `Drive` says; on every exit path the status is Dead, the reaper receives the PIN exactly once and the deadline is released |
| GameProperties.WireValuesDistinct | game/game.go:11-20 | distinct statuses have distinct wire values; Dead is 3 and HostWaiting is 0 |
| GameProperties.LifetimeStable | game/game.go:69-71 | applying the default twice changes nothing; the default is 45 minutes |
| GameProperties.WaitForHostLeavesOnHost | game/game.go:114-122 | the phase leaves for Sustain, with status Waiting, exactly when a host is attached; otherwise it stays, with status HostWaiting; only the status changes and nothing is sent |
| GameProperties.QuestionAnnounces | game/game.go:135-152 | before the countdown, Question leaves the record unchanged, loops on itself, and sends the question (index+1 of total) to the host, then a countdown of 10 to each player in order |
| GameProperties.QuestionOpensRound | game/game.go:129-133 | after the countdown, Question starts accepting with got = 0 and want = number of players, changes no other field, sends nothing and goes to AcceptAnswers |
| GameProperties.AcceptAnswersClosesWhenAnswered | game/game.go:157-165 | goes to Sustain, not accepting, exactly when got >= want; otherwise stays, accepting; only the accepting flag changes |
| GameProperties.SustainIsIdle | game/game.go:180-182 | Sustain keeps the record and the phase and sends nothing |
| GameProperties.EndingPhasesReturnNil | game/game.go:170-177 | GameEnding and GameTerminate return the nil phase and change nothing |
| GameProperties.OnlyQuestionWritesCounters | game/game.go:128-165 | every phase keeps both counters, except Question after the countdown, which sets them to (0, number of players) |
| GameProperties.PhasesKeepCounters | game/game.go:128-165 | no phase breaks the counter invariant, so got never exceeds want while answers are accepted |
| GameProperties.AnswerBoundsAloneNotKept | game/game.go:157-164 | a record that is not accepting and holds a negative count starts accepting with that count, so the bound needs `0 <= gotAnswers` standing |
| GameProperties.ZeroStateCounters | game/game.go:42-51 | the zero record satisfies the counter invariant |
| GameProperties.DriveKeepsCounters | game/game.go:100-108 | if every action keeps the counter invariant, the loop's final record and every snapshot it hands out satisfy it |
| GameProperties.DeadlineExitsAtOnce | game/game.go:101-103 | a deadline event, or no further event, exits at once with nothing dequeued or changed |
| GameProperties.RequestAnswersCurrentState | game/game.go:100-107 | a served request is answered with the record as it was before the phase ran |
| GameProperties.SustainStable | game/game.go:100-108 | once Sustain is current, events that do not rewrite the phase keep it current; all of them are dequeued, nothing is sent, and only the deadline ends the loop |
| GameProperties.SustainReadsOnly | game/game.go:100-108 | with Sustain current, read requests alone leave the record unchanged and each is answered with it |
| GameProperties.ActionEndingStopsLoop | game/game.go:100-108 | an action that installs GameEnding or GameTerminate ends the loop on that same event: exactly one event is dequeued, the exit is normal with the nil phase, the record is the one the action left, and nothing is sent |
| GameProperties.NilPhaseFaults | game/game.go:100-105 | an action that sets the phase to nil makes the loop call a nil phase and fault after that event |
| GameProperties.HostAttachedReachesWaiting | game/game.go:100-122 | while WaitForHost is current, an action that attaches the host moves the game, in that iteration, to Sustain with the action's record and status Waiting; read requests after it keep it there until the deadline |
| Ascii.LowerChar | frontend/src/find.ts:43 | upper-case ASCII letters map to their lower-case letters (+32); every other character is unchanged |
| Ascii.Lower | frontend/src/find.ts:43 | same length; no upper-case ASCII letter remains; each upper-case letter becomes its lower-case letter (+32) and every other character is kept |
| Ascii.StartsWith | frontend/src/find.ts:60 | true exactly when the prefix is no longer than the string and agrees with it character by character |
| Ascii.LowerIdempotent | frontend/src/find.ts:47-49 | lower-casing twice equals lower-casing once |
| Ascii.LowerPrefix | frontend/src/find.ts:60 | lower-casing commutes with taking a prefix |
| Ascii.StartsWithLower | frontend/src/find.ts:60 | a prefix stays a prefix after both strings are lower-cased |
| Ascii.EmptyPrefix | frontend/src/find.ts:60 | every string starts with the empty string |
| Find.MatchRule | frontend/src/find.ts:59-71 | with a search term: the case-insensitive prefix test on the name; without one: matched exactly when online under "shared", or the category is "all", or it equals the quiz's category lower-cased; an empty term and the "all" category show every quiz |
| Find.Finder.constructor | frontend/src/find.ts:32-35 | initial data: category "all", no search term, latch false |
| Find.Finder.SetCategory | frontend/src/find.ts:37-45 | the category becomes the lower-cased argument, with "" read as "uncategorised"; the latch is reset; the search term is unchanged; the category stays lower-case |
| Find.Finder.GetCategory | frontend/src/find.ts:47-49 | returns the category lower-cased, character by character; the result is fixed by lower-casing; on a lower-case category it is the category itself |
| Find.Finder.UpdateNothing | frontend/src/find.ts:51-56 | returns its argument; the latch becomes old latch OR argument, so it never goes from true to false |
| Find.Finder.Match | frontend/src/find.ts:58-72 | returns `MatchRule` of the current search and category; only the latch changes, to old latch OR result |
| Find.Finder.Search | frontend/src/find.ts:74-77 | category "all" and the search term set; the latch is unchanged |
| Find.UncategorisedLower | frontend/src/find.ts:38-43 | the empty category is stored as "uncategorised" |
| Find.SearchOverridesCategory | frontend/src/find.ts:59-65 | with a search term, the result does not depend on the category or the online flag: it is the case-insensitive prefix test |
| Find.MatchIgnoresCase | frontend/src/find.ts:58-72 | matching gives the same answer for a name and a category in any letter case |
| Find.ExactPrefixShown | frontend/src/find.ts:60-62 | a name that starts with the search term as typed always matches |
| Find.EmptySearchShowsAll | frontend/src/find.ts:60-62 | an empty search term matches every quiz |

## Left out

- Goroutines, channels, `select` and `context.WithTimeout`/`cancel` (game/game.go:73, 90-108, 144, 147). The loop runs over a sequence of events. The deadline is a `Deadline` event. `cancel` is a flag. The reaper channel is the sequence of PINs published.
- Timing. The armed lifetime is recorded in `timeout`, but the model has no clock. When the deadline fires is decided by where `Deadline` stands in the event stream.
- `SendMessage`. Its transport and delivery order are not modelled. Only the order of dispatch is recorded, in `outbox`.
- `Action.Perform` and the `Host`, `Player` and `Pin` types are not part of this model. An action is an opaque function from (record, phase) to (record, phase). Hosts, players and PINs are opaque identities.
- Actions that send messages or touch anything besides the record and the phase are not modelled.
- The quiz package. A question is an opaque value; only the number of questions and indexing matter. JSON tags are not modelled.
- Aliasing of the `Players` slice between the record and a snapshot handed to a reader. Snapshots here are values.
- What happens after a panic. The model stops at the `Panicked` exit, after the deferred cleanup. The process crash that follows is not modelled.
- Game.Game.Question: a nil host is modelled as a fault before anything is sent. Whether Go faults in the loop or inside the dispatched goroutine depends on the `Host` type, which is not part of this model. Either way the process fails.
- Blocking of the reaper send until the coordinator receives it.
- Alpine registration, `window.Alpine`, `console.log` and `Alpine.start()` (frontend/src/find.ts:14, 29-30, 44, 82). These are UI wiring.
- `NothingMatched` (frontend/src/find.ts:25). The interface declares it, but it is never implemented.
- `toLowerCase` covers ASCII only. Full Unicode case mapping is not modelled.
