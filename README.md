# Battledore match state machine in Dafny

This project models the only logic in the battledore page: the state of a
two-player timed match held by the `Home` component. The page shows a Play
button, then a form for the two names, a sender and a receiver choice and a
duration in minutes, then a timer panel. The panel has a `m:ss` countdown, a
score button per player, End Game and, once the game is over, "Add 5 More
Minutes" and the winner.

The model has six modules:

- `GameSession` (session.dfy) is the model's centre. `Session` is a value
  with the twelve `useState` variables, and there is one transition function
  per handler (`PlayClicked`, `Submitted`, `Ticked`, `Settled`, `TimeAdded`,
  `Scored1`, `Scored2`, `Ended`). The module also models the page around the
  handlers:
  - `Available` says which controls are on screen;
  - `AfterEffect` is the countdown effect. It runs again only when
    `showTimer` or `timeLeft` changed, and then completes the game if the
    panel is up with no time left;
  - `Step` is one event followed by that effect run;
  - `Run` is a sequence of events.
- `HomePage.Home` (home.dfy) is the component as a class. Its fields are the
  state hooks. Each method is a handler or a branch of the effect, and is
  specified by the matching transition function:
  `State() == Submitted(old(State()))`. A ghost field `effectDue` makes
  `Settle` come straight after the change that makes completion due, as
  React runs the effect before the next event. `RunOut` is the interval running with
  nobody clicking. Three client methods play three example matches: a
  one-minute tie, a 3–1 End Game, and adding five minutes after time is up.
- `GameProperties` (session_properties.dfy) holds the lemmas about steps and
  runs.
- `Rules` (rules.dfy) holds `getWinner`, the sender and receiver labels and
  the choice of screen.
- `TimeDisplay` (time_display.dfy) holds the `m:ss` read-out and a parser
  that inverts it.
- `Wrappers` (wrappers.dfy) holds the `Option` type used for `winner` and for
  events that cannot happen.

Real time is an explicit event: `TimerFires` (or `Home.Tick`) can happen
only while `showTimer && timeLeft > 0`, which is when the effect keeps an
interval running. The model keeps three behaviours of the code as they are:

- The winner is captured when the game completes, and later score clicks do
  not change it.
- A sender or receiver that is unset, or anything other than `"player1"`,
  shows player 2's name.
- `showTimer` is never set back to false.

A few more behaviours of the code worth noting:

- Sender and receiver are any strings the selects hold.
- A duration of zero minutes completes the game as soon as the form is
  submitted. The handler sets `timeLeft` to 0, and the effect's completion
  branch runs at once.
- A negative duration `d` is accepted. It gives a negative `timeLeft` of
  `d * 60` that never counts down and never completes on its own, and the
  display shows "d:00". Only a negative time that is not a whole number of
  minutes, which the page never reaches, would show a minus sign in both
  parts ("-4:-1" for -181 seconds), because JavaScript's `%` truncates toward
  zero.
- Scores are whole numbers starting at 0 that only grow, so they are `nat`.

## Model

| member | source | states |
|---|---|---|
| `HomePage.Home.constructor` | src/app/page.tsx:9-20 | every field starts at its `useState` initial value (`Initial()`), and the state is consistent |
| `HomePage.Home.PlayClick` | src/app/page.tsx:44-46 | sets `showForm` and nothing else |
| `HomePage.Home.SetPlayer1` | src/app/page.tsx:108 | the name input replaces `player1` and nothing else |
| `HomePage.Home.SetPlayer2` | src/app/page.tsx:117 | the name input replaces `player2` and nothing else |
| `HomePage.Home.SetSender` | src/app/page.tsx:125 | the select replaces `sender` and nothing else |
| `HomePage.Home.SetReceiver` | src/app/page.tsx:137 | the select replaces `receiver` and nothing else |
| `HomePage.Home.SetDuration` | src/app/page.tsx:150 | the duration input (already an integer) replaces `duration` and nothing else |
| `HomePage.Home.Submit` | src/app/page.tsx:36-42 | `timeLeft` becomes `duration * 60`, `showTimer` is set, `gameOver` is cleared and `winner` is None; everything else is unchanged; the completion branch is due next exactly when the effect would take it (a zero-minute game) |
| `HomePage.Home.Tick` | src/app/page.tsx:24-27 | runs only while `showTimer && timeLeft > 0`; lowers `timeLeft` by exactly 1, never below 0; nothing else changes; the tick that reaches 0 makes the completion branch due |
| `HomePage.Home.Settle` | src/app/page.tsx:28-34 | runs only right after a change to `showTimer` or `timeLeft` that left the panel up at time 0 (`effectDue`), before any other event; sets `gameOver` and `winner := getWinner()` of the current scores and clears `effectDue`; nothing else changes |
| `HomePage.Home.AddTime` | src/app/page.tsx:48-52 | `timeLeft` grows by `additionalMinutes * 60`; `gameOver` and `winner` are cleared; scores, names and `showTimer` are unchanged; the completion branch is due next exactly when the time changed and is 0 |
| `HomePage.Home.IncreaseScore1` | src/app/page.tsx:54-56 | `score1` grows by one; nothing else changes, the captured winner included |
| `HomePage.Home.IncreaseScore2` | src/app/page.tsx:58-60 | `score2` grows by one; nothing else changes, the captured winner included |
| `HomePage.Home.EndGame` | src/app/page.tsx:62-66 | `timeLeft` becomes 0, `gameOver` is set, and `winner` is `getWinner()` of the current scores; when time was left, the effect's re-run is due next |
| `HomePage.Home.RunOut` | src/app/page.tsx:22-34 | with no clicks, the interval ticks down to 0 and then the effect completes the game: the result is `Settled` of the starting state with the time at 0 |
| `HomePage.OneMinuteTie` | src/app/page.tsx:22-42 | Alice and Bob with one minute: the panel starts at "1:00", and after the countdown it shows "0:00" and the winner is "It's a tie!" |
| `HomePage.EndGameAfterScoring` | src/app/page.tsx:54-66 | three points to one, then End Game and the effect run it triggers: the winner is "Alice" with 0 seconds left, and Bob's later points leave "Alice" shown |
| `HomePage.AddFiveMinutesAfterTimeOver` | src/app/page.tsx:48-52 | after a game has run out (a tie), "Add 5 More Minutes" clears the winner, shows "5:00" and the interval runs again |
| `Rules.WinnerCases` | src/app/page.tsx:68-76 | `getWinner` gives player 1's name when `score1 > score2`, player 2's when `score2 > score1`, and "It's a tie!" when they are equal |
| `Rules.WinnerSymmetric` | src/app/page.tsx:68-76 | swapping the players, names and scores together, gives the same outcome |
| `Rules.Tie` | src/app/page.tsx:74 | the text `getWinner` returns for level scores, "It's a tie!" |
| `Rules.WinnerName` | src/app/page.tsx:68-76 | `getWinner`; its three outcomes are stated by `Rules.WinnerCases` |
| `Rules.WinnerDependsOnOrder` | src/app/page.tsx:68-76 | two pairs of scores that compare the same way give the same outcome |
| `Rules.WinnerShiftInvariant` | src/app/page.tsx:68-76 | adding the same amount to both scores does not change the outcome |
| `Rules.OptionValue` | src/app/page.tsx:128-130 | only the Player 1 option has the value "player1" |
| `Rules.RoleLabel` | src/app/page.tsx:172-173 | the Sender/Receiver label; its cases are stated by `Rules.RoleLabelCases` |
| `Rules.RoleLabelCases` | src/app/page.tsx:172-173 | the label is player 1's name exactly when the role is "player1", and player 2's name for every other value, `''` included |
| `Rules.RoleLabelOfOption` | src/app/page.tsx:140-142 | the three select options resolve to: unset → player 2, Player 1 → player 1, Player 2 → player 2 |
| `Rules.CurrentView` | src/app/page.tsx:80-164 | the nested ternary choosing the screen; its cases are stated by `Rules.CurrentViewCases` |
| `Rules.CurrentViewCases` | src/app/page.tsx:80-164 | the Play button shows exactly when `!showForm`, the form exactly when `showForm && !showTimer`, the timer panel exactly when both are set |
| `TimeDisplay.Display` | src/app/page.tsx:171 | the `m:ss` template; stated by `DisplayShape`, `DisplayParseInverse`, `WholeMinutesDisplay` and `NegativeDisplay` |
| `TimeDisplay.IntToString` | src/app/page.tsx:171 | `String(n)` of any integer: a minus sign before `NatToString` of the magnitude for a negative `n` |
| `TimeDisplay.NatToString` | src/app/page.tsx:171 | `String(n)` of a non-negative integer is a canonical decimal numeral (digits, no leading zero), one character long exactly when `n < 10` |
| `TimeDisplay.JsRemainder60` | src/app/page.tsx:171 | JavaScript's `t % 60`: it has the sign of `t`, its absolute value is below 60, and it differs from `t` by a multiple of 60 |
| `TimeDisplay.PadStart` | src/app/page.tsx:171 | `padStart(width, fill)` has length `max(|s|, width)` |
| `TimeDisplay.PadStartPrepends` | src/app/page.tsx:171 | `padStart` only prepends fill characters; the original string is the suffix |
| `TimeDisplay.ParseNatToString` | src/app/page.tsx:171 | reading back `String(n)` gives `n` |
| `TimeDisplay.NatToStringParse` | src/app/page.tsx:171 | a canonical numeral is `String` of its value |
| `TimeDisplay.TwoDigits` | src/app/page.tsx:171 | the padded seconds part of a value below 100 is exactly two digits and reads back as that value |
| `TimeDisplay.DisplayShape` | src/app/page.tsx:171 | for `t >= 0` the read-out is `String(floor(t/60))`, ":", then exactly two digits worth `t % 60`, so minutes * 60 + seconds == t |
| `TimeDisplay.DisplayRoundTrip` | src/app/page.tsx:171 | parsing the read-out of any `t >= 0` gives back `t` |
| `TimeDisplay.ParseTimeIsDisplay` | src/app/page.tsx:171 | every string the parser accepts is the read-out of the non-negative time it returns |
| `TimeDisplay.DisplayParseInverse` | src/app/page.tsx:171 | on `t >= 0`, `Display(t) == s` exactly when `ParseTime(s) == Some(t)` |
| `TimeDisplay.NegativeDisplay` | src/app/page.tsx:171 | a negative time shows a leading minus sign and is not a well-formed `m:ss` read-out |
| `TimeDisplay.WholeMinutesDisplay` | src/app/page.tsx:171 | a whole number of minutes `m`, negative or not, shows as `m` then ":00" |
| `TimeDisplay.DisplayZero` | src/app/page.tsx:171 | no time left shows "0:00" |
| `TimeDisplay.DisplayExamples` | src/app/page.tsx:171 | 60 s shows "1:00", 300 s shows "5:00", and -181 s shows "-4:-1" |
| `GameSession.Winner` | src/app/page.tsx:68-76 | `getWinner()` over the component's current names and scores |
| `GameSession.CanTick` | src/app/page.tsx:24 | the condition under which the effect keeps an interval running: `showTimer && timeLeft > 0` |
| `GameSession.SettleDue` | src/app/page.tsx:28 | the condition of the effect's completion branch: `timeLeft === 0 && showTimer` |
| `GameSession.AddTimeMinutes` | src/app/page.tsx:221 | the 5 minutes the "Add 5 More Minutes" button passes to `handleAddTime` |
| `GameSession.Initial` | src/app/page.tsx:9-20 | the `useState` initial values: no form, empty names and roles, duration, time and scores 0, no timer, game not over, no winner |
| `GameSession.PlayClicked` | src/app/page.tsx:44-46 | `handlePlayClick`; its step is stated by `GameProperties.StepMonotone` and the view lemmas |
| `GameSession.Submitted` | src/app/page.tsx:36-42 | `handleSubmit`; stated by `GameProperties.StepSubmitForm` |
| `GameSession.Ticked` | src/app/page.tsx:25-27 | the interval callback; stated by `GameProperties.StepTimerFires` and `RunTicks` |
| `GameSession.Settled` | src/app/page.tsx:28-31 | the effect's completion branch; stated by `GameProperties.CompletionIdempotent` and `EndGameIsSettle` |
| `GameSession.TimeAdded` | src/app/page.tsx:48-52 | `handleAddTime`; stated by `GameProperties.StepAddTime` |
| `GameSession.Scored1` | src/app/page.tsx:54-56 | `handleIncreaseScore1`; stated by `GameProperties.StepScore` and `ScoresKeepWinner` |
| `GameSession.Scored2` | src/app/page.tsx:58-60 | `handleIncreaseScore2`; stated by `GameProperties.StepScore` and `ScoresKeepWinner` |
| `GameSession.Ended` | src/app/page.tsx:62-66 | `handleEndGame`; stated by `GameProperties.StepEndGame`, `EndGameIsSettle` and `EndGameIdempotent` |
| `GameSession.Available` | src/app/page.tsx:80-221 | which control is rendered on which screen, and that the interval runs only while `showTimer && timeLeft > 0`; stated per event by the `GameProperties.Step…` lemmas |
| `GameSession.Handle` | src/app/page.tsx:36-150 | the handler or `onChange` setter each event calls |
| `GameSession.EffectCompletes` | src/app/page.tsx:28-34 | after a change, the effect re-runs only when `showTimer` or `timeLeft` changed, and takes the completion branch when the panel is then up at time 0 |
| `GameSession.AfterEffect` | src/app/page.tsx:22-34 | the effect re-runs only when `showTimer` or `timeLeft` changed, and then completes a game at time 0; its consequence that a captured winner stays is `GameProperties.ScoresKeepWinner` |
| `GameSession.Step` | src/app/page.tsx:22-66 | one event on a rendered control followed by the effect; its invariant is `GameProperties.StepPreservesInv` |
| `GameProperties.StepSubmitForm` | src/app/page.tsx:36-42 | Submit exists only on the form. It sets `timeLeft = duration * 60` and shows the timer, keeping names, roles and scores. For a non-zero duration the game is not over and the winner is None; for zero minutes the effect completes the game at once |
| `GameProperties.StepTimerFires` | src/app/page.tsx:24-27 | the interval fires exactly when `showTimer && timeLeft > 0`, never at zero or below. It lowers `timeLeft` by exactly 1 and never below 0; the last second ends the game with the current scores' winner |
| `GameProperties.StepEndGame` | src/app/page.tsx:62-66 | End Game exists exactly on the timer panel; it sets time 0, `gameOver`, and the current scores' winner, and nothing else |
| `GameProperties.EndGameIsSettle` | src/app/page.tsx:28-31 | End Game gives the same state as the effect's completion branch at time 0, and the effect run it triggers changes nothing |
| `GameProperties.CompletionIdempotent` | src/app/page.tsx:28-31 | running the completion branch again with unchanged scores changes nothing |
| `GameProperties.EndGameIdempotent` | src/app/page.tsx:62-66 | from any state, a countdown still running included, End Game a second time with unchanged scores changes nothing, both as `handleEndGame` and as a click followed by the effect |
| `GameProperties.StepAddTime` | src/app/page.tsx:48-52 | "Add 5 More Minutes" exists exactly once the game is over (line 221). It adds 300 s (time becomes 300), clears the result and restarts the interval; scores, names and the panel are unchanged |
| `GameProperties.StepScore` | src/app/page.tsx:54-60 | a score button exists on the timer panel whether or not the game is over; it raises exactly its score by 1 and changes nothing else (time, `gameOver`, winner) |
| `GameProperties.StepPreservesInv` | src/app/page.tsx:22-66 | every step keeps the invariant: `gameOver` ⇔ winner set, `showTimer` ⇒ `showForm`, and `gameOver` ⇔ `showTimer && timeLeft == 0` |
| `GameProperties.RunPreservesInv` | src/app/page.tsx:22-66 | every run of events keeps that invariant |
| `GameProperties.ReachableFacts` | src/app/page.tsx:9-34 | in every state reachable from the initial one: the game is over exactly when the panel shows 0 s, the winner is set exactly when the game is over, and the timer panel is up exactly when `showTimer` is set |
| `GameProperties.StepMonotone` | src/app/page.tsx:36-66 | no step lowers a score or clears `showForm` or `showTimer` |
| `GameProperties.RunMonotone` | src/app/page.tsx:36-66 | over any run, scores never decrease, and once shown, the form and the timer panel are never taken away |
| `GameProperties.StepTimeNonNegative` | src/app/page.tsx:24-27 | a step that does not enter a negative duration keeps `timeLeft` and `duration` non-negative |
| `GameProperties.RunTimeNonNegative` | src/app/page.tsx:22-52 | when no negative duration is entered, `timeLeft` never goes negative |
| `GameProperties.StepNegativeOnlyWholeMinutes` | src/app/page.tsx:24-52 | from a reachable state, every step keeps a negative time left a whole number of minutes |
| `GameProperties.RunNegativeOnlyWholeMinutes` | src/app/page.tsx:24-52 | over any run, a negative time left stays a whole number of minutes |
| `GameProperties.ReachableNegativeDisplay` | src/app/page.tsx:171 | every negative time reachable from the initial state shows as its minutes followed by ":00" |
| `GameProperties.ScoresKeepWinner` | src/app/page.tsx:34 | any run of score clicks leaves the winner, `gameOver` and the time unchanged, and adds its length to the total score |
| `GameProperties.StaleWinnerExample` | src/app/page.tsx:34 | after a tie between Alice and Bob is captured, one point for Alice still shows "It's a tie!", although `getWinner` of the new scores gives "Alice" |
| `GameProperties.RunTicks` | src/app/page.tsx:24-31 | with the panel up and time left `T`, `n <= T` firings lower the time by `n`; the `T`-th firing completes the game with the winner of the scores at that moment |
| `GameProperties.SameRoleAllowed` | src/app/page.tsx:121-143 | sender and receiver may both be "player1"; nothing checks them against each other |

## Left out

- JSX rendering, Tailwind classes, framer-motion animations and `react-confetti` are presentation and foreign library code. So are the "Time Over" and "Winner: …" texts. Only which screen shows and which controls exist (`Available`) are modelled.
- `setInterval`, `clearInterval` and the effect's cleanup are real-time scheduling. They become the `TimerFires` event (`Home.Tick`), enabled exactly when the interval would be running, and the effect run in `AfterEffect`. In the class, `Home.Settle` is the effect's completion branch. The ghost field `effectDue` records that a change just made it due. While it is set, no other method may run, because React runs the effect before the next event.
- The `parseInt` of the duration field (line 150), and the NaN it gives on malformed input, are left out. JavaScript number semantics are outside the model, so the duration is a Dafny `int` and the input is a plain setter.
- The `"X vs Y"` header (line 170) is cosmetic.
- The `onChange` handlers of the inputs are modelled only as plain setters (`SetPlayer1` … `SetDuration`, and the `Edit…`/`Choose…` events). The selects' values are free strings, not limited to the three options.
- React's render and commit cycle is not modelled. Each handler's setters take effect together as one step, as React batches them, and of the effect only the completion branch changes state.
- RunTimeNonNegative: assumes that no negative duration is entered. The code accepts one, and then `timeLeft` is negative from Submit onwards (see `NegativeDisplay`).
- `HomePage.Home` methods do not check which screen is showing, because the handlers have no guards. The link between a control and its screen is stated only over `GameSession.Step`.
