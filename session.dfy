/**
 The match state of the `Home` component as a value, one transition function
 per event handler, and the page's event loop: which controls are on screen,
 what the countdown effect does after a change, and runs of events from the
 initial state.
 */
module GameSession {

  import opened Wrappers
  import opened Rules

  /** The twelve `useState` variables of `Home`. */
  datatype Session = Session(
    showForm: bool,
    player1: string,
    player2: string,
    sender: string,
    receiver: string,
    duration: int,
    timeLeft: int,
    showTimer: bool,
    score1: nat,
    score2: nat,
    gameOver: bool,
    winner: Option<string>)

  /** The values the state hooks start from. */
  function Initial(): Session
  {
    Session(false, "", "", "", "", 0, 0, false, 0, 0, false, None)
  }

  function View(s: Session): Screen
  {
    CurrentView(s.showForm, s.showTimer)
  }

  /** `getWinner()` over the current names and scores. */
  function Winner(s: Session): string
  {
    WinnerName(s.score1, s.score2, s.player1, s.player2)
  }

  /** The countdown effect keeps a one-second interval running exactly in these states. */
  predicate CanTick(s: Session)
  {
    s.showTimer && s.timeLeft > 0
  }

  /** The effect's completion branch applies in these states. */
  predicate SettleDue(s: Session)
  {
    s.showTimer && s.timeLeft == 0
  }

  /** `gameOver` and `winner` are set and cleared together, and a finished game shows no time left. */
  predicate Consistent(s: Session)
  {
    (s.gameOver <==> s.winner.Some?) && (s.gameOver ==> s.timeLeft == 0)
  }

  /** What holds of every state the page can reach: see `GameProperties.ReachableFacts`. */
  predicate Inv(s: Session)
  {
    Consistent(s) && (s.showTimer ==> s.showForm) && (s.gameOver <==> SettleDue(s))
  }

  // The event handlers, one function each.

  /** `handlePlayClick`. */
  function PlayClicked(s: Session): Session
  {
    s.(showForm := true)
  }

  /** `handleSubmit`: the duration is in minutes. */
  function Submitted(s: Session): Session
  {
    s.(timeLeft := s.duration * 60, showTimer := true, gameOver := false, winner := None)
  }

  /** One run of the interval callback, `setTimeLeft(prevTime => prevTime - 1)`. */
  function Ticked(s: Session): Session
    requires CanTick(s)
  {
    s.(timeLeft := s.timeLeft - 1)
  }

  /** The effect's completion branch: `setGameOver(true); setWinner(getWinner())`. */
  function Settled(s: Session): Session
    requires SettleDue(s)
  {
    s.(gameOver := true, winner := Some(Winner(s)))
  }

  /** `handleAddTime(additionalMinutes)`. */
  function TimeAdded(s: Session, additionalMinutes: int): Session
  {
    s.(timeLeft := s.timeLeft + additionalMinutes * 60, gameOver := false, winner := None)
  }

  /** `handleIncreaseScore1`. */
  function Scored1(s: Session): Session
  {
    s.(score1 := s.score1 + 1)
  }

  /** `handleIncreaseScore2`. */
  function Scored2(s: Session): Session
  {
    s.(score2 := s.score2 + 1)
  }

  /** `handleEndGame`. */
  function Ended(s: Session): Session
  {
    s.(timeLeft := 0, gameOver := true, winner := Some(Winner(s)))
  }

  // The page around the handlers.

  /** The minutes the "Add 5 More Minutes" button passes to `handleAddTime`. */
  const AddTimeMinutes: int := 5

  /** What can happen next: a user action on a control, or the interval firing. */
  datatype Event =
    | ClickPlay
    | EditPlayer1(name: string)
    | EditPlayer2(name: string)
    | ChooseSender(value: string)
    | ChooseReceiver(value: string)
    | EditDuration(minutes: int)
    | SubmitForm
    | ClickScore1
    | ClickScore2
    | ClickEndGame
    | ClickAddTime
    | TimerFires

  /**
   An event can happen only when its control is rendered: the Play button on
   the first screen, the inputs and Submit on the form, the score and End Game
   buttons on the timer panel, "Add 5 More Minutes" on the timer panel once the
   game is over; the interval fires only while the effect keeps one running.
   */
  predicate Available(s: Session, e: Event)
  {
    match e
    case ClickPlay => View(s) == PlayButton
    case EditPlayer1(_) => View(s) == DetailsForm
    case EditPlayer2(_) => View(s) == DetailsForm
    case ChooseSender(_) => View(s) == DetailsForm
    case ChooseReceiver(_) => View(s) == DetailsForm
    case EditDuration(_) => View(s) == DetailsForm
    case SubmitForm => View(s) == DetailsForm
    case ClickScore1 => View(s) == TimerPanel
    case ClickScore2 => View(s) == TimerPanel
    case ClickEndGame => View(s) == TimerPanel
    case ClickAddTime => View(s) == TimerPanel && s.gameOver
    case TimerFires => CanTick(s)
  }

  /** The state the handler of `e` (or the input's `onChange` setter) leaves. */
  function Handle(s: Session, e: Event): Session
    requires Available(s, e)
  {
    match e
    case ClickPlay => PlayClicked(s)
    case EditPlayer1(name) => s.(player1 := name)
    case EditPlayer2(name) => s.(player2 := name)
    case ChooseSender(value) => s.(sender := value)
    case ChooseReceiver(value) => s.(receiver := value)
    case EditDuration(minutes) => s.(duration := minutes)
    case SubmitForm => Submitted(s)
    case ClickScore1 => Scored1(s)
    case ClickScore2 => Scored2(s)
    case ClickEndGame => Ended(s)
    case ClickAddTime => TimeAdded(s, AddTimeMinutes)
    case TimerFires => Ticked(s)
  }

  /**
   The countdown effect depends on `[showTimer, timeLeft]`: after a change
   from `before` to `after` it runs again only when one of them changed, and
   it takes the completion branch when the timer panel is then up with no time
   left.
   */
  predicate EffectCompletes(before: Session, after: Session)
  {
    (after.showTimer != before.showTimer || after.timeLeft != before.timeLeft) && SettleDue(after)
  }

  /** The state once the effect has run after a change from `before` to `after`. */
  function AfterEffect(before: Session, after: Session): Session
  {
    if EffectCompletes(before, after) then Settled(after) else after
  }

  /** One event and the effect run that follows it; `None` when the event cannot happen. */
  function Step(s: Session, e: Event): Option<Session>
  {
    if Available(s, e) then Some(AfterEffect(s, Handle(s, e))) else None
  }

  /** A sequence of events, stopping at the first one that cannot happen. */
  function Run(s: Session, events: seq<Event>): Option<Session>
    decreases |events|
  {
    if events == [] then Some(s)
    else
      match Step(s, events[0])
      case None => None
      case Some(t) => Run(t, events[1..])
  }

  /** `n` firings of the interval in a row. */
  function Ticks(n: nat): seq<Event>
  {
    if n == 0 then [] else [TimerFires] + Ticks(n - 1)
  }
}
