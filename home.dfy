/**
 The `Home` component as an object: its fields are the state hooks, its
 methods are the event handlers and the two branches of the countdown effect,
 each specified by the matching transition function of `GameSession`. The
 caller plays the part of the page: it runs `Tick` while the interval is
 running, and `Settle` right after a change that makes the effect's
 completion branch due (`effectDue`), before any other event.
 */
module HomePage {

  import opened Wrappers
  import opened Rules
  import opened TimeDisplay
  import opened GameSession

  class Home {
    var showForm: bool
    var player1: string
    var player2: string
    var sender: string
    var receiver: string
    var duration: int
    var timeLeft: int
    var showTimer: bool
    var score1: nat
    var score2: nat
    var gameOver: bool
    var winner: Option<string>

    /**
     Set when the last change moved `showTimer` or `timeLeft` into a state
     where the countdown effect takes its completion branch: React runs that
     effect after the render, before any further event, so while it is set
     only `Settle` may come next.
     */
    ghost var effectDue: bool

    /** The fields as a `GameSession.Session` value. */
    function State(): Session
      reads this
    {
      Session(showForm, player1, player2, sender, receiver, duration, timeLeft,
              showTimer, score1, score2, gameOver, winner)
    }

    ghost predicate Valid()
      reads this
    {
      Consistent(State()) && (effectDue ==> SettleDue(State()))
    }

    /** The first render: every hook at its initial value; the effect's first run does nothing. */
    constructor ()
      ensures Valid() && State() == Initial() && !effectDue
    {
      showForm, player1, player2, sender, receiver := false, "", "", "", "";
      duration, timeLeft, showTimer := 0, 0, false;
      score1, score2, gameOver, winner := 0, 0, false, None;
      effectDue := false;
    }

    /** `handlePlayClick`: the Play button gives way to the form. */
    method PlayClick()
      requires Valid() && !effectDue
      modifies this
      ensures Valid() && State() == PlayClicked(old(State())) && !effectDue
    {
      showForm := true;
    }

    /** The player 1 name input. */
    method SetPlayer1(name: string)
      requires Valid() && !effectDue
      modifies this
      ensures Valid() && State() == old(State()).(player1 := name) && !effectDue
    {
      player1 := name;
    }

    /** The player 2 name input. */
    method SetPlayer2(name: string)
      requires Valid() && !effectDue
      modifies this
      ensures Valid() && State() == old(State()).(player2 := name) && !effectDue
    {
      player2 := name;
    }

    /** The sender select. */
    method SetSender(value: string)
      requires Valid() && !effectDue
      modifies this
      ensures Valid() && State() == old(State()).(sender := value) && !effectDue
    {
      sender := value;
    }

    /** The receiver select. */
    method SetReceiver(value: string)
      requires Valid() && !effectDue
      modifies this
      ensures Valid() && State() == old(State()).(receiver := value) && !effectDue
    {
      receiver := value;
    }

    /** The duration input, already converted to a whole number of minutes. */
    method SetDuration(minutes: int)
      requires Valid() && !effectDue
      modifies this
      ensures Valid() && State() == old(State()).(duration := minutes) && !effectDue
    {
      duration := minutes;
    }

    /**
     `handleSubmit`: start the countdown from `duration` minutes with no result
     shown; a zero-minute game leaves the completion branch due.
     */
    method Submit()
      requires Valid() && !effectDue
      modifies this
      ensures Valid() && State() == Submitted(old(State()))
      ensures timeLeft == old(duration) * 60 && showTimer && !gameOver && winner == None
      ensures effectDue <==> EffectCompletes(old(State()), State())
    {
      ghost var before := State();
      timeLeft := duration * 60;
      showTimer := true;
      gameOver := false;
      winner := None;
      effectDue := EffectCompletes(before, State());
    }

    /**
     One run of the interval callback; the interval only exists while there is
     time left. The tick that reaches zero leaves the completion branch due.
     */
    method Tick()
      requires Valid() && CanTick(State())
      modifies this
      ensures Valid() && State() == Ticked(old(State()))
      ensures timeLeft == old(timeLeft) - 1 && timeLeft >= 0
      ensures effectDue <==> timeLeft == 0
    {
      timeLeft := timeLeft - 1;
      effectDue := timeLeft == 0;
    }

    /**
     The effect's completion branch, run right after a change that made it due.
     After End Game during a countdown it runs with the game already over and
     changes nothing (`GameProperties.EndGameIsSettle`).
     */
    method Settle()
      requires Valid() && effectDue
      modifies this
      ensures Valid() && State() == Settled(old(State())) && !effectDue
      ensures gameOver && winner == Some(WinnerName(score1, score2, player1, player2))
    {
      gameOver := true;
      winner := Some(WinnerName(score1, score2, player1, player2));
      effectDue := false;
    }

    /** `handleAddTime`: more time, and the result is withdrawn. */
    method AddTime(additionalMinutes: int)
      requires Valid() && !effectDue
      modifies this
      ensures Valid() && State() == TimeAdded(old(State()), additionalMinutes)
      ensures timeLeft == old(timeLeft) + additionalMinutes * 60 && !gameOver && winner == None
      ensures effectDue <==> EffectCompletes(old(State()), State())
    {
      ghost var before := State();
      timeLeft := timeLeft + additionalMinutes * 60;
      gameOver := false;
      winner := None;
      effectDue := EffectCompletes(before, State());
    }

    /** `handleIncreaseScore1`: no guard on the phase, and the captured winner stays. */
    method IncreaseScore1()
      requires Valid() && !effectDue
      modifies this
      ensures Valid() && State() == Scored1(old(State())) && !effectDue
      ensures score1 == old(score1) + 1 && winner == old(winner)
    {
      score1 := score1 + 1;
    }

    /** `handleIncreaseScore2`: no guard on the phase, and the captured winner stays. */
    method IncreaseScore2()
      requires Valid() && !effectDue
      modifies this
      ensures Valid() && State() == Scored2(old(State())) && !effectDue
      ensures score2 == old(score2) + 1 && winner == old(winner)
    {
      score2 := score2 + 1;
    }

    /**
     `handleEndGame`: no time left, the game is over and the winner of the
     current scores is shown. When time was left, the effect re-runs next.
     */
    method EndGame()
      requires Valid() && !effectDue
      modifies this
      ensures Valid() && State() == Ended(old(State()))
      ensures timeLeft == 0 && gameOver && winner == Some(WinnerName(score1, score2, player1, player2))
      ensures effectDue <==> EffectCompletes(old(State()), State())
    {
      ghost var before := State();
      timeLeft := 0;
      gameOver := true;
      winner := Some(WinnerName(score1, score2, player1, player2));
      effectDue := EffectCompletes(before, State());
    }

    /**
     The interval left to run with nobody clicking: one tick a second, and the
     effect's completion branch once the time reaches zero (compare
     `GameProperties.RunTicks`).
     */
    method RunOut()
      requires Valid() && CanTick(State())
      modifies this
      ensures Valid() && State() == Settled(old(State()).(timeLeft := 0)) && !effectDue
    {
      ghost var start := State();
      while timeLeft > 0
        invariant Valid() && showTimer && timeLeft >= 0 && !effectDue
        invariant timeLeft > 0 ==> State() == start.(timeLeft := timeLeft)
        invariant timeLeft == 0 ==> State() == Settled(start.(timeLeft := 0))
        decreases timeLeft
      {
        Tick();
        if timeLeft == 0 {
          Settle();
        }
      }
    }
  }

  /**
   Alice and Bob play for one minute: the panel starts at "1:00", and with no
   points scored the game ends in a tie after sixty seconds.
   */
  method OneMinuteTie() returns (shownAtStart: string, result: Option<string>, shownAtEnd: string)
    ensures shownAtStart == "1:00" && shownAtEnd == "0:00"
    ensures result == Some(Tie)
  {
    var home := new Home();
    home.PlayClick();
    home.SetPlayer1("Alice");
    home.SetPlayer2("Bob");
    home.SetDuration(1);
    home.Submit();
    assert home.timeLeft == 60 && home.score1 == 0 && home.score2 == 0;
    DisplayExamples();
    shownAtStart := Display(home.timeLeft);
    home.RunOut();
    assert home.timeLeft == 0 && home.score1 == 0 && home.score2 == 0;
    result := home.winner;
    DisplayZero();
    shownAtEnd := Display(home.timeLeft);
  }

  /**
   Three points for Alice and one for Bob, then End Game and the effect run it
   triggers: Alice wins with no time left, and later points for Bob leave her
   the winner on screen.
   */
  method EndGameAfterScoring() returns (atEnd: Option<string>, timeAtEnd: int, afterLatePoints: Option<string>)
    ensures atEnd == Some("Alice") && timeAtEnd == 0
    ensures afterLatePoints == Some("Alice")
  {
    var home := new Home();
    home.PlayClick();
    home.SetPlayer1("Alice");
    home.SetPlayer2("Bob");
    home.SetDuration(2);
    home.Submit();
    home.IncreaseScore1();
    home.IncreaseScore1();
    home.IncreaseScore1();
    home.IncreaseScore2();
    home.EndGame();
    home.Settle();
    atEnd, timeAtEnd := home.winner, home.timeLeft;
    home.IncreaseScore2();
    home.IncreaseScore2();
    home.IncreaseScore2();
    afterLatePoints := home.winner;
  }

  /**
   A one-minute game that runs out, then "Add 5 More Minutes": the result is
   withdrawn and the clock restarts at "5:00" with the interval running again.
   */
  method AddFiveMinutesAfterTimeOver() returns (before: Option<string>, after: Option<string>, shown: string,
                                                 ticking: bool)
    ensures before == Some(Tie)
    ensures after == None && shown == "5:00" && ticking
  {
    var home := new Home();
    home.PlayClick();
    home.SetDuration(1);
    home.Submit();
    home.RunOut();
    before := home.winner;
    home.AddTime(AddTimeMinutes);
    after := home.winner;
    shown := Display(home.timeLeft);
    DisplayExamples();
    ticking := CanTick(home.State());
  }
}
