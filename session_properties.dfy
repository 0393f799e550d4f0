/**
 What the handlers and the countdown effect promise, stated over `GameSession`:
 one lemma per kind of step, and lemmas over whole runs of events.
 */
module GameProperties {

  import opened Wrappers
  import opened Rules
  import opened GameSession
  import opened TimeDisplay

  /** The names, roles and duration entered on the form. */
  predicate SameSetup(s: Session, t: Session)
  {
    t.player1 == s.player1 && t.player2 == s.player2 && t.sender == s.sender
    && t.receiver == s.receiver && t.duration == s.duration
  }

  /**
   Submitting the form starts a countdown of `duration * 60` seconds with the
   game not over and no winner, keeping names, roles and scores. A zero-minute
   duration is completed at once by the effect.
   */
  lemma StepSubmitForm(s: Session)
    ensures Step(s, SubmitForm).Some? <==> View(s) == DetailsForm
    ensures Step(s, SubmitForm).Some? ==>
      var t := Step(s, SubmitForm).value;
      t.timeLeft == s.duration * 60 && t.showTimer && t.showForm
      && SameSetup(s, t) && t.score1 == s.score1 && t.score2 == s.score2
      && (s.duration != 0 ==> !t.gameOver && t.winner == None)
      && (s.duration == 0 ==> t.gameOver && t.winner == Some(Winner(s)))
  {
  }

  /**
   The interval fires only while the timer panel is up with time left, lowers
   the time by exactly one second and never below zero; the last second ends
   the game with the winner of the current scores. A time of zero or less is
   never counted down.
   */
  lemma StepTimerFires(s: Session)
    ensures Step(s, TimerFires).Some? <==> s.showTimer && s.timeLeft > 0
    ensures s.timeLeft <= 0 ==> Step(s, TimerFires) == None
    ensures Step(s, TimerFires).Some? ==>
      var t := Step(s, TimerFires).value;
      t.timeLeft == s.timeLeft - 1 >= 0
      && (t.timeLeft > 0 ==> t == s.(timeLeft := s.timeLeft - 1))
      && (t.timeLeft == 0 ==> t == s.(timeLeft := 0, gameOver := true, winner := Some(Winner(s))))
  {
  }

  /** End Game sets the time to zero and completes the game with the winner of the current scores. */
  lemma StepEndGame(s: Session)
    ensures Step(s, ClickEndGame).Some? <==> View(s) == TimerPanel
    ensures Step(s, ClickEndGame).Some? ==>
      Step(s, ClickEndGame) == Some(s.(timeLeft := 0, gameOver := true, winner := Some(Winner(s))))
  {
  }

  /** The two ways a game completes agree: End Game is the effect's branch run at time zero. */
  lemma EndGameIsSettle(s: Session)
    requires s.showTimer
    ensures Ended(s) == Settled(s.(timeLeft := 0))
    ensures AfterEffect(s, Ended(s)) == Ended(s)
  {
  }

  /** Running the completion branch again with unchanged scores changes nothing. */
  lemma CompletionIdempotent(s: Session)
    requires SettleDue(s)
    ensures SettleDue(Settled(s)) && Settled(Settled(s)) == Settled(s)
  {
  }

  /**
   End Game clicked a second time with unchanged scores changes nothing, from
   any state: while the countdown runs, after it ran out, or after End Game.
   */
  lemma EndGameIdempotent(s: Session)
    ensures Ended(Ended(s)) == Ended(s)
    ensures Step(s, ClickEndGame).Some? ==>
      Step(Step(s, ClickEndGame).value, ClickEndGame) == Step(s, ClickEndGame)
  {
  }

  /**
   "Add 5 More Minutes" exists only once the game is over; it adds 300 seconds,
   clears the result and restarts the countdown, keeping scores, names and the
   timer panel.
   */
  lemma StepAddTime(s: Session)
    requires Inv(s)
    ensures Step(s, ClickAddTime).Some? <==> View(s) == TimerPanel && s.gameOver
    ensures Step(s, ClickAddTime).Some? ==>
      var t := Step(s, ClickAddTime).value;
      t.timeLeft == s.timeLeft + AddTimeMinutes * 60 == 300
      && !t.gameOver && t.winner == None && CanTick(t)
      && t.score1 == s.score1 && t.score2 == s.score2 && SameSetup(s, t)
      && t.showTimer == s.showTimer && t.showForm == s.showForm
  {
  }

  /**
   A score button raises exactly its own score by one, whether or not the game
   is over, and leaves everything else, the time and the captured winner
   included.
   */
  lemma StepScore(s: Session)
    ensures Step(s, ClickScore1).Some? <==> View(s) == TimerPanel
    ensures Step(s, ClickScore2).Some? <==> View(s) == TimerPanel
    ensures Step(s, ClickScore1).Some? ==> Step(s, ClickScore1) == Some(s.(score1 := s.score1 + 1))
    ensures Step(s, ClickScore2).Some? ==> Step(s, ClickScore2) == Some(s.(score2 := s.score2 + 1))
  {
  }

  /** Every step keeps the reachable-state invariant. */
  lemma StepPreservesInv(s: Session, e: Event)
    requires Inv(s) && Step(s, e).Some?
    ensures Inv(Step(s, e).value)
  {
  }

  /** Every run keeps the reachable-state invariant. */
  lemma {:induction false} RunPreservesInv(s: Session, events: seq<Event>)
    requires Inv(s) && Run(s, events).Some?
    ensures Inv(Run(s, events).value)
    decreases |events|
  {
    if events != [] {
      StepPreservesInv(s, events[0]);
      RunPreservesInv(Step(s, events[0]).value, events[1..]);
    }
  }

  /**
   From the initial state, whatever the user does, the game is over exactly
   when the timer panel shows no time left, the result is set exactly when the
   game is over, and the timer panel is on screen exactly when `showTimer` is set.
   */
  lemma ReachableFacts(events: seq<Event>)
    requires Run(Initial(), events).Some?
    ensures var t := Run(Initial(), events).value;
      (t.gameOver <==> t.showTimer && t.timeLeft == 0)
      && (t.gameOver <==> t.winner.Some?)
      && (View(t) == TimerPanel <==> t.showTimer)
  {
    RunPreservesInv(Initial(), events);
  }

  /** One step never lowers a score or clears `showForm` or `showTimer`. */
  lemma StepMonotone(s: Session, e: Event)
    requires Step(s, e).Some?
    ensures var t := Step(s, e).value;
      t.score1 >= s.score1 && t.score2 >= s.score2
      && (s.showForm ==> t.showForm) && (s.showTimer ==> t.showTimer)
  {
  }

  /** Scores never go down, and neither the form nor the timer panel is ever taken away. */
  lemma {:induction false} RunMonotone(s: Session, events: seq<Event>)
    requires Run(s, events).Some?
    ensures var t := Run(s, events).value;
      t.score1 >= s.score1 && t.score2 >= s.score2
      && (s.showForm ==> t.showForm) && (s.showTimer ==> t.showTimer)
    decreases |events|
  {
    if events != [] {
      StepMonotone(s, events[0]);
      RunMonotone(Step(s, events[0]).value, events[1..]);
    }
  }

  /** No event ever sets a negative duration. */
  predicate NonNegativeDurations(events: seq<Event>)
  {
    forall i :: 0 <= i < |events| ==> events[i].EditDuration? ==> events[i].minutes >= 0
  }

  /** One step keeps the time and the duration non-negative unless it enters a negative duration. */
  lemma StepTimeNonNegative(s: Session, e: Event)
    requires s.timeLeft >= 0 && s.duration >= 0 && (e.EditDuration? ==> e.minutes >= 0)
    requires Step(s, e).Some?
    ensures Step(s, e).value.timeLeft >= 0 && Step(s, e).value.duration >= 0
  {
  }

  /** As long as the durations entered are not negative, the time left never goes negative. */
  lemma {:induction false} RunTimeNonNegative(s: Session, events: seq<Event>)
    requires s.timeLeft >= 0 && s.duration >= 0 && NonNegativeDurations(events)
    requires Run(s, events).Some?
    ensures Run(s, events).value.timeLeft >= 0 && Run(s, events).value.duration >= 0
    decreases |events|
  {
    if events != [] {
      var t := Step(s, events[0]).value;
      StepTimeNonNegative(s, events[0]);
      assert NonNegativeDurations(events[1..]) by {
        forall i | 0 <= i < |events| - 1
          ensures events[1..][i].EditDuration? ==> events[1..][i].minutes >= 0
        {
          assert events[1..][i] == events[i + 1];
        }
      }
      RunTimeNonNegative(t, events[1..]);
    }
  }

  /** A negative time left is a whole number of minutes. */
  predicate NegativeOnlyWholeMinutes(s: Session)
  {
    s.timeLeft < 0 ==> s.timeLeft % 60 == 0
  }

  /**
   The time left goes negative only through a negative duration, so it is then
   a whole number of minutes: ticks stop at zero, and "Add 5 More Minutes"
   appears only at time zero.
   */
  lemma StepNegativeOnlyWholeMinutes(s: Session, e: Event)
    requires Inv(s) && NegativeOnlyWholeMinutes(s) && Step(s, e).Some?
    ensures NegativeOnlyWholeMinutes(Step(s, e).value)
  {
    if e == SubmitForm {
      assert (s.duration * 60) % 60 == 0;
    }
  }

  lemma {:induction false} RunNegativeOnlyWholeMinutes(s: Session, events: seq<Event>)
    requires Inv(s) && NegativeOnlyWholeMinutes(s) && Run(s, events).Some?
    ensures NegativeOnlyWholeMinutes(Run(s, events).value)
    decreases |events|
  {
    if events != [] {
      StepPreservesInv(s, events[0]);
      StepNegativeOnlyWholeMinutes(s, events[0]);
      RunNegativeOnlyWholeMinutes(Step(s, events[0]).value, events[1..]);
    }
  }

  /**
   Every time the page can reach shows as "m:00" when negative: a negative
   duration `d` counts as `d * 60` seconds and reads "d:00".
   */
  lemma ReachableNegativeDisplay(events: seq<Event>)
    requires Run(Initial(), events).Some? && Run(Initial(), events).value.timeLeft < 0
    ensures var t := Run(Initial(), events).value.timeLeft;
      Display(t) == IntToString(t / 60) + ":00"
  {
    RunNegativeOnlyWholeMinutes(Initial(), events);
    var t := Run(Initial(), events).value.timeLeft;
    WholeMinutesDisplay(t / 60);
    assert t / 60 * 60 == t;
  }

  predicate OnlyScoreClicks(events: seq<Event>)
  {
    forall i :: 0 <= i < |events| ==> events[i] == ClickScore1 || events[i] == ClickScore2
  }

  /**
   The winner is captured when the game completes: score clicks afterwards
   (or at any time) change neither the time, nor whether the game is over,
   nor the winner shown; they only add their count to the scores.
   */
  lemma {:induction false} ScoresKeepWinner(s: Session, events: seq<Event>)
    requires OnlyScoreClicks(events) && Run(s, events).Some?
    ensures var t := Run(s, events).value;
      t.winner == s.winner && t.gameOver == s.gameOver && t.timeLeft == s.timeLeft
      && t.score1 + t.score2 == s.score1 + s.score2 + |events|
    decreases |events|
  {
    if events != [] {
      assert events[0] == ClickScore1 || events[0] == ClickScore2;
      assert OnlyScoreClicks(events[1..]) by {
        forall i | 0 <= i < |events| - 1
          ensures events[1..][i] == ClickScore1 || events[1..][i] == ClickScore2
        {
          assert events[1..][i] == events[i + 1];
        }
      }
      ScoresKeepWinner(Step(s, events[0]).value, events[1..]);
    }
  }

  /** A tied game between Alice and Bob followed by one point for Alice still shows the tie. */
  lemma StaleWinnerExample()
    ensures var s := Initial().(showForm := true, player1 := "Alice", player2 := "Bob", showTimer := true,
                                gameOver := true, winner := Some(Tie));
      Run(s, [ClickScore1]) == Some(s.(score1 := 1))
      && Run(s, [ClickScore1]).value.winner == Some(Tie)
      && Winner(Run(s, [ClickScore1]).value) == "Alice"
  {
    var s := Initial().(showForm := true, player1 := "Alice", player2 := "Bob", showTimer := true,
                        gameOver := true, winner := Some(Tie));
    assert Step(s, ClickScore1) == Some(s.(score1 := 1));
  }

  /**
   Left alone, the countdown takes exactly `timeLeft` firings: each of the
   first `n` lowers the time by one, and the last completes the game with the
   winner of the scores at that moment.
   */
  lemma {:induction false} RunTicks(s: Session, n: nat)
    requires s.showTimer && s.timeLeft > 0 && n <= s.timeLeft
    ensures Run(s, Ticks(n)) == Some(
      if n == s.timeLeft then Settled(s.(timeLeft := 0)) else s.(timeLeft := s.timeLeft - n))
    decreases n
  {
    if n == 0 {
      assert s.(timeLeft := s.timeLeft - 0) == s;
    } else {
      var t := Step(s, TimerFires).value;
      assert Ticks(n)[0] == TimerFires && Ticks(n)[1..] == Ticks(n - 1);
      if s.timeLeft == 1 {
        assert t == Settled(s.(timeLeft := 0));
      } else {
        assert t == s.(timeLeft := s.timeLeft - 1);
        RunTicks(t, n - 1);
        assert t.(timeLeft := t.timeLeft - (n - 1)) == s.(timeLeft := s.timeLeft - n);
        assert Settled(t.(timeLeft := 0)) == Settled(s.(timeLeft := 0));
      }
    }
  }

  /** Sender and receiver are never checked against each other: both may name the same player. */
  lemma SameRoleAllowed(s: Session)
    requires View(s) == DetailsForm
    ensures Run(s, [ChooseSender("player1"), ChooseReceiver("player1")])
         == Some(s.(sender := "player1", receiver := "player1"))
  {
    var t := s.(sender := "player1");
    assert Step(s, ChooseSender("player1")) == Some(t);
    assert Step(t, ChooseReceiver("player1")) == Some(t.(receiver := "player1"));
  }
}
