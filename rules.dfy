/**
 The plain expressions of the `Home` component: who has won, how a sender or
 receiver choice turns into a player's name, and which of the three screens
 is on show.
 */
module Rules {

  /** What `getWinner` returns when the scores are level. */
  const Tie: string := "It's a tie!"

  /** `getWinner`: the name of the player with more points, or the tie message. */
  function WinnerName(score1: int, score2: int, player1: string, player2: string): string
  {
    if score1 > score2 then player1
    else if score2 > score1 then player2
    else Tie
  }

  /** The three outcomes of `getWinner`, one per ordering of the scores. */
  lemma WinnerCases(score1: int, score2: int, player1: string, player2: string)
    ensures score1 > score2 ==> WinnerName(score1, score2, player1, player2) == player1
    ensures score2 > score1 ==> WinnerName(score1, score2, player1, player2) == player2
    ensures score1 == score2 ==> WinnerName(score1, score2, player1, player2) == Tie
  {
  }

  /** Swapping the two players, names and scores together, does not change the outcome. */
  lemma WinnerSymmetric(score1: int, score2: int, player1: string, player2: string)
    ensures WinnerName(score2, score1, player2, player1) == WinnerName(score1, score2, player1, player2)
  {
  }

  /**
   The outcome depends on the scores only through their order: two pairs of
   scores that compare the same way give the same outcome.
   */
  lemma WinnerDependsOnOrder(a1: int, a2: int, b1: int, b2: int, player1: string, player2: string)
    requires (a1 > a2 <==> b1 > b2) && (a2 > a1 <==> b2 > b1)
    ensures WinnerName(a1, a2, player1, player2) == WinnerName(b1, b2, player1, player2)
  {
  }

  /** In particular, the same number of points for both players leaves the outcome as it was. */
  lemma WinnerShiftInvariant(score1: int, score2: int, delta: int, player1: string, player2: string)
    ensures WinnerName(score1 + delta, score2 + delta, player1, player2)
         == WinnerName(score1, score2, player1, player2)
  {
    WinnerDependsOnOrder(score1 + delta, score2 + delta, score1, score2, player1, player2);
  }

  /**
   The label shown for a sender or receiver choice (`sender === 'player1' ?
   player1 : player2`): only the exact value "player1" names player 1.
   */
  function RoleLabel(role: string, player1: string, player2: string): string
  {
    if role == "player1" then player1 else player2
  }

  /** The options of the sender and receiver selects. */
  datatype Role = Unset | Player1 | Player2

  /** The `value` attribute of each option. */
  function OptionValue(r: Role): (v: string)
    ensures v == "player1" <==> r == Player1
  {
    match r
    case Unset => ""
    case Player1 => "player1"
    case Player2 => "player2"
  }

  /** Player 1's name exactly for "player1"; every other value, unset included, shows player 2's. */
  lemma RoleLabelCases(role: string, player1: string, player2: string)
    ensures role == "player1" ==> RoleLabel(role, player1, player2) == player1
    ensures role != "player1" ==> RoleLabel(role, player1, player2) == player2
  {
  }

  /** Choosing an option shows player 1 only for the Player 1 option; an unset choice shows player 2. */
  lemma RoleLabelOfOption(r: Role, player1: string, player2: string)
    ensures RoleLabel(OptionValue(r), player1, player2) == if r == Player1 then player1 else player2
    ensures RoleLabel(OptionValue(Unset), player1, player2) == player2
  {
  }

  /** The screens of the page: the Play button, the details form, the timer panel. */
  datatype Screen = PlayButton | DetailsForm | TimerPanel

  /** `!showForm ? <Play> : !showTimer ? <form> : <timer panel>`. */
  function CurrentView(showForm: bool, showTimer: bool): Screen
  {
    if !showForm then PlayButton
    else if !showTimer then DetailsForm
    else TimerPanel
  }

  /** Each screen is shown for exactly one combination of the two flags, the Play button for two. */
  lemma CurrentViewCases(showForm: bool, showTimer: bool)
    ensures CurrentView(showForm, showTimer) == PlayButton <==> !showForm
    ensures CurrentView(showForm, showTimer) == DetailsForm <==> showForm && !showTimer
    ensures CurrentView(showForm, showTimer) == TimerPanel <==> showForm && showTimer
  {
  }
}
