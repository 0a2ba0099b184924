/** One team's turn at the board: cell selection, answer submission, the free
    space, the score kept in step with the completed lines, the one-second
    countdown and the finish gate. Each operation returns the next session
    state, the score reports it sends to the team list and whether the turn ended. */
module BingoGame {
  import opened Types
  import opened Lines
  import opened Text

  /** The game component's state for the team whose turn it is. */
  datatype Session = Session(
    teamId: string,
    board: seq<Cell>,
    selected: Option<nat>,
    answer: string,
    completedLines: int,
    score: int,
    timeLeft: int,
    allAnswered: bool
  )

  /** The arguments of one `onUpdateScore` call. */
  datatype ScoreUpdate = ScoreUpdate(
    teamId: string,
    score: int,
    board: seq<Cell>,
    completedLines: int,
    timeRemaining: int
  )

  /** The result of one event: the next state, the reports sent in order, and
      whether `onFinish` was called. */
  datatype Outcome = Outcome(session: Session, updates: seq<ScoreUpdate>, finished: bool)

  /** The report of a session's current state. */
  function Report(s: Session): ScoreUpdate
  {
    ScoreUpdate(s.teamId, s.score, s.board, s.completedLines, s.timeLeft)
  }

  /** Runs `second` after `first`: reports are concatenated in order. */
  function Then(first: Outcome, second: Outcome): Outcome
  {
    Outcome(second.session, first.updates + second.updates, first.finished || second.finished)
  }

  function Quiet(s: Session): Outcome
  {
    Outcome(s, [], false)
  }

  /** The reports of an outcome keep a team record in step with the final state:
      every report names the session's team, and either none is sent and the
      reported values are as they were, or the last one reports the final state. */
  predicate ReportsFinalState(s: Session, o: Outcome)
  {
    && o.session.teamId == s.teamId
    && (forall k :: 0 <= k < |o.updates| ==> o.updates[k].teamId == s.teamId)
    && (o.updates == [] ==> Report(o.session) == Report(s))
    && (o.updates != [] ==> o.updates[|o.updates| - 1] == Report(o.session))
  }

  /** Running one outcome after another keeps the reports in step with the final state. */
  lemma ThenReports(s: Session, first: Outcome, second: Outcome)
    requires ReportsFinalState(s, first) && ReportsFinalState(first.session, second)
    ensures ReportsFinalState(s, Then(first, second))
  {
    var us := first.updates + second.updates;
    forall k | 0 <= k < |us|
      ensures us[k].teamId == s.teamId
    {
      if k >= |first.updates| {
        assert us[k] == second.updates[k - |first.updates|];
      }
    }
    if second.updates != [] {
      assert us[|us| - 1] == second.updates[|second.updates| - 1];
    } else {
      assert us == first.updates;
    }
  }

  /** Number of answered cells (`board.filter(cell => cell.answered).length`). */
  function AnsweredCount(b: seq<Cell>): (n: nat)
    ensures n <= |b|
  {
    if b == [] then 0 else AnsweredCount(b[..|b| - 1]) + (if b[|b| - 1].answered then 1 else 0)
  }

  /** The answered positions of a board. */
  ghost function AnsweredSet(b: seq<Cell>): set<nat>
  {
    set i: nat | i < |b| && b[i].answered
  }

  /** The filter count is the number of answered positions. */
  lemma {:induction false} AnsweredCountIsSetSize(b: seq<Cell>)
    ensures AnsweredCount(b) == |AnsweredSet(b)|
  {
    if b != [] {
      var init := b[..|b| - 1];
      var last := |b| - 1;
      AnsweredCountIsSetSize(init);
      assert AnsweredSet(b) == AnsweredSet(init) + (if b[last].answered then {last} else {});
      assert last !in AnsweredSet(init);
    }
  }

  /** The count reaches the board's length exactly when every cell is answered. */
  lemma {:induction false} AnsweredCountFullIff(b: seq<Cell>)
    ensures AnsweredCount(b) == |b| <==> AllAnswered(b)
  {
    if b != [] {
      var init := b[..|b| - 1];
      AnsweredCountFullIff(init);
      if AllAnswered(b) {
        assert AllAnswered(init) by {
          forall i | 0 <= i < |init| ensures init[i].answered {
            assert init[i] == b[i];
          }
        }
      }
      if AnsweredCount(b) == |b| {
        forall i | 0 <= i < |b| ensures b[i].answered {
          if i < |init| {
            assert init[i] == b[i];
          }
        }
      }
    }
  }

  /** Scoring values in a usable state: a 25-cell board, a line count no larger
      than the board shows, a score of ten points per counted line and a
      remaining time within one turn. */
  predicate ScoringConsistent(board: seq<Cell>, completedLines: int, score: int, timeRemaining: int)
  {
    && |board| == BoardSize
    && 0 <= completedLines <= CompletedLines(board)
    && score == completedLines * PointsPerLine
    && 0 <= timeRemaining <= TurnSeconds
  }

  /** A team's record in a usable state. */
  predicate TeamConsistent(t: Team)
  {
    ScoringConsistent(t.board, t.completedLines, t.score, t.timeRemaining)
  }

  /** The values a report carries in a usable state. */
  predicate UpdateConsistent(u: ScoreUpdate)
  {
    ScoringConsistent(u.board, u.completedLines, u.score, u.timeRemaining)
  }

  /** The session invariant once the board has been set up: the free space is
      marked, the counted lines are exactly the board's completed lines, the score
      is ten points per line, the all-answered flag is accurate, a selected cell
      is an unanswered one, and the clock is within one turn. */
  predicate Valid(s: Session)
  {
    && |s.board| == BoardSize
    && s.board[Centre].answered
    && s.completedLines == CompletedLines(s.board)
    && s.score == s.completedLines * PointsPerLine
    && (s.allAnswered <==> AllAnswered(s.board))
    && (s.selected.Some? ==> s.selected.value < BoardSize && !s.board[s.selected.value].answered)
    && 0 <= s.timeLeft <= TurnSeconds
  }

  /** The component's initial state for a team. The clock starts from the
      team's remaining time, except that a remaining time of 0 counts as unset
      and starts a fresh ten minutes (`team.timeRemaining || 600`). */
  function Start(team: Team): (s: Session)
    ensures s.teamId == team.id
    ensures s.board == team.board && s.selected == None && s.answer == []
    ensures s.completedLines == team.completedLines && s.score == team.score
    ensures s.timeLeft == (if team.timeRemaining == 0 then TurnSeconds else team.timeRemaining)
    ensures !s.allAnswered
  {
    Session(team.id, team.board, None, "", team.completedLines, team.score,
            if team.timeRemaining == 0 then TurnSeconds else team.timeRemaining, false)
  }

  /** The free-space step of mounting: an unmarked centre becomes the answered
      "FREE SPACE" cell and is reported; a marked one is left alone. */
  function MarkFreeSpace(s: Session): (o: Outcome)
    requires |s.board| == BoardSize
    ensures |o.session.board| == BoardSize && o.session.board[Centre].answered
    ensures s.board[Centre].answered ==> o == Quiet(s)
    ensures !s.board[Centre].answered ==>
              && o.session == s.(board := s.board[Centre := FreeSpaceCell])
              && o.updates == [Report(o.session)]
    ensures !o.finished
  {
    if !s.board[Centre].answered then
      var s' := s.(board := s.board[Centre := FreeSpaceCell]);
      Outcome(s', [Report(s')], false)
    else
      Quiet(s)
  }

  /** The effect run whenever the board changes: the line count and score are
      raised, never lowered, to the board's completed lines (and ten points per
      line), with a report when they rise; the all-answered flag is set once all
      25 cells are answered. */
  function ScoreBoard(s: Session): (o: Outcome)
    requires |s.board| == BoardSize
    ensures o.session.board == s.board && !o.finished
    ensures o.session.completedLines >= s.completedLines
    ensures o.session.completedLines >= CompletedLines(s.board)
    ensures o.session.completedLines == s.completedLines
            || o.session.completedLines == CompletedLines(s.board)
    ensures o.session.completedLines == s.completedLines ==> o.session.score == s.score
    ensures o.session.completedLines != s.completedLines ==>
              o.session.score == o.session.completedLines * PointsPerLine
    ensures o.session.allAnswered <==> s.allAnswered || AllAnswered(s.board)
    ensures o.session == s.(completedLines := o.session.completedLines, score := o.session.score,
                            allAnswered := o.session.allAnswered)
    ensures CompletedLines(s.board) > s.completedLines ==>
              && o.session.completedLines == CompletedLines(s.board)
              && o.updates == [Report(o.session)]
    ensures CompletedLines(s.board) <= s.completedLines ==>
              && o.session.completedLines == s.completedLines && o.session.score == s.score
              && o.updates == []
    ensures ReportsFinalState(s, o)
  {
    AnsweredCountFullIff(s.board);
    var newLines := CompletedLines(s.board);
    var s1 :=
      if newLines > s.completedLines then
        s.(completedLines := newLines, score := newLines * PointsPerLine)
      else s;
    var updates := if newLines > s.completedLines then [Report(s1)] else [];
    var s2 := if AnsweredCount(s.board) == BoardSize then s1.(allAnswered := true) else s1;
    Outcome(s2, updates, false)
  }

  /** `handleCellClick`: an unanswered cell becomes the selected one; a click on
      an answered cell changes nothing. */
  function SelectCell(s: Session, index: nat): (r: Session)
    requires index < |s.board|
    ensures r.board == s.board && r.answer == s.answer
    ensures !s.board[index].answered ==> r == s.(selected := Some(index))
    ensures s.board[index].answered ==> r == s
  {
    if !s.board[index].answered then s.(selected := Some(index)) else s
  }

  /** The answer field's change handler. */
  function EditAnswer(s: Session, text: string): (r: Session)
    ensures r.answer == text && r == s.(answer := text)
  {
    s.(answer := text)
  }

  /** Whether `handleAnswerSubmit` accepts: a cell is selected and the answer
      is not blank. */
  predicate CanSubmit(s: Session)
  {
    s.selected.Some? && Trim(s.answer) != []
  }

  /** An answer is accepted exactly when a cell is selected and the answer holds
      a character other than whitespace. */
  lemma CanSubmitIff(s: Session)
    ensures CanSubmit(s) <==> s.selected.Some? && !AllWhitespace(s.answer)
  {
    TrimEmptyIff(s.answer);
  }

  /** The state after the selected cell is answered with `text`: that cell alone
      changes, the selection and the answer field are cleared, and the team,
      score, lines, clock and all-answered flag are kept. */
  function Submitted(s: Session, text: string): (r: Session)
    requires s.selected.Some? && s.selected.value < |s.board|
    ensures |r.board| == |s.board| && r.board[s.selected.value] == Cell(true, text)
    ensures forall j :: 0 <= j < |s.board| && j != s.selected.value ==> r.board[j] == s.board[j]
    ensures r.selected == None && r.answer == []
    ensures r.teamId == s.teamId && r.timeLeft == s.timeLeft
    ensures r.completedLines == s.completedLines && r.score == s.score
    ensures r.allAnswered == s.allAnswered
  {
    s.(board := s.board[s.selected.value := Cell(true, text)], selected := None, answer := "")
  }

  /** `handleAnswerSubmit`: with a selected cell and a non-blank answer, the cell
      is answered with the trimmed text as in `Submitted`, and the new state is
      reported with the score and line count as they were. Without a selection
      or with a blank answer nothing changes. */
  function SubmitAnswer(s: Session): (o: Outcome)
    requires s.selected.Some? ==> s.selected.value < |s.board|
    ensures |o.session.board| == |s.board| && !o.finished
    ensures CanSubmit(s) ==>
              && o.session == Submitted(s, Trim(s.answer))
              && o.updates == [Report(o.session)]
    ensures !CanSubmit(s) ==> o == Quiet(s)
  {
    if CanSubmit(s) then
      var s' := Submitted(s, Trim(s.answer));
      Outcome(s', [Report(s')], false)
    else
      Quiet(s)
  }

  /** An accepted answer's one report names the team and describes the new state. */
  lemma SubmitReports(s: Session)
    requires CanSubmit(s) && s.selected.value < |s.board|
    ensures ReportsFinalState(s, SubmitAnswer(s))
  {
    var o := SubmitAnswer(s);
    assert o.updates == [Report(o.session)] && o.session.teamId == s.teamId;
  }

  /** `handleFinish`: a final report of the current state, then the turn ends. */
  function Finish(s: Session): (o: Outcome)
    ensures o.session == s && o.updates == [Report(s)] && o.finished
  {
    Outcome(s, [Report(s)], true)
  }

  /** The timer effect, run on mounting and after every change of the clock:
      with no time left the turn is finished at once; otherwise the next tick is
      scheduled and nothing changes yet. */
  function TimerEffect(s: Session): (o: Outcome)
    ensures o.finished <==> s.timeLeft <= 0
    ensures o.session == s
    ensures s.timeLeft > 0 ==> o.updates == []
    ensures s.timeLeft <= 0 ==> o.updates == [Report(s)]
    ensures ReportsFinalState(s, o)
  {
    if s.timeLeft <= 0 then Finish(s) else Quiet(s)
  }

  /** The scheduled one-second callback: one second less, reported. */
  function Tick(s: Session): (o: Outcome)
    requires s.timeLeft > 0
    ensures o.session == s.(timeLeft := s.timeLeft - 1)
    ensures o.updates == [Report(o.session)] && !o.finished
    ensures ReportsFinalState(s, o)
  {
    var s' := s.(timeLeft := s.timeLeft - 1);
    Outcome(s', [Report(s')], false)
  }

  /** The finish button is enabled once time is up or every cell is answered:
      it is disabled only while time is left and some cell is unanswered. */
  function FinishEnabled(s: Session): (ok: bool)
    ensures ok <==> s.timeLeft <= 0 || s.allAnswered
  {
    !(s.timeLeft > 0 && !s.allAnswered)
  }

  /** In a valid session the finish gate opens exactly when the clock has run
      out or all 25 cells are answered. */
  lemma FinishEnabledIff(s: Session)
    requires Valid(s)
    ensures FinishEnabled(s) <==> s.timeLeft <= 0 || AnsweredCount(s.board) == BoardSize
  {
    AnsweredCountFullIff(s.board);
  }

  /** What the user and the clock can do during a turn. */
  datatype Event =
    | ClickCell(index: nat)
    | TypeAnswer(text: string)
    | SubmitPressed
    | SecondElapsed
    | FinishPressed

  /** Mounting the component: the free space is marked, the board effect scores
      the board and the timer effect checks the clock. */
  function Mount(s: Session): (o: Outcome)
    requires |s.board| == BoardSize
    ensures o.session.board == (if s.board[Centre].answered then s.board
                                else s.board[Centre := FreeSpaceCell])
    ensures o.session.selected == s.selected && o.session.answer == s.answer
    ensures o.session.timeLeft == s.timeLeft
    ensures o.finished <==> s.timeLeft <= 0
    ensures ReportsFinalState(s, o)
  {
    var o1 := MarkFreeSpace(s);
    var o2 := ScoreBoard(o1.session);
    var o3 := TimerEffect(o2.session);
    ThenReports(s, o1, o2);
    ThenReports(s, Then(o1, o2), o3);
    Then(Then(o1, o2), o3)
  }

  /** Whether an event can be applied: clicks come from the 25 cells of the grid. */
  predicate EventAllowed(s: Session, e: Event)
  {
    && |s.board| == BoardSize
    && (s.selected.Some? ==> s.selected.value < BoardSize)
    && (e.ClickCell? ==> e.index < BoardSize)
    && (e.SecondElapsed? ==> s.timeLeft > 0)
  }

  /** One event of the turn, followed by the effects it sets off: a new board is
      scored, a new clock value is checked. A disabled finish button does nothing. */
  function Step(s: Session, e: Event): (o: Outcome)
    requires EventAllowed(s, e)
    ensures |o.session.board| == BoardSize
    ensures o.finished <==> (e.FinishPressed? && FinishEnabled(s)) || (e.SecondElapsed? && s.timeLeft == 1)
    ensures ReportsFinalState(s, o)
  {
    match e
    case ClickCell(i) => Quiet(SelectCell(s, i))
    case TypeAnswer(text) => Quiet(EditAnswer(s, text))
    case SubmitPressed =>
      if CanSubmit(s) then
        var o := SubmitAnswer(s);
        var o2 := ScoreBoard(o.session);
        SubmitReports(s);
        ThenReports(s, o, o2);
        Then(o, o2)
      else Quiet(s)
    case SecondElapsed =>
      var o := Tick(s);
      var o2 := TimerEffect(o.session);
      ThenReports(s, o, o2);
      Then(o, o2)
    case FinishPressed =>
      if FinishEnabled(s) then Finish(s) else Quiet(s)
  }

  /** Answered cells are never changed, and the line count and score never fall. */
  predicate Progress(s: Session, s': Session)
    requires |s.board| == BoardSize && |s'.board| == BoardSize
  {
    && (forall i :: 0 <= i < BoardSize && s.board[i].answered ==> s'.board[i] == s.board[i])
    && s.completedLines <= s'.completedLines
    && s.score <= s'.score
  }

  /** Mounting on a consistent team record yields a valid session whose reports
      are all consistent. */
  lemma MountValid(t: Team)
    requires TeamConsistent(t)
    ensures Valid(Mount(Start(t)).session)
    ensures forall u :: u in Mount(Start(t)).updates ==> UpdateConsistent(u)
  {
    var s := Start(t);
    var o1 := MarkFreeSpace(s);
    var b1 := o1.session.board;
    assert Covers(s.board, b1);
    CompletedLinesMonotone(s.board, b1);
    var o2 := ScoreBoard(o1.session);
    assert o2.session.completedLines == CompletedLines(b1);
  }

  /** A freshly registered team's turn opens with exactly one answered cell, the
      free space, and no completed line. */
  lemma FreshBoardMount(t: Team)
    requires |t.board| == BoardSize
    requires forall i :: 0 <= i < BoardSize ==> t.board[i] == EmptyCell
    requires t.completedLines == 0 && t.score == 0 && 0 <= t.timeRemaining <= TurnSeconds
    ensures var s := Mount(Start(t)).session;
      && (forall i :: 0 <= i < BoardSize ==> (s.board[i].answered <==> i == Centre))
      && s.board[Centre] == FreeSpaceCell
      && s.completedLines == 0 && s.score == 0
  {
    var s := Start(t);
    var b1 := MarkFreeSpace(s).session.board;
    CentreOnlyHasNoLines(b1);
  }

  /** Answering the selected cell of a valid session leaves every answered cell
      as it was, so no completed line and no all-answered board is lost. */
  lemma SubmittedKeepsAnswers(s: Session, text: string)
    requires Valid(s) && s.selected.Some?
    ensures var r := Submitted(s, text);
      && |r.board| == BoardSize && r.board[Centre].answered
      && (forall i :: 0 <= i < BoardSize && s.board[i].answered ==> r.board[i] == s.board[i])
      && CompletedLines(s.board) <= CompletedLines(r.board)
      && (AllAnswered(s.board) ==> AllAnswered(r.board))
  {
    var r := Submitted(s, text);
    assert Covers(s.board, r.board);
    CompletedLinesMonotone(s.board, r.board);
  }

  /** An accepted answer, once scored, leaves a valid session that has made progress,
      and both reports it sends are consistent. */
  lemma SubmitScoredValid(s: Session)
    requires Valid(s) && CanSubmit(s)
    ensures var o := SubmitAnswer(s);
            var o2 := ScoreBoard(o.session);
            && Valid(o2.session) && Progress(s, o2.session)
            && UpdateConsistent(Report(o.session))
            && (forall u :: u in o2.updates ==> UpdateConsistent(u))
  {
    var o := SubmitAnswer(s);
    var s1 := o.session;
    assert s1 == Submitted(s, Trim(s.answer));
    SubmittedKeepsAnswers(s, Trim(s.answer));
    var o2 := ScoreBoard(s1);
    assert o2.session.completedLines == CompletedLines(s1.board);
  }

  /** A submitted answer, once scored, keeps the session valid. */
  lemma SubmitValid(s: Session)
    requires Valid(s)
    ensures Valid(Step(s, SubmitPressed).session)
    ensures forall u :: u in Step(s, SubmitPressed).updates ==> UpdateConsistent(u)
    ensures Progress(s, Step(s, SubmitPressed).session)
  {
    if CanSubmit(s) {
      var o := SubmitAnswer(s);
      var o2 := ScoreBoard(o.session);
      SubmitScoredValid(s);
      assert Step(s, SubmitPressed).updates == [Report(o.session)] + o2.updates;
    }
  }

  /** A second of the clock keeps the session valid. */
  lemma SecondValid(s: Session)
    requires Valid(s) && s.timeLeft > 0
    ensures Valid(Step(s, SecondElapsed).session)
    ensures forall u :: u in Step(s, SecondElapsed).updates ==> UpdateConsistent(u)
    ensures Progress(s, Step(s, SecondElapsed).session)
  {
  }

  /** Every allowed event keeps a valid session valid, sends only consistent
      reports, leaves answered cells as they were and never lowers the line
      count or the score. */
  lemma StepValid(s: Session, e: Event)
    requires Valid(s) && EventAllowed(s, e)
    ensures Valid(Step(s, e).session)
    ensures forall u :: u in Step(s, e).updates ==> UpdateConsistent(u)
    ensures Progress(s, Step(s, e).session)
  {
    match e
    case SubmitPressed => SubmitValid(s);
    case SecondElapsed => SecondValid(s);
    case _ =>
  }
}
