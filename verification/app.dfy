/** The application shell: the team list, the team registered on this device,
    the screen shown, and the routines that change them. Storage and polling are
    not modelled: the team list is the value these functions pass along. */
module App {
  import opened Types
  import opened Text
  import opened Lines
  import BingoGame

  datatype AppState = AppState(
    screen: GameState,
    teams: seq<Team>,
    current: Option<Team>,
    deviceId: string
  )

  /** The record `addTeam` creates: an id made of the device id and the clock
      reading `idTime` (milliseconds), a blank 25-cell board, no score, no lines,
      a full ten minutes, and the start time `startTime` from a second clock
      reading, which may differ from the first. */
  function NewTeam(deviceId: string, name: string, idTime: nat, startTime: nat): (t: Team)
    ensures t.id == deviceId + "-" + Decimal(idTime)
    ensures t.name == name && t.deviceId == deviceId && t.startTime == startTime
    ensures |t.board| == BoardSize
    ensures forall i :: 0 <= i < BoardSize ==> t.board[i] == EmptyCell
    ensures t.score == 0 && t.completedLines == 0 && t.timeRemaining == TurnSeconds
  {
    Team(deviceId + "-" + Decimal(idTime), name, 0, seq(BoardSize, _ => EmptyCell), 0,
         deviceId, TurnSeconds, startTime)
  }

  /** `addTeam`: the new team goes to the end of the list and becomes this
      device's current team. */
  function AddTeam(app: AppState, name: string, idTime: nat, startTime: nat): (r: AppState)
    ensures |r.teams| == |app.teams| + 1
    ensures r.teams[..|app.teams|] == app.teams
    ensures r.teams[|app.teams|] == NewTeam(app.deviceId, name, idTime, startTime)
    ensures r.current == Some(NewTeam(app.deviceId, name, idTime, startTime))
    ensures r.screen == app.screen && r.deviceId == app.deviceId
  {
    var t := NewTeam(app.deviceId, name, idTime, startTime);
    app.(teams := app.teams + [t], current := Some(t))
  }

  /** The record a score report turns `t` into. */
  function Updated(t: Team, score: int, board: seq<Cell>, completedLines: int, timeRemaining: int): Team
  {
    t.(score := score, board := board, completedLines := completedLines, timeRemaining := timeRemaining)
  }

  /** `teams.map(team => team.id === teamId ? {...team, ...} : team)`. */
  function ReplaceMatching(teams: seq<Team>, teamId: string, score: int, board: seq<Cell>,
                           completedLines: int, timeRemaining: int): (r: seq<Team>)
    ensures |r| == |teams|
    ensures forall i :: 0 <= i < |teams| && teams[i].id == teamId ==>
              && r[i].score == score && r[i].board == board
              && r[i].completedLines == completedLines && r[i].timeRemaining == timeRemaining
              && r[i].id == teams[i].id && r[i].name == teams[i].name
              && r[i].deviceId == teams[i].deviceId && r[i].startTime == teams[i].startTime
    ensures forall i :: 0 <= i < |teams| && teams[i].id != teamId ==> r[i] == teams[i]
  {
    if teams == [] then []
    else
      var head := if teams[0].id == teamId
                  then Updated(teams[0], score, board, completedLines, timeRemaining)
                  else teams[0];
      [head] + ReplaceMatching(teams[1..], teamId, score, board, completedLines, timeRemaining)
  }

  /** `updateTeamScore`: every team with the given id takes the reported score,
      board, line count and remaining time; the current team does too when its
      id is the given one. */
  function UpdateTeamScore(app: AppState, teamId: string, score: int, board: seq<Cell>,
                           completedLines: int, timeRemaining: int): (r: AppState)
    ensures r.teams == ReplaceMatching(app.teams, teamId, score, board, completedLines, timeRemaining)
    ensures app.current.Some? && app.current.value.id == teamId ==>
              r.current == Some(Updated(app.current.value, score, board, completedLines, timeRemaining))
    ensures !(app.current.Some? && app.current.value.id == teamId) ==> r.current == app.current
    ensures r.screen == app.screen && r.deviceId == app.deviceId
  {
    var teams := ReplaceMatching(app.teams, teamId, score, board, completedLines, timeRemaining);
    var current :=
      if app.current.Some? && app.current.value.id == teamId
      then Some(Updated(app.current.value, score, board, completedLines, timeRemaining))
      else app.current;
    app.(teams := teams, current := current)
  }

  /** Applies a game's reports in the order they were sent. */
  function ApplyUpdates(app: AppState, us: seq<BingoGame.ScoreUpdate>): AppState
    decreases |us|
  {
    if us == [] then app
    else
      var u := us[0];
      ApplyUpdates(UpdateTeamScore(app, u.teamId, u.score, u.board, u.completedLines, u.timeRemaining), us[1..])
  }

  /** `startGame`: to the game screen when a team is registered on this device;
      otherwise the screen stays as it was (the user is alerted). */
  function StartGame(app: AppState): (r: AppState)
    ensures app.current.Some? ==> r == app.(screen := Playing)
    ensures app.current.None? ==> r == app
  {
    if app.current.Some? then app.(screen := Playing) else app
  }

  /** `finishTurn`: always to the leaderboard. */
  function FinishTurn(app: AppState): (r: AppState)
    ensures r.screen == Leaderboard && r == app.(screen := Leaderboard)
  {
    app.(screen := Leaderboard)
  }

  /** "Play Again": always back to registration; the team list and the current
      team are kept. */
  function PlayAgain(app: AppState): (r: AppState)
    ensures r.screen == Registration && r == app.(screen := Registration)
  {
    app.(screen := Registration)
  }

  /** Every team this device knows of, and its current team, is consistent. */
  predicate AppConsistent(app: AppState)
  {
    && (forall i :: 0 <= i < |app.teams| ==> BingoGame.TeamConsistent(app.teams[i]))
    && (app.current.Some? ==> BingoGame.TeamConsistent(app.current.value))
  }

  /** The ids in the list, in order. */
  function Ids(teams: seq<Team>): (r: seq<string>)
    ensures |r| == |teams| && forall i :: 0 <= i < |teams| ==> r[i] == teams[i].id
  {
    seq(|teams|, i requires 0 <= i < |teams| => teams[i].id)
  }

  /** A score report changes no id and no position in the list. */
  lemma UpdateKeepsIds(app: AppState, teamId: string, score: int, board: seq<Cell>,
                       completedLines: int, timeRemaining: int)
    ensures Ids(UpdateTeamScore(app, teamId, score, board, completedLines, timeRemaining).teams)
            == Ids(app.teams)
  {
  }

  /** Of two reports for the same team, the later one wins: applying both is
      applying the later one. */
  lemma UpdateLastWins(app: AppState, teamId: string,
                       score1: int, board1: seq<Cell>, lines1: int, time1: int,
                       score2: int, board2: seq<Cell>, lines2: int, time2: int)
    ensures UpdateTeamScore(UpdateTeamScore(app, teamId, score1, board1, lines1, time1),
                            teamId, score2, board2, lines2, time2)
            == UpdateTeamScore(app, teamId, score2, board2, lines2, time2)
  {
    var once := UpdateTeamScore(app, teamId, score2, board2, lines2, time2).teams;
    var twice := UpdateTeamScore(UpdateTeamScore(app, teamId, score1, board1, lines1, time1),
                                 teamId, score2, board2, lines2, time2).teams;
    assert |once| == |twice|;
    forall i | 0 <= i < |once| ensures once[i] == twice[i] {
    }
  }

  /** Distinct clock readings for the id on one device give distinct team ids,
      whatever the start times. */
  lemma NewTeamIdsDistinct(deviceId: string, name1: string, name2: string,
                           t1: nat, t2: nat, start1: nat, start2: nat)
    requires t1 != t2
    ensures NewTeam(deviceId, name1, t1, start1).id != NewTeam(deviceId, name2, t2, start2).id
  {
    var p := deviceId + "-";
    if NewTeam(deviceId, name1, t1, start1).id == NewTeam(deviceId, name2, t2, start2).id {
      assert Decimal(t1) == (p + Decimal(t1))[|p|..];
      assert Decimal(t2) == (p + Decimal(t2))[|p|..];
      DecimalInjective(t1, t2);
    }
  }

  /** Registering a team keeps the application consistent. */
  lemma AddTeamConsistent(app: AppState, name: string, idTime: nat, startTime: nat)
    requires AppConsistent(app)
    ensures AppConsistent(AddTeam(app, name, idTime, startTime))
  {
    var t := NewTeam(app.deviceId, name, idTime, startTime);
    EmptyBoardHasNoLines(t.board);
  }

  /** A consistent report keeps the application consistent. */
  lemma UpdateConsistentKeeps(app: AppState, u: BingoGame.ScoreUpdate)
    requires AppConsistent(app) && BingoGame.UpdateConsistent(u)
    ensures AppConsistent(UpdateTeamScore(app, u.teamId, u.score, u.board, u.completedLines, u.timeRemaining))
  {
  }

  lemma {:induction false} ApplyUpdatesConsistent(app: AppState, us: seq<BingoGame.ScoreUpdate>)
    requires AppConsistent(app)
    requires forall u :: u in us ==> BingoGame.UpdateConsistent(u)
    ensures AppConsistent(ApplyUpdates(app, us))
    decreases |us|
  {
    if us != [] {
      var u := us[0];
      UpdateConsistentKeeps(app, u);
      ApplyUpdatesConsistent(UpdateTeamScore(app, u.teamId, u.score, u.board, u.completedLines, u.timeRemaining), us[1..]);
    }
  }

  /** The application together with the game component of the turn being played. */
  datatype Turn = Turn(app: AppState, session: BingoGame.Session)

  /** Applies a game outcome to the application: its reports in order, then the
      leaderboard if the turn ended. */
  function Settle(app: AppState, o: BingoGame.Outcome): Turn
  {
    var app1 := ApplyUpdates(app, o.updates);
    Turn(if o.finished then FinishTurn(app1) else app1, o.session)
  }

  /** "Start Game" with a registered team: the game screen, where the component
      mounts on the current team's record. */
  function BeginTurn(app: AppState): Turn
    requires app.current.Some? && |app.current.value.board| == BoardSize
  {
    Settle(StartGame(app), BingoGame.Mount(BingoGame.Start(app.current.value)))
  }

  /** One event of the turn, applied to the application. */
  function PlayEvent(turn: Turn, e: BingoGame.Event): Turn
    requires BingoGame.EventAllowed(turn.session, e)
  {
    Settle(turn.app, BingoGame.Step(turn.session, e))
  }

  /** Everything in the application is consistent and the game is valid. */
  predicate TurnValid(turn: Turn)
  {
    AppConsistent(turn.app) && BingoGame.Valid(turn.session)
  }

  /** Starting a turn on a consistent application gives a valid turn that stays
      on the game screen: the clock never starts at zero, because a stored 0
      restarts at ten minutes. */
  lemma BeginTurnValid(app: AppState)
    requires AppConsistent(app) && app.current.Some?
    ensures TurnValid(BeginTurn(app))
    ensures BeginTurn(app).app.screen == Playing
  {
    var t := app.current.value;
    BingoGame.MountValid(t);
    var o := BingoGame.Mount(BingoGame.Start(t));
    ApplyUpdatesConsistent(StartGame(app), o.updates);
    ApplyUpdatesScreen(StartGame(app), o.updates);
  }

  /** Every allowed event keeps a valid turn valid. */
  lemma PlayEventValid(turn: Turn, e: BingoGame.Event)
    requires TurnValid(turn) && BingoGame.EventAllowed(turn.session, e)
    ensures TurnValid(PlayEvent(turn, e))
  {
    BingoGame.StepValid(turn.session, e);
    ApplyUpdatesConsistent(turn.app, BingoGame.Step(turn.session, e).updates);
  }

  /** Reports never change the screen. */
  lemma {:induction false} ApplyUpdatesScreen(app: AppState, us: seq<BingoGame.ScoreUpdate>)
    ensures ApplyUpdates(app, us).screen == app.screen
    decreases |us|
  {
    if us != [] {
      var u := us[0];
      ApplyUpdatesScreen(UpdateTeamScore(app, u.teamId, u.score, u.board, u.completedLines, u.timeRemaining), us[1..]);
    }
  }

  /** The values a team record shares with a game session: the id, and the board,
      score and line count the leaderboard shows. */
  predicate Holds(t: Team, s: BingoGame.Session)
  {
    t.id == s.teamId && t.board == s.board && t.score == s.score && t.completedLines == s.completedLines
  }

  /** The team record holds what a report sent. */
  predicate Carries(t: Team, u: BingoGame.ScoreUpdate)
  {
    && t.board == u.board && t.score == u.score
    && t.completedLines == u.completedLines && t.timeRemaining == u.timeRemaining
  }

  /** The application's records of the playing team, its current team and every
      list entry with the same id, agree with the game. */
  predicate Synced(turn: Turn)
  {
    && turn.app.current.Some?
    && Holds(turn.app.current.value, turn.session)
    && forall i :: 0 <= i < |turn.app.teams| && turn.app.teams[i].id == turn.session.teamId ==>
         Holds(turn.app.teams[i], turn.session)
  }

  /** After a non-empty run of reports, the ids and positions are as before, and
      every record with the id of the last report holds what it sent. */
  lemma {:induction false} ApplyUpdatesLast(app: AppState, us: seq<BingoGame.ScoreUpdate>)
    requires us != []
    ensures var r := ApplyUpdates(app, us);
            var u := us[|us| - 1];
            && |r.teams| == |app.teams|
            && (forall i :: 0 <= i < |app.teams| ==> r.teams[i].id == app.teams[i].id)
            && (forall i :: 0 <= i < |app.teams| && app.teams[i].id == u.teamId ==> Carries(r.teams[i], u))
            && (app.current.Some? <==> r.current.Some?)
            && (app.current.Some? ==> r.current.value.id == app.current.value.id)
            && (app.current.Some? && app.current.value.id == u.teamId ==> Carries(r.current.value, u))
    decreases |us|
  {
    var u0 := us[0];
    var app1 := UpdateTeamScore(app, u0.teamId, u0.score, u0.board, u0.completedLines, u0.timeRemaining);
    if |us| > 1 {
      ApplyUpdatesLast(app1, us[1..]);
      assert us[1..][|us[1..]| - 1] == us[|us| - 1];
    } else {
      assert ApplyUpdates(app, us) == ApplyUpdates(app1, []);
    }
  }

  /** Settling an outcome whose reports keep step with the game, on an application
      whose records of the team agree with the game's state before, leaves them
      agreeing with the state after. */
  lemma SettleSynced(app: AppState, s: BingoGame.Session, o: BingoGame.Outcome)
    requires Synced(Turn(app, s)) && BingoGame.ReportsFinalState(s, o)
    ensures Synced(Settle(app, o))
  {
    if o.updates != [] {
      ApplyUpdatesLast(app, o.updates);
    }
  }

  /** Every list entry sharing the current team's id shows its board, score and lines. */
  predicate CurrentAgrees(app: AppState)
  {
    && app.current.Some?
    && forall i :: 0 <= i < |app.teams| && app.teams[i].id == app.current.value.id ==>
         && app.teams[i].board == app.current.value.board
         && app.teams[i].score == app.current.value.score
         && app.teams[i].completedLines == app.current.value.completedLines
  }

  /** Registering a team under a fresh id makes the list agree with it. */
  lemma AddTeamAgrees(app: AppState, name: string, idTime: nat, startTime: nat)
    requires forall i :: 0 <= i < |app.teams| ==> app.teams[i].id != NewTeam(app.deviceId, name, idTime, startTime).id
    ensures CurrentAgrees(AddTeam(app, name, idTime, startTime))
  {
    var r := AddTeam(app, name, idTime, startTime);
    forall i | 0 <= i < |app.teams|
      ensures r.teams[i] == app.teams[i]
    {
      assert r.teams[i] == r.teams[..|app.teams|][i];
    }
  }

  /** The game opens in step with the team list: its reports reach every record
      of the playing team. */
  lemma BeginTurnSynced(app: AppState)
    requires CurrentAgrees(app) && |app.current.value.board| == BoardSize
    ensures Synced(BeginTurn(app))
  {
    var s := BingoGame.Start(app.current.value);
    SettleSynced(StartGame(app), s, BingoGame.Mount(s));
  }

  /** Every event keeps the team list in step with the game: the leaderboard shows
      the board, score and line count the game reached. */
  lemma PlayEventSynced(turn: Turn, e: BingoGame.Event)
    requires Synced(turn) && BingoGame.EventAllowed(turn.session, e)
    ensures Synced(PlayEvent(turn, e))
  {
    SettleSynced(turn.app, turn.session, BingoGame.Step(turn.session, e));
  }

  /** After Play Again, Start Game plays on with the same teams and current team. */
  lemma PlayAgainRestart(app: AppState)
    requires app.current.Some?
    ensures StartGame(PlayAgain(app)) == app.(screen := Playing)
  {
  }
}
