/** The main page: the stored list of games, the current view (home, editor or play),
    the game being edited or played, the selected question and the play state. */
module JeopardyMaker {
  import opened Wrappers
  import opened JeopardyTypes
  import opened Collections
  import opened JeopardyBoard
  import GameEditor

  datatype View = Home | Editor | Play

  /** The play state the page keeps: the declared state's score and answered ids; the
      page never stores teams or a selected team. */
  datatype Session = Session(currentScore: int, answeredQuestions: seq<string>)

  const FreshSession: Session := Session(0, [])

  // ---------------------------------------------------------------------------------
  // The list of games.

  /** `games.findIndex(g => g.id === id)`. */
  function FindIndex(games: seq<Game>, id: string): (r: int)
    ensures -1 <= r < |games|
    ensures r >= 0 ==> games[r].id == id && forall k :: 0 <= k < r ==> games[k].id != id
    ensures r == -1 <==> forall k :: 0 <= k < |games| ==> games[k].id != id
    decreases |games|
  {
    if games == [] then -1
    else if games[0].id == id then 0
    else
      var r := FindIndex(games[1..], id);
      if r < 0 then -1 else r + 1
  }

  /** The first position holding the id is the one `FindIndex` reports. */
  lemma FindIndexAt(games: seq<Game>, id: string, i: nat)
    requires i < |games| && games[i].id == id
    requires forall k :: 0 <= k < i ==> games[k].id != id
    ensures FindIndex(games, id) == i
  {
    var r := FindIndex(games, id);
    assert r != -1;
  }

  /** The list after saving: the first game with the same id is replaced, or the game is
      appended when there is none. */
  function Saved(games: seq<Game>, game: Game): seq<Game> {
    var i := FindIndex(games, game.id);
    if i >= 0 then games[i := game] else games + [game]
  }

  function Deleted(games: seq<Game>, id: string): seq<Game> {
    Filter(games, (g: Game) => g.id != id)
  }

  function Ids(games: seq<Game>): seq<string> {
    Map(games, (g: Game) => g.id)
  }

  /** Saving puts the game in the list: in place of the first game with its id, leaving
      every other entry as it was, or at the end when its id is new. */
  lemma SaveReplacesOrAppends(games: seq<Game>, game: Game)
    ensures var r := Saved(games, game); var i := FindIndex(games, game.id);
      && (i >= 0 ==> |r| == |games| && r[i] == game && forall k :: 0 <= k < |games| && k != i ==> r[k] == games[k])
      && (i < 0 ==> r == games + [game] && forall k :: 0 <= k < |games| ==> games[k].id != game.id)
      && game in r
  {
  }

  /** Saving keeps the ids distinct when they were. */
  lemma SaveKeepsIdsDistinct(games: seq<Game>, game: Game)
    requires Distinct(Ids(games))
    ensures Distinct(Ids(Saved(games, game)))
  {
    var r := Saved(games, game);
    var i := FindIndex(games, game.id);
    assert forall k :: 0 <= k < |r| ==> Ids(r)[k] == r[k].id;
    if i >= 0 {
      assert forall k :: 0 <= k < |r| ==> r[k].id == games[k].id;
    }
  }

  /** Saving the same game twice is saving it once. */
  lemma SaveIdempotent(games: seq<Game>, game: Game)
    ensures Saved(Saved(games, game), game) == Saved(games, game)
  {
    var r := Saved(games, game);
    var i := FindIndex(games, game.id);
    var j := FindIndex(r, game.id);
    if i >= 0 {
      FindIndexAt(r, game.id, i);
    } else {
      FindIndexAt(r, game.id, |games|);
    }
  }

  /** After a save, looking the id up finds the saved game. */
  lemma SaveThenFind(games: seq<Game>, game: Game)
    ensures var r := Saved(games, game); var j := FindIndex(r, game.id);
      j >= 0 && r[j] == game
  {
    var i := FindIndex(games, game.id);
    if i >= 0 {
      FindIndexAt(Saved(games, game), game.id, i);
    } else {
      FindIndexAt(Saved(games, game), game.id, |games|);
    }
  }

  /** Deleting removes every game with that id and keeps the others, in order. */
  lemma DeleteRemovesId(games: seq<Game>, id: string)
    ensures var r := Deleted(games, id);
      && (forall k :: 0 <= k < |r| ==> r[k].id != id && r[k] in games)
      && (forall k :: 0 <= k < |games| && games[k].id != id ==> games[k] in r)
      && ((forall k :: 0 <= k < |games| ==> games[k].id != id) ==> r == games)
  {
    if forall k :: 0 <= k < |games| ==> games[k].id != id {
      FilterKeepsAll(games, (g: Game) => g.id != id);
    }
  }

  /** Deleting a game's id after saving it leaves what deleting it before would have:
      whether the save replaced or appended, the saved game goes again. */
  lemma {:induction false} DeleteUndoesSave(games: seq<Game>, game: Game)
    ensures Deleted(Saved(games, game), game.id) == Deleted(games, game.id)
  {
    var i := FindIndex(games, game.id);
    var f := (g: Game) => g.id != game.id;
    if i >= 0 {
      DeleteIgnoresUpdate(games, i, game);
    } else {
      FilterConcat(games, [game], f);
      assert Filter([game], f) == [];
    }
  }

  lemma {:induction false} DeleteIgnoresUpdate(games: seq<Game>, i: nat, game: Game)
    requires i < |games| && games[i].id == game.id
    ensures Deleted(games[i := game], game.id) == Deleted(games, game.id)
    decreases i
  {
    var t := games[i := game];
    if i == 0 {
      assert t[1..] == games[1..];
    } else {
      assert t[1..] == games[1..][i - 1 := game];
      DeleteIgnoresUpdate(games[1..], i - 1, game);
    }
  }

  /** Saving from the editor opened on a stored game with an id replaces that game: the
      list keeps its length. */
  lemma EditedGameReplacesStored(games: seq<Game>, game: Game, title: string,
                                 categories: seq<Category>, newId: string, now: Timestamp)
    requires game in games && game.id != ""
    requires GameEditor.SaveResult(Some(game), title, categories, newId, now).Ok?
    ensures var saved := GameEditor.SaveResult(Some(game), title, categories, newId, now).value;
      saved.id == game.id && |Saved(games, saved)| == |games| && saved in Saved(games, saved)
  {
    var saved := GameEditor.SaveResult(Some(game), title, categories, newId, now).value;
    GameEditor.SaveValidation(Some(game), title, categories, newId, now);
    var k :| 0 <= k < |games| && games[k] == game;
    assert FindIndex(games, saved.id) >= 0;
  }

  /** A new game, or a stored one whose id is empty, is saved under the fresh id; when
      that id is not in use the game is appended. */
  lemma NewGameAppended(games: seq<Game>, game: Option<Game>, title: string,
                        categories: seq<Category>, newId: string, now: Timestamp)
    requires game.None? || game.value.id == ""
    requires forall k :: 0 <= k < |games| ==> games[k].id != newId
    requires GameEditor.SaveResult(game, title, categories, newId, now).Ok?
    ensures var saved := GameEditor.SaveResult(game, title, categories, newId, now).value;
      saved.id == newId && Saved(games, saved) == games + [saved]
  {
    GameEditor.SaveValidation(game, title, categories, newId, now);
  }

  // ---------------------------------------------------------------------------------
  // Scoring.

  /** Answering a question adds its value to the score and its id to the list. */
  function Answer(s: Session, q: Question): Session {
    Session(s.currentScore + q.value, s.answeredQuestions + [q.id])
  }

  function AnswerAll(s: Session, qs: seq<Question>): Session
    decreases |qs|
  {
    if qs == [] then s else AnswerAll(Answer(s, qs[0]), qs[1..])
  }

  function SumValues(qs: seq<Question>): int
    decreases |qs|
  {
    if qs == [] then 0 else qs[0].value + SumValues(qs[1..])
  }

  function QuestionIds(qs: seq<Question>): seq<string> {
    Map(qs, (q: Question) => q.id)
  }

  /** Answering questions one after the other: the score grows by the sum of their
      values and the answered list by their ids, in order. */
  lemma {:induction false} AnswerAllScores(s: Session, qs: seq<Question>)
    ensures AnswerAll(s, qs).currentScore == s.currentScore + SumValues(qs)
    ensures AnswerAll(s, qs).answeredQuestions == s.answeredQuestions + QuestionIds(qs)
    decreases |qs|
  {
    if qs != [] {
      AnswerAllScores(Answer(s, qs[0]), qs[1..]);
      assert QuestionIds(qs) == [qs[0].id] + QuestionIds(qs[1..]);
    }
  }

  /** The handler itself does not look at the answered list; the list stays free of
      repeats because the board only lets an unanswered question be picked. */
  lemma AnswerKeepsDistinct(s: Session, q: Question)
    requires Distinct(s.answeredQuestions) && q.id !in s.answeredQuestions
    ensures Distinct(Answer(s, q).answeredQuestions)
  {
  }

  /** Without that guard, answering the same question twice lists it twice and counts
      its value twice. */
  lemma AnswerTwiceRepeats(s: Session, q: Question)
    ensures var t := Answer(Answer(s, q), q);
      !Distinct(t.answeredQuestions) && t.currentScore == s.currentScore + 2 * q.value
  {
    var t := Answer(Answer(s, q), q);
    var n := |s.answeredQuestions|;
    assert t.answeredQuestions[n] == t.answeredQuestions[n + 1];
  }

  /** A question picked on the board of the current answered list can be answered
      without creating a repeat. */
  lemma BoardPickKeepsDistinct(game: Game, s: Session, column: nat, row: nat)
    requires Distinct(s.answeredQuestions)
    requires column < |BoardView(game, s.answeredQuestions).columns|
    requires row < |BoardView(game, s.answeredQuestions).columns[column].cells|
    requires Click(BoardView(game, s.answeredQuestions), column, row).Some?
    ensures Distinct(Answer(s, Click(BoardView(game, s.answeredQuestions), column, row).value).answeredQuestions)
  {
    ClickedIsUnanswered(game, s.answeredQuestions, column, row);
  }

  // ---------------------------------------------------------------------------------
  // The page.

  /** What the page renders. */
  datatype Screen =
    | EditorScreen(editing: Option<Game>)
    | PlayScreen(playing: Game, score: int, board: Board, modal: Option<Question>, modalOpen: bool)
    | HomeScreen(games: seq<Game>, empty: bool)

  class Page {
    var games: seq<Game>
    var currentView: View
    var currentGame: Option<Game>
    var selectedQuestion: Option<Question>
    var gameState: Session

    /** The page opens on the home view with the stored games and play state. */
    constructor (storedGames: seq<Game>, storedState: Session)
      ensures games == storedGames && gameState == storedState
      ensures currentView == Home && currentGame == None && selectedQuestion == None
    {
      games := storedGames;
      gameState := storedState;
      currentView := Home;
      currentGame := None;
      selectedQuestion := None;
    }

    method CreateNewGame()
      modifies this
      ensures currentGame == None && currentView == Editor
      ensures games == old(games) && selectedQuestion == old(selectedQuestion) && gameState == old(gameState)
    {
      currentGame := None;
      currentView := Editor;
    }

    method EditGame(game: Game)
      modifies this
      ensures currentGame == Some(game) && currentView == Editor
      ensures games == old(games) && selectedQuestion == old(selectedQuestion) && gameState == old(gameState)
    {
      currentGame := Some(game);
      currentView := Editor;
    }

    /** Playing starts from a zero score with nothing answered. */
    method PlayGame(game: Game)
      modifies this
      ensures currentGame == Some(game) && gameState == FreshSession && currentView == Play
      ensures games == old(games) && selectedQuestion == old(selectedQuestion)
    {
      currentGame := Some(game);
      gameState := FreshSession;
      currentView := Play;
    }

    method DeleteGame(gameId: string)
      modifies this
      ensures games == Deleted(old(games), gameId)
      ensures currentView == old(currentView) && currentGame == old(currentGame)
      ensures selectedQuestion == old(selectedQuestion) && gameState == old(gameState)
    {
      games := Deleted(games, gameId);
    }

    /** The editor's save callback: the game replaces its stored version or is added,
        and the page returns home. */
    method SaveGame(game: Game)
      modifies this
      ensures games == Saved(old(games), game) && currentView == Home
      ensures currentGame == old(currentGame) && selectedQuestion == old(selectedQuestion)
      ensures gameState == old(gameState)
    {
      var existingIndex := FindIndex(games, game.id);
      if existingIndex >= 0 {
        var updated := games;
        updated := updated[existingIndex := game];
        games := updated;
      } else {
        games := games + [game];
      }
      currentView := Home;
    }

    /** The editor's back callback and the play view's back button. */
    method BackToHome()
      modifies this
      ensures currentView == Home
      ensures games == old(games) && currentGame == old(currentGame)
      ensures selectedQuestion == old(selectedQuestion) && gameState == old(gameState)
    {
      currentView := Home;
    }

    /** The board's question callback. */
    method SelectQuestion(q: Question)
      modifies this
      ensures selectedQuestion == Some(q)
      ensures games == old(games) && currentView == old(currentView)
      ensures currentGame == old(currentGame) && gameState == old(gameState)
    {
      selectedQuestion := Some(q);
    }

    /** The dialog's close callback. */
    method CloseQuestion()
      modifies this
      ensures selectedQuestion == None
      ensures games == old(games) && currentView == old(currentView)
      ensures currentGame == old(currentGame) && gameState == old(gameState)
    {
      selectedQuestion := None;
    }

    /** The dialog's answered callback: with a question selected and a game loaded the
        question is scored; either way the selection is cleared. */
    method HandleQuestionAnswered()
      modifies this
      ensures old(selectedQuestion).Some? && old(currentGame).Some? ==>
        gameState == Answer(old(gameState), old(selectedQuestion).value)
      ensures !(old(selectedQuestion).Some? && old(currentGame).Some?) ==> gameState == old(gameState)
      ensures selectedQuestion == None
      ensures games == old(games) && currentView == old(currentView) && currentGame == old(currentGame)
    {
      if selectedQuestion.Some? && currentGame.Some? {
        gameState := Answer(gameState, selectedQuestion.value);
      }
      selectedQuestion := None;
    }

    /** The editor view wins; the play view needs a game, otherwise the home view is
        shown. The play view's board reflects the answered list and the dialog is open
        exactly when a question is selected. */
    function Render(): (r: Screen)
      reads this
      ensures r.EditorScreen? <==> currentView == Editor
      ensures r.EditorScreen? ==> r.editing == currentGame
      ensures r.PlayScreen? <==> currentView == Play && currentGame.Some?
      ensures r.PlayScreen? ==>
        && r.playing == currentGame.value
        && r.score == gameState.currentScore
        && r.board == BoardView(currentGame.value, gameState.answeredQuestions)
        && r.modal == selectedQuestion
        && (r.modalOpen <==> selectedQuestion.Some?)
      ensures r.HomeScreen? ==> r.games == games && (r.empty <==> |games| == 0)
    {
      if currentView == Editor then EditorScreen(currentGame)
      else if currentView == Play && currentGame.Some? then
        PlayScreen(currentGame.value, gameState.currentScore,
          BoardView(currentGame.value, gameState.answeredQuestions),
          selectedQuestion, selectedQuestion.Some?)
      else HomeScreen(games, |games| == 0)
    }
  }
}
