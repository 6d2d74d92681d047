/** The record types of the trivia game: questions grouped in categories, categories
    in a game, and the teams and play state. Optional fields become `Option`s. */
module JeopardyTypes {
  import opened Wrappers

  /** Milliseconds since the epoch; the source stores `Date` objects. */
  type Timestamp = int

  datatype Question = Question(
    id: string,
    question: string,
    answer: string,
    value: int,
    isAnswered: Option<bool>,
    questionImage: Option<string>,
    answerImage: Option<string>)

  datatype Category = Category(id: string, name: string, questions: seq<Question>)

  datatype Game = Game(
    id: string,
    title: string,
    categories: seq<Category>,
    createdAt: Timestamp,
    lastModified: Timestamp)

  datatype Team = Team(id: string, name: string, color: string, score: int)

  /** The declared play state. The page never fills in `teams`: its own state holds only
      the first two fields (see JeopardyMaker.Session). */
  datatype GameState = GameState(
    currentScore: int,
    answeredQuestions: seq<string>,
    teams: seq<Team>,
    selectedTeamId: Option<string>)
}
