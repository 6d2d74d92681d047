/** The game editor: a title and a list of categories of five questions each, edited in
    place and validated on save before the finished game is handed to the page. Fresh
    ids and the clock are parameters. */
module GameEditor {
  import opened Wrappers
  import opened JeopardyTypes
  import opened Collections
  import JsStrings
  import JeopardyBoard

  const DefaultTitle: string := "New Jeopardy Game"

  /** The number of questions in a new category and the step between their values. */
  const QuestionsPerCategory: nat := 5
  const ValueStep: int := 100

  /** A new, empty category: five blank questions worth 100 to 500 with empty image
      fields, and no name. */
  function NewCategory(categoryId: string, questionIds: seq<string>): (c: Category)
    requires |questionIds| == QuestionsPerCategory
    ensures c.id == categoryId && c.name == ""
    ensures |c.questions| == QuestionsPerCategory
    ensures forall i :: 0 <= i < |c.questions| ==>
      var q := c.questions[i];
      && q.id == questionIds[i] && q.question == "" && q.answer == ""
      && q.value == ValueStep * (i + 1)
      && q.isAnswered == None && q.questionImage == Some("") && q.answerImage == Some("")
  {
    Category(categoryId, "",
      seq(QuestionsPerCategory, i requires 0 <= i < QuestionsPerCategory =>
        Question(questionIds[i], "", "", ValueStep * (i + 1), None, Some(""), Some(""))))
  }

  /** A new category is already in board order, so the board's sort leaves it as it is. */
  lemma NewCategoryInBoardOrder(categoryId: string, questionIds: seq<string>)
    requires |questionIds| == QuestionsPerCategory
    ensures JeopardyBoard.SortedByValue(NewCategory(categoryId, questionIds).questions)
    ensures JeopardyBoard.SortByValue(NewCategory(categoryId, questionIds).questions)
         == NewCategory(categoryId, questionIds).questions
  {
    JeopardyBoard.SortSortedIsIdentity(NewCategory(categoryId, questionIds).questions);
  }

  /** `game?.title || DefaultTitle`: an empty title falls back as well as a missing
      game does. */
  function InitialTitle(game: Option<Game>): (r: string)
    ensures game.Some? && game.value.title != "" ==> r == game.value.title
    ensures game.None? || game.value.title == "" ==> r == DefaultTitle
  {
    if game.Some? && game.value.title != "" then game.value.title else DefaultTitle
  }

  /** `game?.categories || [new category]`: a list is never falsy, so a given game's
      categories are kept even when there are none. */
  function InitialCategories(game: Option<Game>, categoryId: string, questionIds: seq<string>): (r: seq<Category>)
    requires |questionIds| == QuestionsPerCategory
    ensures game.Some? ==> r == game.value.categories
    ensures game.None? ==> r == [NewCategory(categoryId, questionIds)]
  {
    match game
    case Some(g) => g.categories
    case None => [NewCategory(categoryId, questionIds)]
  }

  function CategoryIds(cs: seq<Category>): seq<string> {
    Map(cs, (c: Category) => c.id)
  }

  function WithoutCategory(cs: seq<Category>, categoryId: string): seq<Category> {
    Filter(cs, (c: Category) => c.id != categoryId)
  }

  /** The remove button is offered only while there is more than one category; with
      distinct ids it removes exactly one, so at least one category is left. */
  lemma {:induction false} RemoveLeavesOne(cs: seq<Category>, i: nat)
    requires 1 < |cs| && i < |cs| && Distinct(CategoryIds(cs))
    ensures |WithoutCategory(cs, cs[i].id)| == |cs| - 1 >= 1
  {
    RemoveOne(cs, i);
  }

  lemma {:induction false} RemoveOne(cs: seq<Category>, i: nat)
    requires i < |cs| && Distinct(CategoryIds(cs))
    ensures |WithoutCategory(cs, cs[i].id)| == |cs| - 1
    decreases |cs|
  {
    var id := cs[i].id;
    var ids := CategoryIds(cs);
    assert forall k :: 0 <= k < |cs| ==> ids[k] == cs[k].id;
    var rest := cs[1..];
    assert Distinct(CategoryIds(rest)) by {
      assert forall k :: 0 <= k < |rest| ==> CategoryIds(rest)[k] == ids[k + 1];
    }
    if i == 0 {
      FilterKeepsAll(rest, (c: Category) => c.id != id);
    } else {
      assert cs[0].id != id;
      assert rest[i - 1] == cs[i];
      RemoveOne(rest, i - 1);
    }
  }

  function WithCategoryName(cs: seq<Category>, categoryId: string, name: string): seq<Category> {
    Map(cs, (c: Category) => if c.id == categoryId then c.(name := name) else c)
  }

  /** Renaming changes the name of the categories with that id and nothing else. */
  lemma RenameOnlyTouchesName(cs: seq<Category>, categoryId: string, name: string)
    ensures var r := WithCategoryName(cs, categoryId, name);
      && |r| == |cs|
      && CategoryIds(r) == CategoryIds(cs)
      && forall k :: 0 <= k < |cs| ==>
           && r[k].questions == cs[k].questions
           && r[k].name == (if cs[k].id == categoryId then name else cs[k].name)
  {
    var r := WithCategoryName(cs, categoryId, name);
    assert |CategoryIds(r)| == |CategoryIds(cs)|;
    assert forall k :: 0 <= k < |cs| ==> CategoryIds(r)[k] == CategoryIds(cs)[k];
  }

  /** The question fields the editor's inputs write: the two texts from the math editors
      and the two image fields from the image pickers. */
  datatype QuestionField = QuestionText | AnswerText | QuestionImage | AnswerImage

  function WithField(q: Question, field: QuestionField, value: string): Question {
    match field
    case QuestionText => q.(question := value)
    case AnswerText => q.(answer := value)
    case QuestionImage => q.(questionImage := Some(value))
    case AnswerImage => q.(answerImage := Some(value))
  }

  /** The image pickers report a removed image as no value, which the editor stores as
      an empty string (`imageUrl || ''`). */
  function ImageValue(imageUrl: Option<string>): (r: string)
    ensures imageUrl.Some? ==> r == imageUrl.value
    ensures imageUrl.None? ==> r == ""
  {
    imageUrl.GetOr("")
  }

  function WithQuestionField(cs: seq<Category>, categoryId: string, questionId: string,
                             field: QuestionField, value: string): seq<Category>
  {
    Map(cs, (c: Category) =>
      if c.id == categoryId then
        c.(questions := Map(c.questions, (q: Question) => if q.id == questionId then WithField(q, field, value) else q))
      else c)
  }

  /** An edit writes one field of the addressed question and nothing else: every
      category and question keeps its id and value, and so the board order. */
  lemma EditOnlyTouchesField(cs: seq<Category>, categoryId: string, questionId: string,
                             field: QuestionField, value: string)
    ensures var r := WithQuestionField(cs, categoryId, questionId, field, value);
      && |r| == |cs|
      && forall k :: 0 <= k < |cs| ==>
           && r[k].id == cs[k].id && r[k].name == cs[k].name
           && |r[k].questions| == |cs[k].questions|
           && forall j :: 0 <= j < |cs[k].questions| ==>
                var (old_q, new_q) := (cs[k].questions[j], r[k].questions[j]);
                && new_q.id == old_q.id && new_q.value == old_q.value
                && new_q == (if cs[k].id == categoryId && old_q.id == questionId
                             then WithField(old_q, field, value) else old_q)
  {
  }

  /** Storing a field and reading it back. */
  lemma WithFieldReadBack(q: Question, field: QuestionField, value: string)
    ensures var r := WithField(q, field, value);
      && r.id == q.id && r.value == q.value && r.isAnswered == q.isAnswered
      && (field == QuestionText ==> r.question == value && r.answer == q.answer)
      && (field == AnswerText ==> r.answer == value && r.question == q.question)
      && (field == QuestionImage ==> r.questionImage == Some(value) && r.answerImage == q.answerImage)
      && (field == AnswerImage ==> r.answerImage == Some(value) && r.questionImage == q.questionImage)
  {
  }

  // ---------------------------------------------------------------------------------
  // Saving.

  datatype SaveError = TitleRequired | CategoryNamesRequired

  /** `categories.filter(c => !c.name.trim())`. */
  function UnnamedCategories(cs: seq<Category>): seq<Category> {
    Filter(cs, (c: Category) => JsStrings.Trim(c.name) == [])
  }

  /** The validation and the saved record: a blank title is refused first, then any
      category with a blank name; otherwise the game keeps its id unless that is empty,
      keeps its creation time, and is stamped with the time of the save. */
  function SaveResult(game: Option<Game>, title: string, categories: seq<Category>,
                      newId: string, now: Timestamp): (r: Result<Game, SaveError>)
  {
    if JsStrings.Trim(title) == [] then Err(TitleRequired)
    else if |UnnamedCategories(categories)| > 0 then Err(CategoryNamesRequired)
    else
      Ok(Game(
        if game.Some? && game.value.id != "" then game.value.id else newId,
        title,
        categories,
        if game.Some? then game.value.createdAt else now,
        now))
  }

  /** What a save accepts and what it produces, in terms of the inputs. */
  lemma SaveValidation(game: Option<Game>, title: string, categories: seq<Category>,
                       newId: string, now: Timestamp)
    ensures var r := SaveResult(game, title, categories, newId, now);
      && (r == Err(TitleRequired) <==> JsStrings.IsBlank(title))
      && (r == Err(CategoryNamesRequired) <==>
            !JsStrings.IsBlank(title) &&
            exists k :: 0 <= k < |categories| && JsStrings.IsBlank(categories[k].name))
      && (r.Ok? ==>
            && r.value.title == title && r.value.categories == categories
            && !JsStrings.IsBlank(r.value.title)
            && (forall k :: 0 <= k < |categories| ==> !JsStrings.IsBlank(categories[k].name))
            && r.value.id == (if game.Some? && game.value.id != "" then game.value.id else newId)
            && r.value.createdAt == (if game.Some? then game.value.createdAt else now)
            && r.value.lastModified == now)
  {
    JsStrings.TrimEmptyIffBlank(title);
    var f := (c: Category) => JsStrings.Trim(c.name) == [];
    forall k | 0 <= k < |categories| ensures (JsStrings.Trim(categories[k].name) == []) == JsStrings.IsBlank(categories[k].name) {
      JsStrings.TrimEmptyIffBlank(categories[k].name);
    }
    var u := UnnamedCategories(categories);
    if |u| > 0 {
      assert u[0] in categories && f(u[0]);
    }
  }

  /** A game saved from the editor was modified no earlier than it was created, given a
      clock that does not run backwards. */
  lemma SavedTimesOrdered(game: Option<Game>, title: string, categories: seq<Category>,
                          newId: string, now: Timestamp)
    requires game.Some? ==> game.value.createdAt <= now
    ensures var r := SaveResult(game, title, categories, newId, now);
      r.Ok? ==> r.value.createdAt <= r.value.lastModified
  {
  }

  // ---------------------------------------------------------------------------------
  // The component.

  /** What the editor reports through its notifications and its save callback. */
  datatype Notice = Refused(error: SaveError) | SavedNotice

  class Editor {
    const game: Option<Game>
    var gameTitle: string
    var categories: seq<Category>
    var onSaveCalls: seq<Game>
    var notices: seq<Notice>

    /** The editor opens on the given game, or on a default title and one new category. */
    constructor (game: Option<Game>, categoryId: string, questionIds: seq<string>)
      requires |questionIds| == QuestionsPerCategory
      ensures this.game == game
      ensures gameTitle == InitialTitle(game)
      ensures categories == InitialCategories(game, categoryId, questionIds)
      ensures onSaveCalls == [] && notices == []
    {
      this.game := game;
      gameTitle := InitialTitle(game);
      categories := InitialCategories(game, categoryId, questionIds);
      onSaveCalls := [];
      notices := [];
    }

    method SetTitle(title: string)
      modifies this
      ensures gameTitle == title
      ensures categories == old(categories) && onSaveCalls == old(onSaveCalls) && notices == old(notices)
    {
      gameTitle := title;
    }

    method AddCategory(categoryId: string, questionIds: seq<string>)
      requires |questionIds| == QuestionsPerCategory
      modifies this
      ensures categories == old(categories) + [NewCategory(categoryId, questionIds)]
      ensures gameTitle == old(gameTitle) && onSaveCalls == old(onSaveCalls) && notices == old(notices)
    {
      categories := categories + [NewCategory(categoryId, questionIds)];
    }

    method RemoveCategory(categoryId: string)
      modifies this
      ensures categories == WithoutCategory(old(categories), categoryId)
      ensures gameTitle == old(gameTitle) && onSaveCalls == old(onSaveCalls) && notices == old(notices)
    {
      categories := WithoutCategory(categories, categoryId);
    }

    method UpdateCategory(categoryId: string, name: string)
      modifies this
      ensures categories == WithCategoryName(old(categories), categoryId, name)
      ensures gameTitle == old(gameTitle) && onSaveCalls == old(onSaveCalls) && notices == old(notices)
    {
      categories := WithCategoryName(categories, categoryId, name);
    }

    method UpdateQuestion(categoryId: string, questionId: string, field: QuestionField, value: string)
      modifies this
      ensures categories == WithQuestionField(old(categories), categoryId, questionId, field, value)
      ensures gameTitle == old(gameTitle) && onSaveCalls == old(onSaveCalls) && notices == old(notices)
    {
      categories := WithQuestionField(categories, categoryId, questionId, field, value);
    }

    /** `handleSave`: a refused save only notifies; an accepted one calls back with the
        game and then notifies. The editor's own fields stay as they are. */
    method HandleSave(newId: string, now: Timestamp)
      modifies this
      ensures gameTitle == old(gameTitle) && categories == old(categories)
      ensures var r := SaveResult(game, gameTitle, categories, newId, now);
        && (r.Err? ==> onSaveCalls == old(onSaveCalls) && notices == old(notices) + [Refused(r.error)])
        && (r.Ok? ==> onSaveCalls == old(onSaveCalls) + [r.value] && notices == old(notices) + [SavedNotice])
    {
      var r := SaveResult(game, gameTitle, categories, newId, now);
      if r.Err? {
        notices := notices + [Refused(r.error)];
      } else {
        onSaveCalls := onSaveCalls + [r.value];
        notices := notices + [SavedNotice];
      }
    }
  }
}
