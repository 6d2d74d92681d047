/** The interface language: an English and a French table of texts by key, the
    lookup `t` that falls back to the key itself, and the provider that holds the chosen
    language. */
module LanguageContext {
  import opened Wrappers

  datatype Language = En | Fr

  /** The language used until one is chosen and stored. */
  const DefaultLanguage: Language := En

  /** The English table (`translations.en`). */
  function EnglishText(key: string): Option<string> {
    match key
    case "app.title" => Some("Mme Popper Jeopardy Maker")
    case "app.subtitle" => Some("Create and play custom Jeopardy games with math formula support!")
    case "button.play" => Some("Play")
    case "button.edit" => Some("Edit")
    case "button.delete" => Some("Delete")
    case "button.close" => Some("Close")
    case "button.back" => Some("Back to Home")
    case "button.createNew" => Some("Create New Game")
    case "button.showAnswer" => Some("Show Answer")
    case "button.markAnswered" => Some("Mark as Answered")
    case "button.celebrating" => Some("Celebrating!")
    case "button.save" => Some("Save Game")
    case "button.cancel" => Some("Cancel")
    case "button.addCategory" => Some("Add Category")
    case "button.addQuestion" => Some("Add Question")
    case "games.title" => Some("Your Games")
    case "games.noGames" => Some("No games yet!")
    case "games.noGamesDesc" => Some("Create your first Jeopardy game to get started.")
    case "games.categories" => Some("categories")
    case "games.created" => Some("Created")
    case "games.deleteSuccess" => Some("Game Deleted")
    case "games.deleteDesc" => Some("The game has been removed successfully.")
    case "editor.title" => Some("Game Editor")
    case "editor.gameTitle" => Some("Game Title")
    case "editor.gameTitlePlaceholder" => Some("Enter game title...")
    case "editor.categories" => Some("Categories")
    case "editor.categoryName" => Some("Category Name")
    case "editor.categoryPlaceholder" => Some("Enter category name...")
    case "editor.questions" => Some("Questions")
    case "editor.questionText" => Some("Question")
    case "editor.questionPlaceholder" => Some("Enter your question...")
    case "editor.answerText" => Some("Answer")
    case "editor.answerPlaceholder" => Some("Enter the answer...")
    case "editor.value" => Some("Value")
    case "editor.questionImage" => Some("Question Image")
    case "editor.answerImage" => Some("Answer Image")
    case "editor.uploadImage" => Some("Upload Image")
    case "editor.removeCategory" => Some("Remove Category")
    case "editor.removeQuestion" => Some("Remove Question")
    case "play.score" => Some("Score")
    case "play.fullscreen" => Some("Fullscreen")
    case "play.exitFullscreen" => Some("Exit Fullscreen")
    case "math.symbols" => Some("Math Symbols")
    case "math.fraction" => Some("Fraction")
    case "math.superscript" => Some("Superscript")
    case "math.subscript" => Some("Subscript")
    case "math.squareRoot" => Some("Square Root")
    case "math.pi" => Some("Pi")
    case "math.infinity" => Some("Infinity")
    case "math.plusMinus" => Some("Plus/Minus")
    case "math.degrees" => Some("Degrees")
    case "math.times" => Some("Multiplication")
    case "math.divide" => Some("Division")
    case "math.integral" => Some("Integral")
    case "math.sum" => Some("Sum")
    case "math.alpha" => Some("Alpha")
    case "math.beta" => Some("Beta")
    case "math.gamma" => Some("Gamma")
    case "math.delta" => Some("Delta")
    case "math.theta" => Some("Theta")
    case "math.lambda" => Some("Lambda")
    case "math.mu" => Some("Mu")
    case "math.sigma" => Some("Sigma")
    case "math.phi" => Some("Phi")
    case "math.omega" => Some("Omega")
    case "tutorial.mathTitle" => Some("Math Symbols Tutorial")
    case "tutorial.mathSubtitle" => Some("Learn how to create mathematical expressions using LaTeX syntax")
    case "tutorial.openTutorial" => Some("Math Tutorial")
    case "tutorial.howToUse" => Some("How to use")
    case "tutorial.typeThis" => Some("Type this:")
    case "tutorial.getThis" => Some("To get this:")
    case "tutorial.basicSymbols" => Some("Basic Symbols")
    case "tutorial.greekLetters" => Some("Greek Letters")
    case "tutorial.functions" => Some("Functions")
    case "tutorial.operators" => Some("Operators")
    case "tutorial.advanced" => Some("Advanced")
    case "tutorial.copySymbol" => Some("Click to copy")
    case "tutorial.copied" => Some("Copied to clipboard!")
    case "celebration.fantastic" => Some("\U{1F389} Fantastic! You're a Jeopardy champion!")
    case "celebration.brilliant" => Some("\U{1F31F} Brilliant work! Keep it up!")
    case "celebration.amazing" => Some("\U{1F38A} Amazing! You're on fire!")
    case "celebration.excellent" => Some("\U{2728} Excellent! Your brain is working overtime!")
    case "celebration.superb" => Some("\U{1F680} Superb! You're reaching for the stars!")
    case "celebration.outstanding" => Some("\U{1F3C6} Outstanding! Victory is yours!")
    case "celebration.spectacular" => Some("\U{1F4AB} Spectacular! You're absolutely crushing it!")
    case "celebration.perfect" => Some("\U{1F3AF} Perfect! Right on target!")
    case "celebration.wonderful" => Some("\U{2B50} Wonderful! You're a star student!")
    case "celebration.marvelous" => Some("\U{1F388} Marvelous! Learning is so much fun!")
    case "celebration.keepItUp" => Some("Keep up the great work! \U{1F393}")
    case _ => None
  }

  /** The French table (`translations.fr`). */
  function FrenchText(key: string): Option<string> {
    match key
    case "app.title" => Some("Cr\U{E9}ateur de Jeopardy de Mme Popper")
    case "app.subtitle" => Some("Cr\U{E9}ez et jouez \U{E0} des jeux Jeopardy personnalis\U{E9}s avec support des formules math\U{E9}matiques !")
    case "button.play" => Some("Jouer")
    case "button.edit" => Some("Modifier")
    case "button.delete" => Some("Supprimer")
    case "button.close" => Some("Fermer")
    case "button.back" => Some("Retour \U{E0} l'accueil")
    case "button.createNew" => Some("Cr\U{E9}er un nouveau jeu")
    case "button.showAnswer" => Some("Montrer la r\U{E9}ponse")
    case "button.markAnswered" => Some("Marquer comme r\U{E9}pondu")
    case "button.celebrating" => Some("C\U{E9}l\U{E9}bration !")
    case "button.save" => Some("Sauvegarder le jeu")
    case "button.cancel" => Some("Annuler")
    case "button.addCategory" => Some("Ajouter une cat\U{E9}gorie")
    case "button.addQuestion" => Some("Ajouter une question")
    case "games.title" => Some("Vos jeux")
    case "games.noGames" => Some("Aucun jeu pour le moment !")
    case "games.noGamesDesc" => Some("Cr\U{E9}ez votre premier jeu Jeopardy pour commencer.")
    case "games.categories" => Some("cat\U{E9}gories")
    case "games.created" => Some("Cr\U{E9}\U{E9} le")
    case "games.deleteSuccess" => Some("Jeu supprim\U{E9}")
    case "games.deleteDesc" => Some("Le jeu a \U{E9}t\U{E9} supprim\U{E9} avec succ\U{E8}s.")
    case "editor.title" => Some("\U{C9}diteur de jeu")
    case "editor.gameTitle" => Some("Titre du jeu")
    case "editor.gameTitlePlaceholder" => Some("Entrez le titre du jeu...")
    case "editor.categories" => Some("Cat\U{E9}gories")
    case "editor.categoryName" => Some("Nom de la cat\U{E9}gorie")
    case "editor.categoryPlaceholder" => Some("Entrez le nom de la cat\U{E9}gorie...")
    case "editor.questions" => Some("Questions")
    case "editor.questionText" => Some("Question")
    case "editor.questionPlaceholder" => Some("Entrez votre question...")
    case "editor.answerText" => Some("R\U{E9}ponse")
    case "editor.answerPlaceholder" => Some("Entrez la r\U{E9}ponse...")
    case "editor.value" => Some("Valeur")
    case "editor.questionImage" => Some("Image de la question")
    case "editor.answerImage" => Some("Image de la r\U{E9}ponse")
    case "editor.uploadImage" => Some("T\U{E9}l\U{E9}charger une image")
    case "editor.removeCategory" => Some("Supprimer la cat\U{E9}gorie")
    case "editor.removeQuestion" => Some("Supprimer la question")
    case "play.score" => Some("Score")
    case "play.fullscreen" => Some("Plein \U{E9}cran")
    case "play.exitFullscreen" => Some("Quitter le plein \U{E9}cran")
    case "math.symbols" => Some("Symboles math\U{E9}matiques")
    case "math.fraction" => Some("Fraction")
    case "math.superscript" => Some("Exposant")
    case "math.subscript" => Some("Indice")
    case "math.squareRoot" => Some("Racine carr\U{E9}e")
    case "math.pi" => Some("Pi")
    case "math.infinity" => Some("Infini")
    case "math.plusMinus" => Some("Plus/Moins")
    case "math.degrees" => Some("Degr\U{E9}s")
    case "math.times" => Some("Multiplication")
    case "math.divide" => Some("Division")
    case "math.integral" => Some("Int\U{E9}grale")
    case "math.sum" => Some("Somme")
    case "math.alpha" => Some("Alpha")
    case "math.beta" => Some("B\U{EA}ta")
    case "math.gamma" => Some("Gamma")
    case "math.delta" => Some("Delta")
    case "math.theta" => Some("Th\U{EA}ta")
    case "math.lambda" => Some("Lambda")
    case "math.mu" => Some("Mu")
    case "math.sigma" => Some("Sigma")
    case "math.phi" => Some("Phi")
    case "math.omega" => Some("Om\U{E9}ga")
    case "tutorial.mathTitle" => Some("Tutoriel des symboles math\U{E9}matiques")
    case "tutorial.mathSubtitle" => Some("Apprenez \U{E0} cr\U{E9}er des expressions math\U{E9}matiques avec la syntaxe LaTeX")
    case "tutorial.openTutorial" => Some("Tutoriel math")
    case "tutorial.howToUse" => Some("Comment utiliser")
    case "tutorial.typeThis" => Some("Tapez ceci :")
    case "tutorial.getThis" => Some("Pour obtenir ceci :")
    case "tutorial.basicSymbols" => Some("Symboles de base")
    case "tutorial.greekLetters" => Some("Lettres grecques")
    case "tutorial.functions" => Some("Fonctions")
    case "tutorial.operators" => Some("Op\U{E9}rateurs")
    case "tutorial.advanced" => Some("Avanc\U{E9}")
    case "tutorial.copySymbol" => Some("Cliquez pour copier")
    case "tutorial.copied" => Some("Copi\U{E9} dans le presse-papiers !")
    case "celebration.fantastic" => Some("\U{1F389} Fantastique ! Vous \U{EA}tes un champion de Jeopardy !")
    case "celebration.brilliant" => Some("\U{1F31F} Brillant travail ! Continuez comme \U{E7}a !")
    case "celebration.amazing" => Some("\U{1F38A} Incroyable ! Vous \U{EA}tes en feu !")
    case "celebration.excellent" => Some("\U{2728} Excellent ! Votre cerveau travaille \U{E0} plein r\U{E9}gime !")
    case "celebration.superb" => Some("\U{1F680} Superbe ! Vous visez les \U{E9}toiles !")
    case "celebration.outstanding" => Some("\U{1F3C6} Exceptionnel ! La victoire est v\U{F4}tre !")
    case "celebration.spectacular" => Some("\U{1F4AB} Spectaculaire ! Vous \U{E9}crasez tout !")
    case "celebration.perfect" => Some("\U{1F3AF} Parfait ! En plein dans le mille !")
    case "celebration.wonderful" => Some("\U{2B50} Merveilleux ! Vous \U{EA}tes un \U{E9}tudiant \U{E9}toile !")
    case "celebration.marvelous" => Some("\U{1F388} Merveilleux ! Apprendre, c'est si amusant !")
    case "celebration.keepItUp" => Some("Continuez ce bon travail ! \U{1F393}")
    case _ => None
  }

  function Translation(lang: Language, key: string): Option<string> {
    match lang
    case En => EnglishText(key)
    case Fr => FrenchText(key)
  }

  /** `translations[language][key] || key`: a missing or empty text gives the key. */
  function T(lang: Language, key: string): (r: string)
    ensures Translation(lang, key).Some? && Translation(lang, key).value != "" ==>
      r == Translation(lang, key).value
    ensures Translation(lang, key).None? || Translation(lang, key).value == "" ==> r == key
  {
    match Translation(lang, key)
    case Some(text) => if text != "" then text else key
    case None => key
  }

  /** The two tables know the same keys. */
  lemma TablesHaveSameKeys(key: string)
    ensures EnglishText(key).Some? <==> FrenchText(key).Some?
  {
    EnglishKeysTranslated(key);
    FrenchKeysTranslated(key);
  }

  /** Every key of the English table has a French text. */
  lemma EnglishKeysTranslated(key: string)
    ensures EnglishText(key).Some? ==> FrenchText(key).Some?
  {
  }

  /** Every key of the French table has an English text. */
  lemma FrenchKeysTranslated(key: string)
    ensures FrenchText(key).Some? ==> EnglishText(key).Some?
  {
  }

  /** The team dialog asks for keys that neither table has, so it shows the keys
      themselves, in either language. */
  lemma TeamKeysUntranslated(lang: Language)
    ensures T(lang, "teams.teamName") == "teams.teamName"
    ensures T(lang, "teams.selectTeams") == "teams.selectTeams"
    ensures T(lang, "teams.customizeTeams") == "teams.customizeTeams"
    ensures T(lang, "teams.startGame") == "teams.startGame"
    ensures T(lang, "button.next") == "button.next"
  {
    TeamNameKeyMissing();
    SelectTeamsKeyMissing();
    CustomizeTeamsKeyMissing();
    StartGameKeyMissing();
    NextKeyMissing();
  }

  lemma TeamNameKeyMissing()
    ensures EnglishText("teams.teamName").None? && FrenchText("teams.teamName").None?
  {
  }

  lemma SelectTeamsKeyMissing()
    ensures EnglishText("teams.selectTeams").None? && FrenchText("teams.selectTeams").None?
  {
  }

  lemma CustomizeTeamsKeyMissing()
    ensures EnglishText("teams.customizeTeams").None? && FrenchText("teams.customizeTeams").None?
  {
  }

  lemma StartGameKeyMissing()
    ensures EnglishText("teams.startGame").None? && FrenchText("teams.startGame").None?
  {
  }

  lemma NextKeyMissing()
    ensures EnglishText("button.next").None? && FrenchText("button.next").None?
  {
  }

  /** The provider: the chosen language, stored between visits. */
  class Provider {
    var language: Language

    constructor (stored: Option<Language>)
      ensures language == stored.GetOr(DefaultLanguage)
    {
      language := stored.GetOr(DefaultLanguage);
    }

    method SetLanguage(lang: Language)
      modifies this
      ensures language == lang
    {
      language := lang;
    }

    /** `t` in the provider's current language. */
    function Translate(key: string): (r: string)
      reads this
      ensures Translation(language, key).None? || Translation(language, key).value == "" ==> r == key
      ensures Translation(language, key).Some? && Translation(language, key).value != "" ==>
        r == Translation(language, key).value
    {
      T(language, key)
    }
  }

  /** `useLanguage` outside a provider fails instead of returning a context. */
  datatype ContextError = OutsideProvider

  function UseLanguage(context: Option<Provider>): (r: Result<Provider, ContextError>)
    ensures r.Ok? <==> context.Some?
    ensures r.Ok? ==> r.value == context.value
  {
    match context
    case Some(p) => Ok(p)
    case None => Err(OutsideProvider)
  }
}
