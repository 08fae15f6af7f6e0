/**
 * The interface's two languages: a translation table per language and the
 * lookup `t(key)` that falls back to the key itself when the current language
 * has no (non-empty) text for it. A fresh provider starts in English.
 */
module LanguageContext {
  import opened Wrappers

  datatype Language = En | Es

  /** The language a provider starts with. */
  const InitialLanguage: Language := En

  /** The English table. */
  function EnglishText(key: string): Option<string>
  {
    match key
    case "app.title" => Some("Syntex")
    case "app.description" => Some("Learn math through AI-generated questions")
    case "topic.label" => Some("Enter a math topic to study")
    case "topic.placeholder" => Some("e.g., Quadratic Equations")
    case "button.start" => Some("Start Learning")
    case "or.choose" => Some("Or choose a suggested topic:")
    case "question.score" => Some("Score")
    case "button.hint" => Some("Show Hint")
    case "button.skip" => Some("Skip Question")
    case "button.next" => Some("Next Question")
    case "button.back" => Some("Back to Topics")
    case "difficulty.easy" => Some("Easy")
    case "difficulty.medium" => Some("Medium")
    case "difficulty.hard" => Some("Hard")
    case "difficulty.label" => Some("Difficulty")
    case "generating" => Some("Generating question...")
    case _ => None
  }

  /** The Spanish table. */
  function SpanishText(key: string): Option<string>
  {
    match key
    case "app.title" => Some("Syntex")
    case "app.description" => Some("Aprende matemáticas con preguntas generadas por IA")
    case "topic.label" => Some("Ingresa un tema de matemáticas para estudiar")
    case "topic.placeholder" => Some("ej., Ecuaciones Cuadráticas")
    case "button.start" => Some("Comenzar a Aprender")
    case "or.choose" => Some("O elige un tema sugerido:")
    case "question.score" => Some("Puntuación")
    case "button.hint" => Some("Mostrar Pista")
    case "button.skip" => Some("Saltar Pregunta")
    case "button.next" => Some("Siguiente Pregunta")
    case "button.back" => Some("Volver a Temas")
    case "difficulty.easy" => Some("Fácil")
    case "difficulty.medium" => Some("Medio")
    case "difficulty.hard" => Some("Difícil")
    case "difficulty.label" => Some("Dificultad")
    case "generating" => Some("Generando pregunta...")
    case _ => None
  }

  /** `translations[language][key]`: the text of `key` in `language`, if it has one. */
  function Lookup(language: Language, key: string): Option<string>
  {
    match language
    case En => EnglishText(key)
    case Es => SpanishText(key)
  }

  /** `translations[language][key] || key`: the translation when there is a non-empty one,
      otherwise the key. */
  function Translate(language: Language, key: string): (text: string)
    ensures Lookup(language, key).Some? && Lookup(language, key).value != [] ==> text == Lookup(language, key).value
    ensures Lookup(language, key).None? ==> text == key
  {
    match Lookup(language, key)
    case Some(t) => if t != [] then t else key
    case None => key
  }

  /** The keys both tables define, in the order they are listed. */
  const Keys: seq<string> := [
    "app.title", "app.description", "topic.label", "topic.placeholder", "button.start",
    "or.choose", "question.score", "button.hint", "button.skip", "button.next",
    "button.back", "difficulty.easy", "difficulty.medium", "difficulty.hard",
    "difficulty.label", "generating"
  ]

  /** The English table defines exactly the listed keys. */
  lemma EnglishKeys(key: string)
    ensures EnglishText(key).Some? <==> key in Keys
  {
  }

  /** Every text of the English table is non-empty. */
  lemma EnglishNonEmpty(key: string)
    ensures EnglishText(key).Some? ==> EnglishText(key).value != []
  {
  }

  /** The Spanish table defines exactly the listed keys. */
  lemma SpanishKeys(key: string)
    ensures SpanishText(key).Some? <==> key in Keys
  {
  }

  /** Every text of the Spanish table is non-empty. */
  lemma SpanishNonEmpty(key: string)
    ensures SpanishText(key).Some? ==> SpanishText(key).value != []
  {
  }

  /** Both tables define exactly the listed keys, with a non-empty text for each. */
  lemma TablesAgree(language: Language, key: string)
    ensures Lookup(language, key).Some? <==> key in Keys
    ensures Lookup(language, key).Some? ==> Lookup(language, key).value != []
  {
    match language
    case En =>
      EnglishKeys(key);
      EnglishNonEmpty(key);
    case Es =>
      SpanishKeys(key);
      SpanishNonEmpty(key);
  }

  /** The list has sixteen different keys. */
  lemma SixteenKeys()
    ensures |Keys| == 16
    ensures forall i, j :: 0 <= i < j < |Keys| ==> Keys[i] != Keys[j]
  {
  }

  /** `t` gives the current language's text for a listed key, and the key itself
      for any other. */
  lemma TranslateIff(language: Language, key: string)
    ensures key in Keys ==> Lookup(language, key).Some? && Translate(language, key) == Lookup(language, key).value
    ensures key !in Keys ==> Translate(language, key) == key
  {
    TablesAgree(language, key);
  }

  /** A provider that was never switched shows English: the title in both languages is the
      product name, the start button differs. */
  lemma InitialIsEnglish()
    ensures Translate(InitialLanguage, "button.start") == "Start Learning"
    ensures Translate(Es, "button.start") == "Comenzar a Aprender"
    ensures Translate(InitialLanguage, "app.title") == Translate(Es, "app.title") == "Syntex"
  {
  }
}
