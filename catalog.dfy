/**
 * The fixed course catalog that `_initialize_languages_and_lessons` builds
 * (Licenta_aut_v2.py, lines 110-164), and the language-code table
 * `LANGUAGE_SPEECH_CODES` (lines 15-20), as constant data.
 */
module Catalog {
  import opened Text
  import opened Lessons

  /** What the constructor of a lesson is given. */
  datatype LessonInfo = LessonInfo(name: string, questions: seq<Question>, languageCode: string)

  /** One entry of `self.languages`: a language name and its lessons, in order. */
  datatype LanguageInfo = LanguageInfo(name: string, lessons: seq<LessonInfo>)

  /** `LANGUAGE_SPEECH_CODES`: the speech-recognition language for each course language. */
  const LanguageSpeechCodes: map<string, string> :=
    map["Spanish" := "es-ES", "French" := "fr-FR", "Dutch" := "nl-NL"]

  const SpanishBasicGreetings: LessonInfo := LessonInfo(
    "Spanish Basic Greetings",
    [ Question("What is 'hello' in Spanish?", "Hola"),
      Question("What is 'goodbye' in Spanish?", "Adiós"),
      Question("Translate 'thank you' to Spanish.", "Gracias") ],
    LanguageSpeechCodes["Spanish"])

  const SpanishCommonNouns: LessonInfo := LessonInfo(
    "Spanish Common Nouns",
    [ Question("What is 'cat' in Spanish?", "Gato"),
      Question("What is 'dog' in Spanish?", "Perro"),
      Question("Translate 'house' to Spanish.", "Casa") ],
    LanguageSpeechCodes["Spanish"])

  const FrenchBasicGreetings: LessonInfo := LessonInfo(
    "French Basic Greetings",
    [ Question("What is 'hello' in French?", "Bonjour"),
      Question("What is 'thank you' in French?", "Merci"),
      Question("Translate 'goodbye' to French.", "Au revoir") ],
    LanguageSpeechCodes["French"])

  const FrenchFoodItems: LessonInfo := LessonInfo(
    "French Food Items",
    [ Question("What is 'bread' in French?", "Pain"),
      Question("What is 'water' in French?", "Eau"),
      Question("Translate 'milk' to French.", "Lait") ],
    LanguageSpeechCodes["French"])

  const DutchBasicGreetings: LessonInfo := LessonInfo(
    "Dutch Basic Greetings",
    [ Question("What is 'hello' in Dutch?", "Hallo"),
      Question("What is 'goodbye' in Dutch?", "Tot ziens"),
      Question("Translate 'Can you understand me?' to Dutch.", "Kan jij mij verstaan"),
      Question("What is 'thank you' in Dutch?", "Dank je wel") ],
    LanguageSpeechCodes["Dutch"])

  const DutchEverydayNouns: LessonInfo := LessonInfo(
    "Dutch Everyday Nouns",
    [ Question("What is 'beer' in Dutch?", "Bier"),
      Question("What is 'cheese' in Dutch?", "Kaas"),
      Question("Translate 'bike' to Dutch.", "Fiets") ],
    LanguageSpeechCodes["Dutch"])

  /** The catalog, in the order the languages are added to `self.languages`. */
  const Languages: seq<LanguageInfo> := [
    LanguageInfo("Spanish", [SpanishBasicGreetings, SpanishCommonNouns]),
    LanguageInfo("French", [FrenchBasicGreetings, FrenchFoodItems]),
    LanguageInfo("Dutch", [DutchBasicGreetings, DutchEverydayNouns])
  ]

  /** The language names as the menu lists them. */
  function LanguageNames(): (names: seq<string>)
    ensures |names| == |Languages|
    ensures forall i :: 0 <= i < |names| ==> names[i] == Languages[i].name
  {
    seq(|Languages|, i requires 0 <= i < |Languages| => Languages[i].name)
  }

  /** Three languages, listed as Spanish, French, Dutch, with two lessons each. */
  lemma CatalogShape()
    ensures LanguageNames() == ["Spanish", "French", "Dutch"]
    ensures forall i :: 0 <= i < |Languages| ==> |Languages[i].lessons| == 2
  {
    assert LanguageNames() == ["Spanish", "French", "Dutch"];
  }

  /** Every lesson of a language is recognised in that language's speech code. */
  lemma LessonCodesFollowLanguage()
    ensures forall i :: 0 <= i < |Languages| ==> Languages[i].name in LanguageSpeechCodes
    ensures forall i, j :: 0 <= i < |Languages| && 0 <= j < |Languages[i].lessons| ==>
              Languages[i].lessons[j].languageCode == LanguageSpeechCodes[Languages[i].name]
  {
  }

  /**
   * Every catalog lesson has at least three questions, and each of them asks
   * exactly one question by voice: the third.
   */
  lemma EveryLessonHasOneVoiceQuestion()
    ensures forall i, j :: 0 <= i < |Languages| && 0 <= j < |Languages[i].lessons| ==>
              |Languages[i].lessons[j].questions| >= VoiceQuestionIndex + 1
    ensures forall i, j, k: nat ::
              0 <= i < |Languages| && 0 <= j < |Languages[i].lessons| && k < |Languages[i].lessons[j].questions| ==>
              (ChannelFor(k, Languages[i].lessons[j].languageCode).Voice? <==> k == VoiceQuestionIndex)
  {
  }

  /**
   * "Dutch Basic Greetings" has four questions; only the one at index 2,
   * "Can you understand me?", is answered by voice, in Dutch.
   */
  lemma DutchGreetingsVoiceQuestion()
    ensures |DutchBasicGreetings.questions| == 4
    ensures forall i: nat :: i < 4 ==>
              (ChannelFor(i, DutchBasicGreetings.languageCode).Voice? <==> i == 2)
    ensures ChannelFor(2, DutchBasicGreetings.languageCode) == Voice("nl-NL")
    ensures DutchBasicGreetings.questions[2].prompt == "Translate 'Can you understand me?' to Dutch."
  {
  }

  /** The verdict at each position of "Spanish Basic Greetings" for typed "Hola", typed "adios" and an empty transcript. */
  lemma SpanishGreetingsMarks(rs: seq<string>)
    requires rs == ["Hola", "adios", ""]
    ensures var marks := Marks(SpanishBasicGreetings.questions, rs); marks[0] && !marks[1] && !marks[2]
  {
    var qs := SpanishBasicGreetings.questions;
    assert qs[0].answer == rs[0] == "Hola" && qs[1].answer == "Adiós" && qs[2].answer == "Gracias";
    StripUnpadded("Hola");
    MarkAt(qs, rs, 0);
    MissingAccentDoesNotMatch();
    MarkAt(qs, rs, 1);
    EmptyReplyNeverMatches("", "Gracias");
    MarkAt(qs, rs, 2);
  }

  /**
   * The Spanish greetings run typed "Hola", typed "adios" (no accent) and an
   * empty transcript for the spoken third question: one correct out of three.
   */
  lemma SpanishGreetingsScenario(rs: seq<string>)
    requires rs == ["Hola", "adios", ""]
    ensures CorrectCount(SpanishBasicGreetings.questions, rs) == 1
  {
    SpanishGreetingsMarks(rs);
    var marks := Marks(SpanishBasicGreetings.questions, rs);
    assert CountCorrect(marks, 0, 1) == 1;
    assert CountCorrect(marks, 0, 2) == 1;
  }
}
