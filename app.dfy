/**
 * `DuolingoApp` of Licenta_aut_v2.py (lines 97-356): the course catalog it
 * fills in, the single `current_user` slot, registration and login against
 * the `Users` table, the numbered selection of a language and a lesson, and
 * one pass of the `run` loop at a time.
 */
module App {
  import opened Wrappers
  import opened Text
  import opened Lessons
  import opened Catalog
  import opened Menu
  import opened Credentials

  /**
   * Everything one pass of the `run` loop reads: the menu choice, the user
   * name and password typed after "1" or "2" at the authentication menu, the
   * salt `gensalt()` yields and how the database behaves, the entries typed at
   * the language and lesson prompts, and the answers to the lesson.
   */
  datatype Turn = Turn(choice: string, username: string, password: string,
                       salt: Salt, connection: Connection,
                       languageEntries: seq<Entry>, lessonEntries: seq<Entry>,
                       answers: AnswerSource)

  /** The state the `run` loop decides: who is logged in, and the `Users` table. */
  datatype AuthState = AuthState(currentUser: Option<string>, users: Users)

  /** `self.current_user` is truthy: set, and not the empty string. */
  predicate IsLoggedIn(user: Option<string>): (b: bool)
    ensures !b <==> user == None || user == Some("")
  {
    user.Some? && user.value != ""
  }

  /** "3" at the authentication menu ends `run` (lines 295-297). */
  predicate Exits(s: AuthState, turn: Turn): (b: bool)
    ensures b ==> !IsLoggedIn(s.currentUser)
  {
    !IsLoggedIn(s.currentUser) && Strip(turn.choice) == "3"
  }

  /** What one pass of the loop in `run` (lines 277-311) does to the session and the table. */
  function Step(s: AuthState, digest: Digest, turn: Turn): (t: AuthState)
    ensures forall u :: u in s.users ==> u in t.users && t.users[u] == s.users[u]
    ensures t.currentUser != s.currentUser ==> t.currentUser == None || t.currentUser == Some(Strip(turn.username))
  {
    var choice := Strip(turn.choice);
    var username := Strip(turn.username);
    var password := Strip(turn.password);
    if !IsLoggedIn(s.currentUser) then
      if choice == "1" && AuthenticateSucceeds(s.users, digest, username, password, turn.connection) then
        AuthState(Some(username), s.users)
      else if choice == "2" then
        AuthState(s.currentUser, AfterRegister(s.users, digest, username, password, turn.salt, turn.connection))
      else
        s
    else if choice == "2" then
      AuthState(None, s.users)
    else
      s
  }

  /** The state after the passes of `run` over `turns`, and whether the user chose to exit. */
  function Replay(s: AuthState, digest: Digest, turns: seq<Turn>): (r: (AuthState, bool))
    ensures forall u :: u in s.users ==> u in r.0.users && r.0.users[u] == s.users[u]
    decreases |turns|
  {
    if turns == [] then (s, false)
    else if Exits(s, turns[0]) then (s, true)
    else Replay(Step(s, digest, turns[0]), digest, turns[1..])
  }

  /** Whoever is in the session slot has a record in the table. */
  ghost predicate SessionSound(s: AuthState) {
    s.currentUser.Some? ==> s.currentUser.value in s.users
  }

  /** The session slot is filled only by a login whose authentication returned True. */
  lemma LoginOnlyAfterAuthentication(s: AuthState, digest: Digest, turn: Turn)
    requires Step(s, digest, turn).currentUser.Some?
    requires Step(s, digest, turn).currentUser != s.currentUser
    ensures !IsLoggedIn(s.currentUser) && Strip(turn.choice) == "1"
    ensures Step(s, digest, turn).currentUser == Some(Strip(turn.username))
    ensures AuthenticateSucceeds(s.users, digest, Strip(turn.username), Strip(turn.password), turn.connection)
  {
  }

  /** "2" at the main menu logs out (line 309). */
  lemma LogoutClearsSession(s: AuthState, digest: Digest, turn: Turn)
    requires IsLoggedIn(s.currentUser) && Strip(turn.choice) == "2"
    ensures Step(s, digest, turn) == AuthState(None, s.users)
  {
  }

  /** The table changes only by a successful registration from the authentication menu. */
  lemma TableChangesOnlyByRegistration(s: AuthState, digest: Digest, turn: Turn)
    requires Step(s, digest, turn).users != s.users
    ensures !IsLoggedIn(s.currentUser) && Strip(turn.choice) == "2"
    ensures RegisterSucceeds(s.users, Strip(turn.username), turn.connection)
  {
  }

  /**
   * Nothing in the program checks that a user name is non-empty: after
   * registering "" a user can log in as "", and the program still shows the
   * authentication menu, since the empty name is falsy.
   */
  lemma EmptyNameLoginLeavesAuthMenu(users: Users, digest: Digest, password: string, salt: Salt, turn: Turn)
    requires "" !in users
    requires Strip(turn.choice) == "1" && Strip(turn.username) == "" && turn.connection == Connected
    requires Strip(turn.password) == password
    ensures var registered := AfterRegister(users, digest, "", password, salt, Connected);
            && RegisterSucceeds(users, "", Connected)
            && Step(AuthState(None, registered), digest, turn).currentUser == Some("")
            && !IsLoggedIn(Step(AuthState(None, registered), digest, turn).currentUser)
  {
    assert Utf16Length("") == 0;
  }

  /** Every pass keeps the logged-in user backed by a record, and keeps every stored hash. */
  lemma StepPreserves(s: AuthState, digest: Digest, turn: Turn)
    requires SessionSound(s)
    ensures SessionSound(Step(s, digest, turn))
    ensures s.users.Keys <= Step(s, digest, turn).users.Keys
    ensures forall u :: u in s.users ==> Step(s, digest, turn).users[u] == s.users[u]
  {
  }

  /**
   * Over a whole run: the session stays backed by a record, no record is
   * removed and no stored hash ever changes.
   */
  lemma {:induction false} ReplayPreserves(s: AuthState, digest: Digest, turns: seq<Turn>)
    requires SessionSound(s)
    ensures SessionSound(Replay(s, digest, turns).0)
    ensures s.users.Keys <= Replay(s, digest, turns).0.users.Keys
    ensures forall u :: u in s.users ==> Replay(s, digest, turns).0.users[u] == s.users[u]
    decreases |turns|
  {
    if turns != [] && !Exits(s, turns[0]) {
      StepPreserves(s, digest, turns[0]);
      ReplayPreserves(Step(s, digest, turns[0]), digest, turns[1..]);
    }
  }

  /** A run that ends by the user's choice ends with nobody logged in. */
  lemma {:induction false} ReplayExitsOnlyByChoice(s: AuthState, digest: Digest, turns: seq<Turn>)
    ensures Replay(s, digest, turns).1 ==> !IsLoggedIn(Replay(s, digest, turns).0.currentUser)
    decreases |turns|
  {
    if turns != [] && !Exits(s, turns[0]) {
      ReplayExitsOnlyByChoice(Step(s, digest, turns[0]), digest, turns[1..]);
    }
  }

  /** `self.languages[key] = value` on an insertion-ordered dictionary: a new key goes last. */
  function PutKey(keys: seq<string>, key: string): (r: seq<string>)
    ensures key in r && forall k :: k in keys ==> k in r
    ensures forall k :: k in r ==> k == key || k in keys
  {
    if key in keys then keys else keys + [key]
  }

  /** Adding "Spanish", "French" and "Dutch" to an empty dictionary lists the keys in that order. */
  lemma CatalogKeyOrder()
    ensures PutKey(PutKey(PutKey([], "Spanish"), "French"), "Dutch") == ["Spanish", "French", "Dutch"]
  {
    assert PutKey([], "Spanish") == ["Spanish"];
    assert "French" !in ["Spanish"];
    assert PutKey(["Spanish"], "French") == ["Spanish", "French"];
    assert "Dutch" !in ["Spanish", "French"];
  }

  /** What a lesson object was constructed with. */
  function Info(l: LanguageLesson): LessonInfo {
    LessonInfo(l.name, l.questions, l.languageCode)
  }

  /** What the lesson objects of a language were constructed with, in order. */
  function Infos(lessons: seq<LanguageLesson>): (r: seq<LessonInfo>)
    ensures |r| == |lessons|
    ensures forall i :: 0 <= i < |r| ==> r[i] == Info(lessons[i])
  {
    seq(|lessons|, i requires 0 <= i < |lessons| => Info(lessons[i]))
  }

  /** A lesson run to completion with the given answers. */
  ghost predicate Completed(l: LanguageLesson, answers: AnswerSource)
    reads l
  {
    && l.Valid()
    && l.currentQuestionIndex == |l.questions|
    && l.score == CorrectCount(l.questions, Replies(l.questions, l.languageCode, answers))
  }

  /** A lesson object that nobody has started: at the first question, with no score. */
  ghost predicate NotStarted(l: LanguageLesson)
    reads l
  {
    l.score == 0 && l.currentQuestionIndex == 0
  }

  class DuolingoApp {
    /** `self.languages`: lessons by language name; `languageNames` is its key order. */
    var languages: map<string, seq<LanguageLesson>>
    var languageNames: seq<string>
    /** `self.current_user`. */
    var currentUser: Option<string>
    /** The `Users` table the program connects to. */
    const db: UsersTable
    /** bcrypt's digest. */
    const digest: Digest

    /** `languageNames` lists each key of `languages` once. */
    ghost predicate Valid()
      reads this
    {
      && (forall i, j :: 0 <= i < j < |languageNames| ==> languageNames[i] != languageNames[j])
      && (forall n :: n in languages <==> n in languageNames)
    }

    /** Every lesson object of the catalog. */
    ghost function LessonObjects(): set<LanguageLesson>
      reads this
    {
      set n, l | n in languages && l in languages[n] :: l
    }

    /** The session and the table. */
    ghost function State(): AuthState
      reads this, db
    {
      AuthState(currentUser, db.rows)
    }

    /** The lesson the typed entries select, if they select one. */
    ghost function SelectedLesson(languageEntries: seq<Entry>, lessonEntries: seq<Entry>): Option<LanguageLesson>
      requires Valid()
      reads this
    {
      match FirstValidChoice(languageEntries, |languageNames|)
      case None => None
      case Some(i) => LessonChosen(languageNames[i], lessonEntries)
    }

    /** The lesson of `languageName` the typed entries select, if they select one. */
    ghost function LessonChosen(languageName: string, lessonEntries: seq<Entry>): Option<LanguageLesson>
      requires languageName in languages
      reads this
    {
      match FirstValidChoice(lessonEntries, |languages[languageName]|)
      case None => None
      case Some(j) => Some(languages[languageName][j])
    }

    /** `__init__` (lines 105-108): nobody logged in, and the catalog built. */
    constructor (db: UsersTable, digest: Digest)
      ensures Valid() && this.db == db && this.digest == digest && currentUser == None
      ensures languageNames == ["Spanish", "French", "Dutch"] == LanguageNames()
      ensures Infos(languages["Spanish"]) == [SpanishBasicGreetings, SpanishCommonNouns]
      ensures Infos(languages["French"]) == [FrenchBasicGreetings, FrenchFoodItems]
      ensures Infos(languages["Dutch"]) == [DutchBasicGreetings, DutchEverydayNouns]
      ensures forall l :: l in languages["Spanish"] ==> fresh(l) && NotStarted(l)
      ensures forall l :: l in languages["French"] ==> fresh(l) && NotStarted(l)
      ensures forall l :: l in languages["Dutch"] ==> fresh(l) && NotStarted(l)
    {
      this.db := db;
      this.digest := digest;
      languages := map[];
      languageNames := [];
      currentUser := None;
      new;
      InitializeLanguagesAndLessons();
      CatalogKeyOrder();
      CatalogShape();
    }

    /**
     * `_initialize_languages_and_lessons` (lines 110-164): a new object for
     * each catalog lesson, stored under its language.
     */
    method InitializeLanguagesAndLessons()
      requires Valid()
      modifies this
      ensures Valid() && currentUser == old(currentUser)
      ensures languageNames == PutKey(PutKey(PutKey(old(languageNames), "Spanish"), "French"), "Dutch")
      ensures forall n :: n in old(languages) && n !in ["Spanish", "French", "Dutch"] ==> languages[n] == old(languages)[n]
      ensures Infos(languages["Spanish"]) == [SpanishBasicGreetings, SpanishCommonNouns]
      ensures Infos(languages["French"]) == [FrenchBasicGreetings, FrenchFoodItems]
      ensures Infos(languages["Dutch"]) == [DutchBasicGreetings, DutchEverydayNouns]
      ensures forall l :: l in languages["Spanish"] ==> fresh(l) && NotStarted(l)
      ensures forall l :: l in languages["French"] ==> fresh(l) && NotStarted(l)
      ensures forall l :: l in languages["Dutch"] ==> fresh(l) && NotStarted(l)
    {
      AddLanguage("Spanish", SpanishBasicGreetings, SpanishCommonNouns);
      ghost var spanish := languages["Spanish"];
      AddLanguage("French", FrenchBasicGreetings, FrenchFoodItems);
      ghost var french := languages["French"];
      AddLanguage("Dutch", DutchBasicGreetings, DutchEverydayNouns);
      assert "Spanish" != "French" && "Spanish" != "Dutch" && "French" != "Dutch";
      assert languages["Spanish"] == spanish && languages["French"] == french;
    }

    /**
     * The lessons of one language (lines 115-129, 132-146 or 149-164): two new
     * lesson objects, stored under the language's name.
     */
    method AddLanguage(name: string, first: LessonInfo, second: LessonInfo)
      requires Valid()
      modifies this
      ensures Valid() && currentUser == old(currentUser)
      ensures name in languages && languages == old(languages)[name := languages[name]]
      ensures languageNames == PutKey(old(languageNames), name)
      ensures Infos(languages[name]) == [first, second]
      ensures forall l :: l in languages[name] ==> fresh(l) && NotStarted(l)
    {
      var l1 := new LanguageLesson(first.name, first.questions, first.languageCode);
      var l2 := new LanguageLesson(second.name, second.questions, second.languageCode);
      languages := languages[name := [l1, l2]];
      languageNames := PutKey(languageNames, name);
    }

    /**
     * `_register_user` (lines 210-232): hash the password with a fresh salt
     * and insert the record; True only when the insert succeeds.
     */
    method RegisterUser(username: string, password: string, salt: Salt, connection: Connection)
      returns (ok: bool)
      modifies db
      ensures ok == RegisterSucceeds(old(db.rows), username, connection)
      ensures db.rows == AfterRegister(old(db.rows), digest, username, password, salt, connection)
    {
      if connection == NoConnection {
        return false;
      }
      var hashed := HashPw(digest, password, salt);
      if connection == StatementError {
        return false;
      }
      var outcome := db.Insert(username, hashed);
      ok := outcome == Inserted;
    }

    /**
     * `_authenticate_user` (lines 234-258): True exactly when the database
     * answers, the user has a record and the password checks against it.
     */
    method AuthenticateUser(username: string, password: string, connection: Connection) returns (ok: bool)
      ensures ok == AuthenticateSucceeds(db.rows, digest, username, password, connection)
    {
      if connection != Connected {
        return false;
      }
      var found := db.Lookup(username);
      if found.None? {
        return false;
      }
      ok := CheckPw(digest, password, found.value);
    }

    /** Login from the authentication menu (lines 282-287): on success the session holds the name. */
    method Login(username: string, password: string, connection: Connection) returns (ok: bool)
      modifies this
      ensures ok == AuthenticateSucceeds(db.rows, digest, username, password, connection)
      ensures currentUser == if ok then Some(username) else old(currentUser)
      ensures languages == old(languages) && languageNames == old(languageNames)
    {
      ok := AuthenticateUser(username, password, connection);
      if ok {
        currentUser := Some(username);
      }
    }

    /** Logout from the main menu (lines 307-309). */
    method Logout()
      modifies this
      ensures currentUser == None
      ensures languages == old(languages) && languageNames == old(languageNames)
    {
      currentUser := None;
    }

    /**
     * `_select_language` (lines 313-333): list the languages, take the first
     * number in range, and go on to that language's lessons.
     */
    method SelectLanguage(languageEntries: seq<Entry>, lessonEntries: seq<Entry>, answers: AnswerSource)
      returns (ran: Option<LanguageLesson>)
      requires Valid()
      modifies LessonObjects()
      ensures LessonObjects() == old(LessonObjects())
      ensures ran == SelectedLesson(languageEntries, lessonEntries)
      ensures ran.Some? ==> Completed(ran.value, answers)
      ensures forall l :: l in LessonObjects() && ran != Some(l) ==> unchanged(l)
    {
      if |languages| == 0 {
        return None;
      }
      var choice := ReadChoice(languageEntries, |languageNames|);
      if choice.None? {
        return None;
      }
      assert languageNames[choice.value] in languages;
      ran := SelectAndStartLesson(languageNames[choice.value], lessonEntries, answers);
    }

    /**
     * `_select_and_start_lesson` (lines 335-356): list the lessons of the
     * language, take the first number in range, and run that lesson.
     */
    method SelectAndStartLesson(languageName: string, lessonEntries: seq<Entry>, answers: AnswerSource)
      returns (ran: Option<LanguageLesson>)
      requires languageName in languages
      modifies LessonObjects()
      ensures LessonObjects() == old(LessonObjects())
      ensures ran == LessonChosen(languageName, lessonEntries)
      ensures ran.Some? ==> Completed(ran.value, answers)
      ensures forall l :: l in LessonObjects() && ran != Some(l) ==> unchanged(l)
    {
      var lessonsForLanguage := languages[languageName];
      if |lessonsForLanguage| == 0 {
        return None;
      }
      var choice := ReadChoice(lessonEntries, |lessonsForLanguage|);
      if choice.None? {
        return None;
      }
      var lesson := lessonsForLanguage[choice.value];
      assert lesson in languages[languageName];
      assert lesson in LessonObjects();
      var requests, summary := lesson.StartLesson(answers);
      ran := Some(lesson);
    }

    /** One pass of the `while True` loop of `run` (lines 277-311). */
    method RunTurn(turn: Turn) returns (exit: bool)
      requires Valid()
      modifies this, db, LessonObjects()
      ensures LessonObjects() == old(LessonObjects())
      ensures Valid() && languages == old(languages) && languageNames == old(languageNames)
      ensures exit == Exits(old(State()), turn)
      ensures State() == Step(old(State()), digest, turn)
      ensures ghost var lessonTurn := IsLoggedIn(old(currentUser)) && Strip(turn.choice) == "1";
              ghost var ran := if lessonTurn then SelectedLesson(turn.languageEntries, turn.lessonEntries) else None;
              && (ran.Some? ==> Completed(ran.value, turn.answers))
              && (forall l :: l in LessonObjects() && ran != Some(l) ==> unchanged(l))
    {
      var choice := Strip(turn.choice);
      exit := false;
      if !IsLoggedIn(currentUser) {
        if choice == "1" {
          var ok := Login(Strip(turn.username), Strip(turn.password), turn.connection);
        } else if choice == "2" {
          var ok := RegisterUser(Strip(turn.username), Strip(turn.password), turn.salt, turn.connection);
        } else if choice == "3" {
          exit := true;
        }
      } else {
        if choice == "1" {
          var ran := SelectLanguage(turn.languageEntries, turn.lessonEntries, turn.answers);
        } else if choice == "2" {
          Logout();
        }
      }
    }

    /**
     * `run` (lines 273-311) over the given passes: it stops when the user
     * exits or the input ends; the session and the table end as `Replay` says.
     */
    method Run(turns: seq<Turn>) returns (exited: bool)
      requires Valid()
      modifies this, db, LessonObjects()
      ensures LessonObjects() == old(LessonObjects())
      ensures Valid() && languages == old(languages) && languageNames == old(languageNames)
      ensures (State(), exited) == Replay(old(State()), digest, turns)
    {
      var i := 0;
      exited := false;
      while i < |turns|
        invariant 0 <= i <= |turns| && !exited
        invariant Valid() && languages == old(languages) && languageNames == old(languageNames)
        invariant Replay(old(State()), digest, turns) == Replay(State(), digest, turns[i..])
        decreases |turns| - i
      {
        assert turns[i..][0] == turns[i] && turns[i..][1..] == turns[i + 1..];
        exited := RunTurn(turns[i]);
        if exited {
          return;
        }
        i := i + 1;
      }
      assert turns[i..] == [];
    }
  }
}
