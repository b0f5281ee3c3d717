# A Dafny model of a console language trainer

This project models the core of `Licenta_aut_v2.py`, a console language
trainer in the style of Duolingo. A user registers or logs in against a
`Users` table whose passwords are hashed with bcrypt. The user then picks a
language and a lesson from numbered menus. The lesson asks its fixed
questions in order and scores the answers. The third question of every
lesson must be answered by voice.

The model has seven modules:

- `Text` (`text.dfy`): Python's `str.strip()` and `str.lower()`, and the
  answer comparison.
- `Lessons` (`lessons.dfy`): the `LanguageLesson` class, with `score` and
  `currentQuestionIndex` as fields. The mutual recursion of
  `_present_next_question` and `_check_answer` is a `while` loop. The
  loop reads answers from an injected answer source: a function from
  (question index, channel) to the raw reply. The keyboard is one channel;
  the speech recogniser, given the lesson's language code, is the other.
- `Catalog` (`catalog.dfy`): the three languages and six lessons, and the
  language-code table, as constants.
- `Menu` (`menu.dfy`): the 1-based menu-number check and the re-prompt loop.
- `Credentials` (`credentials.dfy`): bcrypt hashing over an abstract digest,
  and the `Users` table as a class over a map from user name to stored hash,
  keyed uniquely.
- `App` (`app.dfy`): the `DuolingoApp` class. It holds the catalog
  objects, the single `current_user` slot and the store, and it models
  register, authenticate, login, logout, language and lesson selection, and
  the `run` loop. The pure functions `Step` and `Replay` say what `run`
  does to the session and the table.
- `Wrappers` (`wrappers.dfy`): `Option`.

Choices in the modelling:

- bcrypt's digest is a function value given to the application. A stored
  hash carries its salt, as a bcrypt hash string does. So
  `CheckPw(pw, HashPw(pw, s))` is a theorem for every digest. The salt that
  `gensalt()` draws at random is a parameter.
- The database is given as a `Connection` value per operation. It can be
  connected, return no connection, or raise a `pyodbc.Error` that is not a
  constraint violation. The last two make register and authenticate
  return False and change nothing.
- The `Username NVARCHAR(50)` column (line 197) is modelled. An insert of
  a longer name fails, and its length is counted in UTF-16 code units.
  This follows SQL Server's default behaviour: such an insert raises a
  data error, which `_register_user` catches as an ordinary `pyodbc.Error`.
- `str.strip()` uses exactly the characters for which Python's
  `str.isspace()` holds.
- The model's `Lower` maps the ASCII capitals and the Latin-1 capitals
  U+00C0..U+00DE (except U+00D7) to their lower-case forms and leaves every
  other character unchanged. Python's `str.lower()` also lower-cases
  characters outside that range, such as U+0178 and the Greek and Cyrillic
  capitals; see the `Text.Lower` line under "## Left out".
- `self.current_user` is falsy when it is the empty string, so
  `if not self.current_user` (line 277) shows the authentication menu. So
  "logged in" means a non-empty name is set (`IsLoggedIn`).

## What the program does not do

- `_register_user` prints which error occurred (lines 183, 224, 227) but
  returns only False, so `run` cannot tell a taken name from a database
  failure.
- It does not reject an empty user name or password. `EmptyNameLoginLeavesAuthMenu`
  shows what follows: a user can register as "" and log in as "", and the
  program still shows the authentication menu.
- Login does not check for an existing session. It is only reachable from
  the authentication menu.
- There is no operation that finishes a lesson early and no signal that a
  lesson is incomplete. The end of a lesson only prints the score out of the
  number of questions (`LessonComplete`).

## Model

| member | source | states |
|---|---|---|
| `Text.Strip` | Licenta_aut_v2.py:71-73 | the stripped answer is no longer than the input and neither starts nor ends with white space |
| `Text.StripIsInnerSlice` | Licenta_aut_v2.py:71-73 | the stripped answer is the slice of the input between a white-space prefix and a white-space suffix |
| `Text.StripIsIdempotent` | Licenta_aut_v2.py:71-73 | stripping an already stripped answer changes nothing |
| `Text.StripBlank` | Licenta_aut_v2.py:71-73 | an all-white-space reply strips to the empty string |
| `Text.StripUnpadded` | Licenta_aut_v2.py:71-73 | a reply that neither starts nor ends with white space is left as it is |
| `Text.AnswerMatches` | Licenta_aut_v2.py:82 | equal answers match, and matching answers have the same length |
| `Text.Accepted` | Licenta_aut_v2.py:71-82 | a reply whose stripped form is the expected answer is accepted, and an accepted reply strips to the expected answer's length |
| `Text.Lower` | Licenta_aut_v2.py:82 | lower-casing keeps the length and lower-cases each character on its own |
| `Text.LowerAgrees` | Licenta_aut_v2.py:82 | two strings lower-case alike when their characters do, position by position |
| `Text.LowerIsIdempotent` | Licenta_aut_v2.py:82 | lower-casing twice is lower-casing once |
| `Text.AcceptedIgnoresCase` | Licenta_aut_v2.py:82 | a reply is accepted for an expected answer exactly when it is accepted for that answer lower-cased |
| `Text.EmptyReplyNeverMatches` | Licenta_aut_v2.py:35-43 | an empty (failed) transcript is never accepted for a non-empty expected answer |
| `Text.PaddedCapitalsMatch` | Licenta_aut_v2.py:71-82 | "  HOLA  " is accepted for "Hola" |
| `Text.MissingAccentDoesNotMatch` | Licenta_aut_v2.py:82 | "adios" is not accepted for "Adiós": accents are not folded |
| `Text.AccentedCapitalsMatch` | Licenta_aut_v2.py:82 | "ADIÓS" is accepted for "Adiós" |
| `Text.ExtraLetterDoesNotMatch` | Licenta_aut_v2.py:82 | "holax" is not accepted for "Hola" |
| `Lessons.VoiceExactlyAtIndexTwo` | Licenta_aut_v2.py:69-73 | the voice channel is used exactly at index 2 and is given the lesson's language code |
| `Lessons.ShortLessonNeverUsesVoice` | Licenta_aut_v2.py:69 | a lesson of fewer than three questions never uses the voice channel |
| `Lessons.ChannelFor` | Licenta_aut_v2.py:69-73 | each question is answered at the keyboard or by voice in the lesson's own language |
| `Lessons.Replies` | Licenta_aut_v2.py:71-73 | one raw reply per question, the one the source gives at that index over that index's channel |
| `Lessons.Marks` | Licenta_aut_v2.py:80-86 | one verdict per question (each verdict is given by `MarkAt`) |
| `Lessons.CountCorrect` | Licenta_aut_v2.py:82-84 | the number of correct verdicts in a range is at most the range's length |
| `Lessons.MarkAt` | Licenta_aut_v2.py:71-84 | the verdict for question i is whether its stripped reply equals its answer after lower-casing |
| `Lessons.CorrectCount` | Licenta_aut_v2.py:80-88 | the score of a run is at most the number of questions |
| `Lessons.CountIncorrect` | Licenta_aut_v2.py:85-86 | the number of incorrect verdicts in a range, the answers the "Incorrect." branch reports, is at most the range's length |
| `Lessons.CorrectPlusIncorrect` | Licenta_aut_v2.py:82-86 | correct plus incorrect answers is the number of questions |
| `Lessons.CountCorrectIsCardinality` | Licenta_aut_v2.py:82-84 | the score is the size of the set of questions whose reply is accepted |
| `Lessons.FullMarksIffAllCorrect` | Licenta_aut_v2.py:82-84 | full marks exactly when every reply is accepted |
| `Lessons.LanguageLesson.constructor` | Licenta_aut_v2.py:51-56 | a new lesson keeps its name, questions and language code, at index 0 with score 0 |
| `Lessons.LanguageLesson.StartLesson` | Licenta_aut_v2.py:58-62 | whatever the earlier state, the run ends at index len(questions) with score = number of accepted replies, and asks over the channel of each index in order |
| `Lessons.LanguageLesson.PresentNextQuestion` | Licenta_aut_v2.py:64-78 | from any valid position it terminates at the end, adding the count of accepted replies from that position on, keeping score <= index <= len(questions) |
| `Lessons.LanguageLesson.AskQuestion` | Licenta_aut_v2.py:65-76 | one round reads the reply over the position's channel, moves on by one and scores one exactly when the stripped reply matches |
| `Lessons.LanguageLesson.CheckAnswer` | Licenta_aut_v2.py:80-89 | the index goes up by exactly 1; the score goes up by 1 exactly when the answers are equal after lower-casing, otherwise it stays |
| `Lessons.LanguageLesson.LessonComplete` | Licenta_aut_v2.py:91-94 | the report is the score out of the number of questions |
| `Catalog.LanguageNames` | Licenta_aut_v2.py:319 | the menu lists the catalog's language names in catalog order |
| `Catalog.CatalogShape` | Licenta_aut_v2.py:110-164 | the languages are Spanish, French, Dutch, in that order, with two lessons each |
| `Catalog.LessonCodesFollowLanguage` | Licenta_aut_v2.py:15-20 | every lesson is recognised in its language's speech code |
| `Catalog.EveryLessonHasOneVoiceQuestion` | Licenta_aut_v2.py:115-162 | every catalog lesson has at least three questions, and in every catalog lesson the voice channel is used exactly for the question at index 2 |
| `Catalog.DutchGreetingsVoiceQuestion` | Licenta_aut_v2.py:149-155 | "Dutch Basic Greetings" has four questions and only index 2, "Can you understand me?", is spoken, in nl-NL |
| `Catalog.SpanishGreetingsMarks` | Licenta_aut_v2.py:115-120 | replies "Hola", "adios" and an empty transcript are marked right, wrong, wrong in "Spanish Basic Greetings" |
| `Catalog.SpanishGreetingsScenario` | Licenta_aut_v2.py:115-120 | replies "Hola", "adios" and an empty transcript score 1 of 3 in "Spanish Basic Greetings" |
| `Menu.ChoiceIndex` | Licenta_aut_v2.py:326-327 | a number c is accepted exactly when 1 <= c <= count, and then selects position c-1 |
| `Menu.FirstValidChoice` | Licenta_aut_v2.py:323-333 | a selected position is always within the list |
| `Menu.NoChoiceIffAllRejected` | Licenta_aut_v2.py:346-356 | nothing is selected exactly when every entry is out of range or not a number |
| `Menu.FirstInRangeSelects` | Licenta_aut_v2.py:346-356 | the first entry in range is the one that selects, one below its number |
| `Menu.ReadChoice` | Licenta_aut_v2.py:323-333 | the prompt loop yields the position of the first entry in range |
| `Credentials.HashPw` | Licenta_aut_v2.py:216 | the stored hash keeps its salt and verifies against the password it was made from |
| `Credentials.Utf16Length` | Licenta_aut_v2.py:197 | a name's NVARCHAR length lies between its number of characters and twice that |
| `Credentials.CheckPw` | Licenta_aut_v2.py:243 | a password checks exactly when the stored hash is what hashing it under the stored salt gives |
| `Credentials.InsertOutcomeFor` | Licenta_aut_v2.py:218-225 | an insert is accepted exactly when the name fits the column and is not present; a duplicate is reported only for a present name |
| `Credentials.RegisterSucceeds` | Licenta_aut_v2.py:211-232 | registration returns True exactly when the database answers, the name is new and it fits the column |
| `Credentials.AfterRegister` | Licenta_aut_v2.py:216-228 | every existing record stays as it was, and the only possible new record is the given name with the salted hash of its password |
| `Credentials.AuthenticateSucceeds` | Licenta_aut_v2.py:235-258 | authentication returns True only with a connection and a record for the name, and exactly when that record is the hash of the password under its own salt |
| `Credentials.RegisterAddsOneRecord` | Licenta_aut_v2.py:218-222 | a successful registration adds exactly one record, for its name; a failed one changes nothing |
| `Credentials.DuplicateRegistrationFails` | Licenta_aut_v2.py:223-225 | registering an existing name fails and leaves that user's hash unchanged |
| `Credentials.RegisterKeepsOtherUsers` | Licenta_aut_v2.py:218-219 | registration does not change whether any other user authenticates |
| `Credentials.RegisteredUserAuthenticates` | Licenta_aut_v2.py:239-245 | after a successful registration the same name and password authenticate |
| `Credentials.OtherPasswordRefused` | Licenta_aut_v2.py:243-248 | with a collision-free digest, any other password is refused |
| `Credentials.UnknownUserRefused` | Licenta_aut_v2.py:249-251 | an unknown name never authenticates |
| `Credentials.SaltsSeparateEqualPasswords` | Licenta_aut_v2.py:216 | one password registered under two salts gives two different stored hashes, and both verify |
| `Credentials.UsersTable.constructor` | Licenta_aut_v2.py:195-199 | a new table has no records |
| `Credentials.UsersTable.Lookup` | Licenta_aut_v2.py:239-240 | the lookup finds a row exactly when the name has a record, and gives its hash |
| `Credentials.UsersTable.Insert` | Licenta_aut_v2.py:195-199 | an insert fails for a name over 50 units or already present and changes nothing; otherwise it adds that one row |
| `App.IsLoggedIn` | Licenta_aut_v2.py:277 | nobody is logged in exactly when the slot is None or the empty name |
| `App.Exits` | Licenta_aut_v2.py:295-297 | the loop can be left only from the authentication menu |
| `App.Step` | Licenta_aut_v2.py:277-311 | a pass keeps every existing record and its hash, and changes the session only to None or to the typed name |
| `App.Replay` | Licenta_aut_v2.py:276-311 | over any sequence of passes every existing record keeps its hash |
| `App.LoginOnlyAfterAuthentication` | Licenta_aut_v2.py:281-287 | the session slot is filled only by "1" at the authentication menu when authentication returned True, and then with that name |
| `App.LogoutClearsSession` | Licenta_aut_v2.py:307-309 | "2" at the main menu empties the session slot and leaves the table alone |
| `App.TableChangesOnlyByRegistration` | Licenta_aut_v2.py:288-294 | the table changes only through a successful registration from the authentication menu |
| `App.EmptyNameLoginLeavesAuthMenu` | Licenta_aut_v2.py:277-285 | the name "" can be registered and logged in, yet the program does not count it as logged in |
| `App.StepPreserves` | Licenta_aut_v2.py:276-311 | a pass keeps the logged-in user backed by a record and keeps every stored hash |
| `App.ReplayPreserves` | Licenta_aut_v2.py:276-311 | over a whole run the logged-in user always has a record, no record is removed and no stored hash changes |
| `App.ReplayExitsOnlyByChoice` | Licenta_aut_v2.py:295-297 | a run that exits ends with nobody logged in |
| `App.PutKey` | Licenta_aut_v2.py:129 | setting a dictionary key keeps the old keys and adds the new one |
| `App.CatalogKeyOrder` | Licenta_aut_v2.py:129-164 | adding the three languages to an empty dictionary lists them as Spanish, French, Dutch |
| `App.DuolingoApp.constructor` | Licenta_aut_v2.py:105-108 | nobody is logged in, the languages are Spanish, French, Dutch in that order, each holds new, unstarted lesson objects built from its catalog lessons |
| `App.DuolingoApp.InitializeLanguagesAndLessons` | Licenta_aut_v2.py:110-164 | each language gets new lesson objects built from the catalog data, keyed in Spanish, French, Dutch order |
| `App.DuolingoApp.AddLanguage` | Licenta_aut_v2.py:115-129 | one language gets two new, unstarted lesson objects built from the given data, and its name is added to the key order if new; no other language changes |
| `App.DuolingoApp.RegisterUser` | Licenta_aut_v2.py:210-232 | True exactly when the database answers and the insert is accepted; the table gains the salted hash only then |
| `App.DuolingoApp.AuthenticateUser` | Licenta_aut_v2.py:234-258 | True exactly when the database answers, the name has a record and the password checks against its hash |
| `App.DuolingoApp.Login` | Licenta_aut_v2.py:282-287 | the session holds the name exactly when authentication returned True, otherwise it is unchanged |
| `App.DuolingoApp.Logout` | Licenta_aut_v2.py:307-309 | the session slot is emptied |
| `App.DuolingoApp.SelectLanguage` | Licenta_aut_v2.py:313-333 | the entries select language c-1 and lesson d-1 for the first in-range numbers c and d; that lesson runs to completion and no other lesson changes |
| `App.DuolingoApp.SelectAndStartLesson` | Licenta_aut_v2.py:335-356 | the first in-range lesson number d runs lesson d-1 to completion; no other lesson changes |
| `App.DuolingoApp.RunTurn` | Licenta_aut_v2.py:276-311 | one pass changes the session and the table as `Step` says, exits exactly on "3" at the authentication menu, runs to completion exactly the lesson the entries select when "1" is chosen at the main menu, and leaves every other lesson object unchanged |
| `App.DuolingoApp.Run` | Licenta_aut_v2.py:273-311 | the session, the table and whether the user exited end as `Replay` says |

## Left out

- `get_audio_input` (lines 23-43): the microphone, the noise adjustment, the
  Google Web Speech request and the timeouts are hardware and network. The
  answer source stands for them: it may give any string, and "" for the
  three failures.
- `_get_db_connection`, `DB_CONFIG`, `_create_user_table_if_not_exists` and
  the SQL text: a foreign driver and I/O. Only the table's contents, its
  unique user name and its 50-unit name column are modelled.
- The `UserID` identity column, which no operation reads, and the 255-unit
  limit of `PasswordHash`, which a 60-character bcrypt hash never reaches.
- The database collation: SQL Server compares names case-insensitively and
  ignores trailing blanks by default. The model compares names exactly.
- bcrypt's internals: the digest, `gensalt()`'s randomness, the 72-byte
  password limit and the constant-time comparison are foreign code. Releases
  of pyca/bcrypt before 5.0 silently truncate a password to its first 72
  bytes, so two passwords that share those bytes get the same hash;
  `CollisionFree`, which `OtherPasswordRefused` assumes, is an idealisation
  that ignores this. Release 5.0 and later instead raise `ValueError` from
  `hashpw` for a longer password, which `_register_user` does not catch
  (it catches only `pyodbc` errors, lines 223-228); the model does not
  model that exception.
- `print`, `display_auth_menu`, `display_main_menu` and the messages: console
  output.
- `input()` and parsing: a menu entry is already a number or "not a number".
  The other lines of a turn are given as strings.
- Exceptions the program does not catch, such as end of input or an
  interrupt: not modelled. Among them is `RecursionError`: the source's
  mutual recursion (lines 76, 89) uses two stack frames per question, so
  under Python's default recursion limit of 1000 a lesson of roughly 500
  questions fails. The model's loop, and `StartLesson`'s contract, hold for
  every number of questions.
- `Menu.ReadChoice`: the program asks again forever; the model gives up
  when the entries it is given run out, and then selects nothing.
- `Text.Lower`: does not model `str.lower()` outside ASCII and Latin-1,
  because Python's full Unicode case table is out of reach. Other
  characters are left unchanged.
- `App.DuolingoApp.Run`: does not state what the lesson runs of several
  passes do to the lesson objects; `RunTurn` states it for each pass.
- The unused `random` import (line 4) and the `__main__` entry point (lines 359-361).
