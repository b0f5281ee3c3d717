/**
 * The string operations the lesson runner applies to answers: Python's
 * `str.strip()` with no argument, `str.lower()`, and the comparison of a
 * user's answer with the expected one (Licenta_aut_v2.py, lines 71, 73, 82).
 */
module Text {

  /** The characters for which Python's `str.isspace()` holds; `str.strip()` removes these. */
  predicate IsSpace(c: char) {
    || c == ' '
    || ('\t' <= c <= '\r')
    || ('\U{1C}' <= c <= '\U{1F}')
    || c == '\U{85}' || c == '\U{A0}' || c == '\U{1680}'
    || ('\U{2000}' <= c <= '\U{200A}')
    || c == '\U{2028}' || c == '\U{2029}' || c == '\U{202F}' || c == '\U{205F}'
    || c == '\U{3000}'
  }

  /** The length of the run of white space that starts `s`. */
  function LeadingSpaces(s: string): (k: nat)
    ensures k <= |s|
    ensures forall i :: 0 <= i < k ==> IsSpace(s[i])
    ensures k < |s| ==> !IsSpace(s[k])
  {
    if |s| > 0 && IsSpace(s[0]) then 1 + LeadingSpaces(s[1..]) else 0
  }

  /** The length of the run of white space that ends `s`. */
  function TrailingSpaces(s: string): (k: nat)
    ensures k <= |s|
    ensures forall i :: |s| - k <= i < |s| ==> IsSpace(s[i])
    ensures k < |s| ==> !IsSpace(s[|s| - 1 - k])
  {
    if |s| > 0 && IsSpace(s[|s| - 1]) then 1 + TrailingSpaces(s[..|s| - 1]) else 0
  }

  /** `s.strip()`: `s` without its leading and trailing white space. */
  function Strip(s: string): (r: string)
    ensures |r| <= |s|
    ensures |r| > 0 ==> !IsSpace(r[0]) && !IsSpace(r[|r| - 1])
  {
    var rest := s[LeadingSpaces(s)..];
    rest[..|rest| - TrailingSpaces(rest)]
  }

  /** `Strip(s)` is the part of `s` between a white-space prefix and a white-space suffix. */
  lemma StripIsInnerSlice(s: string) returns (i: nat, j: nat)
    ensures i <= j <= |s| && Strip(s) == s[i..j]
    ensures forall k :: 0 <= k < i ==> IsSpace(s[k])
    ensures forall k :: j <= k < |s| ==> IsSpace(s[k])
  {
    i := LeadingSpaces(s);
    var rest := s[i..];
    j := i + |rest| - TrailingSpaces(rest);
    forall k | j <= k < |s| ensures IsSpace(s[k]) {
      assert s[k] == rest[k - i];
    }
  }

  /** Stripping twice is stripping once. */
  lemma StripIsIdempotent(s: string)
    ensures Strip(Strip(s)) == Strip(s)
  {
    var r := Strip(s);
    assert LeadingSpaces(r) == 0;
    assert r[0..] == r;
    assert TrailingSpaces(r) == 0;
  }

  /** A string made only of white space strips to the empty string. */
  lemma StripBlank(s: string)
    requires forall k :: 0 <= k < |s| ==> IsSpace(s[k])
    ensures Strip(s) == ""
  {
    var i, j := StripIsInnerSlice(s);
  }

  /**
   * The model's lower-casing of one character: the ASCII capitals and the
   * Latin-1 capitals U+00C0..U+00DE (except U+00D7, the multiplication sign)
   * map to the letter 32 code points higher; every other character is left
   * as it is. Python's `str.lower()` also lower-cases characters outside this
   * range; see the `Text.Lower` line under "## Left out" in README.md.
   */
  function LowerChar(c: char): char {
    if 'A' <= c <= 'Z' || ('\U{C0}' <= c <= '\U{DE}' && c != '\U{D7}') then
      (c as int + 32) as char
    else
      c
  }

  /**
   * The model's lower-casing of a string, one `LowerChar` per character; it
   * approximates `s.lower()` (see the `Text.Lower` line under "## Left out").
   */
  function Lower(s: string): (r: string)
    ensures |r| == |s|
    ensures forall i :: 0 <= i < |s| ==> r[i] == LowerChar(s[i])
  {
    if s == [] then [] else [LowerChar(s[0])] + Lower(s[1..])
  }

  /** Lower-casing twice is lower-casing once. */
  lemma LowerIsIdempotent(s: string)
    ensures Lower(Lower(s)) == Lower(s)
  {
    assert forall i :: 0 <= i < |s| ==> LowerChar(LowerChar(s[i])) == LowerChar(s[i]);
  }

  /** The comparison of line 82: equal after lower-casing both sides. */
  predicate AnswerMatches(userAnswer: string, correctAnswer: string): (m: bool)
    ensures userAnswer == correctAnswer ==> m
    ensures m ==> |userAnswer| == |correctAnswer|
  {
    Lower(userAnswer) == Lower(correctAnswer)
  }

  /** What the runner accepts for a raw reply: it strips the reply (lines 71, 73), then compares. */
  predicate Accepted(reply: string, correctAnswer: string): (a: bool)
    ensures Strip(reply) == correctAnswer ==> a
    ensures a ==> |Strip(reply)| == |correctAnswer|
  {
    AnswerMatches(Strip(reply), correctAnswer)
  }

  /** The comparison ignores case: a reply is accepted against `e` exactly when it is accepted against `Lower(e)`. */
  lemma AcceptedIgnoresCase(reply: string, e: string)
    ensures Accepted(reply, e) <==> Accepted(reply, Lower(e))
  {
    LowerIsIdempotent(e);
  }

  /** An empty transcript (every failure of speech recognition) never matches a non-empty expected answer. */
  lemma EmptyReplyNeverMatches(reply: string, e: string)
    requires Strip(reply) == ""
    requires e != ""
    ensures !Accepted(reply, e)
  {
    assert |Lower(e)| == |e|;
  }

  /** A string that neither starts nor ends with white space is left as it is. */
  lemma StripUnpadded(s: string)
    requires |s| > 0 && !IsSpace(s[0]) && !IsSpace(s[|s| - 1])
    ensures Strip(s) == s
  {
    assert LeadingSpaces(s) == 0;
    assert s[0..] == s;
    assert TrailingSpaces(s) == 0;
  }

  /** Surrounding spaces and case do not matter: "  HOLA  " is accepted for "Hola". */
  lemma PaddedCapitalsMatch()
    ensures Accepted("  HOLA  ", "Hola")
  {
    var s := "  HOLA  ";
    assert LeadingSpaces(s[2..]) == 0;
    assert LeadingSpaces(s) == 2;
    var rest := s[2..];
    assert rest == "HOLA  ";
    assert TrailingSpaces(rest[..4]) == 0;
    assert TrailingSpaces(rest) == 2;
    assert Strip(s) == "HOLA";
    assert Lower("HOLA") == "hola" == Lower("Hola");
  }

  /** Accents are not folded: "adios" is not accepted for "Adiós". */
  lemma MissingAccentDoesNotMatch()
    ensures !Accepted("adios", "Adiós")
  {
    StripUnpadded("adios");
    assert Lower("adios")[3] == 'o';
    assert Lower("Adiós")[3] == 'ó';
  }

  /** Two strings lower-case to the same string when they do so character by character. */
  lemma LowerAgrees(a: string, b: string)
    requires |a| == |b|
    requires forall i :: 0 <= i < |a| ==> LowerChar(a[i]) == LowerChar(b[i])
    ensures Lower(a) == Lower(b)
  {
    assert forall i :: 0 <= i < |a| ==> Lower(a)[i] == Lower(b)[i];
  }

  /** Latin-1 capitals are lower-cased: "ADIÓS" is accepted for "Adiós". */
  lemma AccentedCapitalsMatch()
    ensures Accepted("ADIÓS", "Adiós")
  {
    var reply, expected := "ADIÓS", "Adiós";
    StripUnpadded(reply);
    assert LowerChar(reply[0]) == LowerChar(expected[0]) == 'a';
    assert LowerChar(reply[1]) == LowerChar(expected[1]) == 'd';
    assert LowerChar(reply[2]) == LowerChar(expected[2]) == 'i';
    assert LowerChar(reply[3]) == LowerChar(expected[3]) == '\U{F3}';
    assert LowerChar(reply[4]) == LowerChar(expected[4]) == 's';
    LowerAgrees(reply, expected);
  }

  /** An extra letter is a mismatch: "holax" is not accepted for "Hola". */
  lemma ExtraLetterDoesNotMatch()
    ensures !Accepted("holax", "Hola")
  {
    StripUnpadded("holax");
    assert |Lower("holax")| != |Lower("Hola")|;
  }
}
