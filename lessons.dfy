/**
 * The lesson state machine: class `LanguageLesson` of Licenta_aut_v2.py
 * (lines 45-94). The mutual recursion between `_present_next_question` and
 * `_check_answer` is a loop here; the keyboard and the microphone are one
 * injected answer source.
 */
module Lessons {
  import opened Text

  /** One `(question_text, correct_answer)` pair of a lesson. */
  datatype Question = Question(prompt: string, answer: string)

  /** Where an answer comes from: `input()`, or `get_audio_input` with a recognition language. */
  datatype Channel = Keyboard | Voice(languageCode: string)

  /** What `_lesson_complete` reports: "You got `correct` out of `total` questions correct." */
  datatype Summary = Summary(correct: nat, total: nat)

  /** The zero-based index of the one question that must be answered by voice (line 69). */
  const VoiceQuestionIndex: nat := 2

  /** The recognition language a lesson gets when none is given (line 51). */
  const DefaultLanguageCode: string := "en-US"

  /**
   * The user and the speech recogniser together: the reply given to the
   * question at an index over a channel. `get_audio_input` returns "" when no
   * speech is heard, the audio is not understood or the service fails, so a
   * source may answer "" on the voice channel.
   */
  type AnswerSource = (nat, Channel) -> string

  /** The channel the question at `index` is answered over (lines 69-73). */
  function ChannelFor(index: nat, languageCode: string): (c: Channel)
    ensures c == Keyboard || c == Voice(languageCode)
  {
    if index == VoiceQuestionIndex then Voice(languageCode) else Keyboard
  }

  /** The voice channel is used for index 2 and no other, and it is given the lesson's language code. */
  lemma VoiceExactlyAtIndexTwo(index: nat, languageCode: string)
    ensures ChannelFor(index, languageCode).Voice? <==> index == 2
    ensures ChannelFor(index, languageCode).Voice? ==> ChannelFor(index, languageCode) == Voice(languageCode)
  {
  }

  /** A lesson with fewer than three questions is answered entirely at the keyboard. */
  lemma ShortLessonNeverUsesVoice(questionCount: nat, index: nat, languageCode: string)
    requires index < questionCount < 3
    ensures ChannelFor(index, languageCode) == Keyboard
  {
  }

  /** The raw replies a source gives to the questions of a lesson, in order. */
  function Replies(questions: seq<Question>, languageCode: string, source: AnswerSource): (rs: seq<string>)
    ensures |rs| == |questions|
    ensures forall i :: 0 <= i < |rs| ==> rs[i] == source(i, ChannelFor(i, languageCode))
  {
    seq(|questions|, i requires 0 <= i => source(i, ChannelFor(i, languageCode)))
  }

  /** The verdict for each question: whether its reply is accepted. */
  function Marks(questions: seq<Question>, replies: seq<string>): (marks: seq<bool>)
    requires |questions| == |replies|
    ensures |marks| == |questions|
  {
    if questions == [] then []
    else [Accepted(replies[0], questions[0].answer)] + Marks(questions[1..], replies[1..])
  }

  /** The verdict at position `i` is whether reply `i` is accepted for question `i`. */
  lemma {:induction false} MarkAt(questions: seq<Question>, replies: seq<string>, i: nat)
    requires |questions| == |replies| && i < |questions|
    ensures Marks(questions, replies)[i] == Accepted(replies[i], questions[i].answer)
  {
    if i > 0 {
      assert questions[1..][i - 1] == questions[i] && replies[1..][i - 1] == replies[i];
      assert Marks(questions, replies)[i] == Marks(questions[1..], replies[1..])[i - 1];
      MarkAt(questions[1..], replies[1..], i - 1);
    } else {
      assert Marks(questions, replies)[0] == Accepted(replies[0], questions[0].answer);
    }
  }

  /** The number of positions in `lo..hi` marked correct. */
  function CountCorrect(marks: seq<bool>, lo: nat, hi: nat): (n: nat)
    requires lo <= hi <= |marks|
    ensures n <= hi - lo
    decreases hi - lo
  {
    if lo == hi then 0 else CountCorrect(marks, lo, hi - 1) + (if marks[hi - 1] then 1 else 0)
  }

  /** The number of positions in `lo..hi` marked incorrect. */
  function CountIncorrect(marks: seq<bool>, lo: nat, hi: nat): (n: nat)
    requires lo <= hi <= |marks|
    ensures n <= hi - lo
    decreases hi - lo
  {
    if lo == hi then 0 else CountIncorrect(marks, lo, hi - 1) + (if marks[hi - 1] then 0 else 1)
  }

  /** The score of a run: the number of replies accepted for their questions. */
  function CorrectCount(questions: seq<Question>, replies: seq<string>): (n: nat)
    requires |questions| == |replies|
    ensures n <= |questions|
  {
    CountCorrect(Marks(questions, replies), 0, |questions|)
  }

  /** Every question is scored exactly once: correct plus incorrect is the number of questions. */
  lemma {:induction false} CorrectPlusIncorrect(marks: seq<bool>, lo: nat, hi: nat)
    requires lo <= hi <= |marks|
    ensures CountCorrect(marks, lo, hi) + CountIncorrect(marks, lo, hi) == hi - lo
    decreases hi - lo
  {
    if lo < hi {
      CorrectPlusIncorrect(marks, lo, hi - 1);
    }
  }

  /** The positions marked correct among the first `k`. */
  ghost function CorrectIndices(marks: seq<bool>, k: nat): set<nat>
    requires k <= |marks|
  {
    set i: nat | i < k && marks[i]
  }

  /** The count is the size of the set of correctly answered positions. */
  lemma {:induction false} CountCorrectIsCardinality(marks: seq<bool>, k: nat)
    requires k <= |marks|
    ensures CountCorrect(marks, 0, k) == |CorrectIndices(marks, k)|
  {
    if k == 0 {
      assert CorrectIndices(marks, 0) == {};
    } else {
      CountCorrectIsCardinality(marks, k - 1);
      var before := CorrectIndices(marks, k - 1);
      if marks[k - 1] {
        assert CorrectIndices(marks, k) == before + {k - 1};
      } else {
        assert CorrectIndices(marks, k) == before;
      }
    }
  }

  /** Full marks exactly when every position is marked correct. */
  lemma {:induction false} FullMarksIffAllCorrect(marks: seq<bool>, lo: nat, hi: nat)
    requires lo <= hi <= |marks|
    ensures CountCorrect(marks, lo, hi) == hi - lo <==> forall i :: lo <= i < hi ==> marks[i]
    decreases hi - lo
  {
    if lo < hi {
      FullMarksIffAllCorrect(marks, lo, hi - 1);
    }
  }

  /**
   * A lesson: its name, its fixed questions and its recognition language,
   * and the progress of its current run (`score`, `current_question_index`).
   * The same object is reused each time the lesson is started.
   */
  class LanguageLesson {
    const name: string
    const questions: seq<Question>
    const languageCode: string
    var score: nat
    var currentQuestionIndex: nat

    /** Neither the position nor the score runs past what has been asked. */
    ghost predicate Valid()
      reads this
    {
      score <= currentQuestionIndex <= |questions|
    }

    /** `__init__` (lines 51-56). */
    constructor (name: string, questions: seq<Question>, languageCode: string := DefaultLanguageCode)
      ensures this.name == name && this.questions == questions && this.languageCode == languageCode
      ensures score == 0 && currentQuestionIndex == 0
      ensures Valid()
    {
      this.name := name;
      this.questions := questions;
      this.languageCode := languageCode;
      score := 0;
      currentQuestionIndex := 0;
    }

    /**
     * `start_lesson` (lines 58-62): whatever the earlier state, reset the
     * score and the position, then ask every question in turn. The run ends
     * with every question asked and the score equal to the number of accepted
     * replies; `requests` lists the channel asked for each question.
     */
    method StartLesson(source: AnswerSource) returns (requests: seq<Channel>, summary: Summary)
      modifies this
      ensures Valid() && currentQuestionIndex == |questions|
      ensures score == CorrectCount(questions, Replies(questions, languageCode, source))
      ensures |requests| == |questions|
      ensures forall i :: 0 <= i < |requests| ==> requests[i] == ChannelFor(i, languageCode)
      ensures summary == Summary(score, |questions|)
    {
      score := 0;
      currentQuestionIndex := 0;
      requests, summary := PresentNextQuestion(source);
    }

    /**
     * `_present_next_question` with the `_check_answer` calls it leads to
     * (lines 64-89): while questions remain, read the reply over the channel
     * the position calls for, strip it and check it; then report (line 78).
     */
    method PresentNextQuestion(source: AnswerSource) returns (requests: seq<Channel>, summary: Summary)
      requires Valid()
      modifies this
      ensures Valid() && currentQuestionIndex == |questions|
      ensures score == old(score) + CountCorrect(Marks(questions, Replies(questions, languageCode, source)),
                                                 old(currentQuestionIndex), |questions|)
      ensures |requests| == |questions| - old(currentQuestionIndex)
      ensures forall j :: 0 <= j < |requests| ==> requests[j] == ChannelFor(old(currentQuestionIndex) + j, languageCode)
      ensures summary == Summary(score, |questions|)
    {
      ghost var start := currentQuestionIndex;
      ghost var replies := Replies(questions, languageCode, source);
      ghost var marks := Marks(questions, replies);
      requests := [];
      while currentQuestionIndex < |questions|
        invariant Valid() && start <= currentQuestionIndex
        invariant score == old(score) + CountCorrect(marks, start, currentQuestionIndex)
        invariant |requests| == currentQuestionIndex - start
        invariant forall j :: 0 <= j < |requests| ==> requests[j] == ChannelFor(start + j, languageCode)
        decreases |questions| - currentQuestionIndex
      {
        ghost var i := currentQuestionIndex;
        var channel := AskQuestion(source);
        assert CountCorrect(marks, start, i + 1) == CountCorrect(marks, start, i) + if marks[i] then 1 else 0;
        requests := requests + [channel];
      }
      summary := LessonComplete();
    }

    /**
     * One round of `_present_next_question` (lines 65-76): show the current
     * question, read the reply over the channel its position calls for, strip
     * it, and check it.
     */
    method AskQuestion(source: AnswerSource) returns (channel: Channel)
      requires Valid() && currentQuestionIndex < |questions|
      modifies this
      ensures Valid()
      ensures channel == ChannelFor(old(currentQuestionIndex), languageCode)
      ensures currentQuestionIndex == old(currentQuestionIndex) + 1
      ensures score == old(score) + if Marks(questions, Replies(questions, languageCode, source))[old(currentQuestionIndex)] then 1 else 0
    {
      channel := ChannelFor(currentQuestionIndex, languageCode);
      var userAnswer := Strip(source(currentQuestionIndex, channel));
      MarkAt(questions, Replies(questions, languageCode, source), currentQuestionIndex);
      CheckAnswer(userAnswer);
    }

    /**
     * `_check_answer` (lines 80-89) without its tail call: one more question
     * is done, and the score goes up by one exactly when the answer matches.
     */
    method CheckAnswer(userAnswer: string)
      requires Valid() && currentQuestionIndex < |questions|
      modifies this
      ensures Valid()
      ensures currentQuestionIndex == old(currentQuestionIndex) + 1
      ensures score == old(score) + if AnswerMatches(userAnswer, questions[old(currentQuestionIndex)].answer) then 1 else 0
    {
      var correctAnswer := questions[currentQuestionIndex].answer;
      if AnswerMatches(userAnswer, correctAnswer) {
        score := score + 1;
      }
      currentQuestionIndex := currentQuestionIndex + 1;
    }

    /** `_lesson_complete` (lines 91-94): the score out of the number of questions. */
    method LessonComplete() returns (summary: Summary)
      ensures summary.correct == score && summary.total == |questions|
    {
      summary := Summary(score, |questions|);
    }
  }
}
