/**
 * Quiz assembly (app.py:319-326) and the quiz-attempt record lifecycle:
 * the defaults of a new attempt (app.py:67-70, 333) and what submission
 * writes into it (app.py:345-352).
 */
module QuizAssembly {
  import opened Wrappers
  import opened Records

  /** The subject and grade the quiz start hard-codes, and the row limit. */
  const QuizSubject: string := "Physics"
  const QuizGrade: string := "10th"
  const QuizLimit: nat := 10

  /**
   * A question the quiz may draw for a student recommended `level`: a
   * Physics question for grade 10th of that tier or of the intermediate tier.
   * A student recommended a real tier never draws a diagnostic question.
   */
  function Eligible(q: Question, level: Difficulty): (ok: bool)
    ensures ok ==> q.subject == QuizSubject && q.grade == QuizGrade
    ensures ok ==> q.difficulty == level || q.difficulty == Intermediate
    ensures level != Diagnostic && ok ==> q.difficulty != Diagnostic
    ensures q.subject == QuizSubject && q.grade == QuizGrade && q.difficulty == level ==> ok
    ensures q.subject == QuizSubject && q.grade == QuizGrade && q.difficulty == Intermediate ==> ok
  {
    (q.difficulty == level || q.difficulty == Intermediate) && q.subject == QuizSubject && q.grade == QuizGrade
  }

  /**
   * The first `limit` eligible questions in store order: never more than
   * `limit`, only eligible questions from the bank, and every eligible one
   * unless the limit was reached.
   */
  function Select(qs: seq<Question>, level: Difficulty, limit: nat): (r: seq<Question>)
    ensures |r| <= limit
    ensures forall q :: q in r ==> q in qs && Eligible(q, level)
    ensures |r| < limit ==> forall q :: q in qs && Eligible(q, level) ==> q in r
  {
    if qs == [] || limit == 0 then []
    else if Eligible(qs[0], level) then [qs[0]] + Select(qs[1..], level, limit - 1)
    else Select(qs[1..], level, limit)
  }

  /** The questions of a main quiz for a student recommended `level`. */
  function SelectQuiz(qs: seq<Question>, level: Difficulty): (r: seq<Question>)
    ensures |r| <= QuizLimit
    ensures forall q :: q in r ==> q in qs && Eligible(q, level)
    ensures r == [] <==> forall q :: q in qs ==> !Eligible(q, level)
  {
    var r := Select(qs, level, QuizLimit);
    assert r != [] ==> r[0] in r;
    r
  }

  /** The questions selected keep the bank's ascending id order. */
  lemma {:induction false} SelectKeepsOrder(qs: seq<Question>, level: Difficulty, limit: nat)
    requires IdsAscending(qs)
    ensures IdsAscending(Select(qs, level, limit))
  {
    if qs != [] && limit != 0 {
      IdsAscendingTail(qs);
      if Eligible(qs[0], level) {
        var rest := Select(qs[1..], level, limit - 1);
        SelectKeepsOrder(qs[1..], level, limit - 1);
        TailIdsAbove(qs);
        PrependOldest(qs[0], rest);
      } else {
        SelectKeepsOrder(qs[1..], level, limit);
      }
    }
  }

  /** Putting a question before a sequence with larger ids keeps the ids ascending. */
  lemma PrependOldest(oldest: Question, rest: seq<Question>)
    requires IdsAscending(rest)
    requires forall q :: q in rest ==> oldest.id < q.id
    ensures IdsAscending([oldest] + rest)
  {
    var r := [oldest] + rest;
    forall i, j | 0 <= i < j < |r| ensures r[i].id < r[j].id {
      assert r[j] == rest[j - 1];
      if i > 0 {
        assert r[i] == rest[i - 1];
      } else {
        assert rest[j - 1] in rest;
      }
    }
  }

  /** Ids strictly ascend along the bank. */
  predicate IdsAscending(qs: seq<Question>) {
    forall i, j :: 0 <= i < j < |qs| ==> qs[i].id < qs[j].id
  }

  /** The tail of an ascending bank is ascending. */
  lemma IdsAscendingTail(qs: seq<Question>)
    requires qs != [] && IdsAscending(qs)
    ensures IdsAscending(qs[1..])
  {
    forall i, j | 0 <= i < j < |qs[1..]| ensures qs[1..][i].id < qs[1..][j].id {
      assert qs[1..][i] == qs[i + 1] && qs[1..][j] == qs[j + 1];
    }
  }

  /** In an ascending bank every later question has a larger id than the first. */
  lemma TailIdsAbove(qs: seq<Question>)
    requires qs != [] && IdsAscending(qs)
    ensures forall q :: q in qs[1..] ==> qs[0].id < q.id
  {
    forall q | q in qs[1..] ensures qs[0].id < q.id {
      var k :| 0 <= k < |qs[1..]| && qs[1..][k] == q;
      assert qs[k + 1] == q;
    }
  }

  /** A freshly started attempt: column defaults, subject "Physics", no end time. */
  function NewAttempt(id: nat, studentId: nat, now: nat): (a: QuizAttempt)
    ensures a.id == id && a.studentId == studentId && a.subject == QuizSubject && a.startTime == now
    ensures a.endTime.None? && !a.isPractice && a.score == 0
  {
    QuizAttempt(id, studentId, QuizSubject, now, None, false, 0)
  }

  /**
   * Whether a submission is in practice mode: only the exact lower-case text
   * "true" in the `practice_mode` field; a missing field is not practice.
   */
  function IsPracticeRequest(practiceMode: Option<string>): (practice: bool)
    ensures practiceMode.None? ==> !practice
    ensures practice <==> practiceMode.Some? && practiceMode.value == "true"
  {
    practiceMode == Some("true")
  }

  /**
   * The attempt after submission: end time and practice flag set, score 0 in
   * practice and the drawn score otherwise; identity, student, subject and
   * start time are untouched.
   */
  function Submitted(a: QuizAttempt, practice: bool, draw: int, now: nat): (b: QuizAttempt)
    requires 50 <= draw <= 95
    ensures b.id == a.id && b.studentId == a.studentId && b.subject == a.subject && b.startTime == a.startTime
    ensures b.endTime == Some(now) && b.isPractice == practice
    ensures practice ==> b.score == 0
    ensures !practice ==> 50 <= b.score <= 95
  {
    a.(endTime := Some(now), isPractice := practice, score := if practice then 0 else draw)
  }

  /**
   * Submitting twice is not rejected: the second submission overwrites
   * everything the first one wrote.
   */
  lemma ResubmitOverwrites(a: QuizAttempt, p1: bool, d1: int, t1: nat, p2: bool, d2: int, t2: nat)
    requires 50 <= d1 <= 95 && 50 <= d2 <= 95
    ensures Submitted(Submitted(a, p1, d1, t1), p2, d2, t2) == Submitted(a, p2, d2, t2)
  {
  }
}
