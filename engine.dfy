/**
 * The in-memory store behind the quiz engine and the four request handlers
 * that change it: the diagnostic submission (app.py:269-301), question
 * creation (app.py:177-215), quiz start (app.py:307-335) and quiz
 * submission (app.py:342-353). The logged-in account's role is an explicit
 * parameter; the clock and the random score draw are caller-supplied values.
 */
module Engine {
  import opened Wrappers
  import opened Records
  import opened Diagnostic
  import opened QuestionBank
  import opened QuizAssembly

  /** What the diagnostic submission did. */
  datatype DiagnosticOutcome = DiagnosticDenied | AlreadyCompleted | Completed(level: Difficulty)

  /** What question creation did; `Rejected` is a form that failed validation. */
  datatype CreateOutcome = CreateDenied | Rejected | Created(id: nat)

  /** What the quiz start did. */
  datatype StartOutcome = StartDenied | NeedsDiagnostic | NoQuestions | Started(attemptId: nat, quiz: seq<Question>)

  /** What the quiz submission did; `NotFound` is the 404 of an unknown attempt id. */
  datatype SubmitOutcome = NotFound | Recorded(attempt: QuizAttempt)

  /**
   * The diagnostic table keyed by student: each record belongs to its key,
   * carries a real recommendation, and record ids are distinct and dense.
   */
  predicate DiagnosticsValid(d: map<nat, DiagnosticAttempt>) {
    && (forall s :: s in d ==> d[s].studentId == s && d[s].recommendedLevel != Diagnostic && 1 <= d[s].id <= |d|)
    && (forall s, t :: s in d && t in d && s != t ==> d[s].id != d[t].id)
  }

  /**
   * A quiz attempt as the handlers leave it: subject "Physics"; unscored and
   * not practice until submitted; practice scores 0 and others 50..95.
   */
  predicate AttemptOk(a: QuizAttempt) {
    && a.subject == QuizSubject
    && (a.endTime.None? ==> !a.isPractice && a.score == 0)
    && (a.isPractice ==> a.score == 0)
    && (a.endTime.Some? && !a.isPractice ==> 50 <= a.score <= 95)
  }

  /** Attempt ids follow creation order, and only students past the diagnostic have attempts. */
  predicate AttemptsValid(attempts: seq<QuizAttempt>, d: map<nat, DiagnosticAttempt>) {
    forall i :: 0 <= i < |attempts| ==>
      attempts[i].id == i + 1 && attempts[i].studentId in d && AttemptOk(attempts[i])
  }

  /** Adding a record under a new key grows the table by one. */
  lemma AddDiagnosticSize(d: map<nat, DiagnosticAttempt>, s: nat, record: DiagnosticAttempt)
    requires s !in d
    ensures |d[s := record]| == |d| + 1
  {
    assert d[s := record].Keys == d.Keys + {s};
  }

  /** Adding the next record for a student without one keeps the diagnostic table valid. */
  lemma AddDiagnosticKeepsValid(d: map<nat, DiagnosticAttempt>, record: DiagnosticAttempt)
    requires DiagnosticsValid(d)
    requires record.studentId !in d && record.id == |d| + 1 && record.recommendedLevel != Diagnostic
    ensures DiagnosticsValid(d[record.studentId := record])
  {
    var s := record.studentId;
    var d' := d[s := record];
    AddDiagnosticSize(d, s, record);
    forall t | t in d' ensures d'[t].studentId == t && d'[t].recommendedLevel != Diagnostic && 1 <= d'[t].id <= |d'| {
      if t != s { assert d'[t] == d[t]; }
    }
    forall t, u | t in d' && u in d' && t != u ensures d'[t].id != d'[u].id {
      if t != s && u != s {
        assert d'[t] == d[t] && d'[u] == d[u];
      } else if t == s {
        assert d'[u] == d[u];
      } else {
        assert d'[t] == d[t];
      }
    }
  }

  class Store {
    var questions: seq<Question>
    var diagnostics: map<nat, DiagnosticAttempt>
    var attempts: seq<QuizAttempt>

    ghost predicate Valid()
      reads this
    {
      WellLinked(questions) && DiagnosticsValid(diagnostics) && AttemptsValid(attempts, diagnostics)
    }

    /** An empty store. */
    constructor ()
      ensures Valid()
      ensures questions == [] && diagnostics == map[] && attempts == []
    {
      questions, diagnostics, attempts := [], map[], [];
    }

    /**
     * A student's diagnostic submission. Only students may submit; a student
     * who already has a record changes nothing; otherwise exactly one record,
     * holding the recommendation of the posted fields, is added for that
     * student.
     */
    method SubmitDiagnostic(role: Role, studentId: nat, posted: seq<(string, string)>, now: nat)
      returns (outcome: DiagnosticOutcome)
      requires Valid()
      modifies this`diagnostics
      ensures Valid()
      ensures role != Student ==> outcome == DiagnosticDenied && diagnostics == old(diagnostics)
      ensures role == Student && studentId in old(diagnostics) ==>
                outcome == AlreadyCompleted && diagnostics == old(diagnostics)
      ensures role == Student && studentId !in old(diagnostics) ==>
                && outcome == Completed(DiagnosticLevel(posted))
                && diagnostics == old(diagnostics)[studentId :=
                     DiagnosticAttempt(|old(diagnostics)| + 1, studentId, now, DiagnosticLevel(posted))]
    {
      if role != Student {
        return DiagnosticDenied;
      }
      if studentId in diagnostics {
        return AlreadyCompleted;
      }
      var score := DiagnosticScore(posted);
      var level := Recommend(score);
      var record := DiagnosticAttempt(|diagnostics| + 1, studentId, now, level);
      AddDiagnosticKeepsValid(diagnostics, record);
      diagnostics := diagnostics[studentId := record];
      outcome := Completed(level);
    }

    /**
     * A teacher's new question. Only teachers may create; a form with a blank
     * required field or a parent outside the teacher's own passages is
     * rejected; otherwise one question is appended with the next id.
     */
    method CreateQuestion(role: Role, teacherId: nat, form: QuestionForm, mediaRef: string)
      returns (outcome: CreateOutcome)
      requires Valid()
      modifies this`questions
      ensures Valid()
      ensures role != Teacher ==> outcome == CreateDenied && questions == old(questions)
      ensures role == Teacher && !ValidForm(form, PassageChoices(old(questions), teacherId)) ==>
                outcome == Rejected && questions == old(questions)
      ensures role == Teacher && ValidForm(form, PassageChoices(old(questions), teacherId)) ==>
                && outcome == Created(|old(questions)| + 1)
                && questions == old(questions) + [BuildQuestion(|old(questions)| + 1, teacherId, form, mediaRef)]
    {
      if role != Teacher {
        return CreateDenied;
      }
      var choices := PassageChoices(questions, teacherId);
      if !ValidForm(form, choices) {
        return Rejected;
      }
      var id := |questions| + 1;
      CreatePreservesWellLinked(questions, teacherId, form, mediaRef);
      questions := questions + [BuildQuestion(id, teacherId, form, mediaRef)];
      outcome := Created(id);
    }

    /**
     * A student's quiz start. Only students may start; without a diagnostic
     * record, or when no question is eligible for the recommended level,
     * nothing is created; otherwise exactly one fresh attempt is appended and
     * returned with the selected questions.
     */
    method StartQuiz(role: Role, studentId: nat, now: nat) returns (outcome: StartOutcome)
      requires Valid()
      modifies this`attempts
      ensures Valid()
      ensures role != Student ==> outcome == StartDenied && attempts == old(attempts)
      ensures role == Student && studentId !in diagnostics ==>
                outcome == NeedsDiagnostic && attempts == old(attempts)
      ensures role == Student && studentId in diagnostics ==>
                var quiz := SelectQuiz(questions, diagnostics[studentId].recommendedLevel);
                && (quiz == [] ==> outcome == NoQuestions && attempts == old(attempts))
                && (quiz != [] ==>
                      && outcome == Started(|old(attempts)| + 1, quiz)
                      && attempts == old(attempts) + [NewAttempt(|old(attempts)| + 1, studentId, now)])
    {
      if role != Student {
        return StartDenied;
      }
      if studentId !in diagnostics {
        return NeedsDiagnostic;
      }
      var level := diagnostics[studentId].recommendedLevel;
      var quiz := SelectQuiz(questions, level);
      if quiz == [] {
        return NoQuestions;
      }
      var id := |attempts| + 1;
      attempts := attempts + [NewAttempt(id, studentId, now)];
      outcome := Started(id, quiz);
    }

    /**
     * A quiz submission. An unknown attempt id changes nothing; otherwise the
     * attempt gets its end time, practice flag and score (0 in practice, the
     * draw otherwise), and every other attempt is left as it was. A second
     * submission of the same attempt overwrites the first.
     */
    method SubmitQuiz(attemptId: int, practiceMode: Option<string>, draw: int, now: nat)
      returns (outcome: SubmitOutcome)
      requires Valid()
      requires 50 <= draw <= 95
      modifies this`attempts
      ensures Valid()
      ensures !(1 <= attemptId <= |old(attempts)|) ==> outcome == NotFound && attempts == old(attempts)
      ensures 1 <= attemptId <= |old(attempts)| ==>
                var updated := Submitted(old(attempts)[attemptId - 1], IsPracticeRequest(practiceMode), draw, now);
                && outcome == Recorded(updated)
                && attempts == old(attempts)[attemptId - 1 := updated]
    {
      var isPractice := IsPracticeRequest(practiceMode);
      if !(1 <= attemptId <= |attempts|) {
        return NotFound;
      }
      var attempt := attempts[attemptId - 1];
      attempt := attempt.(endTime := Some(now));
      attempt := attempt.(isPractice := isPractice);
      attempt := attempt.(score := if !isPractice then draw else 0);
      attempts := attempts[attemptId - 1 := attempt];
      outcome := Recorded(attempt);
    }
  }

  /** The sample question of the journey: a hard Physics question for grade 10th. */
  function SampleForm(): QuestionForm {
    QuestionForm("Physics", "10th", "Optics", Hard, false, None, "Define refraction.", None)
  }

  /** The sample diagnostic answers: four answer fields, one of them left empty. */
  function SampleAnswers(): seq<(string, string)> {
    [("answer_1", "a"), ("answer_2", ""), ("answer_3", "c"), ("answer_4", "d")]
  }

  /** The sample form passes validation in an empty bank and gives an eligible, parentless question. */
  lemma SampleFormValid()
    ensures ValidForm(SampleForm(), [])
    ensures Eligible(BuildQuestion(1, 1, SampleForm(), ""), Hard)
  {
    var form := SampleForm();
    assert !IsSpace(form.subject[0]) && !IsSpace(form.grade[0]) && !IsSpace(form.topic[0]) && !IsSpace(form.text[0]);
  }

  /** The sample answer keys are pairwise distinct. */
  lemma SampleAnswersDistinct()
    ensures DistinctKeys(SampleAnswers())
  {
    var answers := SampleAnswers();
    forall i, j | 0 <= i < j < |answers| ensures answers[i].0 != answers[j].0 {
      assert answers[i].0[7] != answers[j].0[7];
    }
  }

  /** Every sample field is an answer field, so all four score. */
  lemma SampleAnswersAllCount()
    ensures AnswerCount(SampleAnswers()) == 4
  {
    var answers := SampleAnswers();
    assert forall i :: 0 <= i < |answers| ==> IsAnswerKey(answers[i].0);
    assert AnswerCount(answers[3..]) == 1;
    assert AnswerCount(answers[2..]) == 2;
    assert AnswerCount(answers[1..]) == 3;
  }

  /** Four answer fields earn the hard tier, whatever their values. */
  lemma SampleAnswersEarnHard()
    ensures DiagnosticLevel(SampleAnswers()) == Hard
  {
    SampleAnswersDistinct();
    SampleAnswersAllCount();
    DistinctScoreIsAnswerCount(SampleAnswers());
  }

  /**
   * A student's path through the engine, shown from the contracts alone:
   * gated before the diagnostic, recommended "hard" after four answers,
   * then one quiz attempt that is scored, and scored 0 when resubmitted in
   * practice mode.
   */
  method StudentJourney(draw: int)
    requires 50 <= draw <= 95
  {
    var store := new Store();
    SampleFormValid();
    var created := store.CreateQuestion(Teacher, 1, SampleForm(), "");
    assert created == Created(1);

    var early := store.StartQuiz(Student, 2, 10);
    assert early == NeedsDiagnostic;

    SampleAnswersEarnHard();
    var diagnostic := store.SubmitDiagnostic(Student, 2, SampleAnswers(), 20);
    assert diagnostic == Completed(Hard);
    var again := store.SubmitDiagnostic(Student, 2, [], 25);
    assert again == AlreadyCompleted;

    assert store.questions[0] in store.questions;
    var started := store.StartQuiz(Student, 2, 30);
    assert started.Started? && started.attemptId == 1;

    var scored := store.SubmitQuiz(1, None, draw, 40);
    assert scored.Recorded? && 50 <= scored.attempt.score <= 95;
    var practice := store.SubmitQuiz(1, Some("true"), draw, 50);
    assert practice.Recorded? && practice.attempt.score == 0 && practice.attempt.isPractice;
    var missing := store.SubmitQuiz(2, None, draw, 60);
    assert missing == NotFound;
  }
}
