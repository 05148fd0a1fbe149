/**
 * The three tables of the quiz engine (app.py:46-78) as value records.
 * Timestamps are opaque naturals supplied by the caller; account ids are
 * plain naturals (the user table itself is not part of this model).
 */
module Records {
  import opened Wrappers

  /** The difficulty column: one of the four choices of the question form. */
  datatype Difficulty = Diagnostic | Easy | Intermediate | Hard

  /** The `role` column of an account, passed explicitly to each operation. */
  datatype Role = Teacher | Student

  /** A row of the question table. `passageId` names the parent passage, if any. */
  datatype Question = Question(
    id: nat,
    teacherId: nat,
    text: string,
    difficulty: Difficulty,
    subject: string,
    grade: string,
    topic: string,
    mediaPath: Option<string>,
    isPassage: bool,
    passageId: Option<int>)

  /** A row of the quiz-attempt table; `endTime` is empty until submission. */
  datatype QuizAttempt = QuizAttempt(
    id: nat,
    studentId: nat,
    subject: string,
    startTime: nat,
    endTime: Option<nat>,
    isPractice: bool,
    score: int)

  /** A row of the diagnostic-attempt table, unique per student. */
  datatype DiagnosticAttempt = DiagnosticAttempt(
    id: nat,
    studentId: nat,
    completedAt: nat,
    recommendedLevel: Difficulty)
}
