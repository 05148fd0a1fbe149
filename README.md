# Adaptive quiz engine — a Dafny model

This project models the core of a small Flask quiz platform. Teachers author
questions. A question may be a passage that other questions hang under.
A student must first submit a one-time diagnostic, which records a
recommended difficulty tier. The student can then start main quizzes drawn
from that tier plus the intermediate tier, and submit them for a score.

The model keeps the platform's three tables as one in-memory store: the
question table (a `seq<Question>`), the diagnostic table (a `map` from
student id to `DiagnosticAttempt`), and the quiz-attempt table (a
`seq<QuizAttempt>`). The four request handlers that change those tables are
methods of the `Engine.Store` class. The decision rules they use are pure
functions:

- `Upload.AllowedFile` checks upload names.
- `Diagnostic.FormItems`, `Diagnostic.AnswerCount` and `Diagnostic.Recommend` reduce the posted fields to one per key, score the diagnostic and map the score to a tier.
- `QuestionBank.NormalizedParent`, `QuestionBank.PassageChoices` and `QuestionBank.BuildQuestion` decide what a new question row holds.
- `QuizAssembly.SelectQuiz` selects the quiz questions.
- `QuizAssembly.Submitted` says what a quiz submission writes.

The store keeps three invariants, stated in `Store.Valid`:

- The passage/child links form a forest of depth one. A parent is always an earlier passage of the same teacher, and a passage never has a parent.
- Each student has at most one diagnostic record, and it never recommends the diagnostic tier.
- Every quiz attempt belongs to a student who passed the diagnostic. An attempt is unscored until submitted, practice attempts score 0, and other submitted attempts score 50 to 95.

The logged-in account's role is passed to each handler explicitly. The clock
is a natural number `now` supplied by the caller. The random main-quiz score
is a parameter `draw` that must lie in 50..95, the range of the source's
`random.randint(50, 95)`.

Files:

- `wrappers.dfy` defines `Option`.
- `records.dfy` defines the table rows.
- `upload.dfy` holds the extension check.
- `diagnostic.dfy` holds diagnostic scoring.
- `question_bank.dfy` holds question creation rules and listings.
- `quiz_assembly.dfy` holds quiz selection and the attempt record lifecycle.
- `engine.dfy` holds the store class and a client method, `Engine.StudentJourney`. That method walks one student through the engine using only the contracts.

In these places the model follows what the code does, which may not be what
a reader expects:

- A second submission of the same quiz attempt is not rejected. It overwrites end time, practice flag and score (`QuizAssembly.ResubmitOverwrites`).
- A diagnostic field posted several times under one key counts once, because `items()` yields each key once (`Diagnostic.RepeatedKeyCountsOnce`).
- A repeated diagnostic submission is not an error. It changes nothing and reports `AlreadyCompleted`.
- A passage question submitted with a parent is not rejected. The parent is dropped.
- A parent that is not one of the teacher's own passages fails form validation, because the choice list holds only those passages. The question is then not created.
- Quiz submission checks neither the role nor who owns the attempt. Any logged-in account may submit any attempt id.
- Quiz selection has no `ORDER BY`. The model selects in id (creation) order.

## Model

| member | source | states |
|---|---|---|
| `Upload.Extension` | app.py:107 | the text after the last dot: it holds no dot, and the name ends with a dot followed by it |
| `Upload.Lower` | app.py:107 | lower-casing keeps the length and maps each character through the ASCII lower-case mapping |
| `Upload.LastDot` | app.py:107 | no position exactly when the name has no dot; otherwise the position of a dot with no dot after it, where `rsplit('.', 1)` cuts |
| `Upload.AllowedFile` | app.py:105-107 | true exactly when the name has a last dot and the lower-cased text after it is one of pdf, png, jpg, jpeg, mp3 (the set at app.py:22); a name without a dot is always refused |
| `Upload.UpperCaseExtensionAccepted` | app.py:105-107 | "Notes.PDF" is accepted, because case is ignored |
| `Upload.OnlyLastExtensionCounts` | app.py:105-107 | "archive.pdf.gz" is refused, because only the last extension counts; "pdf", with no dot, is refused |
| `Diagnostic.FirstOccurrences` | app.py:283 | the fields `items()` yields, skipping keys already seen: keys distinct, none of them seen, exactly the posted keys not seen, each pair the one posted at the first occurrence of its key |
| `Diagnostic.FormItems` | app.py:283 | `request.form.items()` of a POST body: distinct keys, exactly the posted keys, each pair the one posted at the first occurrence of its key |
| `Diagnostic.FirstOccurrencesOfDistinct` | app.py:283 | a POST body whose keys are already distinct is yielded unchanged by `items()` |
| `Diagnostic.AnswerCount` | app.py:283 | the raw diagnostic score never exceeds the number of submitted form entries |
| `Diagnostic.AnswerCountIgnoresValues` | app.py:283 | two forms with the same keys score the same, whatever the answer values |
| `Diagnostic.AnswerCountAppend` | app.py:283 | the score of a form is the sum of the scores of its parts |
| `Diagnostic.AnswerCountIsAnswerKeyCount` | app.py:283 | with distinct keys, the score is the number of distinct submitted keys starting with "answer_" |
| `Diagnostic.DiagnosticScore` | app.py:283 | the score of a POST body, counted over `items()`, is the number of distinct posted keys starting with "answer_", however often each was repeated |
| `Diagnostic.DistinctScoreIsAnswerCount` | app.py:283 | when no key is posted twice, scoring the POST body through `items()` gives the same score as counting its answer fields directly |
| `Diagnostic.Recommend` | app.py:286-291 | hard exactly when the score is at least 4; intermediate exactly when it is 2 or 3; easy exactly below 2; never the diagnostic tier |
| `Diagnostic.RecommendMonotone` | app.py:286-291 | a higher score never gives an easier tier |
| `Diagnostic.DiagnosticLevel` | app.py:283-291 | the tier a POST body earns is never the diagnostic tier; it is hard exactly when four or more distinct answer keys were posted, and easy exactly when fewer than two were |
| `Diagnostic.RepeatedKeyCountsOnce` | app.py:283-291 | "answer_1" posted four times is one answer and earns the easy tier |
| `QuestionBank.PassageChoices` | app.py:185-187 | an id is offered as a parent exactly when it belongs to one of that teacher's passage questions |
| `QuestionBank.ValidForm` | app.py:88-94 | a form validates exactly when subject, grade, topic and text are not blank and the chosen parent is none or one of the offered choices (the choice list of app.py:185-187) |
| `QuestionBank.NormalizedParent` | app.py:199 | the stored parent is present exactly when the question is not a passage and the chosen parent is truthy (present and non-zero), and then it is the chosen one |
| `QuestionBank.StoredMedia` | app.py:190-197 | a media reference is stored exactly when a file with a non-empty name passing the extension check was uploaded, and it is the reference the media store returned |
| `QuestionBank.BuildQuestion` | app.py:201-211 | the new row has the given id and owner; text, tier, subject, grade, topic and the passage flag are copied from the form; the media reference and the parent are the normalised ones; a passage never has a parent |
| `QuestionBank.CreatePreservesWellLinked` | app.py:185-211 | appending a question built from a form that passed validation keeps the bank's passage links a depth-one forest of same-teacher passages |
| `QuestionBank.ParentHasNoParent` | app.py:199 | in a well-linked bank, the parent of a child question exists, is a passage and has no parent itself |
| `QuestionBank.TeacherListing` | app.py:164 | the listing holds exactly the questions of that teacher |
| `QuestionBank.TeacherListingNewestFirst` | app.py:164 | the listing is in strictly descending id order |
| `QuestionBank.DiagnosticSet` | app.py:279 | the diagnostic shows exactly the questions of the diagnostic tier |
| `QuizAssembly.Eligible` | app.py:322-325 | an eligible question is a Physics question for grade 10th of the recommended or the intermediate tier; every such question of the recommended tier and every such intermediate question is eligible; a student with a real recommendation never draws a diagnostic question |
| `QuizAssembly.Select` | app.py:322-326 | at most `limit` questions, each from the bank and eligible (tier is the recommended one or intermediate, subject Physics, grade 10th); if fewer than `limit`, every eligible question is included |
| `QuizAssembly.SelectQuiz` | app.py:319-326 | at most 10 questions, all eligible for the recommended tier; empty exactly when no question of the bank is eligible |
| `QuizAssembly.SelectKeepsOrder` | app.py:322-326 | in a bank with ascending ids, the selected questions have ascending ids, that is, keep the bank's order |
| `QuizAssembly.NewAttempt` | app.py:333 | a new attempt belongs to the student, has subject Physics, starts now, has no end time, is not practice and scores 0 (the column defaults at app.py:67-70) |
| `QuizAssembly.IsPracticeRequest` | app.py:345 | a submission is practice exactly when the `practice_mode` field is the text "true"; a missing field is not practice |
| `QuizAssembly.Submitted` | app.py:348-352 | submission sets the end time and practice flag; the score is 0 in practice and within 50..95 otherwise; id, student, subject and start time are unchanged |
| `QuizAssembly.ResubmitOverwrites` | app.py:347-352 | submitting an attempt again gives the same record as submitting it once with the second request's values |
| `Engine.SampleFormValid` | app.py:87-94 | a Physics/10th hard question form with all required fields filled passes validation in an empty bank, and the question built from it is eligible for a hard-tier quiz |
| `Engine.SampleAnswersEarnHard` | app.py:283-291 | four distinct "answer_" fields earn the hard tier, even with one answer left empty |
| `Engine.Store.constructor` | app.py:111 | an empty store satisfies every store invariant |
| `Engine.Store.SubmitDiagnostic` | app.py:269-301 | non-students change nothing; a student with a record changes nothing; otherwise exactly one record, with the recommendation of the POST body's `items()`, is added for that student; store invariants kept |
| `Engine.Store.CreateQuestion` | app.py:177-215 | non-teachers and invalid forms change nothing; otherwise exactly one question, built from the form with the next id, is appended; the bank stays well linked |
| `Engine.Store.StartQuiz` | app.py:307-335 | non-students, students without a diagnostic record and empty selections create no attempt; otherwise exactly one fresh attempt is appended and returned with the selection for the student's recommended tier |
| `Engine.Store.SubmitQuiz` | app.py:342-353 | an unknown id changes nothing; otherwise only that attempt is replaced by its submitted form and all other attempts stay as they were; store invariants kept |

## Left out

- Login, logout, sessions, password hashing and the user table (app.py:32-44, 101-103, 132-154) are not modelled. They are library calls; the role is a parameter instead.
- Saving the uploaded file, its uuid-prefixed name, `secure_filename` and `url_for` (app.py:191-197) are not modelled. They are file-system I/O and foreign calls. Only the extension check is modelled, and the resulting reference is a caller-supplied string.
- Report generation (app.py:220-247) is not modelled. It writes mock text to a file.
- Dashboards, mock chart and quiz data, template rendering and time limits (app.py:166-175, 259-267, 303-305, 337-340) are not modelled. They are presentation with hard-coded constants. A GET of the diagnostic only renders `QuestionBank.DiagnosticSet`, and it changes nothing.
- The first-request seeding of two accounts and five diagnostic questions (app.py:109-128) is not modelled. The store starts empty.
- Engine.Store.CreateQuestion: follows the validation the route evidently intends, not what the form library may do with the form as written. Two points are not modelled. First, `SelectField(..., nullable=True)` at app.py:93 passes a keyword that the library's field constructor may not accept, so building the form at app.py:183 could fail. Second, the "None" choice at app.py:185 under `coerce=int` may not coerce, so a standalone question might never validate. If either holds, no question is ever stored and every quiz start ends with no questions (app.py:328-330). Both depend on the form library, which is not part of this model. The model accepts a form with no parent (`QuestionBank.ValidForm`).
- Persistence, commits, CSRF tokens and form parsing errors are not modelled. Difficulty and the passage flag come from fixed choice lists, so the datatypes make invalid values unrepresentable.
- Concurrent requests are not modelled. Each handler is one atomic step on the store, and the uniqueness of a diagnostic record per student follows from the map's keys.
- The quiz id in the start URL is not modelled. The source ignores it.
- Scores are stored as floats in the source. The model uses integers, which are the only values the source writes (0 and `randint` results).
- Quiz submission updates the ORM object in place. The model replaces the record in the attempt sequence, so aliasing of that object is not modelled.
- Upload.Lower: lower-cases ASCII letters only, whereas Python's `str.lower` also folds non-ASCII letters. A non-ASCII extension could lower-case differently.
- QuestionBank.IsSpace covers ASCII white space only, whereas `DataRequired` strips all Unicode white space.
