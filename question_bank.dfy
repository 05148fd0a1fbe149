/**
 * The question bank: the fields a teacher submits (app.py:87-96), the
 * passage choices offered to them (app.py:185-187), the normalisation of the
 * chosen parent (app.py:199), the record that gets stored (app.py:201-211),
 * the teacher's listing (app.py:164) and the diagnostic question set
 * (app.py:279). Question ids are the store positions plus one.
 */
module QuestionBank {
  import opened Wrappers
  import opened Records
  import Upload

  /** What the question form carries once parsed; `mediaFile` is the upload's file name. */
  datatype QuestionForm = QuestionForm(
    subject: string,
    grade: string,
    topic: string,
    difficulty: Difficulty,
    isPassage: bool,
    parent: Option<int>,
    text: string,
    mediaFile: Option<string>)

  /** The characters `str.strip()` removes, restricted to ASCII. */
  predicate IsSpace(c: char) {
    9 <= c as int <= 13 || 28 <= c as int <= 32
  }

  /** A value the `DataRequired` validator rejects: empty or only white space. */
  predicate Blank(s: string) {
    forall i :: 0 <= i < |s| ==> IsSpace(s[i])
  }

  /** Every text field carrying `DataRequired` has content. */
  predicate FieldsPresent(form: QuestionForm) {
    !Blank(form.subject) && !Blank(form.grade) && !Blank(form.topic) && !Blank(form.text)
  }

  /** A teacher's own passage, one that may be chosen as a parent. */
  predicate IsPassageOf(q: Question, teacherId: nat) {
    q.teacherId == teacherId && q.isPassage
  }

  /**
   * Ids offered as parents to a teacher, in store order: exactly the ids of
   * that teacher's passage questions.
   */
  function PassageChoices(qs: seq<Question>, teacherId: nat): (ids: seq<nat>)
    ensures forall id :: id in ids <==> exists q :: q in qs && q.id == id && IsPassageOf(q, teacherId)
  {
    if qs == [] then []
    else
      (if IsPassageOf(qs[0], teacherId) then [qs[0].id] else []) + PassageChoices(qs[1..], teacherId)
  }

  /**
   * The form validates: subject, grade, topic and text are not blank, and the
   * chosen parent is either none or one of the offered choices.
   */
  function ValidForm(form: QuestionForm, choices: seq<nat>): (ok: bool)
    ensures ok ==> !Blank(form.subject) && !Blank(form.grade) && !Blank(form.topic) && !Blank(form.text)
    ensures ok && form.parent.Some? ==> form.parent.value in choices
    ensures FieldsPresent(form) && form.parent.None? ==> ok
    ensures FieldsPresent(form) && form.parent.Some? && form.parent.value in choices ==> ok
  {
    FieldsPresent(form) && (form.parent.None? || form.parent.value in choices)
  }

  /**
   * The stored parent: kept only for a non-passage question whose chosen
   * parent is truthy (present and not 0); dropped otherwise.
   */
  function NormalizedParent(isPassage: bool, chosen: Option<int>): (parent: Option<int>)
    ensures parent.Some? <==> !isPassage && chosen.Some? && chosen.value != 0
    ensures parent.Some? ==> parent == chosen
  {
    if !isPassage && chosen.Some? && chosen.value != 0 then chosen else None
  }

  /**
   * The stored media reference: the reference handed back by the media store
   * when a file with a non-empty, allowed name was uploaded; none otherwise.
   */
  function StoredMedia(upload: Option<string>, mediaRef: string): (path: Option<string>)
    ensures path.Some? <==> upload.Some? && upload.value != "" && Upload.AllowedFile(upload.value)
    ensures path.Some? ==> path.value == mediaRef
  {
    if upload.Some? && upload.value != "" && Upload.AllowedFile(upload.value) then Some(mediaRef) else None
  }

  /**
   * The question row built from a validated form: the given id and owner,
   * every text field, the tier and the passage flag copied from the form,
   * the media reference and the parent as normalised.
   */
  function BuildQuestion(id: nat, teacherId: nat, form: QuestionForm, mediaRef: string): (q: Question)
    ensures q.id == id && q.teacherId == teacherId
    ensures q.text == form.text && q.difficulty == form.difficulty && q.subject == form.subject
    ensures q.grade == form.grade && q.topic == form.topic && q.isPassage == form.isPassage
    ensures q.mediaPath == StoredMedia(form.mediaFile, mediaRef)
    ensures q.passageId == NormalizedParent(form.isPassage, form.parent)
    ensures q.isPassage ==> q.passageId.None?
  {
    Question(id, teacherId, form.text, form.difficulty, form.subject, form.grade, form.topic,
             StoredMedia(form.mediaFile, mediaRef), form.isPassage,
             NormalizedParent(form.isPassage, form.parent))
  }

  /** Ids are assigned in creation order, starting at 1. */
  predicate IdsAreIndices(qs: seq<Question>) {
    forall i :: 0 <= i < |qs| ==> qs[i].id == i + 1
  }

  /**
   * The parent of question `i`, if any, is an earlier passage of the same
   * teacher, and question `i` is not itself a passage.
   */
  predicate ParentOk(qs: seq<Question>, i: nat)
    requires i < |qs|
  {
    match qs[i].passageId
    case None => true
    case Some(p) =>
      1 <= p <= i && !qs[i].isPassage && qs[p - 1].isPassage && qs[p - 1].teacherId == qs[i].teacherId
  }

  /** The passage/child relation of the whole bank is well formed. */
  predicate WellLinked(qs: seq<Question>) {
    IdsAreIndices(qs) && forall i :: 0 <= i < |qs| ==> ParentOk(qs, i)
  }

  /**
   * Adding a question built from a validated form keeps the bank well linked:
   * a parent can only be one of the teacher's own passages, and a passage
   * never gets a parent.
   */
  lemma CreatePreservesWellLinked(qs: seq<Question>, teacherId: nat, form: QuestionForm, mediaRef: string)
    requires WellLinked(qs)
    requires ValidForm(form, PassageChoices(qs, teacherId))
    ensures WellLinked(qs + [BuildQuestion(|qs| + 1, teacherId, form, mediaRef)])
  {
    var q := BuildQuestion(|qs| + 1, teacherId, form, mediaRef);
    var qs' := qs + [q];
    forall i | 0 <= i < |qs| ensures ParentOk(qs', i) {
      assert ParentOk(qs, i);
    }
    if q.passageId.Some? {
      var p := q.passageId.value;
      assert p in PassageChoices(qs, teacherId);
      var parent :| parent in qs && parent.id == p && IsPassageOf(parent, teacherId);
      var k :| 0 <= k < |qs| && qs[k] == parent;
      assert qs'[p - 1] == parent;
    }
    assert ParentOk(qs', |qs|);
  }

  /** Nesting stops at depth one: the parent of a child question has no parent. */
  lemma ParentHasNoParent(qs: seq<Question>, i: nat)
    requires WellLinked(qs) && i < |qs| && qs[i].passageId.Some?
    ensures var p := qs[i].passageId.value;
            1 <= p <= |qs| && qs[p - 1].isPassage && qs[p - 1].passageId.None?
  {
    var p := qs[i].passageId.value;
    assert ParentOk(qs, i);
    assert ParentOk(qs, p - 1);
  }

  /**
   * The teacher's dashboard listing: that teacher's questions, newest
   * (highest id) first.
   */
  function TeacherListing(qs: seq<Question>, teacherId: nat): (r: seq<Question>)
    ensures forall q :: q in r <==> q in qs && q.teacherId == teacherId
  {
    if qs == [] then []
    else
      var last := qs[|qs| - 1];
      var earlier := qs[..|qs| - 1];
      assert qs == earlier + [last];
      (if last.teacherId == teacherId then [last] else []) + TeacherListing(earlier, teacherId)
  }

  /** A listing of a bank with creation-order ids holds no id beyond the bank's size. */
  lemma ListingIdsBelow(qs: seq<Question>, teacherId: nat)
    requires IdsAreIndices(qs)
    ensures forall q :: q in TeacherListing(qs, teacherId) ==> 1 <= q.id <= |qs|
  {
    forall q | q in TeacherListing(qs, teacherId) ensures 1 <= q.id <= |qs| {
      var k :| 0 <= k < |qs| && qs[k] == q;
    }
  }

  /** Ids strictly descend along the sequence. */
  predicate NewestFirst(r: seq<Question>) {
    forall i, j :: 0 <= i < j < |r| ==> r[i].id > r[j].id
  }

  /** Putting a question before a listing with smaller ids keeps the ids descending. */
  lemma PrependNewest(newest: Question, rest: seq<Question>)
    requires NewestFirst(rest)
    requires forall q :: q in rest ==> q.id < newest.id
    ensures NewestFirst([newest] + rest)
  {
    var r := [newest] + rest;
    forall i, j | 0 <= i < j < |r| ensures r[i].id > r[j].id {
      assert r[j] == rest[j - 1];
      if i > 0 {
        assert r[i] == rest[i - 1];
      } else {
        assert rest[j - 1] in rest;
      }
    }
  }

  /** The listing is ordered by id, strictly descending. */
  lemma {:induction false} TeacherListingNewestFirst(qs: seq<Question>, teacherId: nat)
    requires IdsAreIndices(qs)
    ensures NewestFirst(TeacherListing(qs, teacherId))
  {
    if qs != [] {
      var n := |qs|;
      var earlier := qs[..n - 1];
      TeacherListingNewestFirst(earlier, teacherId);
      if qs[n - 1].teacherId == teacherId {
        ListingIdsBelow(earlier, teacherId);
        PrependNewest(qs[n - 1], TeacherListing(earlier, teacherId));
      }
    }
  }

  /** The questions shown in the diagnostic, in store order: those of the diagnostic tier. */
  function DiagnosticSet(qs: seq<Question>): (r: seq<Question>)
    ensures |r| <= |qs|
    ensures forall q :: q in r <==> q in qs && q.difficulty == Diagnostic
  {
    if qs == [] then []
    else (if qs[0].difficulty == Diagnostic then [qs[0]] else []) + DiagnosticSet(qs[1..])
  }
}
