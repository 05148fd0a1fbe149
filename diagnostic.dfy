/**
 * Scoring and recommendation of the one-time diagnostic (app.py:283-291).
 * A POST body is the sequence of (key, value) fields in the order they were
 * sent, repeated keys included; `request.form.items()` yields each key once.
 */
module Diagnostic {
  import opened Records

  const AnswerPrefix: string := "answer_"

  /** `key.startswith('answer_')`. */
  predicate IsAnswerKey(key: string) {
    |AnswerPrefix| <= |key| && key[..|AnswerPrefix|] == AnswerPrefix
  }

  /** The keys are pairwise distinct, as those `items()` yields are. */
  predicate DistinctKeys(form: seq<(string, string)>) {
    forall i, j :: 0 <= i < j < |form| ==> form[i].0 != form[j].0
  }

  /** The set of keys present in the fields. */
  function Keys(fields: seq<(string, string)>): set<string> {
    set i | 0 <= i < |fields| :: fields[i].0
  }

  /** The keys of a non-empty sequence of fields: the first one and those of the rest. */
  lemma KeysCons(fields: seq<(string, string)>)
    requires fields != []
    ensures Keys(fields) == {fields[0].0} + Keys(fields[1..])
  {
    forall k | k in Keys(fields) ensures k in {fields[0].0} + Keys(fields[1..]) {
      var i :| 0 <= i < |fields| && fields[i].0 == k;
      if i > 0 { assert fields[1..][i - 1] == fields[i]; }
    }
    forall k | k in Keys(fields[1..]) ensures k in Keys(fields) {
      var i :| 0 <= i < |fields[1..]| && fields[1..][i].0 == k;
      assert fields[i + 1] == fields[1..][i];
    }
  }

  /** `p` was posted at the first position its key was posted. */
  predicate FirstPosted(posted: seq<(string, string)>, p: (string, string)) {
    exists j :: 0 <= j < |posted| && posted[j] == p && forall k :: 0 <= k < j ==> posted[k].0 != p.0
  }

  /** A first occurrence in the tail is one in the whole when the head has another key. */
  lemma FirstPostedCons(posted: seq<(string, string)>, p: (string, string))
    requires posted != [] && posted[0].0 != p.0 && FirstPosted(posted[1..], p)
    ensures FirstPosted(posted, p)
  {
    var j :| 0 <= j < |posted[1..]| && posted[1..][j] == p && forall k :: 0 <= k < j ==> posted[1..][k].0 != p.0;
    assert posted[j + 1] == p;
    forall k | 0 <= k < j + 1 ensures posted[k].0 != p.0 {
      if k > 0 { assert posted[k] == posted[1..][k - 1]; }
    }
  }

  /**
   * Fields taken from the tail whose keys differ from the head's are first
   * occurrences, and fields, of the whole body.
   */
  lemma FirstPostedFromTail(posted: seq<(string, string)>, rest: seq<(string, string)>)
    requires posted != []
    requires forall i :: 0 <= i < |rest| ==> rest[i].0 != posted[0].0 && FirstPosted(posted[1..], rest[i])
    ensures forall i :: 0 <= i < |rest| ==> FirstPosted(posted, rest[i])
    ensures forall p :: p in rest ==> p in posted
  {
    forall i | 0 <= i < |rest| ensures FirstPosted(posted, rest[i]) {
      FirstPostedCons(posted, rest[i]);
    }
    forall p | p in rest ensures p in posted {
      var i :| 0 <= i < |rest| && rest[i] == p;
      var j :| 0 <= j < |posted| && posted[j] == p && forall k :: 0 <= k < j ==> posted[k].0 != p.0;
    }
  }

  /**
   * The fields `items()` yields for posted fields, skipping keys in `seen`:
   * each remaining key once, at its first occurrence, with the value posted
   * there.
   */
  function FirstOccurrences(posted: seq<(string, string)>, seen: set<string>): (items: seq<(string, string)>)
    ensures DistinctKeys(items)
    ensures forall i :: 0 <= i < |items| ==> items[i].0 !in seen
    ensures Keys(items) == Keys(posted) - seen
    ensures forall p :: p in items ==> p in posted
    ensures forall i :: 0 <= i < |items| ==> FirstPosted(posted, items[i])
  {
    if posted == [] then []
    else
      KeysCons(posted);
      var k := posted[0].0;
      if k in seen then
        var rest := FirstOccurrences(posted[1..], seen);
        FirstPostedFromTail(posted, rest);
        rest
      else
        var rest := FirstOccurrences(posted[1..], seen + {k});
        FirstPostedFromTail(posted, rest);
        var items := [posted[0]] + rest;
        KeysCons(items);
        assert items[1..] == rest;
        assert forall i :: 0 < i < |items| ==> items[i] == rest[i - 1];
        assert FirstPosted(posted, items[0]) by {
          assert posted[0] == items[0];
        }
        items
  }

  /** `request.form.items()`: each posted key once, with its first value. */
  function FormItems(posted: seq<(string, string)>): (items: seq<(string, string)>)
    ensures DistinctKeys(items)
    ensures Keys(items) == Keys(posted)
    ensures forall p :: p in items ==> p in posted
    ensures forall i :: 0 <= i < |items| ==> FirstPosted(posted, items[i])
  {
    FirstOccurrences(posted, {})
  }

  /** Posted fields whose keys are already distinct come back unchanged. */
  lemma {:induction false} FirstOccurrencesOfDistinct(posted: seq<(string, string)>, seen: set<string>)
    requires DistinctKeys(posted) && Keys(posted) !! seen
    ensures FirstOccurrences(posted, seen) == posted
  {
    if posted != [] {
      KeysCons(posted);
      var rest := posted[1..];
      DistinctKeysTail(posted);
      FirstOccurrencesOfDistinct(rest, seen + {posted[0].0});
      assert posted == [posted[0]] + rest;
    }
  }

  /** The set of answer keys present in the fields. */
  function AnswerKeys(form: seq<(string, string)>): set<string> {
    set i | 0 <= i < |form| && IsAnswerKey(form[i].0) :: form[i].0
  }

  /**
   * The raw diagnostic score: one point per submitted entry whose key starts
   * with "answer_", whatever its value. It never exceeds the number of entries.
   */
  function AnswerCount(form: seq<(string, string)>): (score: nat)
    ensures score <= |form|
  {
    if form == [] then 0
    else (if IsAnswerKey(form[0].0) then 1 else 0) + AnswerCount(form[1..])
  }

  /** The values of the answers do not matter: only the keys are counted. */
  lemma {:induction false} AnswerCountIgnoresValues(form: seq<(string, string)>, form': seq<(string, string)>)
    requires |form| == |form'|
    requires forall i :: 0 <= i < |form| ==> form[i].0 == form'[i].0
    ensures AnswerCount(form) == AnswerCount(form')
  {
    if form != [] {
      AnswerCountIgnoresValues(form[1..], form'[1..]);
    }
  }

  /** The score of two parts of a form is the sum of their scores. */
  lemma {:induction false} AnswerCountAppend(a: seq<(string, string)>, b: seq<(string, string)>)
    ensures AnswerCount(a + b) == AnswerCount(a) + AnswerCount(b)
  {
    if a == [] {
      assert a + b == b;
    } else {
      assert (a + b)[1..] == a[1..] + b;
      AnswerCountAppend(a[1..], b);
    }
  }

  /** Dropping the first field keeps the keys distinct. */
  lemma DistinctKeysTail(fields: seq<(string, string)>)
    requires fields != [] && DistinctKeys(fields)
    ensures DistinctKeys(fields[1..])
    ensures fields[0].0 !in Keys(fields[1..])
  {
    var rest := fields[1..];
    forall i, j | 0 <= i < j < |rest| ensures rest[i].0 != rest[j].0 {
      assert rest[i] == fields[i + 1] && rest[j] == fields[j + 1];
    }
    forall i | 0 <= i < |rest| ensures rest[i].0 != fields[0].0 {
      assert rest[i] == fields[i + 1];
    }
  }

  /** The answer keys of a non-empty sequence: the first key if it is one, and those of the rest. */
  lemma AnswerKeysCons(fields: seq<(string, string)>)
    requires fields != []
    ensures AnswerKeys(fields) == (if IsAnswerKey(fields[0].0) then {fields[0].0} else {}) + AnswerKeys(fields[1..])
  {
    var rest := fields[1..];
    forall k | k in AnswerKeys(fields) ensures k == fields[0].0 || k in AnswerKeys(rest) {
      var i :| 0 <= i < |fields| && IsAnswerKey(fields[i].0) && fields[i].0 == k;
      if i > 0 { assert rest[i - 1] == fields[i]; }
    }
    forall k | k in AnswerKeys(rest) ensures k in AnswerKeys(fields) {
      var i :| 0 <= i < |rest| && IsAnswerKey(rest[i].0) && rest[i].0 == k;
      assert fields[i + 1] == rest[i];
    }
  }

  /** With distinct keys the score is the number of distinct answer keys submitted. */
  lemma {:induction false} AnswerCountIsAnswerKeyCount(form: seq<(string, string)>)
    requires DistinctKeys(form)
    ensures AnswerCount(form) == |AnswerKeys(form)|
  {
    if form == [] {
      assert AnswerKeys(form) == {};
    } else {
      DistinctKeysTail(form);
      AnswerCountIsAnswerKeyCount(form[1..]);
      AnswerKeysCons(form);
      assert form[0].0 !in AnswerKeys(form[1..]);
    }
  }

  /**
   * The recommended tier: hard from four answers up, intermediate from two,
   * easy below two; the diagnostic tier itself is never recommended.
   */
  function Recommend(score: nat): (level: Difficulty)
    ensures level != Diagnostic
    ensures level == Hard <==> score >= 4
    ensures level == Intermediate <==> 2 <= score < 4
    ensures level == Easy <==> score < 2
  {
    if score >= 4 then Hard
    else if score >= 2 then Intermediate
    else Easy
  }

  /** Ordinal of a recommended tier, easiest first. */
  function Rank(level: Difficulty): nat {
    match level
    case Diagnostic => 0
    case Easy => 1
    case Intermediate => 2
    case Hard => 3
  }

  /** A higher diagnostic score never yields an easier recommendation. */
  lemma RecommendMonotone(s: nat, t: nat)
    requires s <= t
    ensures Rank(Recommend(s)) <= Rank(Recommend(t))
  {
  }

  /** The answer keys depend only on the set of keys. */
  lemma AnswerKeysOfSameKeys(a: seq<(string, string)>, b: seq<(string, string)>)
    requires Keys(a) == Keys(b)
    ensures AnswerKeys(a) == AnswerKeys(b)
  {
    forall k | k in AnswerKeys(a) ensures k in AnswerKeys(b) {
      assert k in Keys(a);
    }
    forall k | k in AnswerKeys(b) ensures k in AnswerKeys(a) {
      assert k in Keys(b);
    }
  }

  /**
   * The diagnostic score of a POST body, counted over `items()`: the number
   * of distinct posted keys that start with "answer_", however often each
   * was repeated and whatever the values.
   */
  function DiagnosticScore(posted: seq<(string, string)>): (score: nat)
    ensures score == |AnswerKeys(posted)|
  {
    var items := FormItems(posted);
    AnswerCountIsAnswerKeyCount(items);
    AnswerKeysOfSameKeys(items, posted);
    AnswerCount(items)
  }

  /** A POST body with distinct keys is scored entry by entry. */
  lemma DistinctScoreIsAnswerCount(posted: seq<(string, string)>)
    requires DistinctKeys(posted)
    ensures DiagnosticScore(posted) == AnswerCount(posted)
  {
    FirstOccurrencesOfDistinct(posted, {});
  }

  /** The recommendation the diagnostic submission produces for a POST body. */
  function DiagnosticLevel(posted: seq<(string, string)>): (level: Difficulty)
    ensures level != Diagnostic
    ensures level == Hard <==> |AnswerKeys(posted)| >= 4
    ensures level == Easy <==> |AnswerKeys(posted)| < 2
  {
    Recommend(DiagnosticScore(posted))
  }

  /** One answer key posted four times is one answer: the tier is easy. */
  lemma RepeatedKeyCountsOnce()
    ensures DiagnosticLevel([("answer_1", "a"), ("answer_1", "b"), ("answer_1", "c"), ("answer_1", "d")]) == Easy
  {
    var posted := [("answer_1", "a"), ("answer_1", "b"), ("answer_1", "c"), ("answer_1", "d")];
    assert AnswerKeys(posted) == {"answer_1"} by {
      assert IsAnswerKey(posted[0].0);
    }
  }
}
