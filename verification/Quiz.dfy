/**
 * Quiz grading and attempt numbering of an enrollment.
 *
 * `Grade` is the declarative verdict; `Evaluate` is the loop that computes it.
 */
module Quiz {
  import opened Prelude

  datatype QuizOption = QuizOption(id: string, correct: bool)
  datatype Question = Question(id: string, kind: string, options: seq<QuizOption>)
  datatype Answer = Answer(questionId: string, selected: seq<string>)
  datatype Fault = Unreadable | NoQuestion | Repeated | UnknownOption | UnknownQuestion
  datatype Outcome = Outcome(score: nat, pendingReview: bool)

  // ----- sameStringSet: comparison after sorting -----

  /** Go's string order: lexicographic, a prefix first. */
  predicate Leq(a: string, b: string) {
    a == [] || (b != [] && (a[0] < b[0] || (a[0] == b[0] && Leq(a[1..], b[1..]))))
  }

  lemma {:induction false} LeqTotal(a: string, b: string)
    ensures Leq(a, b) || Leq(b, a)
    ensures Leq(a, b) && Leq(b, a) ==> a == b
  {
    if a != [] && b != [] && a[0] == b[0] {
      LeqTotal(a[1..], b[1..]);
      assert a == [a[0]] + a[1..] && b == [b[0]] + b[1..];
    }
  }

  lemma {:induction false} LeqTransitive(a: string, b: string, c: string)
    requires Leq(a, b) && Leq(b, c)
    ensures Leq(a, c)
  {
    if a != [] && a[0] == b[0] && b[0] == c[0] { LeqTransitive(a[1..], b[1..], c[1..]); }
  }

  predicate Sorted(s: seq<string>) {
    forall i, j :: 0 <= i < j < |s| ==> Leq(s[i], s[j])
  }

  /** Sorting a copy in place: each element sinks to its place among the sorted prefix. */
  method Sort(s: seq<string>) returns (r: seq<string>)
    ensures Sorted(r) && multiset(r) == multiset(s)
  {
    r := [];
    for i := 0 to |s|
      invariant Sorted(r) && multiset(r) == multiset(s[..i])
    {
      assert s[..i + 1] == s[..i] + [s[i]];
      r := Sink(r, s[i]);
    }
    assert s[..|s|] == s;
  }

  method Sink(s: seq<string>, x: string) returns (r: seq<string>)
    requires Sorted(s)
    ensures Sorted(r) && multiset(r) == multiset(s) + multiset{x}
  {
    hide Leq;
    var k := |s|;
    while k > 0 && !Leq(s[k - 1], x)
      invariant 0 <= k <= |s| && forall i :: k <= i < |s| ==> Leq(x, s[i])
    {
      LeqTotal(s[k - 1], x);
      k := k - 1;
    }
    r := s[..k] + [x] + s[k..];
    forall i | 0 <= i < k ensures Leq(s[i], x) {
      if i < k - 1 { LeqTransitive(s[i], s[k - 1], x); }
    }
    SunkIsSorted(s, k, x);
    SunkIsPermutation(s, k, x);
  }

  lemma SunkIsSorted(s: seq<string>, k: nat, x: string)
    requires Sorted(s) && k <= |s| && (forall i :: 0 <= i < k ==> Leq(s[i], x)) && forall i :: k <= i < |s| ==> Leq(x, s[i])
    ensures Sorted(s[..k] + [x] + s[k..])
  {
    hide Leq;
    var r := s[..k] + [x] + s[k..];
    assert forall i :: 0 <= i < |r| ==> r[i] == if i < k then s[i] else if i == k then x else s[i - 1];
  }

  lemma SunkIsPermutation(s: seq<string>, k: nat, x: string)
    requires k <= |s|
    ensures multiset(s[..k] + [x] + s[k..]) == multiset(s) + multiset{x}
  {
    assert s == s[..k] + s[k..];
  }

  /** A multiset has one sorted sequence. */
  lemma {:induction false} SortedUnique(a: seq<string>, b: seq<string>)
    requires Sorted(a) && Sorted(b) && multiset(a) == multiset(b)
    ensures a == b
    decreases |a|
  {
    assert |a| == |multiset(a)| && |b| == |multiset(b)|;
    if a != [] {
      SameHead(a, b);
      TailOf(a);
      TailOf(b);
      SortedUnique(a[1..], b[1..]);
    }
  }

  lemma TailOf(s: seq<string>)
    requires s != [] && Sorted(s)
    ensures s == [s[0]] + s[1..] && Sorted(s[1..]) && multiset(s[1..]) == multiset(s) - multiset{s[0]}
  {
    hide Leq;
    assert s == [s[0]] + s[1..];
  }

  lemma SameHead(a: seq<string>, b: seq<string>)
    requires a != [] && b != [] && Sorted(a) && Sorted(b) && multiset(a) == multiset(b)
    ensures a[0] == b[0]
  {
    hide Leq;
    assert a[0] in multiset(b) && b[0] in multiset(a);
    HeadIsLeast(a, b[0]);
    HeadIsLeast(b, a[0]);
    LeqTotal(a[0], b[0]);
  }

  lemma HeadIsLeast(s: seq<string>, x: string)
    requires Sorted(s) && x in s
    ensures Leq(s[0], x)
  {
    LeqTotal(x, x);
  }

  method SameStringSet(left: seq<string>, right: seq<string>) returns (same: bool)
    ensures same <==> multiset(left) == multiset(right)
  {
    assert |left| == |multiset(left)| && |right| == |multiset(right)|;
    if |left| != |right| { return false; }
    var leftCopy := Sort(left);
    var rightCopy := Sort(right);
    if multiset(left) == multiset(right) { SortedUnique(leftCopy, rightCopy); }
    same := leftCopy == rightCopy;
  }

  // ----- the verdict -----

  /** Every answer names a question, and no question twice. */
  predicate WellFormed(answers: seq<Answer>) {
    && (forall i :: 0 <= i < |answers| ==> answers[i].questionId != "")
    && forall i, j :: 0 <= i < j < |answers| ==> answers[i].questionId != answers[j].questionId
  }

  /** What was selected for a question; nothing if it was not answered. */
  function Chosen(answers: seq<Answer>, id: string): seq<string> {
    if answers == [] then [] else if answers[0].questionId == id then answers[0].selected else Chosen(answers[1..], id)
  }

  predicate Answered(answers: seq<Answer>, id: string) {
    exists i :: 0 <= i < |answers| && answers[i].questionId == id
  }

  predicate IsOption(q: Question, id: string) {
    exists i :: 0 <= i < |q.options| && q.options[i].id == id
  }

  function CorrectIds(options: seq<QuizOption>): seq<string> {
    if options == [] then []
    else CorrectIds(options[..|options| - 1]) + if options[|options| - 1].correct then [options[|options| - 1].id] else []
  }

  /** Only offered options were selected. */
  predicate SelectionValid(q: Question, answers: seq<Answer>) {
    q.kind == "open" || forall s :: s in Chosen(answers, q.id) ==> IsOption(q, s)
  }

  predicate AnsweredRight(q: Question, answers: seq<Answer>) {
    multiset(Chosen(answers, q.id)) == multiset(CorrectIds(q.options))
  }

  function Closed(questions: seq<Question>): nat {
    if questions == [] then 0
    else Closed(questions[..|questions| - 1]) + if questions[|questions| - 1].kind == "open" then 0 else 1
  }

  function Correct(questions: seq<Question>, answers: seq<Answer>): nat {
    if questions == [] then 0
    else
      var q := questions[|questions| - 1];
      Correct(questions[..|questions| - 1], answers) + if q.kind != "open" && AnsweredRight(q, answers) then 1 else 0
  }

  predicate HasOpen(questions: seq<Question>) {
    exists i :: 0 <= i < |questions| && questions[i].kind == "open"
  }

  predicate IsKnown(questions: seq<Question>, id: string) {
    exists i :: 0 <= i < |questions| && questions[i].id == id
  }

  /** The first answer that breaks well-formedness lacks a question id (and is not a repetition). */
  ghost predicate FirstFaultIsMissing(answers: seq<Answer>) {
    exists i :: 0 <= i < |answers| && WellFormed(answers[..i]) && answers[i].questionId == ""
  }

  /** Faults in the order in which they are reported; otherwise the share of right closed answers. */
  ghost function Grade(questions: seq<Question>, answers: seq<Answer>): Result<Outcome, Fault> {
    if !WellFormed(answers) then Err(if FirstFaultIsMissing(answers) then NoQuestion else Repeated)
    else if exists i :: 0 <= i < |questions| && !SelectionValid(questions[i], answers) then Err(UnknownOption)
    else if exists i :: 0 <= i < |answers| && !IsKnown(questions, answers[i].questionId) then Err(UnknownQuestion)
    else Ok(Outcome(Percent(Correct(questions, answers), Closed(questions)), HasOpen(questions)))
  }

  function Percent(correct: nat, closed: nat): nat { if closed == 0 then 0 else correct * 100 / closed }

  lemma {:induction false} CorrectAtMostClosed(questions: seq<Question>, answers: seq<Answer>)
    ensures Correct(questions, answers) <= Closed(questions)
  {
    if questions != [] { CorrectAtMostClosed(questions[..|questions| - 1], answers); }
  }

  lemma DivisionReaches(x: nat, p: int, c: nat)
    requires c > 0
    ensures x / c >= p <==> x >= p * c
  {
    var q := x / c;
    assert x == q * c + x % c;
    if q >= p {
      assert q * c >= p * c;
    } else {
      assert (q + 1) * c <= p * c;
    }
  }

  /**
   * The score of an accepted submission is a percentage, and it reaches a passing score p
   * exactly when the exact share does: rounding down never fails a learner who reached p.
   */
  lemma ScoreReaches(questions: seq<Question>, answers: seq<Answer>, p: int)
    requires Grade(questions, answers).Ok?
    ensures 0 <= Grade(questions, answers).value.score <= 100
    ensures Closed(questions) > 0 ==>
      (Grade(questions, answers).value.score >= p <==> Correct(questions, answers) * 100 >= p * Closed(questions))
    ensures Closed(questions) == 0 ==> Grade(questions, answers).value.score == 0
    ensures Grade(questions, answers).value.score == 100 <==> Closed(questions) > 0 && Correct(questions, answers) == Closed(questions)
  {
    CorrectAtMostClosed(questions, answers);
    var closed, correct := Closed(questions), Correct(questions, answers);
    if closed > 0 {
      DivisionReaches(correct * 100, p, closed);
      DivisionReaches(correct * 100, 101, closed);
      DivisionReaches(correct * 100, 100, closed);
    }
  }

  // ----- the verdict, said of the questions and answers alone -----

  /** The positions at which p holds. */
  ghost function Where<T(!new)>(s: seq<T>, p: T -> bool): set<int> { set k | 0 <= k < |s| && p(s[k]) }

  lemma WhereMore<T(!new)>(s: seq<T>, p: T -> bool)
    requires s != []
    ensures |Where(s, p)| == |Where(s[..|s| - 1], p)| + if p(s[|s| - 1]) then 1 else 0
  {
    var n := |s| - 1;
    var rest := s[..n];
    assert forall k :: 0 <= k < n ==> rest[k] == s[k];
    assert Where(s, p) == Where(rest, p) + if p(s[n]) then {n} else {};
  }

  /** How many right options carry this id. */
  ghost function RightOptions(q: Question, id: string): nat {
    |Where(q.options, (o: QuizOption) => o.correct && o.id == id)|
  }

  /** The selection for the question has each id as often as the right options have it. */
  ghost predicate Right(q: Question, answers: seq<Answer>) {
    && (forall k, id :: 0 <= k < |answers| && answers[k].questionId == q.id ==> multiset(answers[k].selected)[id] == RightOptions(q, id))
    && ((forall k :: 0 <= k < |answers| ==> answers[k].questionId != q.id) ==> forall id :: RightOptions(q, id) == 0)
  }

  ghost function ClosedQuestions(questions: seq<Question>): set<int> { Where(questions, (q: Question) => q.kind != "open") }

  ghost function RightQuestions(questions: seq<Question>, answers: seq<Answer>): set<int> {
    Where(questions, (q: Question) => q.kind != "open" && Right(q, answers))
  }

  /** Nothing wrong up to the i-th answer: ids given, and no question answered twice. */
  ghost predicate FineBefore(answers: seq<Answer>, i: int) {
    && (forall k :: 0 <= k < i && k < |answers| ==> answers[k].questionId != "")
    && forall j, k :: 0 <= j < k < i && k < |answers| ==> answers[j].questionId != answers[k].questionId
  }

  /** Some answer to the closed question selects an option that it does not offer. */
  ghost predicate UnknownSelection(q: Question, answers: seq<Answer>) {
    q.kind != "open" && exists k, id :: (
      && 0 <= k < |answers| && answers[k].questionId == q.id && id in answers[k].selected
      && forall o :: 0 <= o < |q.options| ==> q.options[o].id != id)
  }

  ghost predicate SelectsUnknown(questions: seq<Question>, answers: seq<Answer>) {
    exists i :: 0 <= i < |questions| && UnknownSelection(questions[i], answers)
  }

  /** Some answer is to a question that is not in the quiz. */
  ghost predicate AnswersUnknown(questions: seq<Question>, answers: seq<Answer>) {
    exists k :: 0 <= k < |answers| && forall i :: 0 <= i < |questions| ==> questions[i].id != answers[k].questionId
  }

  lemma {:induction false} RightOptionsCounted(options: seq<QuizOption>, id: string)
    ensures multiset(CorrectIds(options))[id] == |Where(options, (o: QuizOption) => o.correct && o.id == id)|
  {
    hide Where;
    var p := (o: QuizOption) => o.correct && o.id == id;
    if options == [] {
      NoneThere(options, p);
    } else {
      RightOptionsCounted(options[..|options| - 1], id);
      WhereMore(options, p);
    }
  }

  lemma NoneThere<T(!new)>(s: seq<T>, p: T -> bool)
    requires s == []
    ensures |Where(s, p)| == 0
  {
    assert Where(s, p) == {};
  }

  lemma CorrectIdsExactly(q: Question)
    ensures forall id :: multiset(CorrectIds(q.options))[id] == RightOptions(q, id)
  {
    forall id ensures multiset(CorrectIds(q.options))[id] == RightOptions(q, id) { RightOptionsCounted(q.options, id); }
  }

  lemma RightExactly(q: Question, answers: seq<Answer>)
    requires WellFormed(answers)
    ensures AnsweredRight(q, answers) <==> Right(q, answers)
  {
    CorrectIdsExactly(q);
    hide RightOptions, CorrectIds;
    var right := CorrectIds(q.options);
    if k :| 0 <= k < |answers| && answers[k].questionId == q.id {
      ChosenIs(answers, k);
      assert multiset(answers[k].selected) == multiset(right) <==> forall id :: multiset(answers[k].selected)[id] == multiset(right)[id];
    } else {
      ChosenNone(answers, q.id);
      assert multiset(right) == multiset{} <==> forall id :: multiset(right)[id] == 0;
    }
  }

  lemma {:induction false} QuestionsCounted(questions: seq<Question>, answers: seq<Answer>)
    requires WellFormed(answers)
    ensures Closed(questions) == |ClosedQuestions(questions)|
    ensures Correct(questions, answers) == |RightQuestions(questions, answers)|
  {
    hide Where, Right, AnsweredRight, WellFormed;
    var closed := (q: Question) => q.kind != "open";
    var right := (q: Question) => q.kind != "open" && Right(q, answers);
    if questions == [] {
      NoneThere(questions, closed);
      NoneThere(questions, right);
    } else {
      QuestionsCounted(questions[..|questions| - 1], answers);
      RightExactly(questions[|questions| - 1], answers);
      WhereMore(questions, closed);
      WhereMore(questions, right);
    }
  }

  lemma SelectionExactly(q: Question, answers: seq<Answer>)
    requires WellFormed(answers)
    ensures UnknownSelection(q, answers) <==> !SelectionValid(q, answers)
  {
    if k :| 0 <= k < |answers| && answers[k].questionId == q.id {
      ChosenIs(answers, k);
      assert forall j :: 0 <= j < |answers| && answers[j].questionId == q.id ==> j == k;
    } else {
      ChosenNone(answers, q.id);
    }
  }

  lemma SelectionsExactly(questions: seq<Question>, answers: seq<Answer>)
    requires WellFormed(answers)
    ensures SelectsUnknown(questions, answers) <==> exists i :: 0 <= i < |questions| && !SelectionValid(questions[i], answers)
  {
    forall i | 0 <= i < |questions| ensures UnknownSelection(questions[i], answers) <==> !SelectionValid(questions[i], answers) {
      SelectionExactly(questions[i], answers);
    }
    hide UnknownSelection, SelectionValid, WellFormed;
  }

  lemma FineIsWellFormed(answers: seq<Answer>, i: nat)
    requires i <= |answers|
    ensures FineBefore(answers, i) <==> WellFormed(answers[..i])
  {
    assert forall k :: 0 <= k < i ==> answers[..i][k] == answers[k];
  }

  /** Which fault an attempt is refused with, in the order in which faults are looked for. */
  lemma FaultExactly(questions: seq<Question>, answers: seq<Answer>)
    ensures Grade(questions, answers) == Err(NoQuestion) <==>
      exists i :: 0 <= i < |answers| && FineBefore(answers, i) && answers[i].questionId == ""
    ensures Grade(questions, answers) in {Err(NoQuestion), Err(Repeated)} <==> !FineBefore(answers, |answers|)
    ensures Grade(questions, answers) == Err(UnknownOption) <==> FineBefore(answers, |answers|) && SelectsUnknown(questions, answers)
    ensures Grade(questions, answers) == Err(UnknownQuestion) <==>
      FineBefore(answers, |answers|) && !SelectsUnknown(questions, answers) && AnswersUnknown(questions, answers)
    ensures Grade(questions, answers).Ok? <==>
      FineBefore(answers, |answers|) && !SelectsUnknown(questions, answers) && !AnswersUnknown(questions, answers)
  {
    forall i: nat | i <= |answers| ensures FineBefore(answers, i) <==> WellFormed(answers[..i]) { FineIsWellFormed(answers, i); }
    assert answers[..|answers|] == answers;
    hide FineBefore, SelectsUnknown, SelectionValid;
    if WellFormed(answers) { SelectionsExactly(questions, answers); UnknownExactly(questions, answers); }
    hide WellFormed, AnswersUnknown;
  }

  lemma UnknownExactly(questions: seq<Question>, answers: seq<Answer>)
    ensures AnswersUnknown(questions, answers) <==> exists i :: 0 <= i < |answers| && !IsKnown(questions, answers[i].questionId)
  {
    if AnswersUnknown(questions, answers) {
      var k :| 0 <= k < |answers| && forall i :: 0 <= i < |questions| ==> questions[i].id != answers[k].questionId;
      assert !IsKnown(questions, answers[k].questionId);
    }
  }

  /** The score of an accepted attempt is the share of the closed questions answered right, rounded down; open ones await review. */
  lemma ScoreExactly(questions: seq<Question>, answers: seq<Answer>)
    requires Grade(questions, answers).Ok?
    ensures var closed, right := |ClosedQuestions(questions)|, |RightQuestions(questions, answers)|;
      Grade(questions, answers).value.score == if closed == 0 then 0 else right * 100 / closed
    ensures Grade(questions, answers).value.pendingReview <==> exists i :: 0 <= i < |questions| && questions[i].kind == "open"
  {
    QuestionsCounted(questions, answers);
  }

  // ----- order independence -----

  lemma {:induction false} ChosenIs(answers: seq<Answer>, i: nat)
    requires WellFormed(answers) && i < |answers|
    ensures Chosen(answers, answers[i].questionId) == answers[i].selected
  {
    if i > 0 { ChosenIs(answers[1..], i - 1); }
  }

  lemma {:induction false} ChosenNone(answers: seq<Answer>, id: string)
    requires !Answered(answers, id)
    ensures Chosen(answers, id) == []
  {
    if answers != [] {
      assert forall i :: 0 <= i < |answers[1..]| ==> answers[1..][i] == answers[i + 1];
      ChosenNone(answers[1..], id);
    }
  }

  /** The verdict depends only on which questions were answered and on the multisets selected. */
  lemma {:induction false} CorrectSame(questions: seq<Question>, a: seq<Answer>, b: seq<Answer>)
    requires forall id :: multiset(Chosen(a, id)) == multiset(Chosen(b, id))
    ensures Correct(questions, a) == Correct(questions, b)
    ensures forall i :: 0 <= i < |questions| ==> SelectionValid(questions[i], a) == SelectionValid(questions[i], b)
  {
    if questions != [] {
      CorrectSame(questions[..|questions| - 1], a, b);
      var last := questions[|questions| - 1];
      assert forall s :: s in Chosen(a, last.id) <==> s in multiset(Chosen(a, last.id));
      assert forall s :: s in Chosen(b, last.id) <==> s in multiset(Chosen(b, last.id));
      forall i | 0 <= i < |questions| ensures SelectionValid(questions[i], a) == SelectionValid(questions[i], b) {
        if i < |questions| - 1 { assert questions[..|questions| - 1][i] == questions[i]; }
      }
    }
  }

  lemma GradeSame(questions: seq<Question>, a: seq<Answer>, b: seq<Answer>)
    requires WellFormed(a) && WellFormed(b)
    requires forall id :: Answered(a, id) == Answered(b, id)
    requires forall id :: multiset(Chosen(a, id)) == multiset(Chosen(b, id))
    ensures Grade(questions, a) == Grade(questions, b)
  {
    CorrectSame(questions, a, b);
    if exists i :: 0 <= i < |a| && !IsKnown(questions, a[i].questionId) { UnknownSame(questions, a, b); }
    if exists i :: 0 <= i < |b| && !IsKnown(questions, b[i].questionId) { UnknownSame(questions, b, a); }
  }

  lemma UnknownSame(questions: seq<Question>, a: seq<Answer>, b: seq<Answer>)
    requires forall id :: Answered(a, id) == Answered(b, id)
    requires exists i :: 0 <= i < |a| && !IsKnown(questions, a[i].questionId)
    ensures exists i :: 0 <= i < |b| && !IsKnown(questions, b[i].questionId)
  {
    var i :| 0 <= i < |a| && !IsKnown(questions, a[i].questionId);
    assert Answered(a, a[i].questionId);
    assert Answered(b, a[i].questionId);
  }

  /**
   * Submitting the same answers in another order gives the same verdict; only which of the
   * two malformedness faults is reported may depend on the order.
   */
  lemma AnswerOrderIrrelevant(questions: seq<Question>, a: seq<Answer>, b: seq<Answer>)
    requires multiset(a) == multiset(b)
    ensures WellFormed(a) == WellFormed(b)
    ensures WellFormed(a) ==> Grade(questions, a) == Grade(questions, b)
    ensures !WellFormed(a) ==> Grade(questions, a) in {Err(NoQuestion), Err(Repeated)} && Grade(questions, b) in {Err(NoQuestion), Err(Repeated)}
  {
    if WellFormed(a) { WellFormedPermuted(a, b); PermutedSame(questions, a, b); }
    if WellFormed(b) { WellFormedPermuted(b, a); }
  }

  lemma WellFormedPermuted(a: seq<Answer>, b: seq<Answer>)
    requires multiset(a) == multiset(b) && WellFormed(a)
    ensures WellFormed(b)
  {
    forall i | 0 <= i < |b| ensures b[i].questionId != "" {
      assert b[i] in multiset(a);
    }
    forall i, j | 0 <= i < j < |b| ensures b[i].questionId != b[j].questionId {
      assert b[i] in multiset(a) && b[j] in multiset(a);
      var k :| 0 <= k < |a| && a[k] == b[i];
      var l :| 0 <= l < |a| && a[l] == b[j];
      if k == l {
        TwiceIn(b, i, j);
        OnceIn(a, k);
      }
    }
  }

  lemma TwiceIn(s: seq<Answer>, i: nat, j: nat)
    requires i < j < |s| && s[i] == s[j]
    ensures multiset(s)[s[i]] >= 2
  {
    assert s == s[..i] + [s[i]] + s[i + 1..j] + [s[j]] + s[j + 1..];
  }

  lemma OnceIn(s: seq<Answer>, i: nat)
    requires i < |s| && WellFormed(s)
    ensures multiset(s)[s[i]] == 1
  {
    assert s == s[..i] + [s[i]] + s[i + 1..];
    assert s[i] !in s[..i] && s[i] !in s[i + 1..];
  }

  lemma PermutedSame(questions: seq<Question>, a: seq<Answer>, b: seq<Answer>)
    requires multiset(a) == multiset(b) && WellFormed(a) && WellFormed(b)
    ensures Grade(questions, a) == Grade(questions, b)
  {
    forall k | 0 <= k < |b| ensures b[k] in a { assert b[k] in multiset(b); }
    forall id ensures Answered(a, id) == Answered(b, id) && multiset(Chosen(a, id)) == multiset(Chosen(b, id)) {
      if Answered(a, id) {
        var i :| 0 <= i < |a| && a[i].questionId == id;
        assert a[i] in multiset(b);
        var j :| 0 <= j < |b| && b[j] == a[i];
        ChosenIs(a, i);
        ChosenIs(b, j);
      } else {
        ChosenNone(a, id);
        ChosenNone(b, id);
      }
    }
    GradeSame(questions, a, b);
  }

  /** Neither does the order in which an answer lists its selected options matter. */
  lemma SelectionOrderIrrelevant(questions: seq<Question>, a: seq<Answer>, i: nat, selected: seq<string>)
    requires i < |a| && multiset(selected) == multiset(a[i].selected)
    ensures Grade(questions, a[i := a[i].(selected := selected)]) == Grade(questions, a)
  {
    var b := a[i := a[i].(selected := selected)];
    SameIds(a, b);
    if WellFormed(a) {
      forall id ensures Answered(a, id) == Answered(b, id) && multiset(Chosen(a, id)) == multiset(Chosen(b, id)) {
        if k :| 0 <= k < |a| && a[k].questionId == id {
          assert b[k].questionId == id;
          ChosenIs(a, k);
          ChosenIs(b, k);
        } else {
          assert forall k :: 0 <= k < |b| ==> b[k].questionId == a[k].questionId;
          ChosenNone(a, id);
          ChosenNone(b, id);
        }
      }
      GradeSame(questions, a, b);
    }
  }

  /** Well-formedness, and the fault reported for its lack, depend on the question ids alone. */
  lemma SameIds(a: seq<Answer>, b: seq<Answer>)
    requires |a| == |b| && forall k :: 0 <= k < |a| ==> b[k].questionId == a[k].questionId
    ensures WellFormed(a) == WellFormed(b) && FirstFaultIsMissing(a) == FirstFaultIsMissing(b)
  {
    assert forall k :: 0 <= k < |a| ==> WellFormed(a[..k]) == WellFormed(b[..k]);
    hide WellFormed;
  }

  // ----- the loops -----

  /** The first loop of evaluateEnrollmentQuiz. */
  method Collect(answers: seq<Answer>) returns (r: Result<map<string, Answer>, Fault>)
    ensures r.Ok? <==> WellFormed(answers)
    ensures r.Ok? ==> (forall id :: id in r.value <==> Answered(answers, id))
    ensures r.Ok? ==> forall id :: id in r.value ==> r.value[id].selected == Chosen(answers, id)
    ensures r.Err? ==> r.error == if FirstFaultIsMissing(answers) then NoQuestion else Repeated
  {
    var provided: map<string, Answer> := map[];
    for i := 0 to |answers|
      invariant WellFormed(answers[..i])
      invariant forall k :: 0 <= k < i ==> answers[k].questionId in provided && provided[answers[k].questionId] == answers[k]
      invariant forall id :: id in provided ==> exists k :: 0 <= k < i && answers[k].questionId == id
    {
      var answer := answers[i];
      if answer.questionId == "" {
        assert FirstFaultIsMissing(answers) && !WellFormed(answers);
        return Err(NoQuestion);
      }
      if answer.questionId in provided {
        ghost var k :| 0 <= k < i && answers[k].questionId == answer.questionId;
        RepetitionFirst(answers, i, k);
        return Err(Repeated);
      }
      provided := provided[answer.questionId := answer];
    }
    assert answers[..|answers|] == answers;
    forall id | id in provided ensures provided[id].selected == Chosen(answers, id) {
      var k :| 0 <= k < |answers| && answers[k].questionId == id;
      ChosenIs(answers, k);
    }
    r := Ok(provided);
  }

  lemma RepetitionFirst(answers: seq<Answer>, i: nat, k: nat)
    requires k < i < |answers| && WellFormed(answers[..i]) && answers[i].questionId == answers[k].questionId
    ensures !WellFormed(answers) && !FirstFaultIsMissing(answers)
  {
    assert answers[..i][k] == answers[k];
    forall j | 0 <= j < |answers| && WellFormed(answers[..j]) ensures answers[j].questionId != "" {
      if j < i {
        assert answers[..i][j] == answers[j];
      }
    }
  }

  /** The two inner loops over one closed question: its right options, and the check of the selection. */
  method CheckQuestion(q: Question, selected: seq<string>) returns (r: Result<bool, Fault>)
    ensures r.Err? <==> exists s :: s in selected && !IsOption(q, s)
    ensures r.Err? ==> r.error == UnknownOption
    ensures r.Ok? ==> r.value == (multiset(selected) == multiset(CorrectIds(q.options)))
    ensures r.Ok? ==> (r.value <==> forall id :: multiset(selected)[id] == RightOptions(q, id))
  {
    var expected: seq<string> := [];
    var validOptions: set<string> := {};
    for i := 0 to |q.options|
      invariant expected == CorrectIds(q.options[..i])
      invariant forall id :: id in validOptions <==> exists k :: 0 <= k < i && q.options[k].id == id
    {
      assert q.options[..i + 1][..i] == q.options[..i];
      validOptions := validOptions + {q.options[i].id};
      if q.options[i].correct { expected := expected + [q.options[i].id]; }
    }
    assert q.options[..|q.options|] == q.options;
    for i := 0 to |selected|
      invariant forall k :: 0 <= k < i ==> IsOption(q, selected[k])
    {
      if selected[i] !in validOptions {
        assert selected[i] in selected;
        return Err(UnknownOption);
      }
    }
    var same := SameStringSet(expected, selected);
    CorrectIdsExactly(q);
    r := Ok(same);
  }

  datatype Tally = Tally(closed: nat, correct: nat, pendingReview: bool, known: set<string>)

  /** What the loop over the questions has established after some of them. */
  ghost predicate Tallied(t: Tally, questions: seq<Question>, answers: seq<Answer>) {
    && t.closed == Closed(questions) && t.correct == Correct(questions, answers) && t.pendingReview == HasOpen(questions)
    && (forall id :: id in t.known <==> IsKnown(questions, id))
    && forall i :: 0 <= i < |questions| ==> SelectionValid(questions[i], answers)
  }

  function Counted(t: Tally, q: Question, right: bool): Tally {
    if q.kind == "open" then Tally(t.closed, t.correct, true, t.known + {q.id})
    else Tally(t.closed + 1, if right then t.correct + 1 else t.correct, t.pendingReview, t.known + {q.id})
  }

  lemma TallyStep(t: Tally, questions: seq<Question>, i: nat, answers: seq<Answer>)
    requires i < |questions| && Tallied(t, questions[..i], answers) && SelectionValid(questions[i], answers)
    ensures Tallied(Counted(t, questions[i], AnsweredRight(questions[i], answers)), questions[..i + 1], answers)
  {
    hide AnsweredRight, SelectionValid, IsKnown, HasOpen;
    assert questions[..i + 1][..i] == questions[..i];
    OneMore(questions, i);
    var next := questions[..i + 1];
    forall k | 0 <= k < |next| ensures SelectionValid(next[k], answers) {
      if k < i { assert next[k] == questions[..i][k]; }
    }
  }

  /** The loop over the questions. */
  method Walk(questions: seq<Question>, provided: map<string, Answer>, ghost answers: seq<Answer>) returns (r: Result<Tally, Fault>)
    requires forall id :: id in provided <==> Answered(answers, id)
    requires forall id :: id in provided ==> provided[id].selected == Chosen(answers, id)
    ensures r.Err? <==> exists i :: 0 <= i < |questions| && !SelectionValid(questions[i], answers)
    ensures r.Err? ==> r.error == UnknownOption
    ensures r.Ok? ==> Tallied(r.value, questions, answers)
  {
    hide IsOption, Answered, Chosen;
    var t := Tally(0, 0, false, {});
    assert Tallied(t, questions[..0], answers);
    for i := 0 to |questions|
      invariant Tallied(t, questions[..i], answers)
    {
      hide Tallied;
      var q := questions[i];
      if q.kind == "open" {
        TallyStep(t, questions, i, answers);
        t := t.(known := t.known + {q.id}, pendingReview := true);
      } else {
        if q.id !in provided { ChosenNone(answers, q.id); }
        var selected := if q.id in provided then provided[q.id].selected else [];
        var checked := CheckQuestion(q, selected);
        if checked.Err? {
          assert !SelectionValid(questions[i], answers);
          return Err(UnknownOption);
        }
        TallyStep(t, questions, i, answers);
        t := t.(known := t.known + {q.id}, closed := t.closed + 1);
        if checked.value { t := t.(correct := t.correct + 1); }
      }
    }
    assert questions[..|questions|] == questions;
    r := Ok(t);
  }

  /** evaluateEnrollmentQuiz; `raw` is None when the stored questions cannot be read. */
  method Evaluate(raw: Option<seq<Question>>, answers: seq<Answer>) returns (r: Result<Outcome, Fault>)
    ensures raw.None? ==> r == Err(Unreadable)
    ensures raw.Some? ==> r == Grade(raw.value, answers)
    ensures raw.Some? ==> (r.Ok? <==>
      FineBefore(answers, |answers|) && !SelectsUnknown(raw.value, answers) && !AnswersUnknown(raw.value, answers))
    ensures raw.Some? && r.Ok? ==>
      var closed, right := |ClosedQuestions(raw.value)|, |RightQuestions(raw.value, answers)|;
      r.value.score == if closed == 0 then 0 else right * 100 / closed
  {
    hide FineBefore, SelectsUnknown, AnswersUnknown, ClosedQuestions, RightQuestions;
    if raw.Some? {
      FaultExactly(raw.value, answers);
      if Grade(raw.value, answers).Ok? { ScoreExactly(raw.value, answers); }
    }
    hide SelectionValid, IsKnown, Chosen, Closed, Correct, HasOpen, FirstFaultIsMissing, WellFormed;
    if raw.None? { return Err(Unreadable); }
    var questions := raw.value;
    var collected := Collect(answers);
    if collected.Err? { return Err(collected.error); }
    var provided := collected.value;
    var walked := Walk(questions, provided, answers);
    if walked.Err? { return Err(walked.error); }
    var t := walked.value;
    if id :| id in provided && id !in t.known {
      return Err(UnknownQuestion);
    }
    forall i | 0 <= i < |answers| ensures IsKnown(questions, answers[i].questionId) {
      assert Answered(answers, answers[i].questionId);
    }
    r := Ok(Outcome(if t.closed == 0 then 0 else t.correct * 100 / t.closed, t.pendingReview));
  }

  lemma OneMore(questions: seq<Question>, i: nat)
    requires i < |questions|
    ensures HasOpen(questions[..i + 1]) <==> HasOpen(questions[..i]) || questions[i].kind == "open"
    ensures forall id :: IsKnown(questions[..i + 1], id) <==> IsKnown(questions[..i], id) || questions[i].id == id
  {
    var a, b := questions[..i], questions[..i + 1];
    assert b[i] == questions[i] && forall k :: 0 <= k < i ==> a[k] == b[k];
    forall id ensures IsKnown(b, id) <==> IsKnown(a, id) || questions[i].id == id {
      if IsKnown(a, id) { var k :| 0 <= k < i && a[k].id == id; assert b[k].id == id; }
    }
    if HasOpen(a) { var k :| 0 <= k < i && a[k].kind == "open"; assert b[k].kind == "open"; }
  }

  // ----- attempt numbers -----

  type QuizId = nat

  function Count(rows: seq<QuizId>, quiz: QuizId): nat {
    if rows == [] then 0 else (if rows[0] == quiz then 1 else 0) + Count(rows[1..], quiz)
  }

  lemma {:induction false} CountExactly(rows: seq<QuizId>, quiz: QuizId)
    ensures Count(rows, quiz) == multiset(rows)[quiz]
  {
    if rows != [] {
      assert rows == [rows[0]] + rows[1..];
      CountExactly(rows[1..], quiz);
    }
  }

  /** Rows are listed newest first; an attempt's number counts it and the older ones of its quiz. */
  function NumberOf(rows: seq<QuizId>, i: nat): nat
    requires i < |rows|
  {
    Count(rows[i..], rows[i])
  }

  function CountSoFar(numbers: map<QuizId, nat>, quiz: QuizId): nat { if quiz in numbers then numbers[quiz] else 0 }

  lemma CountStep(rows: seq<QuizId>, i: nat)
    requires i < |rows|
    ensures forall q :: Count(rows[i..], q) == (if rows[i] == q then 1 else 0) + Count(rows[i + 1..], q)
  {
    assert rows[i..][1..] == rows[i + 1..];
  }

  /** getEnrollmentProgressSnapshot: filled from the end, each number at its row's index. */
  method NumberInPlace(rows: seq<QuizId>) returns (attempts: array<nat>)
    ensures fresh(attempts) && attempts.Length == |rows|
    ensures forall i :: 0 <= i < |rows| ==> attempts[i] == NumberOf(rows, i)
  {
    attempts := new nat[|rows|];
    var numbers: map<QuizId, nat> := map[];
    var index := |rows|;
    assert rows[index..] == [];
    while index > 0
      invariant 0 <= index <= |rows|
      invariant forall q :: CountSoFar(numbers, q) == Count(rows[index..], q)
      invariant forall i :: index <= i < |rows| ==> attempts[i] == NumberOf(rows, i)
    {
      index := index - 1;
      CountStep(rows, index);
      numbers := numbers[rows[index] := CountSoFar(numbers, rows[index]) + 1];
      attempts[index] := numbers[rows[index]];
    }
  }

  /** loadEnrollmentAggregate: appended oldest first. */
  method NumberByAppending(rows: seq<QuizId>) returns (attempts: seq<(QuizId, nat)>)
    ensures |attempts| == |rows|
    ensures forall i :: 0 <= i < |rows| ==> attempts[|rows| - 1 - i] == (rows[i], NumberOf(rows, i))
  {
    attempts := [];
    var numbers: map<QuizId, nat> := map[];
    var index := |rows|;
    assert rows[index..] == [];
    while index > 0
      invariant 0 <= index <= |rows| && |attempts| == |rows| - index
      invariant forall q :: CountSoFar(numbers, q) == Count(rows[index..], q)
      invariant forall i :: index <= i < |rows| ==> attempts[|rows| - 1 - i] == (rows[i], NumberOf(rows, i))
    {
      index := index - 1;
      CountStep(rows, index);
      numbers := numbers[rows[index] := CountSoFar(numbers, rows[index]) + 1];
      attempts := attempts + [(rows[index], numbers[rows[index]])];
    }
  }

  lemma {:induction false} CountShrinks(rows: seq<QuizId>, i: nat, j: nat, quiz: QuizId)
    requires i <= j <= |rows|
    ensures Count(rows[j..], quiz) <= Count(rows[i..], quiz)
    ensures i < j && rows[i] == quiz ==> Count(rows[j..], quiz) < Count(rows[i..], quiz)
    decreases j - i
  {
    if i < j {
      CountStep(rows, i);
      CountShrinks(rows, i + 1, j, quiz);
    }
  }

  lemma {:induction false} NumberTaken(rows: seq<QuizId>, start: nat, quiz: QuizId, n: nat) returns (i: nat)
    requires start <= |rows| && 1 <= n <= Count(rows[start..], quiz)
    ensures start <= i < |rows| && rows[i] == quiz && NumberOf(rows, i) == n
    decreases |rows| - start
  {
    CountStep(rows, start);
    if rows[start] == quiz && n == Count(rows[start..], quiz) {
      i := start;
    } else {
      i := NumberTaken(rows, start + 1, quiz, n);
    }
  }

  ghost predicate HasNumber(rows: seq<QuizId>, quiz: QuizId, n: nat) {
    exists i :: 0 <= i < |rows| && rows[i] == quiz && NumberOf(rows, i) == n
  }

  /** The attempts of one quiz carry the numbers 1..k, each once, from oldest to newest. */
  lemma NumbersAreOneToK(rows: seq<QuizId>, quiz: QuizId)
    ensures Count(rows, quiz) == multiset(rows)[quiz]
    ensures forall i :: 0 <= i < |rows| && rows[i] == quiz ==> 1 <= NumberOf(rows, i) <= Count(rows, quiz)
    ensures forall i, j :: 0 <= i < j < |rows| && rows[i] == quiz && rows[j] == quiz ==> NumberOf(rows, j) < NumberOf(rows, i)
    ensures forall n :: 1 <= n <= Count(rows, quiz) ==> HasNumber(rows, quiz, n)
  {
    assert rows[0..] == rows;
    CountExactly(rows, quiz);
    forall i | 0 <= i < |rows| && rows[i] == quiz ensures 1 <= NumberOf(rows, i) <= Count(rows, quiz) {
      CountStep(rows, i);
      CountShrinks(rows, 0, i, quiz);
    }
    forall i, j | 0 <= i < j < |rows| && rows[i] == quiz && rows[j] == quiz ensures NumberOf(rows, j) < NumberOf(rows, i) {
      CountShrinks(rows, i, j, quiz);
    }
    forall n | 1 <= n <= Count(rows, quiz) ensures HasNumber(rows, quiz, n) {
      var i := NumberTaken(rows, 0, quiz, n);
    }
  }
}
