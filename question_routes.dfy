/**
 * The logic embedded in the question routes: the round-robin selection of
 * `/additional-for-matching` with its improvement estimate, and the
 * validation, upsert and progress figures of `/:id/answer`.
 */
module QuestionRoutes {
  import opened Wrappers
  import opened JsValues
  import opened Seqs
  import opened Catalog
  import Sel = QuestionSelection

  // ---------------------------------------------------------------- round-robin selection

  /** `categorizedQuestions` before the loop: each category's questions, in fetch order. */
  function Queues(unanswered: seq<Question>): map<Category, seq<Question>>
  {
    map c | c in Sel.CategoriesOf(unanswered) :: Sel.InCategory(unanswered, c)
  }

  /**
   * The `while` loop over `categoryIndex`: while fewer than `limit` are
   * selected and fewer than three rounds are done, shift the head of the
   * next category's queue and keep it unless its id is already selected.
   */
  function RoundRobin(
    queues: map<Category, seq<Question>>, categories: seq<Category>,
    selected: seq<Question>, categoryIndex: nat, limit: nat): seq<Question>
    requires forall c :: c in categories ==> c in queues
    decreases 3 * |categories| - categoryIndex
  {
    if |selected| >= limit || categoryIndex >= 3 * |categories| then selected
    else
      var category := categories[categoryIndex % |categories|];
      var queue := queues[category];
      if |queue| > 0 then
        var next := if !Sel.HasId(selected, queue[0].id) then selected + [queue[0]] else selected;
        RoundRobin(queues[category := queue[1..]], categories, next, categoryIndex + 1, limit)
      else RoundRobin(queues, categories, selected, categoryIndex + 1, limit)
  }

  /** The questions `/additional-for-matching` selects from the fetched unanswered questions. */
  function AdditionalQuestions(unanswered: seq<Question>, limit: nat): seq<Question>
  {
    var categories := Sel.CategoriesOf(unanswered);
    FillFromRemaining(RoundRobin(Queues(unanswered), categories, [], 0, limit), unanswered, limit)
  }

  /** The questions of all queues, category by category. */
  function QueueTotal(queues: map<Category, seq<Question>>, categories: seq<Category>): nat
    requires forall c :: c in categories ==> c in queues
  {
    if categories == [] then 0 else |queues[categories[0]]| + QueueTotal(queues, categories[1..])
  }

  /** Shifting one question from one queue lowers the total by one. */
  lemma {:induction false} QueueTotalShift(
    queues: map<Category, seq<Question>>, categories: seq<Category>, c: Category)
    requires forall d :: d in categories ==> d in queues
    requires c in queues && |queues[c]| > 0
    requires forall i, j :: 0 <= i < j < |categories| ==> categories[i] != categories[j]
    ensures QueueTotal(queues[c := queues[c][1..]], categories) ==
      QueueTotal(queues, categories) - (if c in categories then 1 else 0)
  {
    if categories != [] {
      var rest := categories[1..];
      assert forall i, j :: 0 <= i < j < |rest| ==> rest[i] != rest[j] by {
        forall i, j | 0 <= i < j < |rest| ensures rest[i] != rest[j] {
          assert rest[i] == categories[i + 1] && rest[j] == categories[j + 1];
        }
      }
      assert c == categories[0] ==> c !in rest;
      QueueTotalShift(queues, rest, c);
    }
  }

  /**
   * The round-robin loop of `/additional-for-matching`, shifting from the
   * queues in place. It runs at most three rounds over the categories and
   * each iteration shifts at most one question and keeps at most one.
   */
  method RoundRobinLoop(
    categorizedQuestions: map<Category, seq<Question>>, categories: seq<Category>, limit: nat)
    returns (selectedQuestions: seq<Question>, queues: map<Category, seq<Question>>, categoryIndex: nat)
    requires forall c :: c in categories ==> c in categorizedQuestions
    requires forall i, j :: 0 <= i < j < |categories| ==> categories[i] != categories[j]
    ensures selectedQuestions == RoundRobin(categorizedQuestions, categories, [], 0, limit)
    ensures categoryIndex <= 3 * |categories|
    ensures |selectedQuestions| <= categoryIndex
    ensures forall c :: c in categories ==> c in queues
    ensures QueueTotal(categorizedQuestions, categories) - QueueTotal(queues, categories) <= categoryIndex
  {
    selectedQuestions := [];
    queues := categorizedQuestions;
    categoryIndex := 0;
    while |selectedQuestions| < limit && categoryIndex < |categories| * 3
      invariant categoryIndex <= 3 * |categories|
      invariant |selectedQuestions| <= categoryIndex
      invariant forall c :: c in categories ==> c in queues
      invariant QueueTotal(categorizedQuestions, categories) - QueueTotal(queues, categories) <= categoryIndex
      invariant RoundRobin(queues, categories, selectedQuestions, categoryIndex, limit) ==
        RoundRobin(categorizedQuestions, categories, [], 0, limit)
      decreases 3 * |categories| - categoryIndex
    {
      var category := categories[categoryIndex % |categories|];
      var questionsInCategory := queues[category];
      if |questionsInCategory| > 0 {
        var question := questionsInCategory[0];
        QueueTotalShift(queues, categories, category);
        queues := queues[category := questionsInCategory[1..]];
        if !Sel.HasId(selectedQuestions, question.id) {
          selectedQuestions := selectedQuestions + [question];
        }
      }
      categoryIndex := categoryIndex + 1;
    }
  }

  /** The grouping loop builds exactly the initial queues. */
  lemma GroupedQueues(grouped: map<Category, seq<Question>>, unanswered: seq<Question>)
    requires forall c :: c in grouped <==> c in Sel.CategoriesOf(unanswered)
    requires forall c :: c in grouped ==> grouped[c] == Sel.InCategory(unanswered, c)
    ensures grouped == Queues(unanswered)
  {
  }

  /** The selection of `/additional-for-matching`: group, round-robin, then fill from the rest. */
  method SelectAdditionalQuestions(unansweredQuestions: seq<Question>, limit: nat)
    returns (selectedQuestions: seq<Question>)
    ensures selectedQuestions == AdditionalQuestions(unansweredQuestions, limit)
  {
    var categorizedQuestions, categories := Sel.GroupInOrder(unansweredQuestions);
    GroupedQueues(categorizedQuestions, unansweredQuestions);
    var shifted, iterations;
    selectedQuestions, shifted, iterations := RoundRobinLoop(categorizedQuestions, categories, limit);
    if |selectedQuestions| < limit {
      var remaining := Take(Sel.Unselected(unansweredQuestions, selectedQuestions), limit - |selectedQuestions|);
      selectedQuestions := selectedQuestions + remaining;
    }
  }

  /** `q` waits in the queue of one of the categories. */
  ghost predicate Queued(queues: map<Category, seq<Question>>, categories: seq<Category>, q: Question)
    requires forall c :: c in categories ==> c in queues
  {
    exists c :: c in categories && q in queues[c]
  }

  /**
   * The round-robin extends the selection, stops at `limit`, and each
   * question it keeps was queued and has an id not kept before it.
   */
  lemma {:induction false} RoundRobinPicks(
    queues: map<Category, seq<Question>>, categories: seq<Category>,
    selected: seq<Question>, categoryIndex: nat, limit: nat)
    requires forall c :: c in categories ==> c in queues
    ensures var r := RoundRobin(queues, categories, selected, categoryIndex, limit);
      && |selected| <= |r| && r[..|selected|] == selected
      && (|selected| < limit ==> |r| <= limit)
      && forall i :: |selected| <= i < |r| ==> !Sel.HasId(r[..i], r[i].id) && Queued(queues, categories, r[i])
    decreases 3 * |categories| - categoryIndex
  {
    if |selected| < limit && categoryIndex < 3 * |categories| {
      var category := categories[categoryIndex % |categories|];
      var queue := queues[category];
      var r := RoundRobin(queues, categories, selected, categoryIndex, limit);
      if |queue| > 0 {
        var shifted := queues[category := queue[1..]];
        var next := if !Sel.HasId(selected, queue[0].id) then selected + [queue[0]] else selected;
        RoundRobinPicks(shifted, categories, next, categoryIndex + 1, limit);
        assert r[..|selected|] == r[..|next|][..|selected|];
        forall i | |selected| <= i < |r| ensures !Sel.HasId(r[..i], r[i].id) && Queued(queues, categories, r[i]) {
          if i < |next| {
            assert r[i] == r[..|next|][i] == queue[0];
            assert r[..i] == selected;
            assert queue[0] in queues[category];
          } else {
            assert Queued(shifted, categories, r[i]);
            var c :| c in categories && r[i] in shifted[c];
            if c == category {
              assert r[i] in queue;
            }
          }
        }
      } else {
        RoundRobinPicks(queues, categories, selected, categoryIndex + 1, limit);
      }
    }
  }

  /** The round-robin keeps at most `limit` fetched questions and never repeats an id. */
  lemma RoundRobinDrawn(unanswered: seq<Question>, limit: nat)
    ensures var rr := RoundRobin(Queues(unanswered), Sel.CategoriesOf(unanswered), [], 0, limit);
      && |rr| <= limit
      && Sel.DrawnFrom(rr, unanswered)
  {
    var queues := Queues(unanswered);
    var categories := Sel.CategoriesOf(unanswered);
    var rr := RoundRobin(queues, categories, [], 0, limit);
    RoundRobinPicks(queues, categories, [], 0, limit);
    Sel.ExtendDistinct([], rr);
    forall q | q in rr ensures q in unanswered {
      var k :| 0 <= k < |rr| && rr[k] == q;
      assert Queued(queues, categories, q);
      var c :| c in categories && q in queues[c];
      FilterMembers(unanswered, (x: Question) => x.category == c);
    }
  }

  /** The fill after the round-robin: the first unselected fetched questions, in fetch order. */
  function FillFromRemaining(selected: seq<Question>, unanswered: seq<Question>, limit: nat): seq<Question>
  {
    if |selected| < limit then selected + Take(Sel.Unselected(unanswered, selected), limit - |selected|) else selected
  }

  /** The fill adds only fetched questions whose ids are not selected. */
  lemma FillFromRemainingDrawn(selected: seq<Question>, unanswered: seq<Question>, limit: nat)
    requires forall q :: q in selected ==> q in unanswered
    ensures var f := FillFromRemaining(selected, unanswered, limit);
      && (|selected| <= limit ==> |f| <= limit)
      && (forall q :: q in f ==> q in unanswered)
      && (DistinctBy(unanswered, Sel.IdOf) && DistinctBy(selected, Sel.IdOf) ==> DistinctBy(f, Sel.IdOf))
  {
    if |selected| < limit {
      var unselected := Sel.Unselected(unanswered, selected);
      var remaining := Take(unselected, limit - |selected|);
      FilterMembers(unanswered, (q: Question) => !Sel.HasId(selected, q.id));
      assert forall q :: q in remaining ==> q in unselected;
      if DistinctBy(unanswered, Sel.IdOf) && DistinctBy(selected, Sel.IdOf) {
        FilterIsSubsequence(unanswered, (q: Question) => !Sel.HasId(selected, q.id));
        TakeOfSubsequence(unselected, unanswered, limit - |selected|);
        SubsequenceDistinct(remaining, unanswered, Sel.IdOf);
        Sel.AppendFreshDistinct(selected, remaining);
      }
    }
  }

  /**
   * The selection of `/additional-for-matching` returns at most `limit`
   * fetched questions, with distinct ids when the fetched ids are distinct.
   */
  lemma AdditionalQuestionsDrawn(unanswered: seq<Question>, limit: nat)
    ensures var r := AdditionalQuestions(unanswered, limit);
      && |r| <= limit
      && (forall q :: q in r ==> q in unanswered)
      && (DistinctBy(unanswered, Sel.IdOf) ==> DistinctBy(r, Sel.IdOf))
  {
    var rr := RoundRobin(Queues(unanswered), Sel.CategoriesOf(unanswered), [], 0, limit);
    RoundRobinDrawn(unanswered, limit);
    FillFromRemainingDrawn(rr, unanswered, limit);
  }

  /** With distinct fetched ids, exactly `min(limit, fetched)` questions are selected. */
  lemma AdditionalQuestionsLength(unanswered: seq<Question>, limit: nat)
    requires DistinctBy(unanswered, Sel.IdOf)
    ensures |AdditionalQuestions(unanswered, limit)| == if limit < |unanswered| then limit else |unanswered|
  {
    var rr := RoundRobin(Queues(unanswered), Sel.CategoriesOf(unanswered), [], 0, limit);
    var r := AdditionalQuestions(unanswered, limit);
    AdditionalQuestionsDrawn(unanswered, limit);
    RoundRobinDrawn(unanswered, limit);
    forall i | 0 <= i < |r| ensures Sel.IdOf(r[i]) in Sel.Ids(unanswered) {
      assert r[i] in r;
      var k :| 0 <= k < |unanswered| && unanswered[k] == r[i];
      assert Sel.Ids(unanswered)[k] == r[i].id;
    }
    DistinctBound(r, Sel.Ids(unanswered), Sel.IdOf);
    if |rr| < limit {
      Sel.RemainingCount(unanswered, rr);
    }
  }

  // ---------------------------------------------------------------- improvement estimate

  /** `max(0.5, 1 - 0.05 * (current - 10))` past ten answers, and 1 otherwise. */
  function DiminishingReturns(currentAnswers: nat): real
  {
    if currentAnswers > 10 then MaxR(0.5, 1.0 - (currentAnswers - 10) as real * 0.05) else 1.0
  }

  /** `calculatePotentialMatchingImprovement`: 5% per question, at most 25%, scaled down past ten answers. */
  function PotentialImprovement(currentAnswers: nat, additionalQuestions: nat): int
  {
    var baseImprovement := if 25 < additionalQuestions * 5 then 25 else additionalQuestions * 5;
    Round(baseImprovement as real * DiminishingReturns(currentAnswers))
  }

  /** The factor lies in [0.5, 1], is 1 up to ten answers and 0.5 from twenty. */
  lemma DiminishingReturnsRange(currentAnswers: nat)
    ensures 0.5 <= DiminishingReturns(currentAnswers) <= 1.0
    ensures DiminishingReturns(currentAnswers) == 1.0 <==> currentAnswers <= 10
    ensures currentAnswers >= 20 ==> DiminishingReturns(currentAnswers) == 0.5
  {
  }

  /**
   * The estimate is a percentage in [0, 25], at most 5 per question, and
   * exactly `min(25, 5 * additional)` up to ten answers.
   */
  lemma PotentialImprovementBounds(currentAnswers: nat, additionalQuestions: nat)
    ensures 0 <= PotentialImprovement(currentAnswers, additionalQuestions) <= 25
    ensures PotentialImprovement(currentAnswers, additionalQuestions) <= 5 * additionalQuestions
    ensures currentAnswers <= 10 ==>
      PotentialImprovement(currentAnswers, additionalQuestions) == if additionalQuestions < 5 then 5 * additionalQuestions else 25
  {
    var b := if 25 < additionalQuestions * 5 then 25 else additionalQuestions * 5;
    var x := b as real * DiminishingReturns(currentAnswers);
    DiminishingReturnsRange(currentAnswers);
    RoundBetween(x, 0, b);
    if currentAnswers <= 10 {
      RoundOfInt(b);
    }
  }

  /** The data of a `/additional-for-matching` response. */
  datatype AdditionalResponse = AdditionalResponse(
    questions: seq<Question>,
    currentAnswersCount: nat,
    potentialImprovement: int)

  /**
   * `/additional-for-matching`: the first `3 * limit` active unanswered
   * questions in query order are fetched, selected from, and the estimate
   * is computed from the number selected.
   */
  function AdditionalForMatching(unansweredPool: seq<Question>, answeredCount: nat, limit: nat)
    : (r: AdditionalResponse)
    ensures |r.questions| <= limit
    ensures forall q :: q in r.questions ==> q in unansweredPool
    ensures 0 <= r.potentialImprovement <= 25
  {
    var fetched := Take(unansweredPool, limit * 3);
    var selected := AdditionalQuestions(fetched, limit);
    AdditionalQuestionsDrawn(fetched, limit);
    PotentialImprovementBounds(answeredCount, |selected|);
    assert forall q :: q in fetched ==> q in unansweredPool;
    AdditionalResponse(Take(selected, limit), answeredCount, PotentialImprovement(answeredCount, |selected|))
  }

  // ---------------------------------------------------------------- answer submission

  /** Why `/:id/answer` refuses an answer. */
  datatype Rejection =
    | ValidationFailed
    | QuestionNotFound
    | OutOfRange(minValue: Option<int>, maxValue: Option<int>)
    | InvalidOption

  /** The `notEmpty()` check on the body's `answer`: null and the empty string are empty. */
  predicate NotEmpty(answer: Answer)
  {
    answer != Null && answer != Str("")
  }

  /** `prisma.question.findFirst({ where: { id, isActive: true } })`. */
  function FindActiveQuestion(catalog: seq<Question>, questionId: string): (r: Option<Question>)
    ensures r.Some? ==> r.value in catalog && r.value.id == questionId && r.value.isActive
    ensures r.None? <==> forall q :: q in catalog ==> !(q.id == questionId && q.isActive)
  {
    if catalog == [] then None
    else if catalog[0].id == questionId && catalog[0].isActive then Some(catalog[0])
    else FindActiveQuestion(catalog[1..], questionId)
  }

  /** A nullable bound in a comparison: JavaScript reads `null` as 0. */
  function BoundValue(bound: Option<int>): int
  {
    if bound.Some? then bound.value else 0
  }

  /** The type-specific check of an answer: `parseInt` within the bounds for scale, a listed value for multiple. */
  function CheckAnswer(q: Question, answer: Answer): Option<Rejection>
  {
    match q.qtype
    case Scale =>
      var value := ParseInt(AsString(answer));
      if value.None? || value.value < BoundValue(q.minValue) || value.value > BoundValue(q.maxValue)
      then Some(OutOfRange(q.minValue, q.maxValue))
      else None
    case Multiple =>
      if answer.Str? && answer.s in q.options then None else Some(InvalidOption)
    case _ => None
  }

  /** The checks of `/:id/answer` in order: the body, the question, then the answer's type. */
  function CheckSubmission(catalog: seq<Question>, questionId: string, answer: Answer): Option<Rejection>
  {
    if !NotEmpty(answer) then Some(ValidationFailed)
    else match FindActiveQuestion(catalog, questionId)
      case None => Some(QuestionNotFound)
      case Some(q) => CheckAnswer(q, answer)
  }

  /**
   * A scale answer is accepted exactly when `parseInt` reads an integer
   * within the bounds, so a number is accepted exactly when it lies
   * within them; a multiple-choice answer exactly when it is one of the
   * option values; any other type is not checked.
   */
  lemma CheckAnswerExact(q: Question, answer: Answer)
    ensures q.qtype == Scale ==>
      (CheckAnswer(q, answer).None? <==>
        exists v :: ParseInt(AsString(answer)) == Some(v) && BoundValue(q.minValue) <= v <= BoundValue(q.maxValue))
    ensures q.qtype == Scale && answer.Num? ==>
      (CheckAnswer(q, answer).None? <==> BoundValue(q.minValue) <= answer.n <= BoundValue(q.maxValue))
    ensures q.qtype == Multiple ==>
      (CheckAnswer(q, answer).None? <==> exists v :: v in q.options && answer == Str(v))
    ensures q.qtype != Scale && q.qtype != Multiple ==> CheckAnswer(q, answer).None?
    ensures CheckAnswer(q, answer).Some? ==>
      CheckAnswer(q, answer) == (if q.qtype == Scale then Some(OutOfRange(q.minValue, q.maxValue)) else Some(InvalidOption))
  {
    if answer.Num? {
      ParseIntOfIntToString(answer.n);
    }
  }

  /** The progress figures of an accepted answer. */
  datatype Progress = Progress(
    totalAnswered: nat,
    totalQuestions: nat,
    completionPercentage: Option<int>,
    matchingReadiness: int,
    wasFirstAnswer: bool,
    reachedMilestone: bool,
    milestoneNumber: Option<nat>,
    newMatchesPossible: bool,
    message: string)

  const FirstAnswerMessage: string := "Great start! Answer a few more questions to unlock AI matching"
  const MatchesMessage: string := "Answer saved! Check your matches to see new compatible people"
  const KeepGoingMessage: string := "Answer saved! Keep going to improve your match quality"

  function MilestoneMessage(totalAnswered: nat): string
  {
    "Milestone reached! " + IntToString(totalAnswered) + " questions answered - your matching accuracy has improved"
  }

  /** `Math.min(100, Math.round((totalAnswered / 20) * 100))`. */
  function ProgressReadiness(totalAnswered: nat): int
  {
    var readiness := Round(totalAnswered as real / 20.0 * 100.0);
    if 100 < readiness then 100 else readiness
  }

  /** `Math.round((totalAnswered / totalQuestions) * 100)`; a division by zero serialises as null. */
  function CompletionPercentage(totalAnswered: nat, totalQuestions: nat): Option<int>
  {
    if totalQuestions == 0 then None else Some(Round(totalAnswered as real / totalQuestions as real * 100.0))
  }

  /** `[5, 10, 15, 20, 25].includes(totalAnswered)`. */
  predicate ReachedMilestone(totalAnswered: nat)
  {
    totalAnswered in [5, 10, 15, 20, 25]
  }

  /** The progress of `/:id/answer`. */
  function ProgressOf(totalAnswered: nat, totalQuestions: nat): Progress
  {
    var wasFirstAnswer := totalAnswered == 1;
    var reachedMilestone := ReachedMilestone(totalAnswered);
    var newMatchesPossible := totalAnswered >= 5;
    Progress(
      totalAnswered,
      totalQuestions,
      CompletionPercentage(totalAnswered, totalQuestions),
      ProgressReadiness(totalAnswered),
      wasFirstAnswer,
      reachedMilestone,
      if reachedMilestone then Some(totalAnswered) else None,
      newMatchesPossible,
      if wasFirstAnswer then FirstAnswerMessage
      else if reachedMilestone then MilestoneMessage(totalAnswered)
      else if newMatchesPossible then MatchesMessage
      else KeepGoingMessage)
  }

  /** Readiness is five points per answer, up to 100 from twenty answers. */
  lemma ProgressReadinessExact(totalAnswered: nat)
    ensures ProgressReadiness(totalAnswered) == if totalAnswered < 20 then 5 * totalAnswered else 100
  {
    assert totalAnswered as real / 20.0 * 100.0 == (5 * totalAnswered) as real;
    RoundOfInt(5 * totalAnswered);
  }

  /** A milestone is reached exactly at the multiples of five from 5 to 25. */
  lemma ReachedMilestoneExact(totalAnswered: nat)
    ensures ReachedMilestone(totalAnswered) <==> 5 <= totalAnswered <= 25 && totalAnswered % 5 == 0
  {
  }

  /** The completion percentage is null exactly without active questions, and in [0, 100] when no more answers than questions are counted. */
  lemma CompletionPercentageRange(totalAnswered: nat, totalQuestions: nat)
    ensures CompletionPercentage(totalAnswered, totalQuestions).None? <==> totalQuestions == 0
    ensures 0 < totalQuestions && totalAnswered <= totalQuestions ==>
      0 <= CompletionPercentage(totalAnswered, totalQuestions).value <= 100
  {
    if 0 < totalQuestions && totalAnswered <= totalQuestions {
      var ratio := totalAnswered as real / totalQuestions as real;
      assert ratio <= 1.0;
      RoundBetween(ratio * 100.0, 0, 100);
    }
  }

  /**
   * The progress reports readiness of five points per answer up to 100, a
   * milestone exactly at 5, 10, 15, 20 and 25 answers, and new matches
   * exactly from five answers.
   */
  lemma ProgressExact(totalAnswered: nat, totalQuestions: nat)
    ensures var p := ProgressOf(totalAnswered, totalQuestions);
      && p.matchingReadiness == (if totalAnswered < 20 then 5 * totalAnswered else 100)
      && (p.reachedMilestone <==> 5 <= totalAnswered <= 25 && totalAnswered % 5 == 0)
      && (p.milestoneNumber.Some? <==> p.reachedMilestone)
      && (p.newMatchesPossible <==> totalAnswered >= 5)
  {
    ProgressReadinessExact(totalAnswered);
    ReachedMilestoneExact(totalAnswered);
  }

  /** The message names the first answer before a milestone, and a milestone before new matches. */
  lemma ProgressMessage(totalAnswered: nat, totalQuestions: nat)
    ensures var p := ProgressOf(totalAnswered, totalQuestions);
      && (totalAnswered == 1 ==> p.message == FirstAnswerMessage)
      && (p.reachedMilestone ==> p.message == MilestoneMessage(totalAnswered))
      && (totalAnswered > 5 && !p.reachedMilestone ==> p.message == MatchesMessage)
      && (1 < totalAnswered < 5 || totalAnswered == 0 ==> p.message == KeepGoingMessage)
  {
  }

  /** The outcome of `/:id/answer`. */
  datatype Submission = Rejected(reason: Rejection) | Saved(progress: Progress)

  /** The count of active questions (`prisma.question.count({ where: { isActive: true } })`). */
  function ActiveCount(catalog: seq<Question>): nat
  {
    |Filter(catalog, (q: Question) => q.isActive)|
  }

  /** The `user_answers` table: one answer per (user, question), the table's unique key. */
  class AnswerStore {
    var answers: map<(string, string), Answer>

    constructor ()
      ensures answers == map[]
    {
      answers := map[];
    }

    /** `prisma.userAnswer.count({ where: { userId } })`. */
    function CountFor(userId: string): nat
      reads this
    {
      |UserKeys(answers, userId)|
    }

    /** `prisma.userAnswer.upsert`: create the (user, question) answer, or replace its value. */
    method Upsert(userId: string, questionId: string, answer: Answer)
      modifies this
      ensures answers == old(answers)[(userId, questionId) := answer]
      ensures CountFor(userId) == old(CountFor(userId)) + (if (userId, questionId) in old(answers) then 0 else 1)
      ensures forall other :: other != userId ==> CountFor(other) == old(CountFor(other))
    {
      UpsertCount(answers, userId, questionId, answer);
      answers := answers[(userId, questionId) := answer];
    }

    /**
     * `/:id/answer`: refuse the answer for the first failed check and leave
     * the table unchanged, or store it and report the progress.
     */
    method SubmitAnswer(catalog: seq<Question>, userId: string, questionId: string, answer: Answer)
      returns (r: Submission)
      modifies this
      ensures r.Rejected? <==> CheckSubmission(catalog, questionId, answer).Some?
      ensures r.Rejected? ==> r.reason == CheckSubmission(catalog, questionId, answer).value && answers == old(answers)
      ensures r.Saved? ==>
        && answers == old(answers)[(userId, questionId) := answer]
        && r.progress == ProgressOf(CountFor(userId), ActiveCount(catalog))
    {
      var rejection := CheckSubmission(catalog, questionId, answer);
      if rejection.Some? {
        return Rejected(rejection.value);
      }
      Upsert(userId, questionId, answer);
      var totalAnswered := CountFor(userId);
      var totalQuestions := ActiveCount(catalog);
      r := Saved(ProgressOf(totalAnswered, totalQuestions));
    }
  }

  /** The keys of one user in a table. */
  function UserKeys(answers: map<(string, string), Answer>, userId: string): set<(string, string)>
  {
    set key | key in answers && key.0 == userId
  }

  /**
   * An upsert leaves exactly one answer for its (user, question), equal to
   * the new value, leaves every other answer as it was, and adds one to the
   * user's count exactly when the pair had no answer.
   */
  lemma UpsertCount(answers: map<(string, string), Answer>, userId: string, questionId: string, answer: Answer)
    ensures var updated := answers[(userId, questionId) := answer];
      && updated[(userId, questionId)] == answer
      && (forall key :: key in answers && key != (userId, questionId) ==> key in updated && updated[key] == answers[key])
      && |UserKeys(updated, userId)| == |UserKeys(answers, userId)| + (if (userId, questionId) in answers then 0 else 1)
      && forall other :: other != userId ==> UserKeys(updated, other) == UserKeys(answers, other)
  {
    var updated := answers[(userId, questionId) := answer];
    var key := (userId, questionId);
    if key in answers {
      assert UserKeys(updated, userId) == UserKeys(answers, userId);
    } else {
      assert UserKeys(updated, userId) == UserKeys(answers, userId) + {key};
    }
  }
}
