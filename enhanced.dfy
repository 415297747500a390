/**
 * The enhanced compatibility engine: the per-question similarity, the
 * per-category breakdown, the confidence-weighted overall score, the
 * explanation, and the ranking of candidates for one user.
 */
module EnhancedMatching {
  import opened Wrappers
  import opened JsValues
  import opened Seqs
  import opened Catalog

  // ---------------------------------------------------------------- common questions

  /** A question both users answered, with the second user's copy of the question. */
  datatype CommonQuestion = CommonQuestion(question: Question, user1Answer: Answer, user2Answer: Answer)

  /** Some answer of `answers` is to question `qid`. */
  predicate Answered(answers: seq<UserAnswer>, qid: string)
  {
    exists i :: 0 <= i < |answers| && answers[i].questionId == qid
  }

  /** `answers.find(a => a.questionId === qid)`. */
  function FindAnswer(answers: seq<UserAnswer>, qid: string): (r: Option<UserAnswer>)
    ensures r.Some? <==> Answered(answers, qid)
    ensures r.Some? ==> r.value.questionId == qid
    ensures r.Some? ==> exists i :: 0 <= i < |answers| && answers[i] == r.value &&
                                     forall j :: 0 <= j < i ==> answers[j].questionId != qid
  {
    if answers == [] then None
    else if answers[0].questionId == qid then
      assert answers[0] == answers[0];
      Some(answers[0])
    else
      var r := FindAnswer(answers[1..], qid);
      if r.Some? then
        var i :| 0 <= i < |answers[1..]| && answers[1..][i] == r.value &&
          forall j :: 0 <= j < i ==> answers[1..][j].questionId != qid;
        assert answers[i + 1] == r.value;
        assert forall j :: 0 <= j < i + 1 ==> answers[j].questionId != qid by {
          forall j | 0 <= j < i + 1 ensures answers[j].questionId != qid {
            if j > 0 { assert answers[j] == answers[1..][j - 1]; }
          }
        }
        r
      else
        assert forall i :: 1 <= i < |answers| ==> answers[i] == answers[1..][i - 1];
        r
  }

  /** The common-question entry built for one of the second user's answers. */
  function Pair(u1: seq<UserAnswer>, a2: UserAnswer): CommonQuestion
    requires Answered(u1, a2.questionId)
  {
    CommonQuestion(a2.question, FindAnswer(u1, a2.questionId).value.answer, a2.answer)
  }

  predicate AllWellFormed(answers: seq<UserAnswer>)
  {
    forall j :: 0 <= j < |answers| ==> WellFormed(answers[j].question)
  }

  predicate AllValidWeights(answers: seq<UserAnswer>)
  {
    forall j :: 0 <= j < |answers| ==> ValidWeight(answers[j].question)
  }

  /** The second user's answers to questions the first user answered too. */
  function CommonAnswers(u1: seq<UserAnswer>, u2: seq<UserAnswer>): seq<UserAnswer>
  {
    Filter(u2, (a: UserAnswer) => Answered(u1, a.questionId))
  }

  /** `answers.map(...)` building the common-question entries. */
  function Pairs(u1: seq<UserAnswer>, answers: seq<UserAnswer>): (r: seq<CommonQuestion>)
    requires forall k :: 0 <= k < |answers| ==> Answered(u1, answers[k].questionId)
    ensures |r| == |answers|
    ensures forall k :: 0 <= k < |r| ==> r[k] == Pair(u1, answers[k])
  {
    if answers == [] then [] else [Pair(u1, answers[0])] + Pairs(u1, answers[1..])
  }

  /**
   * `findCommonQuestions`: the second user's answers whose question the
   * first user also answered, in the second user's order, each paired with
   * the first user's answer.
   */
  function FindCommonQuestions(u1: seq<UserAnswer>, u2: seq<UserAnswer>): (r: seq<CommonQuestion>)
    ensures |r| <= |u2|
    ensures r == [] <==> forall j :: 0 <= j < |u2| ==> !Answered(u1, u2[j].questionId)
    ensures AllWellFormed(u2) ==> forall k :: 0 <= k < |r| ==> WellFormed(r[k].question)
    ensures AllValidWeights(u2) ==> forall k :: 0 <= k < |r| ==> ValidWeight(r[k].question)
  {
    var common := CommonAnswers(u1, u2);
    FilterMembers(u2, (a: UserAnswer) => Answered(u1, a.questionId));
    assert forall k :: 0 <= k < |common| ==> exists j :: 0 <= j < |u2| && u2[j] == common[k];
    Pairs(u1, common)
  }

  /**
   * One entry per answer of the second user whose question the first user
   * answered, in the second user's order, each carrying the second user's
   * question and answer and the first user's first answer to that question.
   */
  lemma CommonQuestionsExact(u1: seq<UserAnswer>, u2: seq<UserAnswer>) returns (idx: seq<nat>)
    ensures IndexedBy(CommonAnswers(u1, u2), u2, idx)
    ensures forall j :: 0 <= j < |u2| ==> (u2[j] in CommonAnswers(u1, u2) <==> Answered(u1, u2[j].questionId))
    ensures |FindCommonQuestions(u1, u2)| == |CommonAnswers(u1, u2)|
    ensures forall k :: 0 <= k < |idx| ==>
      (Answered(u1, u2[idx[k]].questionId) && FindCommonQuestions(u1, u2)[k] == Pair(u1, u2[idx[k]]))
  {
    var p := (a: UserAnswer) => Answered(u1, a.questionId);
    idx := FilterIndices(u2, p);
    FilterMembers(u2, p);
    var common := CommonAnswers(u1, u2);
    forall j | 0 <= j < |u2| && u2[j] in common ensures Answered(u1, u2[j].questionId) {
      var k :| 0 <= k < |common| && common[k] == u2[j];
    }
  }

  // ---------------------------------------------------------------- one question

  /** `question.minValue || 1`: a missing or zero bound falls back to 1. */
  function ScaleMin(q: Question): int
  {
    if q.minValue.Some? && q.minValue.value != 0 then q.minValue.value else 1
  }

  /** `question.maxValue || 10`. */
  function ScaleMax(q: Question): int
  {
    if q.maxValue.Some? && q.maxValue.value != 0 then q.maxValue.value else 10
  }

  /** A scale question spans a non-empty range once the fallbacks are applied. */
  predicate WellFormed(q: Question)
  {
    q.qtype == Scale ==> ScaleMin(q) < ScaleMax(q)
  }

  /** The TypeError raised when `toLowerCase` is called on an answer that is not a string. */
  const LowerCaseError: string := "toLowerCase is not a function"

  /** The similarity of two scale answers read as numbers over a range of `range`. */
  function ScaleSimilarity(range: real, v1: Option<real>, v2: Option<real>): (r: real)
    requires range > 0.0
    ensures 0.0 <= r <= 1.0
    ensures v1.None? || v2.None? ==> r == 0.0
    ensures v1.Some? && v2.Some? && v1.value == v2.value ==> r == 1.0
    ensures v1.Some? && v2.Some? && AbsR(v1.value - v2.value) >= range ==> r == 0.0
  {
    if v1.None? || v2.None? then 0.0
    else
      var distance := AbsR(v1.value - v2.value);
      assert distance / range >= 0.0;
      assert distance >= range ==> distance / range >= 1.0;
      MaxR(0.0, 1.0 - distance / range)
  }

  /** `a1.toLowerCase() === a2.toLowerCase() ? 1 : 0`, failing when either answer is not a string. */
  function TextSimilarity(a1: Answer, a2: Answer): (r: Result<real>)
    ensures r.Failure? <==> !(a1.Str? && a2.Str?)
    ensures r.Failure? ==> r.error == LowerCaseError
    ensures r.Success? ==> (r.value == 1.0 <==> ToLower(a1.s) == ToLower(a2.s))
    ensures r.Success? ==> r.value == 0.0 || r.value == 1.0
  {
    if a1.Str? && a2.Str? then Success(if ToLower(a1.s) == ToLower(a2.s) then 1.0 else 0.0)
    else Failure(LowerCaseError)
  }

  /**
   * `calculateQuestionCompatibility`: the similarity of two answers in [0, 1].
   * Scale answers score by their distance over the range (0 when either does
   * not parse as a number), multiple-choice answers by strict equality, all
   * other types by case-insensitive string equality, which throws when an
   * answer is not a string.
   */
  function QuestionCompatibility(q: Question, a1: Answer, a2: Answer): (r: Result<real>)
    requires WellFormed(q)
    ensures r.Success? ==> 0.0 <= r.value <= 1.0
    ensures r.Failure? <==> (q.qtype != Scale && q.qtype != Multiple && !(a1.Str? && a2.Str?))
    ensures r.Failure? ==> r.error == LowerCaseError
    ensures q.qtype == Multiple ==> (r == Success(1.0) <==> StrictEquals(a1, a2))
    ensures q.qtype == Multiple ==> (r == Success(0.0) <==> !StrictEquals(a1, a2))
    ensures q.qtype != Scale && q.qtype != Multiple && r.Success? ==>
      (r.value == 1.0 <==> ToLower(a1.s) == ToLower(a2.s))
  {
    match q.qtype
    case Scale =>
      Success(ScaleSimilarity((ScaleMax(q) - ScaleMin(q)) as real, ParseFloatAnswer(a1), ParseFloatAnswer(a2)))
    case Multiple => Success(if StrictEquals(a1, a2) then 1.0 else 0.0)
    case _ => TextSimilarity(a1, a2)
  }

  lemma ScaleSimilaritySymmetric(range: real, v1: Option<real>, v2: Option<real>)
    requires range > 0.0
    ensures ScaleSimilarity(range, v1, v2) == ScaleSimilarity(range, v2, v1)
  {
    if v1.Some? && v2.Some? {
      assert AbsR(v1.value - v2.value) == AbsR(v2.value - v1.value);
    }
  }

  lemma TextSimilaritySymmetric(a1: Answer, a2: Answer)
    ensures TextSimilarity(a1, a2) == TextSimilarity(a2, a1)
  {
  }

  lemma ScaleCompatibilitySymmetric(q: Question, a1: Answer, a2: Answer)
    requires WellFormed(q) && q.qtype == Scale
    ensures QuestionCompatibility(q, a1, a2) == QuestionCompatibility(q, a2, a1)
  {
    ScaleSimilaritySymmetric((ScaleMax(q) - ScaleMin(q)) as real, ParseFloatAnswer(a1), ParseFloatAnswer(a2));
  }

  lemma ChoiceCompatibilitySymmetric(q: Question, a1: Answer, a2: Answer)
    requires WellFormed(q) && q.qtype == Multiple
    ensures QuestionCompatibility(q, a1, a2) == QuestionCompatibility(q, a2, a1)
  {
  }

  lemma TextCompatibilitySymmetric(q: Question, a1: Answer, a2: Answer)
    requires WellFormed(q) && q.qtype != Scale && q.qtype != Multiple
    ensures QuestionCompatibility(q, a1, a2) == QuestionCompatibility(q, a2, a1)
  {
    TextSimilaritySymmetric(a1, a2);
  }

  /** The similarity does not depend on which user is first. */
  lemma QuestionCompatibilitySymmetric(q: Question, a1: Answer, a2: Answer)
    requires WellFormed(q)
    ensures QuestionCompatibility(q, a1, a2) == QuestionCompatibility(q, a2, a1)
  {
    if q.qtype == Scale {
      ScaleCompatibilitySymmetric(q, a1, a2);
    } else if q.qtype == Multiple {
      ChoiceCompatibilitySymmetric(q, a1, a2);
    } else {
      TextCompatibilitySymmetric(q, a1, a2);
    }
  }

  /** Whole-number answers to a scale question are read back exactly. */
  lemma ScaleOfIntegers(q: Question, x: int, y: int)
    requires q.qtype == Scale && WellFormed(q)
    ensures QuestionCompatibility(q, Num(x), Num(y)) ==
      Success(ScaleSimilarity((ScaleMax(q) - ScaleMin(q)) as real, Some(x as real), Some(y as real)))
  {
  }

  /** Equal whole-number answers to a scale question score 1. */
  lemma ScaleEqualAnswers(q: Question, x: int)
    requires q.qtype == Scale && WellFormed(q)
    ensures QuestionCompatibility(q, Num(x), Num(x)) == Success(1.0)
  {
    ScaleOfIntegers(q, x, x);
  }

  /** Answers at the two ends of a scale's range score 0. */
  lemma ScaleOppositeEnds(q: Question)
    requires q.qtype == Scale && WellFormed(q)
    ensures QuestionCompatibility(q, Num(ScaleMin(q)), Num(ScaleMax(q))) == Success(0.0)
  {
    var lo, hi := ScaleMin(q), ScaleMax(q);
    ScaleOfIntegers(q, lo, hi);
    var range := (hi - lo) as real;
    assert AbsR(lo as real - hi as real) == range;
    assert ScaleSimilarity(range, Some(lo as real), Some(hi as real)) == 0.0;
  }
  // ---------------------------------------------------------------- one category

  /** One entry of the category breakdown. */
  datatype CategoryScore = CategoryScore(category: Category, score: real, weight: int, questionsCount: nat, confidence: real)

  /** The common questions of one category, in order. */
  function InCategory(cq: seq<CommonQuestion>, c: Category): seq<CommonQuestion>
  {
    Filter(cq, (x: CommonQuestion) => x.question.category == c)
  }

  predicate WellFormedAll(cq: seq<CommonQuestion>)
  {
    forall k :: 0 <= k < |cq| ==> WellFormed(cq[k].question)
  }

  predicate ValidWeightsAll(cq: seq<CommonQuestion>)
  {
    forall k :: 0 <= k < |cq| ==> ValidWeight(cq[k].question)
  }

  /** A category's questions are common questions of that category. */
  lemma InCategoryMembers(cq: seq<CommonQuestion>, c: Category)
    ensures forall k :: 0 <= k < |InCategory(cq, c)| ==>
      InCategory(cq, c)[k] in cq && InCategory(cq, c)[k].question.category == c
    ensures WellFormedAll(cq) ==> WellFormedAll(InCategory(cq, c))
    ensures ValidWeightsAll(cq) ==> ValidWeightsAll(InCategory(cq, c))
  {
    FilterMembers(cq, (x: CommonQuestion) => x.question.category == c);
  }

  /** `totalWeight` after the category's questions: the sum of their weights. */
  function WeightSum(qs: seq<CommonQuestion>): int
  {
    if qs == [] then 0 else WeightSum(qs[..|qs| - 1]) + qs[|qs| - 1].question.weight
  }

  /** `compatibility * questionWeight`. */
  function Weighted(v: real, weight: int): (r: real)
    requires 0.0 <= v <= 1.0
    ensures weight >= 0 ==> 0.0 <= r <= weight as real
  {
    assert weight >= 0 ==> v * weight as real <= 1.0 * weight as real;
    v * weight as real
  }

  /** The weighted similarity of one common question. */
  function Contribution(x: CommonQuestion): (r: Result<real>)
    requires WellFormed(x.question)
    ensures r.Failure? ==> r.error == LowerCaseError
    ensures r.Success? && x.question.weight >= 0 ==> 0.0 <= r.value <= x.question.weight as real
  {
    match QuestionCompatibility(x.question, x.user1Answer, x.user2Answer)
    case Failure(e) => Failure(e)
    case Success(v) => Success(Weighted(v, x.question.weight))
  }

  /**
   * `weightedScore` after the category's questions: the weight-scaled sum of
   * their similarities, or the first similarity that failed.
   */
  function WeightedSimilarity(qs: seq<CommonQuestion>): (r: Result<real>)
    requires WellFormedAll(qs)
    ensures r.Failure? ==> r.error == LowerCaseError
  {
    if qs == [] then Success(0.0)
    else
      match WeightedSimilarity(qs[..|qs| - 1])
      case Failure(e) => Failure(e)
      case Success(sum) =>
        match Contribution(qs[|qs| - 1])
        case Failure(e) => Failure(e)
        case Success(v) => Success(sum + v)
  }

  /** With non-negative weights the weighted similarity lies between 0 and the total weight. */
  lemma {:induction false} WeightedSimilarityBounds(qs: seq<CommonQuestion>)
    requires WellFormedAll(qs) && ValidWeightsAll(qs)
    ensures WeightSum(qs) >= 0
    ensures WeightedSimilarity(qs).Success? ==>
      0.0 <= WeightedSimilarity(qs).value <= WeightSum(qs) as real
  {
    if qs != [] {
      WeightedSimilarityBounds(qs[..|qs| - 1]);
    }
  }

  /** The running totals after one more question. */
  lemma WeightedSimilarityStep(qs: seq<CommonQuestion>, j: nat)
    requires WellFormedAll(qs) && j < |qs|
    ensures WeightSum(qs[..j + 1]) == WeightSum(qs[..j]) + qs[j].question.weight
    ensures WeightedSimilarity(qs[..j + 1]) ==
      match WeightedSimilarity(qs[..j])
      case Failure(e) => Failure(e)
      case Success(sum) =>
        match Contribution(qs[j])
        case Failure(e) => Failure(e)
        case Success(v) => Success(sum + v)
  {
    assert qs[..j + 1][..j] == qs[..j];
  }

  /** Once a question has failed, the whole category fails. */
  lemma {:induction false} WeightedSimilarityFails(qs: seq<CommonQuestion>, j: nat)
    requires WellFormedAll(qs) && j <= |qs|
    requires WeightedSimilarity(qs[..j]).Failure?
    ensures WeightedSimilarity(qs).Failure?
    decreases |qs| - j
  {
    if j < |qs| {
      var init := qs[..|qs| - 1];
      assert init[..j] == qs[..j];
      WeightedSimilarityFails(init, j);
    } else {
      assert qs[..j] == qs;
    }
  }

  /** `Math.round((weightedScore / totalWeight) * 10 * 10) / 10`, 0 without weight. */
  function CategoryScoreValue(weightedScore: real, totalWeight: int): (r: real)
    ensures 0.0 <= weightedScore <= totalWeight as real ==> 0.0 <= r <= 10.0
  {
    var score := if totalWeight > 0 then weightedScore / totalWeight as real * 10.0 else 0.0;
    assert 0.0 <= weightedScore <= totalWeight as real ==> 0.0 <= score <= 10.0 by {
      if 0.0 <= weightedScore <= totalWeight as real && totalWeight > 0 {
        assert weightedScore / totalWeight as real <= 1.0;
      }
    }
    if 0.0 <= score <= 10.0 then
      RoundToTenthsBetween(score, 0, 10);
      RoundToTenths(score)
    else RoundToTenths(score)
  }

  /** `Math.round(Math.min(1, count / 3) * 100) / 100`: a third per question, at most 1. */
  function CategoryConfidence(count: nat): (r: real)
    ensures 0.0 <= r <= 1.0
    ensures r == 0.0 <==> count == 0
    ensures count >= 3 ==> r == 1.0
  {
    var conf := MinR(1.0, count as real / 3.0);
    RoundToHundredthsBetween(conf, 0, 1);
    if count > 0 then
      RoundToHundredthsMonotone(1.0 / 3.0, conf);
      assert RoundToHundredths(1.0 / 3.0) == 0.33;
      RoundToHundredths(conf)
    else RoundToHundredths(conf)
  }

  /**
   * A category's entry: zeros when no common question falls in it, otherwise
   * the weighted similarity over the total weight scaled to 10 and rounded
   * to one decimal, the total weight, the question count, and a confidence
   * of a third per question up to 1, rounded to two decimals.
   */
  function CategoryEntry(cq: seq<CommonQuestion>, c: Category): (r: Result<CategoryScore>)
    requires WellFormedAll(cq)
    ensures r.Failure? ==> r.error == LowerCaseError
    ensures r.Success? ==> r.value.category == c && r.value.questionsCount == |InCategory(cq, c)|
    ensures InCategory(cq, c) == [] ==> r.Success? && r.value.score == 0.0 && r.value.weight == 0 && r.value.confidence == 0.0
    ensures r.Success? && InCategory(cq, c) != [] ==>
      r.value.weight == WeightSum(InCategory(cq, c)) && r.value.confidence == CategoryConfidence(|InCategory(cq, c)|)
  {
    InCategoryMembers(cq, c);
    var qs := InCategory(cq, c);
    if qs == [] then Success(CategoryScore(c, 0.0, 0, 0, 0.0))
    else
      match WeightedSimilarity(qs)
      case Failure(e) => Failure(e)
      case Success(ws) =>
        var tw := WeightSum(qs);
        Success(CategoryScore(c, CategoryScoreValue(ws, tw), tw, |qs|, CategoryConfidence(|qs|)))
  }

  /** A category's score lies in [0, 10], its confidence in [0, 1], and both are 0 exactly when it has no questions. */
  lemma CategoryEntryBounds(cq: seq<CommonQuestion>, c: Category)
    requires WellFormedAll(cq) && ValidWeightsAll(cq)
    ensures CategoryEntry(cq, c).Success? ==>
      var e := CategoryEntry(cq, c).value;
      0.0 <= e.score <= 10.0 && 0.0 <= e.confidence <= 1.0 && e.weight >= 0 &&
      (e.questionsCount == 0 <==> e.confidence == 0.0) &&
      (e.questionsCount > 0 ==> e.weight >= e.questionsCount)
  {
    InCategoryMembers(cq, c);
    var qs := InCategory(cq, c);
    if qs != [] {
      WeightedSimilarityBounds(qs);
      WeightSumAtLeastCount(qs);
    }
  }

  /** Every weight is at least 1, so the total weight is at least the question count. */
  lemma {:induction false} WeightSumAtLeastCount(qs: seq<CommonQuestion>)
    requires ValidWeightsAll(qs)
    ensures WeightSum(qs) >= |qs|
  {
    if qs != [] {
      WeightSumAtLeastCount(qs[..|qs| - 1]);
    }
  }

  // ---------------------------------------------------------------- the breakdown

  /** The breakdown over some categories, in order, or the first failure. */
  function BreakdownOf(cq: seq<CommonQuestion>, cats: seq<Category>): (r: Result<seq<CategoryScore>>)
    requires WellFormedAll(cq)
    ensures r.Failure? ==> r.error == LowerCaseError
    ensures r.Success? ==> |r.value| == |cats|
  {
    if cats == [] then Success([])
    else
      match BreakdownOf(cq, cats[..|cats| - 1])
      case Failure(e) => Failure(e)
      case Success(b) =>
        match CategoryEntry(cq, cats[|cats| - 1])
        case Failure(e) => Failure(e)
        case Success(entry) => Success(b + [entry])
  }

  /** `calculateCategoryCompatibility`'s result: one entry per category in the fixed order. */
  function Breakdown(cq: seq<CommonQuestion>): Result<seq<CategoryScore>>
    requires WellFormedAll(cq)
  {
    BreakdownOf(cq, Categories)
  }

  lemma {:induction false} BreakdownOfFails(cq: seq<CommonQuestion>, cats: seq<Category>, i: nat)
    requires WellFormedAll(cq) && i <= |cats|
    requires BreakdownOf(cq, cats[..i]).Failure?
    ensures BreakdownOf(cq, cats).Failure?
    decreases |cats| - i
  {
    if i < |cats| {
      var init := cats[..|cats| - 1];
      assert init[..i] == cats[..i];
      BreakdownOfFails(cq, init, i);
    } else {
      assert cats[..i] == cats;
    }
  }

  /** The entries of a successful breakdown are the categories' entries, position by position. */
  lemma {:induction false} BreakdownOfEntries(cq: seq<CommonQuestion>, cats: seq<Category>)
    requires WellFormedAll(cq)
    ensures BreakdownOf(cq, cats).Success? ==>
      forall i :: 0 <= i < |cats| ==> CategoryEntry(cq, cats[i]) == Success(BreakdownOf(cq, cats).value[i])
  {
    if cats != [] {
      var init := cats[..|cats| - 1];
      BreakdownOfEntries(cq, init);
      if BreakdownOf(cq, cats).Success? {
        forall i | 0 <= i < |cats| ensures CategoryEntry(cq, cats[i]) == Success(BreakdownOf(cq, cats).value[i]) {
          if i < |cats| - 1 {
            assert cats[i] == init[i];
          }
        }
      }
    }
  }

  /**
   * `calculateCategoryCompatibility`: one entry per category, in the fixed
   * category order; it throws when some question's similarity does.
   */
  method CalculateCategoryCompatibility(cq: seq<CommonQuestion>) returns (r: Result<seq<CategoryScore>>)
    requires WellFormedAll(cq)
    ensures r == Breakdown(cq)
  {
    var breakdown: seq<CategoryScore> := [];
    var i := 0;
    while i < |Categories|
      invariant 0 <= i <= |Categories|
      invariant BreakdownOf(cq, Categories[..i]) == Success(breakdown)
    {
      var category := Categories[i];
      assert Categories[..i + 1][..i] == Categories[..i];
      var entry := CategoryCompatibility(cq, category);
      if entry.Failure? {
        BreakdownOfFails(cq, Categories, i + 1);
        return Failure(entry.error);
      }
      breakdown := breakdown + [entry.value];
      i := i + 1;
    }
    assert Categories[..i] == Categories;
    r := Success(breakdown);
  }

  /** The body of the loop over the categories: one category's entry. */
  method CategoryCompatibility(cq: seq<CommonQuestion>, category: Category) returns (r: Result<CategoryScore>)
    requires WellFormedAll(cq)
    ensures r == CategoryEntry(cq, category)
  {
    InCategoryMembers(cq, category);
    var categoryQuestions := InCategory(cq, category);
    if categoryQuestions == [] {
      return Success(CategoryScore(category, 0.0, 0, 0, 0.0));
    }
    var totalWeight, weightedScore := AccumulateCategory(categoryQuestions);
    if weightedScore.Failure? {
      return Failure(weightedScore.error);
    }
    var categoryScore := if totalWeight > 0 then weightedScore.value / totalWeight as real * 10.0 else 0.0;
    var confidence := MinR(1.0, |categoryQuestions| as real / 3.0);
    r := Success(CategoryScore(category, RoundToTenths(categoryScore), totalWeight,
      |categoryQuestions|, RoundToHundredths(confidence)));
  }

  /** The `forEach` over one category's questions: its total weight and weighted similarity. */
  method AccumulateCategory(qs: seq<CommonQuestion>) returns (totalWeight: int, weightedScore: Result<real>)
    requires WellFormedAll(qs)
    ensures totalWeight == WeightSum(qs) && weightedScore == WeightedSimilarity(qs)
  {
    totalWeight := 0;
    var sum := 0.0;
    var j := 0;
    while j < |qs|
      invariant 0 <= j <= |qs|
      invariant totalWeight == WeightSum(qs[..j]) && WeightedSimilarity(qs[..j]) == Success(sum)
    {
      var q := qs[j];
      var contribution := Contribution(q);
      WeightedSimilarityStep(qs, j);
      if contribution.Failure? {
        WeightedSimilarityFails(qs, j + 1);
        return WeightSum(qs), contribution;
      }
      totalWeight := totalWeight + q.question.weight;
      sum := sum + contribution.value;
      j := j + 1;
    }
    assert qs[..j] == qs;
    weightedScore := Success(sum);
  }
  // ---------------------------------------------------------------- counting questions

  /** How many of the common questions fall in each of `cats`, summed. */
  function CountIn(cq: seq<CommonQuestion>, cats: seq<Category>): nat
  {
    if cats == [] then 0 else |InCategory(cq, cats[0])| + CountIn(cq, cats[1..])
  }

  function Occurrences(c: Category, cats: seq<Category>): nat
  {
    if cats == [] then 0 else (if cats[0] == c then 1 else 0) + Occurrences(c, cats[1..])
  }

  lemma {:induction false} CountInCons(x: CommonQuestion, rest: seq<CommonQuestion>, cats: seq<Category>)
    ensures CountIn([x] + rest, cats) == CountIn(rest, cats) + Occurrences(x.question.category, cats)
  {
    if cats != [] {
      CountInCons(x, rest, cats[1..]);
      assert ([x] + rest)[1..] == rest;
    }
  }

  /** Every common question is counted in exactly one category. */
  lemma {:induction false} CategoriesPartition(cq: seq<CommonQuestion>)
    ensures CountIn(cq, Categories) == |cq|
  {
    if cq != [] {
      CategoriesPartition(cq[1..]);
      CountInCons(cq[0], cq[1..], Categories);
      assert [cq[0]] + cq[1..] == cq;
      OccursOnce(cq[0].question.category);
    } else {
      CountInNothing(Categories);
    }
  }

  lemma {:induction false} CountInNothing(cats: seq<Category>)
    ensures CountIn([], cats) == 0
  {
    if cats != [] {
      CountInNothing(cats[1..]);
    }
  }

  lemma OccursOnce(c: Category)
    ensures Occurrences(c, Categories) == 1
  {
    var cs := Categories;
    assert cs[1..][1..][1..][1..][1..][1..] == [];
    assert Occurrences(c, cs[1..][1..][1..][1..][1..]) == if c == Compatibility then 1 else 0;
    assert Occurrences(c, cs[1..][1..][1..][1..]) == if c in {Relationship, Compatibility} then 1 else 0;
    assert Occurrences(c, cs[1..][1..][1..]) == if c in {Values, Relationship, Compatibility} then 1 else 0;
    assert Occurrences(c, cs[1..][1..]) == if c in {Lifestyle, Values, Relationship, Compatibility} then 1 else 0;
    assert Occurrences(c, cs[1..]) == if c != Personality then 1 else 0;
  }

  /** The `questionsCount` fields of a breakdown, summed. */
  function TotalQuestions(b: seq<CategoryScore>): nat
  {
    if b == [] then 0 else b[0].questionsCount + TotalQuestions(b[1..])
  }

  lemma {:induction false} TotalQuestionsOf(cq: seq<CommonQuestion>, cats: seq<Category>, b: seq<CategoryScore>)
    requires |b| == |cats|
    requires forall i :: 0 <= i < |b| ==> b[i].questionsCount == |InCategory(cq, cats[i])|
    ensures TotalQuestions(b) == CountIn(cq, cats)
  {
    if b != [] {
      TotalQuestionsOf(cq, cats[1..], b[1..]);
    }
  }

  /**
   * A successful breakdown has one entry per category, in the fixed order,
   * each that category's entry, and its question counts add up to the
   * number of common questions.
   */
  lemma BreakdownShape(cq: seq<CommonQuestion>)
    requires WellFormedAll(cq)
    ensures Breakdown(cq).Success? ==>
      var b := Breakdown(cq).value;
      |b| == |Categories| &&
      (forall i :: 0 <= i < |b| ==> b[i].category == Categories[i] && Success(b[i]) == CategoryEntry(cq, Categories[i])) &&
      TotalQuestions(b) == |cq|
  {
    BreakdownOfEntries(cq, Categories);
    if Breakdown(cq).Success? {
      var b := Breakdown(cq).value;
      TotalQuestionsOf(cq, Categories, b);
      CategoriesPartition(cq);
    }
  }

  /** Every entry of a successful breakdown is in range when every weight is valid. */
  lemma BreakdownBounds(cq: seq<CommonQuestion>)
    requires WellFormedAll(cq) && ValidWeightsAll(cq)
    ensures Breakdown(cq).Success? ==>
      forall i :: 0 <= i < |Breakdown(cq).value| ==>
        0.0 <= Breakdown(cq).value[i].score <= 10.0 &&
        0.0 <= Breakdown(cq).value[i].confidence <= 1.0 && Breakdown(cq).value[i].weight >= 0
  {
    BreakdownOfEntries(cq, Categories);
    if Breakdown(cq).Success? {
      var b := Breakdown(cq).value;
      forall i | 0 <= i < |b| ensures 0.0 <= b[i].score <= 10.0 && 0.0 <= b[i].confidence <= 1.0 && b[i].weight >= 0 {
        CategoryEntryBounds(cq, Categories[i]);
      }
    }
  }

  // ---------------------------------------------------------------- the overall score

  /** `weight * confidence`: a category's weight, reduced when it has few questions. */
  function AdjustedWeight(e: CategoryScore): (r: real)
    ensures e.weight >= 0 && e.confidence >= 0.0 ==> r >= 0.0
  {
    e.weight as real * e.confidence
  }

  /** `score * adjustedWeight`. */
  function WeightedCategoryScore(e: CategoryScore): real
  {
    e.score * AdjustedWeight(e)
  }

  /** `totalWeight` after some categories. */
  function TotalAdjustedWeight(b: seq<CategoryScore>): real
  {
    if b == [] then 0.0 else TotalAdjustedWeight(b[..|b| - 1]) + AdjustedWeight(b[|b| - 1])
  }

  /** `weightedSum` after some categories. */
  function WeightedScoreSum(b: seq<CategoryScore>): real
  {
    if b == [] then 0.0 else WeightedScoreSum(b[..|b| - 1]) + WeightedCategoryScore(b[|b| - 1])
  }

  /** The confidence-weighted mean of the category scores; 0 when no category carries weight. */
  function OverallScore(b: seq<CategoryScore>): real
  {
    var total := TotalAdjustedWeight(b);
    if total > 0.0 then WeightedScoreSum(b) / total else 0.0
  }

  /** `calculateWeightedCompatibilityScore`. */
  method CalculateWeightedCompatibilityScore(b: seq<CategoryScore>) returns (r: real)
    ensures r == OverallScore(b)
  {
    var totalWeight := 0.0;
    var weightedSum := 0.0;
    var i := 0;
    while i < |b|
      invariant 0 <= i <= |b|
      invariant totalWeight == TotalAdjustedWeight(b[..i]) && weightedSum == WeightedScoreSum(b[..i])
    {
      assert b[..i + 1][..i] == b[..i];
      var adjustedWeight := b[i].weight as real * b[i].confidence;
      totalWeight := totalWeight + adjustedWeight;
      weightedSum := weightedSum + b[i].score * adjustedWeight;
      i := i + 1;
    }
    assert b[..i] == b;
    r := if totalWeight > 0.0 then weightedSum / totalWeight else 0.0;
  }

  lemma ProductBetween(score: real, w: real, lo: real, hi: real)
    requires w >= 0.0 && (w > 0.0 ==> lo <= score <= hi)
    ensures lo * w <= score * w <= hi * w
  {
  }

  lemma QuotientBetween(sum: real, total: real, lo: real, hi: real)
    requires total > 0.0 && lo * total <= sum <= hi * total
    ensures lo <= sum / total <= hi
  {
  }

  /** The adjusted weights are non-negative, so is their total. */
  lemma {:induction false} TotalAdjustedWeightNonNegative(b: seq<CategoryScore>)
    requires forall i :: 0 <= i < |b| ==> AdjustedWeight(b[i]) >= 0.0
    ensures TotalAdjustedWeight(b) >= 0.0
  {
    if b != [] {
      var init := b[..|b| - 1];
      assert forall i :: 0 <= i < |init| ==> init[i] == b[i];
      TotalAdjustedWeightNonNegative(init);
    }
  }

  /** Scores of categories that carry weight are at least `lo`, so the weighted sum is at least `lo` times the weight. */
  lemma {:induction false} WeightedScoreSumAbove(b: seq<CategoryScore>, lo: real)
    requires forall i :: 0 <= i < |b| ==> AdjustedWeight(b[i]) >= 0.0
    requires forall i :: 0 <= i < |b| && AdjustedWeight(b[i]) > 0.0 ==> lo <= b[i].score
    ensures lo * TotalAdjustedWeight(b) <= WeightedScoreSum(b)
  {
    if b != [] {
      var init, last := b[..|b| - 1], b[|b| - 1];
      assert forall i :: 0 <= i < |init| ==> init[i] == b[i];
      WeightedScoreSumAbove(init, lo);
      var total, w := TotalAdjustedWeight(init), AdjustedWeight(last);
      ProductBetween(last.score, w, lo, last.score);
      assert lo * (total + w) == lo * total + lo * w;
    }
  }

  /** Scores of categories that carry weight are at most `hi`, so the weighted sum is at most `hi` times the weight. */
  lemma {:induction false} WeightedScoreSumBelow(b: seq<CategoryScore>, hi: real)
    requires forall i :: 0 <= i < |b| ==> AdjustedWeight(b[i]) >= 0.0
    requires forall i :: 0 <= i < |b| && AdjustedWeight(b[i]) > 0.0 ==> b[i].score <= hi
    ensures WeightedScoreSum(b) <= hi * TotalAdjustedWeight(b)
  {
    if b != [] {
      var init, last := b[..|b| - 1], b[|b| - 1];
      assert forall i :: 0 <= i < |init| ==> init[i] == b[i];
      WeightedScoreSumBelow(init, hi);
      var total, w := TotalAdjustedWeight(init), AdjustedWeight(last);
      ProductBetween(last.score, w, last.score, hi);
      assert hi * (total + w) == hi * total + hi * w;
    }
  }

  /**
   * The overall score lies between the lowest and the highest score of the
   * categories that carry weight (and is 0 when none does).
   */
  lemma OverallScoreBetween(b: seq<CategoryScore>, lo: real, hi: real)
    requires forall i :: 0 <= i < |b| ==> AdjustedWeight(b[i]) >= 0.0
    requires forall i :: 0 <= i < |b| && AdjustedWeight(b[i]) > 0.0 ==> lo <= b[i].score <= hi
    ensures TotalAdjustedWeight(b) > 0.0 ==> lo <= OverallScore(b) <= hi
    ensures TotalAdjustedWeight(b) <= 0.0 ==> OverallScore(b) == 0.0
  {
    TotalAdjustedWeightNonNegative(b);
    WeightedScoreSumAbove(b, lo);
    WeightedScoreSumBelow(b, hi);
    if TotalAdjustedWeight(b) > 0.0 {
      QuotientBetween(WeightedScoreSum(b), TotalAdjustedWeight(b), lo, hi);
    }
  }

  lemma {:induction false} SumsAppend(x: seq<CategoryScore>, y: seq<CategoryScore>)
    ensures TotalAdjustedWeight(x + y) == TotalAdjustedWeight(x) + TotalAdjustedWeight(y)
    ensures WeightedScoreSum(x + y) == WeightedScoreSum(x) + WeightedScoreSum(y)
  {
    if y != [] {
      var init := y[..|y| - 1];
      SumsAppend(x, init);
      assert (x + y)[..|x + y| - 1] == x + init;
    } else {
      assert x + y == x;
    }
  }

  /** A category with no adjusted weight (no questions, or zero weight) does not move the overall score. */
  lemma ZeroWeightIgnored(b1: seq<CategoryScore>, e: CategoryScore, b2: seq<CategoryScore>)
    requires AdjustedWeight(e) == 0.0
    ensures OverallScore(b1 + [e] + b2) == OverallScore(b1 + b2)
  {
    SumsAppend(b1 + [e], b2);
    SumsAppend(b1, [e]);
    SumsAppend(b1, b2);
    assert TotalAdjustedWeight([e]) == 0.0 && WeightedScoreSum([e]) == 0.0 by {
      assert [e][..0] == [];
    }
  }

  // ---------------------------------------------------------------- confidence

  /**
   * `calculateConfidenceScore`: 60% for the smaller answer count (full at 10)
   * plus 40% for the common questions (full at 8), rounded to two decimals.
   */
  function ConfidenceScore(common: nat, answers1: nat, answers2: nat): (r: real)
    ensures 0.0 <= r <= 1.0
  {
    var minAnswers := if answers1 <= answers2 then answers1 else answers2;
    var completeness := MinR(1.0, minAnswers as real / 10.0);
    var coverage := MinR(1.0, common as real / 8.0);
    RoundToHundredthsBetween(completeness * 0.6 + coverage * 0.4, 0, 1);
    RoundToHundredths(completeness * 0.6 + coverage * 0.4)
  }

  /** More data never lowers the confidence. */
  lemma ConfidenceMonotone(c: nat, n1: nat, n2: nat, c': nat, n1': nat, n2': nat)
    requires c <= c' && n1 <= n1' && n2 <= n2'
    ensures ConfidenceScore(c, n1, n2) <= ConfidenceScore(c', n1', n2')
  {
    var m := if n1 <= n2 then n1 else n2;
    var m' := if n1' <= n2' then n1' else n2';
    RoundToHundredthsMonotone(MinR(1.0, m as real / 10.0) * 0.6 + MinR(1.0, c as real / 8.0) * 0.4,
      MinR(1.0, m' as real / 10.0) * 0.6 + MinR(1.0, c' as real / 8.0) * 0.4);
  }

  /** Full confidence at 8 common questions and 10 answers each; none without data. */
  lemma ConfidenceExtremes(c: nat, n1: nat, n2: nat)
    ensures c >= 8 && n1 >= 10 && n2 >= 10 ==> ConfidenceScore(c, n1, n2) == 1.0
    ensures ConfidenceScore(0, 0, n2) == 0.0
  {
    RoundOfInt(100);
    RoundOfInt(0);
  }
  // ---------------------------------------------------------------- explanation

  predicate IsStrong(e: CategoryScore)
  {
    e.score >= 7.0 && e.questionsCount > 0
  }

  predicate IsWeak(e: CategoryScore)
  {
    e.score < 4.0 && e.questionsCount > 0
  }

  function StrongEntries(b: seq<CategoryScore>): seq<CategoryScore>
  {
    Filter(b, (e: CategoryScore) => IsStrong(e))
  }

  function WeakEntries(b: seq<CategoryScore>): seq<CategoryScore>
  {
    Filter(b, (e: CategoryScore) => IsWeak(e))
  }

  /** The explanation attached to a compatibility result. */
  datatype Explanation =
    | InsufficientData
    | NoCommonQuestions
    | LimitedData
    | LowCompatibility
    | HighCompatibility(first: Category, second: Category)
    | GoodCompatibility(strongest: Category, growthArea: Option<Category>)

  /** `generateCompatibilityExplanation`, as the choice of message it makes. */
  function GenerateExplanation(b: seq<CategoryScore>, confidence: real): (e: Explanation)
    ensures e.LimitedData? <==> confidence < 0.3
  {
    var strong, weak := StrongEntries(b), WeakEntries(b);
    if confidence < 0.3 then LimitedData
    else if |strong| == 0 then LowCompatibility
    else if |strong| >= 3 then HighCompatibility(strong[0].category, strong[1].category)
    else GoodCompatibility(strong[0].category, if |weak| > 0 then Some(weak[0].category) else None)
  }

  /**
   * The explanation only names categories that earned it: "high" names the
   * first two strong categories in order, "good" the first strong one and
   * the first weak one if any, "low" means no category is strong.
   */
  lemma ExplanationGrounded(b: seq<CategoryScore>, confidence: real)
    ensures var e := GenerateExplanation(b, confidence);
      (e.LowCompatibility? <==> confidence >= 0.3 && forall i :: 0 <= i < |b| ==> !IsStrong(b[i])) &&
      (e.HighCompatibility? ==>
         (exists i, j :: 0 <= i < j < |b| && IsStrong(b[i]) && IsStrong(b[j]) &&
                         b[i].category == e.first && b[j].category == e.second)) &&
      (e.GoodCompatibility? ==> exists i :: 0 <= i < |b| && IsStrong(b[i]) && b[i].category == e.strongest) &&
      (e.GoodCompatibility? && e.growthArea.Some? ==>
         (exists i :: 0 <= i < |b| && IsWeak(b[i]) && b[i].category == e.growthArea.value)) &&
      (e.GoodCompatibility? && e.growthArea.None? ==> forall i :: 0 <= i < |b| ==> !IsWeak(b[i]))
  {
    var strongP := (e: CategoryScore) => IsStrong(e);
    var weakP := (e: CategoryScore) => IsWeak(e);
    FilterMembers(b, strongP);
    FilterMembers(b, weakP);
    var idx := FilterIndices(b, strongP);
    var strong, weak := StrongEntries(b), WeakEntries(b);
    if |strong| >= 2 {
      assert b[idx[0]] == strong[0] && b[idx[1]] == strong[1] && idx[0] < idx[1];
    }
    if |strong| > 0 {
      assert b[idx[0]] == strong[0];
    }
    if |weak| > 0 {
      assert weak[0] in b;
    }
  }

  /**
   * Which message is chosen once confidence reaches 0.3: three or more strong
   * categories give the "high" message naming the first two strong ones in
   * breakdown order, one or two give the "good" message naming the first strong
   * one and, as growth area, the first weak one.
   */
  lemma {:induction false} ExplanationChoice(b: seq<CategoryScore>, confidence: real)
    ensures var e := GenerateExplanation(b, confidence);
      (e.HighCompatibility? <==> confidence >= 0.3 && |StrongEntries(b)| >= 3) &&
      (e.GoodCompatibility? <==> confidence >= 0.3 && 1 <= |StrongEntries(b)| <= 2) &&
      (e.HighCompatibility? ==>
         exists i, j :: 0 <= i < j < |b| && IsStrong(b[i]) && IsStrong(b[j]) &&
                        b[i].category == e.first && b[j].category == e.second &&
                        forall k :: 0 <= k < j && k != i ==> !IsStrong(b[k])) &&
      (e.GoodCompatibility? ==>
         exists i :: 0 <= i < |b| && IsStrong(b[i]) && b[i].category == e.strongest &&
                     forall k :: 0 <= k < i ==> !IsStrong(b[k])) &&
      (e.GoodCompatibility? && e.growthArea.Some? ==>
         exists i :: 0 <= i < |b| && IsWeak(b[i]) && b[i].category == e.growthArea.value &&
                     forall k :: 0 <= k < i ==> !IsWeak(b[k]))
  {
    var strongP := (e: CategoryScore) => IsStrong(e);
    var weakP := (e: CategoryScore) => IsWeak(e);
    var strong, weak := StrongEntries(b), WeakEntries(b);
    var e := GenerateExplanation(b, confidence);
    if confidence >= 0.3 && |strong| >= 3 {
      var i, j := FilterSecond(b, strongP);
      assert e.first == b[i].category && e.second == b[j].category;
    }
    if confidence >= 0.3 && 1 <= |strong| <= 2 {
      var i := FilterHead(b, strongP);
      assert e.strongest == b[i].category;
      if |weak| > 0 {
        var w := FilterHead(b, weakP);
        assert e.growthArea == Some(b[w].category);
      }
    }
  }

  /** The message text of an explanation. */
  function ExplanationText(e: Explanation): string
  {
    match e
    case InsufficientData => "Insufficient data for compatibility calculation"
    case NoCommonQuestions => "No common questions answered"
    case LimitedData =>
      "Limited data available for accurate compatibility assessment. Answer more questions to improve accuracy."
    case LowCompatibility => "Low compatibility across most areas. Consider exploring different matches."
    case HighCompatibility(first, second) =>
      "High compatibility in " + CategoryName(first) + " and " + CategoryName(second) +
      ". Strong potential for a meaningful connection."
    case GoodCompatibility(strongest, growth) =>
      "Good compatibility in " + CategoryName(strongest) + ". " +
      (if growth.Some? then "Areas for growth include " + CategoryName(growth.value) + "." else "Overall promising match.")
  }

  // ---------------------------------------------------------------- profile strength

  datatype ProfileStrength = Basic | Good | Strong | Excellent

  /** `calculateProfileStrength`: tiers at 5, 15 and 25 answers. */
  function ProfileStrengthOf(answerCount: nat): ProfileStrength
  {
    if answerCount < 5 then Basic
    else if answerCount < 15 then Good
    else if answerCount < 25 then Strong
    else Excellent
  }

  function StrengthRank(p: ProfileStrength): nat
  {
    match p
    case Basic => 0
    case Good => 1
    case Strong => 2
    case Excellent => 3
  }

  /** More answers never lower the tier, and each tier is reached exactly at its threshold. */
  lemma ProfileStrengthMonotone(m: nat, n: nat)
    requires m <= n
    ensures StrengthRank(ProfileStrengthOf(m)) <= StrengthRank(ProfileStrengthOf(n))
    ensures StrengthRank(ProfileStrengthOf(n)) == (if n >= 25 then 3 else if n >= 15 then 2 else if n >= 5 then 1 else 0)
  {
  }

  // ---------------------------------------------------------------- one pair of users

  /** The result of `calculateEnhancedCompatibility`. */
  datatype PairScore = PairScore(
    score: real,
    breakdown: seq<CategoryScore>,
    explanation: Explanation,
    confidence: real,
    commonQuestions: nat,
    totalAnswers1: nat,
    totalAnswers2: nat)

  /**
   * `calculateEnhancedCompatibility` over the two users' answers: zero with
   * an explanation when either has no answers or they share no question,
   * otherwise the overall score rounded to one decimal with its breakdown,
   * explanation and confidence; it fails when a similarity throws.
   */
  function EnhancedCompatibility(u1: seq<UserAnswer>, u2: seq<UserAnswer>): Result<PairScore>
    requires AllWellFormed(u2)
  {
    if |u1| == 0 || |u2| == 0 then Success(PairScore(0.0, [], InsufficientData, 0.0, 0, 0, 0))
    else
      var cq := FindCommonQuestions(u1, u2);
      if cq == [] then Success(PairScore(0.0, [], NoCommonQuestions, 0.0, 0, 0, 0))
      else
        match Breakdown(cq)
        case Failure(e) => Failure(e)
        case Success(b) =>
          var confidence := ConfidenceScore(|cq|, |u1|, |u2|);
          Success(PairScore(RoundToTenths(OverallScore(b)), b, GenerateExplanation(b, confidence),
            confidence, |cq|, |u1|, |u2|))
  }

  /** `calculateEnhancedCompatibility`, running the breakdown and the weighted score as the source does. */
  method CalculateEnhancedCompatibility(u1: seq<UserAnswer>, u2: seq<UserAnswer>) returns (r: Result<PairScore>)
    requires AllWellFormed(u2)
    ensures r == EnhancedCompatibility(u1, u2)
  {
    if |u1| == 0 || |u2| == 0 {
      return Success(PairScore(0.0, [], InsufficientData, 0.0, 0, 0, 0));
    }
    var commonQuestions := FindCommonQuestions(u1, u2);
    if commonQuestions == [] {
      return Success(PairScore(0.0, [], NoCommonQuestions, 0.0, 0, 0, 0));
    }
    var categoryBreakdown := CalculateCategoryCompatibility(commonQuestions);
    if categoryBreakdown.Failure? {
      return Failure(categoryBreakdown.error);
    }
    var overallScore := CalculateWeightedCompatibilityScore(categoryBreakdown.value);
    var confidence := ConfidenceScore(|commonQuestions|, |u1|, |u2|);
    var explanation := GenerateExplanation(categoryBreakdown.value, confidence);
    r := Success(PairScore(RoundToTenths(overallScore), categoryBreakdown.value, explanation, confidence,
      |commonQuestions|, |u1|, |u2|));
  }

  /**
   * With valid weights, a computed compatibility score lies in [0, 10] and
   * its confidence in [0, 1]; the score is 0 whenever there is no shared
   * question.
   */
  lemma EnhancedCompatibilityBounds(u1: seq<UserAnswer>, u2: seq<UserAnswer>)
    requires AllWellFormed(u2) && AllValidWeights(u2)
    ensures EnhancedCompatibility(u1, u2).Success? ==>
      var k := EnhancedCompatibility(u1, u2).value;
      0.0 <= k.score <= 10.0 && 0.0 <= k.confidence <= 1.0
    ensures FindCommonQuestions(u1, u2) == [] ==>
      EnhancedCompatibility(u1, u2).Success? && EnhancedCompatibility(u1, u2).value.score == 0.0 &&
      EnhancedCompatibility(u1, u2).value.confidence == 0.0
  {
    if |u1| > 0 && |u2| > 0 {
      var cq := FindCommonQuestions(u1, u2);
      if cq != [] && Breakdown(cq).Success? {
        var b := Breakdown(cq).value;
        BreakdownBounds(cq);
        forall i | 0 <= i < |b| ensures AdjustedWeight(b[i]) >= 0.0 {
        }
        OverallScoreBetween(b, 0.0, 10.0);
        RoundToTenthsBetween(OverallScore(b), 0, 10);
      }
    } else if |u1| == 0 {
      assert FindCommonQuestions(u1, u2) == [];
    }
  }
  // ---------------------------------------------------------------- finding matches

  /** A user as the match search sees them. */
  datatype Member = Member(
    id: string,
    age: Option<int>,
    gender: Option<string>,
    lookingFor: Option<string>,
    isActive: bool,
    isVerified: bool,
    answers: seq<UserAnswer>)

  /** The optional age bounds of a search; `None` when absent or empty. */
  datatype AgeFilters = AgeFilters(minAge: Option<int>, maxAge: Option<int>)

  /** A gender preference that restricts: present, non-empty and not "everyone". */
  predicate Restricts(lookingFor: Option<string>)
  {
    Truthy(lookingFor) && lookingFor.value != "everyone"
  }

  /** The database query for potential matches: another active, verified user of the wanted gender and age. */
  predicate InQuery(me: Member, filters: AgeFilters, c: Member)
  {
    && c.id != me.id
    && c.isActive
    && c.isVerified
    && (Restricts(me.lookingFor) ==> c.gender == me.lookingFor)
    && (filters.minAge.Some? ==> c.age.Some? && c.age.value >= filters.minAge.value)
    && (filters.maxAge.Some? ==> c.age.Some? && c.age.value <= filters.maxAge.value)
  }

  /** The candidate's own preference does not exclude the searching user. */
  predicate Reciprocal(me: Member, c: Member)
  {
    !(Restricts(c.lookingFor) && Truthy(me.gender) && c.lookingFor.value != me.gender.value)
  }

  /** The stored questions behind every member's answers are well formed. */
  predicate PoolWellFormed(pool: seq<Member>)
  {
    forall i :: 0 <= i < |pool| ==> AllWellFormed(pool[i].answers)
  }

  /** The first `limit * 3` users in the store that satisfy the query. */
  function PotentialMatches(me: Member, filters: AgeFilters, pool: seq<Member>, limit: nat): (r: seq<Member>)
    ensures PoolWellFormed(pool) ==> PoolWellFormed(r)
  {
    var found := Filter(pool, (c: Member) => InQuery(me, filters, c));
    FilterMembers(pool, (c: Member) => InQuery(me, filters, c));
    assert forall k :: 0 <= k < |found| ==> exists j :: 0 <= j < |pool| && pool[j] == found[k];
    Take(found, limit * 3)
  }

  datatype EnhancedMatch = EnhancedMatch(candidate: Member, compatibility: PairScore)

  /**
   * The score a candidate is kept with: none when their preference excludes
   * the searching user, when scoring fails (the source logs and skips it),
   * or when the score is not above 0 or the confidence not above 0.2.
   */
  function Verdict(me: Member, c: Member): Option<PairScore>
    requires AllWellFormed(c.answers)
  {
    if !Reciprocal(me, c) then None
    else
      match EnhancedCompatibility(me.answers, c.answers)
      case Failure(_) => None
      case Success(k) => if k.score > 0.0 && k.confidence > 0.2 then Some(k) else None
  }

  /** A kept candidate is exactly a reciprocal one whose score and confidence pass the thresholds. */
  lemma VerdictMeaning(me: Member, c: Member, k: PairScore)
    requires AllWellFormed(c.answers)
    ensures Verdict(me, c) == Some(k) <==>
      Reciprocal(me, c) && EnhancedCompatibility(me.answers, c.answers) == Success(k) &&
      k.score > 0.0 && k.confidence > 0.2
  {
  }

  /** The matches kept from the candidates, in candidate order. */
  function Kept(me: Member, cs: seq<Member>): (r: seq<EnhancedMatch>)
    requires PoolWellFormed(cs)
    ensures |r| <= |cs|
  {
    if cs == [] then []
    else
      var c := cs[|cs| - 1];
      Kept(me, cs[..|cs| - 1]) + (if Verdict(me, c).Some? then [EnhancedMatch(c, Verdict(me, c).value)] else [])
  }

  /** The ranking comparator: higher score first. */
  function ByScoreDescending(): (EnhancedMatch, EnhancedMatch) -> bool
  {
    (a: EnhancedMatch, b: EnhancedMatch) => a.compatibility.score >= b.compatibility.score
  }

  lemma ByScoreDescendingTotal()
    ensures TotalPreorder(ByScoreDescending())
  {
  }

  /** The successful answer of `findEnhancedMatches`. */
  datatype MatchesResponse =
    | TooFewAnswers
    | Ranked(matches: seq<EnhancedMatch>, totalAnalyzed: nat, answersCount: nat, profileStrength: ProfileStrength)

  const UserNotFound: string := "User not found"

  /**
   * `findEnhancedMatches` over a store of users: fails when the user is
   * unknown, asks for more answers below three, and otherwise ranks the
   * kept candidates by score and returns the first `limit`.
   */
  function EnhancedMatches(me: Option<Member>, filters: AgeFilters, pool: seq<Member>, limit: nat): Result<MatchesResponse>
    requires PoolWellFormed(pool)
  {
    if me.None? then Failure(UserNotFound)
    else if |me.value.answers| < 3 then Success(TooFewAnswers)
    else
      var candidates := PotentialMatches(me.value, filters, pool, limit);
      Success(Ranked(Take(Sort(Kept(me.value, candidates), ByScoreDescending()), limit),
        |candidates|, |me.value.answers|, ProfileStrengthOf(|me.value.answers|)))
  }

  /** One candidate's step of the scoring loop. */
  lemma KeptStep(me: Member, cs: seq<Member>, i: nat)
    requires PoolWellFormed(cs) && i < |cs|
    ensures var c := cs[i];
      Kept(me, cs[..i + 1]) ==
      Kept(me, cs[..i]) + (if Verdict(me, c).Some? then [EnhancedMatch(c, Verdict(me, c).value)] else [])
  {
    assert cs[..i + 1][..i] == cs[..i];
  }

  /** `findEnhancedMatches`, scoring the candidates one at a time. */
  method FindEnhancedMatches(me: Option<Member>, filters: AgeFilters, pool: seq<Member>, limit: nat)
    returns (r: Result<MatchesResponse>)
    requires PoolWellFormed(pool)
    ensures r == EnhancedMatches(me, filters, pool, limit)
  {
    if me.None? {
      return Failure(UserNotFound);
    }
    var currentUser := me.value;
    if |currentUser.answers| < 3 {
      return Success(TooFewAnswers);
    }
    var potentialMatches := PotentialMatches(currentUser, filters, pool, limit);
    var matchesWithCompatibility: seq<EnhancedMatch> := [];
    var i := 0;
    while i < |potentialMatches|
      invariant 0 <= i <= |potentialMatches|
      invariant matchesWithCompatibility == Kept(currentUser, potentialMatches[..i])
    {
      var candidate := potentialMatches[i];
      KeptStep(currentUser, potentialMatches, i);
      if Reciprocal(currentUser, candidate) {
        var compatibility := CalculateEnhancedCompatibility(currentUser.answers, candidate.answers);
        if compatibility.Success? && compatibility.value.score > 0.0 && compatibility.value.confidence > 0.2 {
          matchesWithCompatibility := matchesWithCompatibility + [EnhancedMatch(candidate, compatibility.value)];
        }
      }
      i := i + 1;
    }
    assert potentialMatches[..i] == potentialMatches;
    var sortedMatches := Take(Sort(matchesWithCompatibility, ByScoreDescending()), limit);
    r := Success(Ranked(sortedMatches, |potentialMatches|, |currentUser.answers|,
      ProfileStrengthOf(|currentUser.answers|)));
  }

  /** Exactly the candidates with a verdict are kept, each with its verdict's score. */
  lemma {:induction false} KeptExact(me: Member, cs: seq<Member>)
    requires PoolWellFormed(cs)
    ensures forall m :: m in Kept(me, cs) ==> m.candidate in cs && Verdict(me, m.candidate) == Some(m.compatibility)
    ensures forall j :: 0 <= j < |cs| && Verdict(me, cs[j]).Some? ==>
      EnhancedMatch(cs[j], Verdict(me, cs[j]).value) in Kept(me, cs)
  {
    if cs != [] {
      var init := cs[..|cs| - 1];
      KeptExact(me, init);
      assert forall x :: x in init ==> x in cs;
      forall j | 0 <= j < |cs| && Verdict(me, cs[j]).Some?
        ensures EnhancedMatch(cs[j], Verdict(me, cs[j]).value) in Kept(me, cs)
      {
        if j < |cs| - 1 {
          assert cs[j] == init[j];
        }
      }
    }
  }

  /** The search fails only for an unknown user and asks for answers exactly below three. */
  lemma EnhancedMatchesOutcome(me: Option<Member>, filters: AgeFilters, pool: seq<Member>, limit: nat)
    requires PoolWellFormed(pool)
    ensures EnhancedMatches(me, filters, pool, limit).Failure? <==> me.None?
    ensures EnhancedMatches(me, filters, pool, limit) == Success(TooFewAnswers) <==> me.Some? && |me.value.answers| < 3
  {
  }

  /** Every potential match is a stored user the query admits, and there are at most `limit * 3`. */
  lemma PotentialMatchesSound(me: Member, filters: AgeFilters, pool: seq<Member>, limit: nat)
    ensures |PotentialMatches(me, filters, pool, limit)| <= limit * 3
    ensures forall c :: c in PotentialMatches(me, filters, pool, limit) ==> c in pool && InQuery(me, filters, c)
  {
    var p := (c: Member) => InQuery(me, filters, c);
    FilterMembers(pool, p);
    var found := Filter(pool, p);
    forall c | c in Take(found, limit * 3) ensures c in found {
    }
  }

  /**
   * The matches returned are at most `limit`, ranked by descending score,
   * each a user the query admits with a verdict; they are the best of all
   * such candidates, since the ranking is a permutation of every kept
   * candidate.
   */
  lemma RankedMatchesSound(me: Member, filters: AgeFilters, pool: seq<Member>, limit: nat)
    requires PoolWellFormed(pool) && |me.answers| >= 3
    ensures EnhancedMatches(Some(me), filters, pool, limit).Success?
    ensures var r := EnhancedMatches(Some(me), filters, pool, limit).value;
      var kept := Kept(me, PotentialMatches(me, filters, pool, limit));
      var ranked := Sort(kept, ByScoreDescending());
      r.Ranked? && |r.matches| <= limit && r.totalAnalyzed <= limit * 3 &&
      Sorted(r.matches, ByScoreDescending()) &&
      multiset(ranked) == multiset(kept) && r.matches == ranked[..|r.matches|] &&
      forall m :: m in r.matches ==>
        m.candidate in pool && InQuery(me, filters, m.candidate) && Verdict(me, m.candidate) == Some(m.compatibility)
  {
    var candidates := PotentialMatches(me, filters, pool, limit);
    var kept := Kept(me, candidates);
    var ranked := Sort(kept, ByScoreDescending());
    var top := Take(ranked, limit);
    PotentialMatchesSound(me, filters, pool, limit);
    KeptExact(me, candidates);
    SortMembers(kept, ByScoreDescending());
    ByScoreDescendingTotal();
    SortSorted(kept, ByScoreDescending());
    forall m | m in top ensures m in kept {
    }
  }
  // ---------------------------------------------------------------- insights

  /** How one category is represented among a user's answers. */
  datatype CategoryAnalysis = CategoryAnalysis(category: Category, answered: nat, totalWeight: int, averageWeight: real)

  function AnalyzeCategory(answers: seq<UserAnswer>, c: Category): (r: CategoryAnalysis)
    ensures r.category == c && r.answered == |AnswersIn(answers, c)|
    ensures r.answered == 0 ==> r.averageWeight == 0.0
  {
    var inCategory := AnswersIn(answers, c);
    var total := AnswerWeightSum(inCategory);
    CategoryAnalysis(c, |inCategory|, total, if |inCategory| > 0 then total as real / |inCategory| as real else 0.0)
  }

  /** With weights in 1..10, the weights of `n` answers sum to between `n` and `10 * n`. */
  lemma {:induction false} AnswerWeightSumBounds(answers: seq<UserAnswer>)
    requires forall k :: 0 <= k < |answers| ==> ValidWeight(answers[k].question)
    ensures |answers| <= AnswerWeightSum(answers) <= 10 * |answers|
  {
    if answers != [] {
      AnswerWeightSumBounds(answers[1..]);
    }
  }

  /** With valid weights, an answered category's average weight is itself a valid weight. */
  lemma AverageWeightBounds(answers: seq<UserAnswer>, c: Category)
    requires forall k :: 0 <= k < |answers| ==> ValidWeight(answers[k].question)
    ensures var a := AnalyzeCategory(answers, c);
      a.answered > 0 ==> 1.0 <= a.averageWeight <= 10.0
  {
    var inCategory := AnswersIn(answers, c);
    AnswersInMembers(answers, c);
    AnswerWeightSumBounds(inCategory);
    if |inCategory| > 0 {
      QuotientBetween(AnswerWeightSum(inCategory) as real, |inCategory| as real, 1.0, 10.0);
    }
  }

  /** Every answer `AnswersIn` keeps is one of the given answers. */
  lemma {:induction false} AnswersInMembers(answers: seq<UserAnswer>, c: Category)
    ensures forall k :: 0 <= k < |AnswersIn(answers, c)| ==> AnswersIn(answers, c)[k] in answers
  {
    if answers != [] {
      AnswersInMembers(answers[1..], c);
      assert forall x :: x in answers[1..] ==> x in answers;
    }
  }

  function AnalyzeCategories(answers: seq<UserAnswer>, cats: seq<Category>): (r: seq<CategoryAnalysis>)
    ensures |r| == |cats|
    ensures forall k :: 0 <= k < |cats| ==> r[k] == AnalyzeCategory(answers, cats[k])
  {
    if cats == [] then [] else [AnalyzeCategory(answers, cats[0])] + AnalyzeCategories(answers, cats[1..])
  }

  /** A recommendation of the insights report. */
  datatype Recommendation =
    | Critical(questionsNeeded: nat)
    | Improvement(questionsNeeded: nat)
    | Diversity(category: Category)

  /** `Math.min(100, Math.round(answerCount / 20 * 100))`. */
  function MatchingReadiness(answerCount: nat): int
  {
    var percent := Round(answerCount as real / 20.0 * 100.0);
    if percent < 100 then percent else 100
  }

  /** Readiness is five points per answer, capped at 100 from twenty answers on. */
  lemma MatchingReadinessExact(answerCount: nat)
    ensures MatchingReadiness(answerCount) == if 5 * answerCount < 100 then 5 * answerCount else 100
    ensures 0 <= MatchingReadiness(answerCount) <= 100
    ensures MatchingReadiness(answerCount) == 100 <==> answerCount >= 20
  {
    assert answerCount as real / 20.0 * 100.0 == (5 * answerCount) as real;
    RoundOfInt(5 * answerCount);
  }

  /** `Math.max(0, Math.floor((answerCount - 3) * 2))`. */
  function EstimatedMatches(answerCount: nat): (r: nat)
    ensures r == 0 <==> answerCount <= 3
    ensures answerCount > 3 ==> r == 2 * (answerCount - 3)
  {
    var estimate := ((answerCount as int - 3) * 2) as real;
    if estimate.Floor > 0 then estimate.Floor else 0
  }

  /** The categories of `cats` with fewer than two answers, in the order of `cats`. */
  function UnderRepresented(answers: seq<UserAnswer>, cats: seq<Category>): seq<Category>
  {
    Filter(cats, (c: Category) => |AnswersIn(answers, c)| < 2)
  }

  /** Advice to answer more questions: critical below five answers, improvement below fifteen. */
  function ProgressAdvice(n: nat): seq<Recommendation>
  {
    if n < 5 then [Critical(5 - n)] else if n < 15 then [Improvement(15 - n)] else []
  }

  /** Advice naming the first under-represented category of `cats`, if any. */
  function DiversityAdvice(answers: seq<UserAnswer>, cats: seq<Category>): seq<Recommendation>
  {
    var under := UnderRepresented(answers, cats);
    if under != [] then [Diversity(under[0])] else []
  }

  /** The `recommendations` of `getMatchingInsights`: progress advice, then diversity advice. */
  function Recommendations(answers: seq<UserAnswer>): seq<Recommendation>
  {
    ProgressAdvice(|answers|) + DiversityAdvice(answers, Categories)
  }

  /** The report of `getMatchingInsights`. */
  datatype Insights = Insights(
    matchingReadiness: int,
    profileStrength: ProfileStrength,
    categoryAnalysis: seq<CategoryAnalysis>,
    recommendations: seq<Recommendation>,
    totalAnswers: nat,
    estimatedMatches: nat)

  function MatchingInsights(answers: seq<UserAnswer>): (r: Insights)
    ensures r.totalAnswers == |answers| && |r.categoryAnalysis| == |Categories|
    ensures forall k :: 0 <= k < |Categories| ==>
      r.categoryAnalysis[k].category == Categories[k] &&
      r.categoryAnalysis[k].answered == |AnswersIn(answers, Categories[k])|
  {
    var n := |answers|;
    Insights(MatchingReadiness(n), ProfileStrengthOf(n), AnalyzeCategories(answers, Categories),
      Recommendations(answers), n, EstimatedMatches(n))
  }

  /**
   * The report asks for the answers missing to 5 (critical) below five
   * answers and to 15 (improvement) below fifteen, and nothing of the kind
   * from fifteen on.
   */
  lemma ProgressRecommendation(n: nat)
    ensures |ProgressAdvice(n)| <= 1
    ensures n < 5 <==> exists r :: r in ProgressAdvice(n) && r.Critical? && n + r.questionsNeeded == 5
    ensures 5 <= n < 15 <==> exists r :: r in ProgressAdvice(n) && r.Improvement? && n + r.questionsNeeded == 15
    ensures forall r :: r in ProgressAdvice(n) ==> !r.Diversity?
  {
    if n < 5 {
      assert ProgressAdvice(n)[0] == Critical(5 - n);
    } else if n < 15 {
      assert ProgressAdvice(n)[0] == Improvement(15 - n);
    }
  }

  /** Diversity advice is given exactly when some category of `cats` has fewer than two answers. */
  lemma DiversityRecommendation(answers: seq<UserAnswer>, cats: seq<Category>)
    ensures |DiversityAdvice(answers, cats)| <= 1
    ensures forall r :: r in DiversityAdvice(answers, cats) ==> r.Diversity?
    ensures DiversityAdvice(answers, cats) != [] <==> exists c :: c in cats && |AnswersIn(answers, c)| < 2
  {
    FilterMembers(cats, (c: Category) => |AnswersIn(answers, c)| < 2);
  }

  /** The category diversity advice names is the first of `cats` with fewer than two answers. */
  lemma DiversityNamesFirst(answers: seq<UserAnswer>, cats: seq<Category>, r: Recommendation)
    requires r in DiversityAdvice(answers, cats)
    ensures exists i ::
      && 0 <= i < |cats|
      && cats[i] == r.category
      && |AnswersIn(answers, r.category)| < 2
      && (forall j :: 0 <= j < i ==> |AnswersIn(answers, cats[j])| >= 2)
  {
    var p := (c: Category) => |AnswersIn(answers, c)| < 2;
    var i := FilterHead(cats, p);
    forall j | 0 <= j < i ensures |AnswersIn(answers, cats[j])| >= 2 {
      assert !p(cats[j]);
    }
  }
}
