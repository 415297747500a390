/**
 * The first-generation matcher: a category-weighted answer similarity with
 * diversity, completeness, interest and communication bonuses, a basic
 * profile score used when nobody else has answered the quiz, and the
 * ranking that keeps the top matches scoring at least 6.
 *
 * A user's answers form a JavaScript object keyed by question id; here it is
 * the list of its entries in insertion order (the answer table holds one row
 * per user and question, so the keys are distinct).  Property reads such as
 * `answers.interests` are lookups of fixed keys, and an absent key is
 * `undefined`.  NaN is `None`.
 */
module LegacyMatching {
  import opened Wrappers
  import opened JsValues
  import opened Seqs
  import opened Catalog

  // ---------------------------------------------------------------- answer objects

  /** `answers[key]`: the value stored under `key`, `None` when absent. */
  function Lookup(m: seq<(string, Answer)>, key: string): (r: Option<Answer>)
    ensures r.Some? <==> exists i :: 0 <= i < |m| && m[i].0 == key
  {
    if m == [] then None
    else if m[0].0 == key then Some(m[0].1)
    else Lookup(m[1..], key)
  }

  /** `answers[key]` is truthy. */
  predicate Present(m: seq<(string, Answer)>, key: string)
  {
    Lookup(m, key).Some? && !IsFalsy(Lookup(m, key).value)
  }

  // ---------------------------------------------------------------- question metadata

  /** A metadata category: one of the six, or `other` for an unknown id. */
  datatype MetaCategory = Known(category: Category) | Other

  /** The similarity rule a question type selects. */
  datatype AnswerKind = ScaleKind | MultipleKind | TextKind | OtherKind

  datatype Metadata = Metadata(category: MetaCategory, kind: AnswerKind)

  /** `getQuestionMetadata`: the built-in table of sixteen ids, else `other` and scale. */
  function QuestionMetadata(questionId: string): Metadata
  {
    if questionId in {"personality_1", "personality_2", "personality_3", "personality_4", "personality_5"} then
      Metadata(Known(Personality), ScaleKind)
    else if questionId in {"values_1", "values_2", "values_3", "values_4"} then
      Metadata(Known(Values), ScaleKind)
    else if questionId in {"lifestyle_1", "lifestyle_2", "lifestyle_3"} then
      Metadata(Known(Lifestyle), MultipleKind)
    else if questionId in {"communication_1", "communication_2"} then
      Metadata(Known(Communication), ScaleKind)
    else if questionId in {"relationship_1", "relationship_2"} then
      Metadata(Known(Relationship), MultipleKind)
    else
      Metadata(Other, ScaleKind)
  }

  /**
   * The table only yields scale and multiple-choice questions, so the text
   * and unknown-type rules of the similarity are never reached by the
   * scorer; an unknown id is an `other` scale question, and no id is of
   * the compatibility category.
   */
  lemma MetadataKinds(questionId: string)
    ensures var meta := QuestionMetadata(questionId);
      (meta.kind == ScaleKind || meta.kind == MultipleKind) &&
      (meta.category == Other ==> meta.kind == ScaleKind) &&
      meta.category != Known(Compatibility)
  {
  }

  /** `categoryWeights[category] || 1.0`. */
  function CategoryWeight(c: MetaCategory): (w: real)
    ensures 1.0 <= w <= 2.5
  {
    match c
    case Known(Personality) => 2.5
    case Known(Values) => 2.5
    case Known(Lifestyle) => 1.5
    case Known(Communication) => 1.5
    case Known(Relationship) => 1.0
    case Known(Compatibility) => 1.0
    case Other => 1.0
  }

  // ---------------------------------------------------------------- one question

  /** `String(a).toLowerCase().split(/\s+/)`. */
  function Keywords(a: Answer): seq<string>
  {
    SplitWhitespace(ToLower(AsString(a)))
  }

  /** The words of `k1` that also occur in `k2`, repeats included. */
  function CommonWords(k1: seq<string>, k2: seq<string>): seq<string>
  {
    Filter(k1, (w: string) => w in k2)
  }

  /**
   * `calculateAnswerSimilarity`: scale answers score `1 - |a - b| / 10`
   * (NaN when either is not a number), multiple choice 1 or 0 on strict
   * equality, text the share of shared keywords, any other type 0.5.
   */
  function AnswerSimilarity(a1: Answer, a2: Answer, kind: AnswerKind): (r: Option<real>)
    ensures kind != ScaleKind ==> r.Some? && 0.0 <= r.value <= 1.0
    ensures kind == ScaleKind && r.Some? ==> r.value <= 1.0
    ensures kind == ScaleKind ==> (r.Some? <==> ToNumber(a1).Some? && ToNumber(a2).Some?)
  {
    match kind
    case ScaleKind =>
      (match (ToNumber(a1), ToNumber(a2))
       case (Some(x), Some(y)) => Some(1.0 - AbsR(x - y) / 10.0)
       case _ => None)
    case MultipleKind => Some(if StrictEquals(a1, a2) then 1.0 else 0.0)
    case TextKind =>
      var k1, k2 := Keywords(a1), Keywords(a2);
      var longest := if |k1| >= |k2| then |k1| else |k2|;
      Some(KeywordShare(|CommonWords(k1, k2)|, longest))
    case OtherKind => Some(0.5)
  }

  /** `common / longest` for `common <= longest`, `longest >= 1`. */
  function KeywordShare(common: nat, longest: nat): (r: real)
    ensures common <= longest && longest > 0 ==> 0.0 <= r <= 1.0
    ensures common == longest && longest > 0 ==> r == 1.0
  {
    if longest == 0 then 0.0
    else
      assert common <= longest ==> common as real / longest as real <= 1.0 by {
        if common <= longest {
          assert common as real <= longest as real;
        }
      }
      common as real / longest as real
  }

  /** Numeric scale answers score by distance: equal answers 1, answers 10 apart 0. */
  lemma ScaleSimilarityOfNumbers(x: int, y: int)
    ensures AnswerSimilarity(Num(x), Num(y), ScaleKind) == Some(1.0 - AbsR((x - y) as real) / 10.0)
    ensures x == y ==> AnswerSimilarity(Num(x), Num(y), ScaleKind) == Some(1.0)
    ensures x - y == 10 || y - x == 10 ==> AnswerSimilarity(Num(x), Num(y), ScaleKind) == Some(0.0)
  {
  }

  /** Multiple choice scores exactly 1 on strictly equal answers and 0 otherwise; an unknown type 0.5. */
  lemma ChoiceAndUnknownSimilarity(a1: Answer, a2: Answer)
    ensures AnswerSimilarity(a1, a2, MultipleKind) == Some(1.0) <==> StrictEquals(a1, a2)
    ensures AnswerSimilarity(a1, a2, MultipleKind) != Some(1.0) ==> AnswerSimilarity(a1, a2, MultipleKind) == Some(0.0)
    ensures AnswerSimilarity(a1, a2, OtherKind) == Some(0.5)
  {
  }

  /** Every keyword share lies in [0, 1], and an answer shares all its keywords with itself. */
  lemma TextSimilarityBounds(a1: Answer, a2: Answer)
    ensures 0.0 <= AnswerSimilarity(a1, a2, TextKind).value <= 1.0
    ensures AnswerSimilarity(a1, a1, TextKind) == Some(1.0)
  {
    var k := Keywords(a1);
    FilterMembers(k, (w: string) => w in k);
    FilterKeepsAll(k, (w: string) => w in k);
  }

  // ---------------------------------------------------------------- the weighted tally

  /** The running totals of the scoring loop: `totalScore` is NaN once a similarity is. */
  datatype Tally = Tally(totalScore: Option<real>, totalWeight: real, totalAnswers: nat, categories: set<MetaCategory>)

  /** `totalScore += similarity * weight`, NaN-propagating. */
  function AddWeighted(total: Option<real>, similarity: Option<real>, weight: real): Option<real>
  {
    if total.Some? && similarity.Some? then Some(total.value + similarity.value * weight) else None
  }

  /**
   * The totals after visiting `u1`'s entries in order: an entry counts only
   * when `u2` holds a truthy answer to the same question.
   */
  function TallyOf(u1: seq<(string, Answer)>, u2: seq<(string, Answer)>): Tally
  {
    if u1 == [] then Tally(Some(0.0), 0.0, 0, {})
    else
      var t := TallyOf(u1[..|u1| - 1], u2);
      var entry := u1[|u1| - 1];
      if !Present(u2, entry.0) then t
      else
        var meta := QuestionMetadata(entry.0);
        var weight := CategoryWeight(meta.category);
        Tally(AddWeighted(t.totalScore, AnswerSimilarity(entry.1, Lookup(u2, entry.0).value, meta.kind), weight),
          t.totalWeight + weight, t.totalAnswers + 1, t.categories + {meta.category})
  }

  /** The weight collected is between one and two and a half per counted answer; none counted means weight 0. */
  lemma {:induction false} TallyWeights(u1: seq<(string, Answer)>, u2: seq<(string, Answer)>)
    ensures var t := TallyOf(u1, u2);
      t.totalAnswers as real <= t.totalWeight <= 2.5 * t.totalAnswers as real &&
      t.totalAnswers <= |u1| && |t.categories| <= t.totalAnswers
  {
    if u1 != [] {
      TallyWeights(u1[..|u1| - 1], u2);
      var t := TallyOf(u1[..|u1| - 1], u2);
      var meta := QuestionMetadata(u1[|u1| - 1].0);
      assert |t.categories + {meta.category}| <= |t.categories| + 1;
    }
  }

  /** A question the other user has not answered, or answered with a falsy value, changes nothing. */
  lemma SkippedQuestion(u1: seq<(string, Answer)>, u2: seq<(string, Answer)>, questionId: string, a: Answer)
    requires !Present(u2, questionId)
    ensures TallyOf(u1 + [(questionId, a)], u2) == TallyOf(u1, u2)
  {
    assert (u1 + [(questionId, a)])[..|u1|] == u1;
  }

  /** `rawScore`: the weighted mean similarity times ten, or 5 when nothing was counted. */
  function RawScore(t: Tally): Option<real>
  {
    if t.totalWeight > 0.0 then
      (if t.totalScore.Some? then Some(t.totalScore.value / t.totalWeight * 10.0) else None)
    else Some(5.0)
  }

  // ---------------------------------------------------------------- bonuses

  /** `categoryDiversity.size / 6 * 0.5`. */
  function DiversityBonus(t: Tally): real
  {
    |t.categories| as real / 6.0 * 0.5
  }

  /** `Math.min(1.0, totalAnswers / 20) * 0.5`. */
  function CompletenessBonus(t: Tally): real
  {
    MinR(1.0, t.totalAnswers as real / 20.0) * 0.5
  }

  /** `answers.interests || []`, or `None` when that is not an array. */
  function InterestList(m: seq<(string, Answer)>): Option<seq<string>>
  {
    match Lookup(m, "interests")
    case None => Some([])
    case Some(a) => if IsFalsy(a) then Some([]) else if a.Items? then Some(a.xs) else None
  }

  /** The entries of `xs` that `ys` includes, repeats included. */
  function SharedInterests(xs: seq<string>, ys: seq<string>): seq<string>
  {
    Filter(xs, (x: string) => x in ys)
  }

  /** `calculateInterestBonus`. */
  function InterestBonus(u1: seq<(string, Answer)>, u2: seq<(string, Answer)>): real
  {
    var i1, i2 := InterestList(u1), InterestList(u2);
    if i1.None? || i2.None? then 0.0
    else MinR(1.0, |SharedInterests(i1.value, i2.value)| as real * 0.2)
  }

  /**
   * The interest bonus is 0.2 per shared interest, capped at 1, and 0 when
   * either side's interests are not a list.
   */
  lemma InterestBonusBounds(u1: seq<(string, Answer)>, u2: seq<(string, Answer)>)
    ensures 0.0 <= InterestBonus(u1, u2) <= 1.0
    ensures InterestList(u1).None? || InterestList(u2).None? ==> InterestBonus(u1, u2) == 0.0
    ensures InterestList(u1).Some? && InterestList(u2).Some? ==>
      var shared := |SharedInterests(InterestList(u1).value, InterestList(u2).value)|;
      (shared >= 5 ==> InterestBonus(u1, u2) == 1.0) &&
      (shared < 5 ==> InterestBonus(u1, u2) == 0.2 * shared as real)
  {
  }

  /** `|a - b|` of two answers, NaN when either is not a number. */
  function Gap(a: Answer, b: Answer): Option<real>
  {
    match (ToNumber(a), ToNumber(b))
    case (Some(x), Some(y)) => Some(AbsR(x - y))
    case _ => None
  }

  /** `calculateCommunicationBonus`, on the answers to `communication_1`. */
  function CommunicationBonus(u1: seq<(string, Answer)>, u2: seq<(string, Answer)>): real
  {
    if !Present(u1, "communication_1") || !Present(u2, "communication_1") then 0.0
    else
      var gap := Gap(Lookup(u1, "communication_1").value, Lookup(u2, "communication_1").value);
      if gap.Some? && gap.value <= 2.0 then 0.5
      else if gap.Some? && gap.value <= 4.0 then 0.2
      else 0.0
  }

  /**
   * The communication bonus is one of 0, 0.2 and 0.5: 0.5 exactly when both
   * users gave numeric answers at most 2 apart, and nothing unless both
   * answered with numbers at most 4 apart.
   */
  lemma CommunicationBonusLevels(u1: seq<(string, Answer)>, u2: seq<(string, Answer)>)
    ensures var b := CommunicationBonus(u1, u2);
      b == 0.0 || b == 0.2 || b == 0.5
    ensures var b := CommunicationBonus(u1, u2);
      b != 0.0 ==>
        && Present(u1, "communication_1")
        && Present(u2, "communication_1")
        && var gap := Gap(Lookup(u1, "communication_1").value, Lookup(u2, "communication_1").value);
           gap.Some? && gap.value <= 4.0 && (b == 0.5 <==> gap.value <= 2.0)
  {
  }

  // ---------------------------------------------------------------- the score

  /** `Math.max(0, Math.min(10, x))`, NaN-propagating. */
  function Clamp(x: Option<real>): (r: Option<real>)
    ensures r.Some? <==> x.Some?
    ensures r.Some? ==> 0.0 <= r.value <= 10.0
    ensures x.Some? && 0.0 <= x.value <= 10.0 ==> r == x
  {
    if x.Some? then Some(MaxR(0.0, MinR(10.0, x.value))) else None
  }

  /**
   * `calculateCompatibilityScore`: 5 when either answer object is missing,
   * otherwise the raw score plus the four bonuses, clamped to [0, 10].
   */
  function CompatibilityScore(u1: Option<seq<(string, Answer)>>, u2: Option<seq<(string, Answer)>>): Option<real>
  {
    if u1.None? || u2.None? then Some(5.0)
    else
      var t := TallyOf(u1.value, u2.value);
      var raw := RawScore(t);
      if raw.None? then None
      else Clamp(Some(raw.value + DiversityBonus(t) + CompletenessBonus(t) +
        InterestBonus(u1.value, u2.value) + CommunicationBonus(u1.value, u2.value)))
  }

  /** One entry's step of the scoring loop. */
  lemma TallyStep(u1: seq<(string, Answer)>, u2: seq<(string, Answer)>, i: nat)
    requires i < |u1|
    ensures var t := TallyOf(u1[..i], u2);
      var entry := u1[i];
      TallyOf(u1[..i + 1], u2) ==
      if !Present(u2, entry.0) then t
      else
        var meta := QuestionMetadata(entry.0);
        var weight := CategoryWeight(meta.category);
        Tally(AddWeighted(t.totalScore, AnswerSimilarity(entry.1, Lookup(u2, entry.0).value, meta.kind), weight),
          t.totalWeight + weight, t.totalAnswers + 1, t.categories + {meta.category})
  {
    assert u1[..i + 1][..i] == u1[..i];
  }

  /** `calculateCompatibilityScore`, accumulating over the first user's entries. */
  method CalculateCompatibilityScore(user1Answers: Option<seq<(string, Answer)>>, user2Answers: Option<seq<(string, Answer)>>)
    returns (r: Option<real>)
    ensures r == CompatibilityScore(user1Answers, user2Answers)
  {
    if user1Answers.None? || user2Answers.None? {
      return Some(5.0);
    }
    var u1, u2 := user1Answers.value, user2Answers.value;
    var totalScore: Option<real> := Some(0.0);
    var totalWeight := 0.0;
    var categoryDiversity: set<MetaCategory> := {};
    var totalAnswers := 0;
    var i := 0;
    while i < |u1|
      invariant 0 <= i <= |u1|
      invariant Tally(totalScore, totalWeight, totalAnswers, categoryDiversity) == TallyOf(u1[..i], u2)
    {
      TallyStep(u1, u2, i);
      var (questionId, answer1) := u1[i];
      var answer2 := Lookup(u2, questionId);
      if answer2.Some? && !IsFalsy(answer2.value) {
        totalAnswers := totalAnswers + 1;
        var questionMeta := QuestionMetadata(questionId);
        var weight := CategoryWeight(questionMeta.category);
        categoryDiversity := categoryDiversity + {questionMeta.category};
        var similarity := AnswerSimilarity(answer1, answer2.value, questionMeta.kind);
        totalScore := AddWeighted(totalScore, similarity, weight);
        totalWeight := totalWeight + weight;
      }
      i := i + 1;
    }
    assert u1[..i] == u1;
    var t := Tally(totalScore, totalWeight, totalAnswers, categoryDiversity);
    var rawScore := RawScore(t);
    if rawScore.None? {
      return None;
    }
    var finalScore := rawScore.value + DiversityBonus(t) + CompletenessBonus(t);
    finalScore := finalScore + InterestBonus(u1, u2);
    finalScore := finalScore + CommunicationBonus(u1, u2);
    r := Clamp(Some(finalScore));
  }

  /**
   * The score is 5 when either answer object is missing, always within
   * [0, 10] when it is a number, and, before the bonuses, exactly 5 when no
   * question of the first user has a truthy answer from the second.
   */
  lemma CompatibilityScoreBounds(u1: Option<seq<(string, Answer)>>, u2: Option<seq<(string, Answer)>>)
    ensures u1.None? || u2.None? ==> CompatibilityScore(u1, u2) == Some(5.0)
    ensures CompatibilityScore(u1, u2).Some? ==> 0.0 <= CompatibilityScore(u1, u2).value <= 10.0
    ensures u1.Some? && u2.Some? && TallyOf(u1.value, u2.value).totalAnswers == 0 ==>
      RawScore(TallyOf(u1.value, u2.value)) == Some(5.0)
  {
    if u1.Some? && u2.Some? {
      TallyWeights(u1.value, u2.value);
    }
  }

  /** Answers that are all numbers never make the score NaN. */
  lemma NumericAnswersScore(u1: seq<(string, Answer)>, u2: seq<(string, Answer)>)
    requires forall i :: 0 <= i < |u1| ==> u1[i].1.Num?
    requires forall i :: 0 <= i < |u2| ==> u2[i].1.Num?
    ensures CompatibilityScore(Some(u1), Some(u2)).Some?
  {
    NumericTally(u1, u2);
  }

  lemma {:induction false} NumericTally(u1: seq<(string, Answer)>, u2: seq<(string, Answer)>)
    requires forall i :: 0 <= i < |u1| ==> u1[i].1.Num?
    requires forall i :: 0 <= i < |u2| ==> u2[i].1.Num?
    ensures TallyOf(u1, u2).totalScore.Some?
  {
    if u1 != [] {
      var init := u1[..|u1| - 1];
      NumericTally(init, u2);
      var entry := u1[|u1| - 1];
      if Present(u2, entry.0) {
        LookupIn(u2, entry.0);
        var meta := QuestionMetadata(entry.0);
        assert AnswerSimilarity(entry.1, Lookup(u2, entry.0).value, meta.kind).Some?;
      }
    }
  }

  /** A value found by lookup is stored in the object. */
  lemma {:induction false} LookupIn(m: seq<(string, Answer)>, key: string)
    requires Lookup(m, key).Some?
    ensures exists i :: 0 <= i < |m| && m[i] == (key, Lookup(m, key).value)
  {
    if m[0].0 != key {
      LookupIn(m[1..], key);
      var i :| 0 <= i < |m[1..]| && m[1..][i] == (key, Lookup(m, key).value);
      assert m[i + 1] == m[1..][i];
    } else {
      assert m[0] == (key, Lookup(m, key).value);
    }
  }

  // ---------------------------------------------------------------- match explanation

  datatype MatchExplanation = MatchExplanation(strengths: seq<string>, challenges: seq<string>, commonInterests: seq<string>)

  const SimilarPersonality: string := "Similar personality types"
  const DifferentPersonality: string := "Different personality approaches"
  const AlignedValues: string := "Aligned core values"
  const CompatibleCommunication: string := "Compatible communication styles"
  const FilterError: string := "filter is not a function"
  const IncludesError: string := "includes is not a function"

  /** `answers[key] || 5`. */
  function OrFive(m: seq<(string, Answer)>, key: string): Answer
  {
    if Present(m, key) then Lookup(m, key).value else Num(5)
  }

  /** `hay.includes(x)` where `hay` is `answers.interests || []`; `None` when `hay` has no `includes`. */
  function Includes(hay: Answer, x: string): Option<bool>
  {
    match hay
    case Items(ys) => Some(x in ys)
    case Str(s) => Some(Contains(s, x))
    case _ => if IsFalsy(hay) then Some(false) else None
  }

  /** `xs.filter(i => hay.includes(i))`, failing on the first call that throws. */
  function FilterIncluded(xs: seq<string>, hay: Answer): (r: Result<seq<string>>)
    ensures r.Failure? ==> r.error == IncludesError
  {
    if xs == [] then Success([])
    else
      match Includes(hay, xs[0])
      case None => Failure(IncludesError)
      case Some(b) =>
        match FilterIncluded(xs[1..], hay)
        case Failure(e) => Failure(e)
        case Success(rest) => Success((if b then [xs[0]] else []) + rest)
  }

  /** `(answers.interests || [])`. */
  function InterestsOrEmpty(m: seq<(string, Answer)>): Answer
  {
    if Present(m, "interests") then Lookup(m, "interests").value else Items([])
  }

  /** The common interests of `getMatchExplanation`: it throws unless the first user's interests are a list. */
  function CommonInterests(u1: seq<(string, Answer)>, u2: seq<(string, Answer)>): (r: Result<seq<string>>)
    ensures r.Failure? ==> r.error == FilterError || r.error == IncludesError
    ensures r.Success? ==>
      && InterestsOrEmpty(u1).Items?
      && forall i :: 0 <= i < |r.value| ==> r.value[i] in InterestsOrEmpty(u1).xs
  {
    match InterestsOrEmpty(u1)
    case Items(xs) =>
      var r := FilterIncluded(xs, InterestsOrEmpty(u2));
      FilterIncludedMembers(xs, InterestsOrEmpty(u2));
      r
    case _ => Failure(FilterError)
  }

  /** What the filter keeps is exactly the entries the other side includes. */
  lemma {:induction false} FilterIncludedMembers(xs: seq<string>, hay: Answer)
    ensures FilterIncluded(xs, hay).Success? ==>
      (forall i :: 0 <= i < |FilterIncluded(xs, hay).value| ==>
        FilterIncluded(xs, hay).value[i] in xs && Includes(hay, FilterIncluded(xs, hay).value[i]) == Some(true)) &&
      (forall i :: 0 <= i < |xs| && Includes(hay, xs[i]) == Some(true) ==> xs[i] in FilterIncluded(xs, hay).value)
    ensures FilterIncluded(xs, hay).Failure? <==> xs != [] && !IsFalsy(hay) && !hay.Items? && !hay.Str?
  {
    if xs != [] {
      FilterIncludedMembers(xs[1..], hay);
      if FilterIncluded(xs, hay).Success? {
        var r, rest := FilterIncluded(xs, hay).value, FilterIncluded(xs[1..], hay).value;
        forall i | 0 <= i < |xs| && Includes(hay, xs[i]) == Some(true) ensures xs[i] in r {
          if i > 0 {
            assert xs[i] == xs[1..][i - 1];
          }
        }
      }
    }
  }

  /**
   * `getMatchExplanation`: common interests, then a strength per answer
   * pair (personality, values, communication, each defaulting to 5) at most
   * 2 apart, and a challenge when the personality answers are 6 or more
   * apart; NaN gaps produce neither.
   */
  function MatchExplanationOf(u1: seq<(string, Answer)>, u2: seq<(string, Answer)>): Result<MatchExplanation>
  {
    match CommonInterests(u1, u2)
    case Failure(e) => Failure(e)
    case Success(common) =>
      var personality := Gap(OrFive(u1, "personality_1"), OrFive(u2, "personality_1"));
      var values := Gap(OrFive(u1, "values_1"), OrFive(u2, "values_1"));
      var communication := Gap(OrFive(u1, "communication_1"), OrFive(u2, "communication_1"));
      var strengths :=
        (if personality.Some? && personality.value <= 2.0 then [SimilarPersonality] else []) +
        (if values.Some? && values.value <= 2.0 then [AlignedValues] else []) +
        (if communication.Some? && communication.value <= 2.0 then [CompatibleCommunication] else []);
      var challenges := if personality.Some? && personality.value >= 6.0 then [DifferentPersonality] else [];
      Success(MatchExplanation(strengths, challenges, common))
  }

  /**
   * Each strength is listed exactly when its gap is at most 2, the
   * challenge exactly when the personality gap is at least 6, so a pair
   * never gets both a personality strength and a personality challenge.
   */
  lemma MatchExplanationExact(u1: seq<(string, Answer)>, u2: seq<(string, Answer)>)
    requires MatchExplanationOf(u1, u2).Success?
    ensures var e := MatchExplanationOf(u1, u2).value;
      var personality := Gap(OrFive(u1, "personality_1"), OrFive(u2, "personality_1"));
      var values := Gap(OrFive(u1, "values_1"), OrFive(u2, "values_1"));
      var communication := Gap(OrFive(u1, "communication_1"), OrFive(u2, "communication_1"));
      (SimilarPersonality in e.strengths <==> personality.Some? && personality.value <= 2.0) &&
      (AlignedValues in e.strengths <==> values.Some? && values.value <= 2.0) &&
      (CompatibleCommunication in e.strengths <==> communication.Some? && communication.value <= 2.0) &&
      (DifferentPersonality in e.challenges <==> personality.Some? && personality.value >= 6.0) &&
      !(SimilarPersonality in e.strengths && DifferentPersonality in e.challenges) &&
      |e.strengths| <= 3 && |e.challenges| <= 1
  {
  }

  /**
   * With no answers stored for the personality, values and communication
   * questions both sides default to 5, so all three strengths are listed.
   */
  lemma DefaultsAgree(u1: seq<(string, Answer)>, u2: seq<(string, Answer)>)
    requires MatchExplanationOf(u1, u2).Success?
    requires !Present(u1, "personality_1") && !Present(u2, "personality_1")
    requires !Present(u1, "values_1") && !Present(u2, "values_1")
    requires !Present(u1, "communication_1") && !Present(u2, "communication_1")
    ensures MatchExplanationOf(u1, u2).value.strengths == [SimilarPersonality, AlignedValues, CompatibleCommunication]
    ensures MatchExplanationOf(u1, u2).value.challenges == []
  {
  }

  // ---------------------------------------------------------------- candidates

  /** A user as the legacy matcher reads them, with the `(questionId, answer)` rows of their quiz. */
  datatype Profile = Profile(
    id: string,
    age: Option<int>,
    location: Option<string>,
    interests: seq<string>,
    isActive: bool,
    answers: seq<(string, Answer)>)

  /** A row of the matches table. */
  datatype MatchRecord = MatchRecord(initiator: string, receiver: string)

  /** The other side of a match the user takes part in. */
  function Counterpart(userId: string, m: MatchRecord): string
  {
    if m.initiator == userId then m.receiver else m.initiator
  }

  function Counterparts(userId: string, ms: seq<MatchRecord>): (r: seq<string>)
    ensures |r| == |ms|
    ensures forall k :: 0 <= k < |ms| ==> r[k] == Counterpart(userId, ms[k])
  {
    if ms == [] then [] else [Counterpart(userId, ms[0])] + Counterparts(userId, ms[1..])
  }

  /** The existing matches the user initiated or received. */
  function MatchesOf(userId: string, existing: seq<MatchRecord>): seq<MatchRecord>
  {
    Filter(existing, (m: MatchRecord) => m.initiator == userId || m.receiver == userId)
  }

  /** The ids excluded from matching: the counterpart of every existing match, then the user. */
  function ExcludedIds(userId: string, existing: seq<MatchRecord>): seq<string>
  {
    Counterparts(userId, MatchesOf(userId, existing)) + [userId]
  }

  /**
   * An id is excluded exactly when it is the user's own or the other side
   * of a match the user initiated or received.
   */
  lemma ExcludedIdsExact(userId: string, existing: seq<MatchRecord>, x: string)
    ensures x in ExcludedIds(userId, existing) <==>
      x == userId ||
      exists m :: m in existing && ((m.initiator == userId && m.receiver == x) || (m.receiver == userId && m.initiator == x))
  {
    var p := (m: MatchRecord) => m.initiator == userId || m.receiver == userId;
    var mine := MatchesOf(userId, existing);
    FilterMembers(existing, p);
    var cs := Counterparts(userId, mine);
    if x in cs && x != userId {
      var k :| 0 <= k < |cs| && cs[k] == x;
      assert mine[k] in existing;
    }
    if exists m :: m in existing && ((m.initiator == userId && m.receiver == x) || (m.receiver == userId && m.initiator == x)) {
      var m :| m in existing && ((m.initiator == userId && m.receiver == x) || (m.receiver == userId && m.initiator == x));
      if x != userId {
        var j :| 0 <= j < |existing| && existing[j] == m;
        assert m in mine;
        var k :| 0 <= k < |mine| && mine[k] == m;
        assert cs[k] == x;
      }
    }
  }

  /** A user paired with the score the ranking sorts by. */
  datatype Scored = Scored(user: Profile, score: real)

  /** The ranking comparator: higher score first. */
  function ByScore(): (Scored, Scored) -> bool
  {
    (a: Scored, b: Scored) => a.score >= b.score
  }

  lemma ByScoreTotal()
    ensures TotalPreorder(ByScore())
  {
  }

  // ---------------------------------------------------------------- basic profile matching

  /** `x ? ... : ...` on a nullable age. */
  predicate AgeTruthy(age: Option<int>)
  {
    age.Some? && age.value != 0
  }

  /** The query of `findBasicProfileMatches`: not excluded, active, and within ten years when the user's age is known. */
  predicate BasicQuery(me: Profile, excluded: seq<string>, c: Profile)
  {
    && c.id !in excluded
    && c.isActive
    && (AgeTruthy(me.age) ==>
          var lo := if me.age.value - 10 > 18 then me.age.value - 10 else 18;
          c.age.Some? && lo <= c.age.value <= me.age.value + 10)
  }

  function LowerAll(xs: seq<string>): (r: seq<string>)
    ensures |r| == |xs|
  {
    if xs == [] then [] else [ToLower(xs[0])] + LowerAll(xs[1..])
  }

  /**
   * The unrounded basic score: 5, plus 1 for the same location ignoring
   * case, 0.5 per shared interest ignoring case, and up to 2 for close ages.
   */
  function BasicRawScore(me: Profile, c: Profile): real
  {
    var location :=
      if Truthy(me.location) && Truthy(c.location) && ToLower(me.location.value) == ToLower(c.location.value)
      then 1.0 else 0.0;
    var shared := |SharedInterests(LowerAll(me.interests), LowerAll(c.interests))|;
    var age :=
      if AgeTruthy(me.age) && AgeTruthy(c.age) then MaxR(0.0, 2.0 - AbsR((me.age.value - c.age.value) as real) * 0.2)
      else 0.0;
    5.0 + location + shared as real * 0.5 + age
  }

  /** `Math.min(10, Number(score.toFixed(1)))`. */
  function BasicScore(me: Profile, c: Profile): real
  {
    MinR(10.0, RoundToTenths(BasicRawScore(me, c)))
  }

  /** Every increment is non-negative and the cap is 10, so a basic score lies in [5, 10]. */
  lemma BasicScoreBounds(me: Profile, c: Profile)
    ensures 5.0 <= BasicScore(me, c) <= 10.0
  {
    var raw := BasicRawScore(me, c);
    assert raw >= 5.0;
    RoundToTenthsMonotone(5.0, raw);
    RoundToTenthsBetween(5.0, 5, 5);
  }

  function ScoreBasic(me: Profile, cs: seq<Profile>): (r: seq<Scored>)
    ensures |r| == |cs|
    ensures forall k :: 0 <= k < |cs| ==> r[k] == Scored(cs[k], BasicScore(me, cs[k]))
  {
    if cs == [] then [] else [Scored(cs[0], BasicScore(me, cs[0]))] + ScoreBasic(me, cs[1..])
  }

  /**
   * `findBasicProfileMatches`: nothing for an unknown user, otherwise the
   * first `limit` users of the query, scored and ranked by descending score.
   */
  function BasicProfileMatches(me: Option<Profile>, pool: seq<Profile>, existing: seq<MatchRecord>, limit: nat): seq<Scored>
  {
    if me.None? then []
    else
      var excluded := ExcludedIds(me.value.id, existing);
      var basicMatches := Take(Filter(pool, (c: Profile) => BasicQuery(me.value, excluded, c)), limit);
      Sort(ScoreBasic(me.value, basicMatches), ByScore())
  }

  /**
   * The basic matches are at most `limit`, ranked by descending score, and
   * each is a user the query admits, carrying their basic score in [5, 10].
   */
  lemma BasicProfileMatchesSound(me: Option<Profile>, pool: seq<Profile>, existing: seq<MatchRecord>, limit: nat)
    ensures var r := BasicProfileMatches(me, pool, existing, limit);
      |r| <= limit && Sorted(r, ByScore()) &&
      (me.None? ==> r == []) &&
      forall s :: s in r ==>
        s.user in pool && BasicQuery(me.value, ExcludedIds(me.value.id, existing), s.user) &&
        s.score == BasicScore(me.value, s.user) && 5.0 <= s.score <= 10.0
  {
    if me.Some? {
      var excluded := ExcludedIds(me.value.id, existing);
      var p := (c: Profile) => BasicQuery(me.value, excluded, c);
      var found := Filter(pool, p);
      var basicMatches := Take(found, limit);
      var scored := ScoreBasic(me.value, basicMatches);
      FilterMembers(pool, p);
      SortMembers(scored, ByScore());
      ByScoreTotal();
      SortSorted(scored, ByScore());
      forall s | s in scored
        ensures s.user in pool && p(s.user) && s.score == BasicScore(me.value, s.user) && 5.0 <= s.score <= 10.0
      {
        var k :| 0 <= k < |scored| && scored[k] == s;
        assert basicMatches[k] == found[k];
        BasicScoreBounds(me.value, s.user);
      }
    }
  }

  // ---------------------------------------------------------------- quiz matching

  /** The candidate query of `findCompatibleMatches`: not excluded, active, with at least one answer. */
  predicate QuizQuery(excluded: seq<string>, c: Profile)
  {
    c.id !in excluded && c.isActive && |c.answers| > 0
  }

  /** The first hundred users of the candidate query. */
  function QuizCandidates(me: Profile, pool: seq<Profile>, existing: seq<MatchRecord>): seq<Profile>
  {
    var excluded := ExcludedIds(me.id, existing);
    Take(Filter(pool, (c: Profile) => QuizQuery(excluded, c)), 100)
  }

  /** `Number(score.toFixed(1))` of the quiz score; candidates whose score is NaN are dropped. */
  function ScoreQuiz(me: Profile, cs: seq<Profile>): (r: seq<Scored>)
    ensures |r| <= |cs|
    ensures forall s :: s in r ==>
      && s.user in cs
      && CompatibilityScore(Some(me.answers), Some(s.user.answers)).Some?
      && s.score == RoundToTenths(CompatibilityScore(Some(me.answers), Some(s.user.answers)).value)
  {
    if cs == [] then []
    else
      var score := CompatibilityScore(Some(me.answers), Some(cs[0].answers));
      var rest := ScoreQuiz(me, cs[1..]);
      assert forall s :: s in rest ==> s.user in cs;
      (if score.Some? then [Scored(cs[0], RoundToTenths(score.value))] else []) + rest
  }

  /** The answer of `findCompatibleMatches`: quiz matches, or the basic fallback when no candidate has answers. */
  datatype CompatibleMatches = QuizMatches(matches: seq<Scored>) | BasicMatches(matches: seq<Scored>)

  const LegacyUserNotFound: string := "User not found"

  /** Keeps the decent matches, scoring 6 or more. */
  function Decent(s: seq<Scored>): seq<Scored>
  {
    Filter(s, (x: Scored) => x.score >= 6.0)
  }

  /**
   * `findCompatibleMatches`: fails for an unknown user, returns nothing when
   * the user has not answered the quiz, falls back to basic matching when no
   * candidate has, and otherwise keeps the decent ones among the `limit`
   * best-scored candidates.
   */
  function CompatibleMatchesOf(me: Option<Profile>, pool: seq<Profile>, existing: seq<MatchRecord>, limit: nat)
    : Result<CompatibleMatches>
  {
    if me.None? then Failure(LegacyUserNotFound)
    else if |me.value.answers| == 0 then Success(QuizMatches([]))
    else
      var potentialMatches := QuizCandidates(me.value, pool, existing);
      if potentialMatches == [] then Success(BasicMatches(BasicProfileMatches(me, pool, existing, limit)))
      else Success(QuizMatches(Decent(Take(Sort(ScoreQuiz(me.value, potentialMatches), ByScore()), limit))))
  }

  /**
   * An unknown user is the only failure; a user without answers gets no
   * matches; and whichever list comes back, quiz or basic, has at most
   * `limit` entries ranked by descending score.
   */
  lemma CompatibleMatchesOutcome(me: Option<Profile>, pool: seq<Profile>, existing: seq<MatchRecord>, limit: nat)
    ensures CompatibleMatchesOf(me, pool, existing, limit).Failure? <==> me.None?
    ensures me.Some? && |me.value.answers| == 0 ==> CompatibleMatchesOf(me, pool, existing, limit) == Success(QuizMatches([]))
    ensures CompatibleMatchesOf(me, pool, existing, limit).Success? ==>
      var r := CompatibleMatchesOf(me, pool, existing, limit).value.matches;
      |r| <= limit && Sorted(r, ByScore())
  {
    if me.Some? && |me.value.answers| > 0 {
      var potentialMatches := QuizCandidates(me.value, pool, existing);
      if potentialMatches == [] {
        BasicProfileMatchesSound(me, pool, existing, limit);
      } else {
        var top := Take(Sort(ScoreQuiz(me.value, potentialMatches), ByScore()), limit);
        ByScoreTotal();
        SortSorted(ScoreQuiz(me.value, potentialMatches), ByScore());
        assert Sorted(top, ByScore());
        FilterSorted(top, (x: Scored) => x.score >= 6.0, ByScore());
      }
    }
  }

  /**
   * Every quiz match scores at least 6 and is a non-excluded active user
   * with answers, whose score is their compatibility score rounded to one
   * decimal.
   */
  lemma QuizMatchesSound(me: Profile, pool: seq<Profile>, existing: seq<MatchRecord>, limit: nat)
    requires |me.answers| > 0 && QuizCandidates(me, pool, existing) != []
    ensures CompatibleMatchesOf(Some(me), pool, existing, limit).Success?
    ensures CompatibleMatchesOf(Some(me), pool, existing, limit).value.QuizMatches?
    ensures forall s :: s in CompatibleMatchesOf(Some(me), pool, existing, limit).value.matches ==>
      && s.score >= 6.0
      && s.user in pool
      && QuizQuery(ExcludedIds(me.id, existing), s.user)
      && CompatibilityScore(Some(me.answers), Some(s.user.answers)).Some?
      && s.score == RoundToTenths(CompatibilityScore(Some(me.answers), Some(s.user.answers)).value)
  {
    var excluded := ExcludedIds(me.id, existing);
    var q := (c: Profile) => QuizQuery(excluded, c);
    var potentialMatches := QuizCandidates(me, pool, existing);
    var scored := ScoreQuiz(me, potentialMatches);
    var sorted := Sort(scored, ByScore());
    var top := Take(sorted, limit);
    FilterMembers(pool, q);
    assert forall c :: c in potentialMatches ==> c in Filter(pool, q);
    SortMembers(scored, ByScore());
    FilterMembers(top, (x: Scored) => x.score >= 6.0);
    forall s | s in top ensures s in sorted {
    }
  }
}
