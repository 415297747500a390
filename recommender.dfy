/**
 * The personalised question recommender: category statistics of a user's
 * answers, the three-phase selection of the next questions (essential
 * high-weight questions for new users, one question per least-complete
 * category, then the heaviest remaining questions), and the improvement,
 * readiness and recommendation figures reported with them.
 */
module QuestionSelection {
  import opened Wrappers
  import opened JsValues
  import opened Seqs
  import opened Catalog
  import EnhancedMatching

  // ---------------------------------------------------------------- category statistics

  /** One entry of `analyzeCategoryDistribution`. */
  datatype CategoryStats = CategoryStats(
    category: Category,
    count: nat,
    totalWeight: int,
    averageWeight: real,
    completionScore: nat)

  function StatsOf(answers: seq<UserAnswer>, c: Category): CategoryStats
  {
    var a := EnhancedMatching.AnalyzeCategory(answers, c);
    CategoryStats(c, a.answered, a.totalWeight, a.averageWeight, if a.answered < 10 then a.answered else 10)
  }

  function StatsFor(answers: seq<UserAnswer>, cats: seq<Category>): (r: seq<CategoryStats>)
    ensures |r| == |cats|
    ensures forall k :: 0 <= k < |cats| ==> r[k] == StatsOf(answers, cats[k])
  {
    if cats == [] then [] else [StatsOf(answers, cats[0])] + StatsFor(answers, cats[1..])
  }

  /**
   * `analyzeCategoryDistribution`: for each of the six categories, in order,
   * the answer count, weight total and average, and the completion score
   * `min(10, count)`.
   */
  function AnalyzeCategoryDistribution(answers: seq<UserAnswer>): (r: seq<CategoryStats>)
    ensures |r| == |Categories|
    ensures forall k :: 0 <= k < |Categories| ==>
      && r[k].category == Categories[k]
      && r[k].count == |AnswersIn(answers, Categories[k])|
      && r[k].completionScore <= 10
      && r[k].completionScore == (if r[k].count < 10 then r[k].count else 10)
  {
    StatsFor(answers, Categories)
  }

  /** `categoryStats[c]?.completionScore || 0`. */
  function CompletionOf(stats: seq<CategoryStats>, c: Category): nat
  {
    if stats == [] then 0
    else if stats[0].category == c then stats[0].completionScore
    else CompletionOf(stats[1..], c)
  }

  // ---------------------------------------------------------------- selection

  function InCategory(qs: seq<Question>, c: Category): seq<Question>
  {
    Filter(qs, (q: Question) => q.category == c)
  }

  /** The comparator `b.weight - a.weight`: heavier first. */
  function ByWeight(): (Question, Question) -> bool
  {
    (a: Question, b: Question) => a.weight >= b.weight
  }

  /** The comparator `scoreA - scoreB`: least complete category first. */
  function ByCompletion(stats: seq<CategoryStats>): (Category, Category) -> bool
  {
    (a: Category, b: Category) => CompletionOf(stats, a) <= CompletionOf(stats, b)
  }

  /** A category's questions, heaviest first (`questionsByCategory[c]` after sorting). */
  function Group(available: seq<Question>, c: Category): seq<Question>
  {
    Sort(InCategory(available, c), ByWeight())
  }

  /** The categories of some questions in order of first appearance (`Object.keys(questionsByCategory)`). */
  function CategoriesOf(qs: seq<Question>): (r: seq<Category>)
    ensures forall c :: c in r <==> exists k :: 0 <= k < |qs| && qs[k].category == c
    ensures forall i, j :: 0 <= i < j < |r| ==> r[i] != r[j]
  {
    if qs == [] then []
    else
      var init := CategoriesOf(qs[..|qs| - 1]);
      var c := qs[|qs| - 1].category;
      assert forall k :: 0 <= k < |qs| - 1 ==> qs[..|qs| - 1][k] == qs[k];
      if c in init then init else init + [c]
  }

  /** `selected.find(sq => sq.id === id)` finds something. */
  predicate HasId(selected: seq<Question>, id: string)
  {
    selected != [] && (selected[0].id == id || HasId(selected[1..], id))
  }

  /** The questions whose id is not yet selected. */
  function Unselected(qs: seq<Question>, selected: seq<Question>): seq<Question>
  {
    Filter(qs, (q: Question) => !HasId(selected, q.id))
  }

  /** Phase 1: for fewer than five answers, the first `min(3, limit)` questions of weight 8 or more. */
  function EssentialPhase(available: seq<Question>, currentAnswerCount: nat, limit: nat): seq<Question>
  {
    if currentAnswerCount < 5 then Take(Filter(available, (q: Question) => q.weight >= 8), if 3 < limit then 3 else limit)
    else []
  }

  /**
   * Phase 2: visiting the categories in order, while fewer than `limit`
   * are selected, the first unselected question of each category's group.
   */
  function DiversityPhase(selected: seq<Question>, cats: seq<Category>, available: seq<Question>, limit: nat)
    : seq<Question>
    decreases |cats|
  {
    if cats == [] || |selected| >= limit then selected
    else
      var unpicked := Unselected(Group(available, cats[0]), selected);
      DiversityPhase(if unpicked != [] then selected + [unpicked[0]] else selected, cats[1..], available, limit)
  }

  /** Phase 3: the heaviest unselected questions up to `limit`. */
  function FillPhase(selected: seq<Question>, available: seq<Question>, limit: nat): seq<Question>
  {
    if |selected| < limit then selected + Take(Sort(Unselected(available, selected), ByWeight()), limit - |selected|)
    else selected
  }

  /** The categories in the order phase 2 visits them. */
  function VisitOrder(available: seq<Question>, stats: seq<CategoryStats>): seq<Category>
  {
    Sort(CategoriesOf(available), ByCompletion(stats))
  }

  /** `selectQuestionsWithDiversityBonus`: the three phases, cut to `limit`. */
  function SelectQuestions(available: seq<Question>, stats: seq<CategoryStats>, currentAnswerCount: nat, limit: nat)
    : seq<Question>
  {
    var essential := EssentialPhase(available, currentAnswerCount, limit);
    var diverse :=
      if |essential| < limit then DiversityPhase(essential, VisitOrder(available, stats), available, limit)
      else essential;
    Take(FillPhase(diverse, available, limit), limit)
  }

  /** One question's step of the grouping loop. */
  lemma GroupStep(qs: seq<Question>, i: nat)
    requires i < |qs|
    ensures CategoriesOf(qs[..i + 1]) ==
      if qs[i].category in CategoriesOf(qs[..i]) then CategoriesOf(qs[..i]) else CategoriesOf(qs[..i]) + [qs[i].category]
    ensures forall c :: InCategory(qs[..i + 1], c) == InCategory(qs[..i], c) + (if qs[i].category == c then [qs[i]] else [])
  {
    assert qs[..i + 1][..i] == qs[..i];
    assert qs[..i + 1] == qs[..i] + [qs[i]];
    forall c ensures InCategory(qs[..i + 1], c) == InCategory(qs[..i], c) + (if qs[i].category == c then [qs[i]] else []) {
      FilterAppend(qs[..i], qs[i], (q: Question) => q.category == c);
    }
  }

  /** A category that no question has gets an empty list. */
  lemma {:induction false} AbsentCategory(qs: seq<Question>, c: Category)
    requires c !in CategoriesOf(qs)
    ensures InCategory(qs, c) == []
  {
    FilterNone(qs, (q: Question) => q.category == c);
  }

  /** The grouping of `selectQuestionsWithDiversityBonus`: each category's questions in pool order. */
  method GroupInOrder(availableQuestions: seq<Question>)
    returns (questionsByCategory: map<Category, seq<Question>>, categories: seq<Category>)
    ensures categories == CategoriesOf(availableQuestions)
    ensures forall c :: c in questionsByCategory <==> c in categories
    ensures forall c :: c in questionsByCategory ==> questionsByCategory[c] == InCategory(availableQuestions, c)
  {
    questionsByCategory := map[];
    categories := [];
    var i := 0;
    while i < |availableQuestions|
      invariant 0 <= i <= |availableQuestions|
      invariant categories == CategoriesOf(availableQuestions[..i])
      invariant forall c :: c in questionsByCategory <==> c in categories
      invariant forall c :: c in questionsByCategory ==> questionsByCategory[c] == InCategory(availableQuestions[..i], c)
    {
      var q := availableQuestions[i];
      GroupStep(availableQuestions, i);
      if q.category !in questionsByCategory {
        AbsentCategory(availableQuestions[..i], q.category);
        questionsByCategory := questionsByCategory[q.category := []];
        categories := categories + [q.category];
      }
      questionsByCategory := questionsByCategory[q.category := questionsByCategory[q.category] + [q]];
      i := i + 1;
    }
    assert availableQuestions[..i] == availableQuestions;
  }

  /** Sorts each category's questions, heaviest first. */
  method SortGroups(
    availableQuestions: seq<Question>, grouped: map<Category, seq<Question>>, categories: seq<Category>)
    returns (questionsByCategory: map<Category, seq<Question>>)
    requires forall i, j :: 0 <= i < j < |categories| ==> categories[i] != categories[j]
    requires forall c :: c in grouped <==> c in categories
    requires forall c :: c in grouped ==> grouped[c] == InCategory(availableQuestions, c)
    ensures forall c :: c in questionsByCategory <==> c in categories
    ensures forall c :: c in questionsByCategory ==> questionsByCategory[c] == Group(availableQuestions, c)
  {
    questionsByCategory := grouped;
    var j := 0;
    while j < |categories|
      invariant 0 <= j <= |categories|
      invariant forall c :: c in questionsByCategory <==> c in categories
      invariant SortedUpTo(questionsByCategory, availableQuestions, categories[..j])
    {
      var c := categories[j];
      SortedStep(questionsByCategory, availableQuestions, categories, j);
      questionsByCategory := questionsByCategory[c := Sort(questionsByCategory[c], ByWeight())];
      j := j + 1;
    }
    assert categories[..j] == categories;
  }

  /** The groups of the categories in `done` are sorted, the others still in pool order. */
  ghost predicate SortedUpTo(m: map<Category, seq<Question>>, available: seq<Question>, done: seq<Category>)
  {
    forall c :: c in m ==> m[c] == if c in done then Group(available, c) else InCategory(available, c)
  }

  /** Sorting the next category's group extends the sorted categories by one. */
  lemma SortedStep(m: map<Category, seq<Question>>, available: seq<Question>, categories: seq<Category>, j: nat)
    requires j < |categories| && categories[j] in m
    requires forall i, k :: 0 <= i < k < |categories| ==> categories[i] != categories[k]
    requires SortedUpTo(m, available, categories[..j])
    ensures SortedUpTo(m[categories[j] := Sort(m[categories[j]], ByWeight())], available, categories[..j + 1])
  {
    var c := categories[j];
    assert c !in categories[..j];
    assert categories[..j + 1] == categories[..j] + [c];
    var m' := m[c := Sort(m[c], ByWeight())];
    forall d | d in m' ensures m'[d] == if d in categories[..j + 1] then Group(available, d) else InCategory(available, d) {
      if d != c {
        assert d in categories[..j + 1] <==> d in categories[..j];
      }
    }
  }

  /** Phase 2 of `selectQuestionsWithDiversityBonus`, over the grouped questions. */
  method PickPerCategory(
    selected: seq<Question>, sortedCategories: seq<Category>,
    questionsByCategory: map<Category, seq<Question>>, availableQuestions: seq<Question>, limit: nat)
    returns (selectedQuestions: seq<Question>)
    requires forall c :: c in sortedCategories ==> c in questionsByCategory
    requires forall c :: c in questionsByCategory ==> questionsByCategory[c] == Group(availableQuestions, c)
    ensures selectedQuestions == DiversityPhase(selected, sortedCategories, availableQuestions, limit)
  {
    selectedQuestions := selected;
    var k := 0;
    while k < |sortedCategories|
      invariant 0 <= k <= |sortedCategories|
      invariant DiversityPhase(selectedQuestions, sortedCategories[k..], availableQuestions, limit) ==
        DiversityPhase(selected, sortedCategories, availableQuestions, limit)
    {
      if |selectedQuestions| >= limit {
        break;
      }
      var category := sortedCategories[k];
      var categoryQuestions := questionsByCategory[category];
      var availableFromCategory := Unselected(categoryQuestions, selectedQuestions);
      assert sortedCategories[k..][1..] == sortedCategories[k + 1..];
      if |availableFromCategory| > 0 {
        selectedQuestions := selectedQuestions + [availableFromCategory[0]];
      }
      k := k + 1;
    }
  }

  /** Phase 1 of `selectQuestionsWithDiversityBonus`: essential high-weight questions for new users. */
  method PickEssential(availableQuestions: seq<Question>, currentAnswerCount: nat, limit: nat)
    returns (selectedQuestions: seq<Question>)
    ensures selectedQuestions == EssentialPhase(availableQuestions, currentAnswerCount, limit)
  {
    selectedQuestions := [];
    if currentAnswerCount < 5 {
      selectedQuestions := Take(Filter(availableQuestions, (q: Question) => q.weight >= 8), if 3 < limit then 3 else limit);
    }
  }

  /** Phase 3 of `selectQuestionsWithDiversityBonus`: the heaviest remaining questions. */
  method FillRemaining(selected: seq<Question>, availableQuestions: seq<Question>, limit: nat)
    returns (selectedQuestions: seq<Question>)
    ensures selectedQuestions == FillPhase(selected, availableQuestions, limit)
  {
    selectedQuestions := selected;
    if |selectedQuestions| < limit {
      var remainingQuestions := Sort(Unselected(availableQuestions, selectedQuestions), ByWeight());
      var needed := limit - |selectedQuestions|;
      selectedQuestions := selectedQuestions + Take(remainingQuestions, needed);
    }
  }

  /** `selectQuestionsWithDiversityBonus`: grouping, then the three phases, cut to `limit`. */
  method SelectQuestionsWithDiversityBonus(
    availableQuestions: seq<Question>, categoryStats: seq<CategoryStats>, currentAnswerCount: nat, limit: nat)
    returns (r: seq<Question>)
    ensures r == SelectQuestions(availableQuestions, categoryStats, currentAnswerCount, limit)
  {
    var grouped, categories := GroupInOrder(availableQuestions);
    var questionsByCategory := SortGroups(availableQuestions, grouped, categories);
    var selectedQuestions := PickEssential(availableQuestions, currentAnswerCount, limit);
    if |selectedQuestions| < limit {
      var sortedCategories := Sort(categories, ByCompletion(categoryStats));
      SortMembers(categories, ByCompletion(categoryStats));
      selectedQuestions :=
        PickPerCategory(selectedQuestions, sortedCategories, questionsByCategory, availableQuestions, limit);
    }
    selectedQuestions := FillRemaining(selectedQuestions, availableQuestions, limit);
    r := Take(selectedQuestions, limit);
  }

  // ---------------------------------------------------------------- properties of the selection

  function IdOf(q: Question): string
  {
    q.id
  }

  /** The ids of some questions, in order. */
  function Ids(qs: seq<Question>): (r: seq<string>)
    ensures |r| == |qs|
    ensures forall k :: 0 <= k < |qs| ==> r[k] == qs[k].id
  {
    if qs == [] then [] else [qs[0].id] + Ids(qs[1..])
  }

  /** `selected.find(sq => sq.id === id)` succeeds exactly when some selected question has that id. */
  lemma {:induction false} HasIdExact(selected: seq<Question>, id: string)
    ensures HasId(selected, id) <==> id in Ids(selected)
  {
    if selected != [] {
      HasIdExact(selected[1..], id);
      assert Ids(selected) == [selected[0].id] + Ids(selected[1..]);
    }
  }

  /** The ids are distinct and every question comes from `available`. */
  ghost predicate DrawnFrom(selected: seq<Question>, available: seq<Question>)
  {
    DistinctBy(selected, IdOf) && forall q :: q in selected ==> q in available
  }

  /**
   * Phase 1 runs only for fewer than five answers, takes at most
   * `min(3, limit)` questions, all of weight 8 or more, in pool order.
   */
  lemma EssentialPhaseShape(available: seq<Question>, currentAnswerCount: nat, limit: nat)
    ensures var e := EssentialPhase(available, currentAnswerCount, limit);
      && |e| <= (if 3 < limit then 3 else limit)
      && (currentAnswerCount >= 5 ==> e == [])
      && (forall q :: q in e ==> q in available && q.weight >= 8)
      && IsSubsequence(e, available)
  {
    var heavy := Filter(available, (q: Question) => q.weight >= 8);
    FilterMembers(available, (q: Question) => q.weight >= 8);
    FilterIsSubsequence(available, (q: Question) => q.weight >= 8);
    TakeOfSubsequence(heavy, available, if 3 < limit then 3 else limit);
    var e := EssentialPhase(available, currentAnswerCount, limit);
    if currentAnswerCount < 5 {
      forall q | q in e ensures q in available && q.weight >= 8 {
        var k :| 0 <= k < |e| && e[k] == q;
        assert e[k] == heavy[k];
      }
    } else {
      assert IndexedBy(e, available, []);
    }
  }

  /** The comparator of the weight sorts is a total preorder. */
  lemma ByWeightPreorder()
    ensures TotalPreorder(ByWeight())
  {
  }

  /** The unselected questions of a group are the unselected questions of that category. */
  lemma UnpickedExact(available: seq<Question>, c: Category, selected: seq<Question>)
    ensures forall q :: q in Unselected(Group(available, c), selected) <==>
      q in available && q.category == c && !HasId(selected, q.id)
  {
    var inCat := InCategory(available, c);
    var group := Group(available, c);
    FilterMembers(available, (q: Question) => q.category == c);
    SortMembers(inCat, ByWeight());
    FilterMembers(group, (q: Question) => !HasId(selected, q.id));
    forall q | q in available && q.category == c && !HasId(selected, q.id)
      ensures q in Unselected(group, selected)
    {
      var k :| 0 <= k < |available| && available[k] == q;
      assert q in inCat;
      var m :| 0 <= m < |group| && group[m] == q;
    }
  }

  /** The unselected questions of a group stay heaviest first. */
  lemma UnpickedSorted(available: seq<Question>, c: Category, selected: seq<Question>)
    ensures Sorted(Unselected(Group(available, c), selected), ByWeight())
  {
    ByWeightPreorder();
    SortSorted(InCategory(available, c), ByWeight());
    FilterSorted(Group(available, c), (q: Question) => !HasId(selected, q.id), ByWeight());
  }

  /**
   * One step of phase 2: the question taken from category `c` is the
   * heaviest question of `c` whose id is not yet selected, and nothing is
   * taken exactly when every question of `c` is already selected.
   */
  lemma PickStep(available: seq<Question>, c: Category, selected: seq<Question>)
    ensures var unpicked := Unselected(Group(available, c), selected);
      && (unpicked != [] ==>
            && unpicked[0] in available && unpicked[0].category == c && !HasId(selected, unpicked[0].id)
            && forall q :: q in available && q.category == c && !HasId(selected, q.id) ==> q.weight <= unpicked[0].weight)
      && (unpicked == [] <==> forall q :: q in available && q.category == c ==> HasId(selected, q.id))
  {
    var unpicked := Unselected(Group(available, c), selected);
    UnpickedExact(available, c, selected);
    UnpickedSorted(available, c, selected);
    if unpicked != [] {
      assert unpicked[0] in unpicked;
      forall q | q in available && q.category == c && !HasId(selected, q.id) ensures q.weight <= unpicked[0].weight {
        var k :| 0 <= k < |unpicked| && unpicked[k] == q;
        if k > 0 {
          assert ByWeight()(unpicked[0], unpicked[k]);
        }
      }
    }
  }

  /**
   * The `i`-th question of `r` was added by phase 2: it comes from
   * `available`, from one of `cats`, is not selected before it, and is
   * the heaviest question of its category not selected before it.
   */
  ghost predicate PickedAt(r: seq<Question>, i: nat, cats: seq<Category>, available: seq<Question>)
    requires i < |r|
  {
    && r[i] in available && r[i].category in cats && !HasId(r[..i], r[i].id)
    && forall q :: q in available && q.category == r[i].category && !HasId(r[..i], q.id) ==> q.weight <= r[i].weight
  }

  /**
   * Phase 2 extends the selection by at most one question per visited
   * category, never passes `limit`, and each question it adds is the
   * heaviest of its category not selected before it.
   */
  lemma {:induction false} DiversityPicks(
    selected: seq<Question>, cats: seq<Category>, available: seq<Question>, limit: nat)
    ensures var r := DiversityPhase(selected, cats, available, limit);
      && |selected| <= |r| <= |selected| + |cats|
      && r[..|selected|] == selected
      && (|selected| < limit ==> |r| <= limit)
      && forall i :: |selected| <= i < |r| ==> PickedAt(r, i, cats, available)
    decreases |cats|
  {
    if cats != [] && |selected| < limit {
      var unpicked := Unselected(Group(available, cats[0]), selected);
      var next := if unpicked != [] then selected + [unpicked[0]] else selected;
      var r := DiversityPhase(selected, cats, available, limit);
      assert r == DiversityPhase(next, cats[1..], available, limit);
      DiversityPicks(next, cats[1..], available, limit);
      assert r[..|selected|] == r[..|next|][..|selected|];
      forall i | |selected| <= i < |r| ensures PickedAt(r, i, cats, available) {
        if i < |next| {
          PickStep(available, cats[0], selected);
          assert i == |selected| && next == selected + [unpicked[0]];
          assert r[i] == r[..|next|][i] == next[i] == unpicked[0];
        } else {
          assert PickedAt(r, i, cats[1..], available);
        }
      }
    }
  }

  /** With distinct categories to visit, phase 2 adds at most one question per category. */
  lemma {:induction false} DiversityOnePerCategory(
    selected: seq<Question>, cats: seq<Category>, available: seq<Question>, limit: nat)
    requires forall i, j :: 0 <= i < j < |cats| ==> cats[i] != cats[j]
    ensures var r := DiversityPhase(selected, cats, available, limit);
      forall i, j :: |selected| <= i < j < |r| ==> r[i].category != r[j].category
    decreases |cats|
  {
    if cats != [] && |selected| < limit {
      var unpicked := Unselected(Group(available, cats[0]), selected);
      var next := if unpicked != [] then selected + [unpicked[0]] else selected;
      var r := DiversityPhase(selected, cats, available, limit);
      assert r == DiversityPhase(next, cats[1..], available, limit);
      DiversityOnePerCategory(next, cats[1..], available, limit);
      DiversityPicks(next, cats[1..], available, limit);
      forall i, j | |selected| <= i < j < |r| ensures r[i].category != r[j].category {
        if i < |next| {
          PickStep(available, cats[0], selected);
          assert r[i] == r[..|next|][i] == unpicked[0];
          assert PickedAt(r, j, cats[1..], available);
          var m :| 0 <= m < |cats[1..]| && cats[1..][m] == r[j].category;
          assert cats[m + 1] == r[j].category;
        }
      }
    }
  }

  /** Phase 2 visits each category of the pool once, least complete first. */
  lemma VisitOrderShape(available: seq<Question>, stats: seq<CategoryStats>)
    ensures var v := VisitOrder(available, stats);
      && (forall i, j :: 0 <= i < j < |v| ==> CompletionOf(stats, v[i]) <= CompletionOf(stats, v[j]))
      && (forall i, j :: 0 <= i < j < |v| ==> v[i] != v[j])
      && (forall c :: c in v <==> exists q :: q in available && q.category == c)
  {
    var cats := CategoriesOf(available);
    var v := VisitOrder(available, stats);
    assert TotalPreorder(ByCompletion(stats));
    SortSorted(cats, ByCompletion(stats));
    assert DistinctBy(cats, (c: Category) => c);
    SortDistinct(cats, ByCompletion(stats), (c: Category) => c);
    SortMembers(cats, ByCompletion(stats));
    forall i, j | 0 <= i < j < |v| ensures v[i] != v[j] {
      assert ((c: Category) => c)(v[i]) != ((c: Category) => c)(v[j]);
    }
    forall c ensures c in v <==> exists q :: q in available && q.category == c {
      if c in v {
        var k :| 0 <= k < |available| && available[k].category == c;
        assert available[k] in available;
      }
    }
  }

  /** Appending questions with new, distinct ids keeps the ids distinct. */
  lemma AppendFreshDistinct(a: seq<Question>, b: seq<Question>)
    requires DistinctBy(a, IdOf) && DistinctBy(b, IdOf)
    requires forall q :: q in b ==> !HasId(a, q.id)
    ensures DistinctBy(a + b, IdOf)
  {
    var ab := a + b;
    forall i, j | 0 <= i < j < |ab| ensures IdOf(ab[i]) != IdOf(ab[j]) {
      if i < |a| <= j {
        assert ab[j] == b[j - |a|] && ab[j] in b;
        HasIdExact(a, ab[j].id);
        assert Ids(a)[i] == ab[i].id;
      } else if j < |a| {
        assert ab[i] == a[i] && ab[j] == a[j];
      } else {
        assert ab[i] == b[i - |a|] && ab[j] == b[j - |a|];
      }
    }
  }

  /** Each question added after `selected` has an id not selected before it: the ids stay distinct. */
  lemma ExtendDistinct(selected: seq<Question>, r: seq<Question>)
    requires |selected| <= |r| && r[..|selected|] == selected && DistinctBy(selected, IdOf)
    requires forall i :: |selected| <= i < |r| ==> !HasId(r[..i], r[i].id)
    ensures DistinctBy(r, IdOf)
  {
    forall i, j | 0 <= i < j < |r| ensures IdOf(r[i]) != IdOf(r[j]) {
      if j < |selected| {
        assert r[i] == selected[i] && r[j] == selected[j];
      } else {
        HasIdExact(r[..j], r[j].id);
        assert Ids(r[..j])[i] == r[i].id;
      }
    }
  }

  /** Phases 1 and 2 together: questions of the pool, with distinct ids when the pool's are, at most `limit`. */
  lemma DiverseDrawnFrom(available: seq<Question>, stats: seq<CategoryStats>, currentAnswerCount: nat, limit: nat)
    ensures var essential := EssentialPhase(available, currentAnswerCount, limit);
      var diverse :=
        if |essential| < limit then DiversityPhase(essential, VisitOrder(available, stats), available, limit)
        else essential;
      && |diverse| <= limit
      && (forall q :: q in diverse ==> q in available)
      && (DistinctBy(available, IdOf) ==> DistinctBy(diverse, IdOf))
  {
    var essential := EssentialPhase(available, currentAnswerCount, limit);
    var order := VisitOrder(available, stats);
    EssentialPhaseShape(available, currentAnswerCount, limit);
    if DistinctBy(available, IdOf) {
      SubsequenceDistinct(essential, available, IdOf);
    }
    if |essential| < limit {
      var diverse := DiversityPhase(essential, order, available, limit);
      DiversityPicks(essential, order, available, limit);
      forall q | q in diverse ensures q in available {
        var k :| 0 <= k < |diverse| && diverse[k] == q;
        if k < |essential| {
          assert q == diverse[..|essential|][k] && q in essential;
        } else {
          assert PickedAt(diverse, k, order, available);
        }
      }
      if DistinctBy(available, IdOf) {
        forall i | |essential| <= i < |diverse| ensures !HasId(diverse[..i], diverse[i].id) {
          assert PickedAt(diverse, i, order, available);
        }
        ExtendDistinct(essential, diverse);
      }
    }
  }

  /** The questions phase 3 may add: unselected, from the pool, with distinct ids when the pool's are. */
  lemma RemainingShape(available: seq<Question>, selected: seq<Question>)
    ensures var remaining := Sort(Unselected(available, selected), ByWeight());
      && (forall q :: q in remaining ==> q in available && !HasId(selected, q.id))
      && (DistinctBy(available, IdOf) ==> DistinctBy(remaining, IdOf))
  {
    var unselected := Unselected(available, selected);
    UnselectedShape(available, selected);
    SortMembers(unselected, ByWeight());
    if DistinctBy(available, IdOf) {
      SortDistinct(unselected, ByWeight(), IdOf);
    }
  }

  /** The unselected questions, before sorting: from the pool, unselected, with distinct ids when the pool's are. */
  lemma UnselectedShape(available: seq<Question>, selected: seq<Question>)
    ensures var unselected := Unselected(available, selected);
      && (forall q :: q in unselected ==> q in available && !HasId(selected, q.id))
      && (DistinctBy(available, IdOf) ==> DistinctBy(unselected, IdOf))
  {
    var p := (q: Question) => !HasId(selected, q.id);
    var unselected := Filter(available, p);
    FilterMembers(available, p);
    forall q | q in unselected ensures q in available && !HasId(selected, q.id) {
      var k :| 0 <= k < |unselected| && unselected[k] == q;
    }
    if DistinctBy(available, IdOf) {
      FilterIsSubsequence(available, p);
      SubsequenceDistinct(unselected, available, IdOf);
    }
  }

  /** At least `|available| - |selected|` questions of a pool with distinct ids remain unselected. */
  lemma RemainingCount(available: seq<Question>, selected: seq<Question>)
    requires DistinctBy(available, IdOf)
    ensures |Unselected(available, selected)| + |selected| >= |available|
  {
    var chosen := Filter(available, (q: Question) => HasId(selected, q.id));
    FilterSplit(available, (q: Question) => HasId(selected, q.id), (q: Question) => !HasId(selected, q.id));
    FilterIsSubsequence(available, (q: Question) => HasId(selected, q.id));
    SubsequenceDistinct(chosen, available, IdOf);
    FilterMembers(available, (q: Question) => HasId(selected, q.id));
    forall i | 0 <= i < |chosen| ensures IdOf(chosen[i]) in Ids(selected) {
      HasIdExact(selected, chosen[i].id);
    }
    DistinctBound(chosen, Ids(selected), IdOf);
  }

  /** Phase 3 adds only unselected questions of the pool. */
  lemma FillDrawnFrom(selected: seq<Question>, available: seq<Question>, limit: nat)
    requires forall q :: q in selected ==> q in available
    ensures var filled := FillPhase(selected, available, limit);
      && (forall q :: q in filled ==> q in available)
      && (DistinctBy(available, IdOf) && DistinctBy(selected, IdOf) ==> DistinctBy(filled, IdOf))
  {
    var remaining := Sort(Unselected(available, selected), ByWeight());
    RemainingShape(available, selected);
    if |selected| < limit {
      var added := Take(remaining, limit - |selected|);
      assert forall q :: q in added ==> q in remaining;
      if DistinctBy(available, IdOf) && DistinctBy(selected, IdOf) {
        AppendFreshDistinct(selected, added);
      }
    }
  }

  /**
   * `selectQuestionsWithDiversityBonus` returns at most `limit` questions,
   * all from the pool of unanswered questions; when the pool's ids are
   * distinct, no question is selected twice.
   */
  lemma SelectionDrawnFrom(available: seq<Question>, stats: seq<CategoryStats>, currentAnswerCount: nat, limit: nat)
    ensures var r := SelectQuestions(available, stats, currentAnswerCount, limit);
      && |r| <= limit
      && (forall q :: q in r ==> q in available)
      && (DistinctBy(available, IdOf) ==> DistinctBy(r, IdOf))
  {
    var essential := EssentialPhase(available, currentAnswerCount, limit);
    var diverse :=
      if |essential| < limit then DiversityPhase(essential, VisitOrder(available, stats), available, limit)
      else essential;
    var filled := FillPhase(diverse, available, limit);
    var r := SelectQuestions(available, stats, currentAnswerCount, limit);
    DiverseDrawnFrom(available, stats, currentAnswerCount, limit);
    FillDrawnFrom(diverse, available, limit);
    assert r == filled[..|r|];
    assert forall q :: q in r ==> q in filled;
  }

  /** With distinct ids in the pool, exactly `min(limit, |available|)` questions are selected. */
  lemma SelectionLength(available: seq<Question>, stats: seq<CategoryStats>, currentAnswerCount: nat, limit: nat)
    requires DistinctBy(available, IdOf)
    ensures |SelectQuestions(available, stats, currentAnswerCount, limit)| == if limit < |available| then limit else |available|
  {
    var essential := EssentialPhase(available, currentAnswerCount, limit);
    var diverse :=
      if |essential| < limit then DiversityPhase(essential, VisitOrder(available, stats), available, limit)
      else essential;
    var r := SelectQuestions(available, stats, currentAnswerCount, limit);
    SelectionDrawnFrom(available, stats, currentAnswerCount, limit);
    forall i | 0 <= i < |r| ensures IdOf(r[i]) in Ids(available) {
      assert r[i] in r;
      var k :| 0 <= k < |available| && available[k] == r[i];
      assert Ids(available)[k] == r[i].id;
    }
    DistinctBound(r, Ids(available), IdOf);
    DiverseDrawnFrom(available, stats, currentAnswerCount, limit);
    if |diverse| < limit {
      RemainingCount(available, diverse);
    }
  }

  // ---------------------------------------------------------------- improvement potential

  /** The factor `max(0.3, 1 - 0.1 * (current - 10))` applied past ten answers, and 1 otherwise. */
  function DiminishingFactor(currentAnswers: nat): real
  {
    if currentAnswers > 10 then MaxR(0.3, 1.0 - (currentAnswers - 10) as real * 0.1) else 1.0
  }

  /** `floor(future / 5) * 5 > floor(current / 5) * 5`. */
  predicate CrossesMilestone(currentAnswers: nat, additionalQuestions: nat)
  {
    (currentAnswers + additionalQuestions) / 5 * 5 > currentAnswers / 5 * 5
  }

  /** `calculateImprovementPotential` as a value. */
  function ImprovementPotential(currentAnswers: nat, additionalQuestions: nat): int
  {
    var base := (additionalQuestions * 5) as real * DiminishingFactor(currentAnswers)
      + (if CrossesMilestone(currentAnswers, additionalQuestions) then 10.0 else 0.0);
    if 50 < Round(base) then 50 else Round(base)
  }

  /** `calculateImprovementPotential`, updating `baseImprovement` step by step. */
  method CalculateImprovementPotential(currentAnswers: nat, additionalQuestions: nat) returns (r: int)
    ensures r == ImprovementPotential(currentAnswers, additionalQuestions)
  {
    var baseImprovement: real := (additionalQuestions * 5) as real;
    if currentAnswers > 10 {
      var diminishingFactor := MaxR(0.3, 1.0 - (currentAnswers - 10) as real * 0.1);
      baseImprovement := baseImprovement * diminishingFactor;
    }
    assert baseImprovement == (additionalQuestions * 5) as real * DiminishingFactor(currentAnswers);
    var currentMilestone := currentAnswers / 5 * 5;
    var futureAnswers := currentAnswers + additionalQuestions;
    var futureMilestone := futureAnswers / 5 * 5;
    assert futureMilestone > currentMilestone <==> CrossesMilestone(currentAnswers, additionalQuestions);
    if futureMilestone > currentMilestone {
      baseImprovement := baseImprovement + 10.0;
    }
    r := if 50 < Round(baseImprovement) then 50 else Round(baseImprovement);
  }

  /** The factor lies in [0.3, 1], is 1 up to ten answers and reaches its floor 0.3 at seventeen. */
  lemma DiminishingFactorRange(currentAnswers: nat)
    ensures 0.3 <= DiminishingFactor(currentAnswers) <= 1.0
    ensures currentAnswers <= 10 ==> DiminishingFactor(currentAnswers) == 1.0
    ensures 10 < currentAnswers < 17 ==>
      DiminishingFactor(currentAnswers) == (20 - currentAnswers) as real / 10.0
    ensures currentAnswers >= 17 ==> DiminishingFactor(currentAnswers) == 0.3
  {
  }

  /** The milestone bonus is earned exactly when a multiple of five lies in `(current, current + additional]`. */
  lemma CrossesMilestoneExact(currentAnswers: nat, additionalQuestions: nat)
    ensures CrossesMilestone(currentAnswers, additionalQuestions) <==>
      exists m: nat :: currentAnswers < 5 * m <= currentAnswers + additionalQuestions
  {
    var c, f := currentAnswers, currentAnswers + additionalQuestions;
    if CrossesMilestone(currentAnswers, additionalQuestions) {
      var m: nat := f / 5;
      assert currentAnswers < 5 * m <= f;
    }
    forall m: nat | c < 5 * m <= f ensures CrossesMilestone(currentAnswers, additionalQuestions) {
      assert m <= f / 5;
      assert c / 5 < m;
    }
  }

  /**
   * The improvement potential is a percentage in [0, 50]; no additional
   * questions give none, and a milestone crossed gives at least 10.
   */
  lemma ImprovementPotentialBounds(currentAnswers: nat, additionalQuestions: nat)
    ensures 0 <= ImprovementPotential(currentAnswers, additionalQuestions) <= 50
    ensures additionalQuestions == 0 ==> ImprovementPotential(currentAnswers, additionalQuestions) == 0
    ensures CrossesMilestone(currentAnswers, additionalQuestions) ==>
      ImprovementPotential(currentAnswers, additionalQuestions) >= 10
    ensures currentAnswers <= 10 && !CrossesMilestone(currentAnswers, additionalQuestions) ==>
      ImprovementPotential(currentAnswers, additionalQuestions) == if additionalQuestions < 10 then 5 * additionalQuestions else 50
  {
    var f := DiminishingFactor(currentAnswers);
    DiminishingFactorRange(currentAnswers);
    var bonus := if CrossesMilestone(currentAnswers, additionalQuestions) then 10.0 else 0.0;
    var base := (additionalQuestions * 5) as real * f + bonus;
    assert base >= bonus;
    RoundBetween(base, 0, Round(base) + 1);
    RoundMonotone(bonus, base);
    RoundOfInt(0);
    RoundOfInt(10);
    if additionalQuestions == 0 {
      assert base == 0.0;
    }
    if currentAnswers <= 10 && !CrossesMilestone(currentAnswers, additionalQuestions) {
      RoundOfInt(5 * additionalQuestions);
    }
  }

  // ---------------------------------------------------------------- readiness

  /** `calculateMatchingReadiness`: 0-25 for basic, 25-75 for good, 75-100 for excellent matching. */
  function MatchingReadiness(answerCount: nat): int
  {
    if answerCount < 5 then Round(answerCount as real / 5.0 * 25.0)
    else if answerCount < 15 then 25 + Round((answerCount - 5) as real / 10.0 * 50.0)
    else 75 + (if 25 < Round((answerCount - 15) as real * 2.0) then 25 else Round((answerCount - 15) as real * 2.0))
  }

  /** Five points per answer up to fifteen answers, then two more per answer up to 100. */
  lemma MatchingReadinessExact(answerCount: nat)
    ensures MatchingReadiness(answerCount) ==
      if answerCount < 15 then 5 * answerCount
      else if answerCount < 28 then 75 + 2 * (answerCount - 15)
      else 100
  {
    if answerCount < 5 {
      assert answerCount as real / 5.0 * 25.0 == (5 * answerCount) as real;
      RoundOfInt(5 * answerCount);
    } else if answerCount < 15 {
      assert (answerCount - 5) as real / 10.0 * 50.0 == (5 * (answerCount - 5)) as real;
      RoundOfInt(5 * (answerCount - 5));
    } else {
      RoundOfInt(2 * (answerCount - 15));
    }
  }

  /**
   * Readiness is a percentage that never drops as answers accumulate: at
   * most 20 below five answers, between 25 and 70 for five to fourteen,
   * and at least 75 from fifteen.
   */
  lemma MatchingReadinessLevels(answerCount: nat, more: nat)
    ensures 0 <= MatchingReadiness(answerCount) <= 100
    ensures answerCount <= more ==> MatchingReadiness(answerCount) <= MatchingReadiness(more)
    ensures answerCount < 5 ==> MatchingReadiness(answerCount) <= 20
    ensures 5 <= answerCount < 15 ==> 25 <= MatchingReadiness(answerCount) <= 70
    ensures answerCount >= 15 ==> MatchingReadiness(answerCount) >= 75
  {
    MatchingReadinessExact(answerCount);
    MatchingReadinessExact(more);
  }

  // ---------------------------------------------------------------- recommendations

  /** One entry of `generateRecommendations`, by its `type`. */
  datatype Advice =
    | Essential(questionsNeeded: nat)
    | Improve(questionsNeeded: nat)
    | Explore(category: Category)
    | Milestone(questionsNeeded: nat)

  /** The completion recommendation: the basic five, then the optimal fifteen. */
  function CompletionAdvice(answerCount: nat): seq<Advice>
  {
    if answerCount < 5 then [Essential(5 - answerCount)]
    else if answerCount < 15 then [Improve(15 - answerCount)]
    else []
  }

  /** The categories, in key order, whose completion score is below 3. */
  function UnderRepresented(stats: seq<CategoryStats>): seq<CategoryStats>
  {
    Filter(stats, (s: CategoryStats) => s.completionScore < 3)
  }

  /** The category recommendation: explore the first under-represented category. */
  function CategoryAdvice(stats: seq<CategoryStats>): seq<Advice>
  {
    var under := UnderRepresented(stats);
    if |under| > 0 then [Explore(under[0].category)] else []
  }

  /** `Math.ceil(n / 5) * 5`: the smallest multiple of five not below `n`. */
  function NextMilestone(answerCount: nat): nat
  {
    (answerCount + 4) / 5 * 5
  }

  /** The milestone recommendation, for a gap of at most three answers below 25 answers. */
  function MilestoneAdvice(answerCount: nat): seq<Advice>
  {
    var next := NextMilestone(answerCount);
    if next - answerCount <= 3 && answerCount < 25 then [Milestone(next - answerCount)] else []
  }

  /** `generateRecommendations`. */
  function GenerateRecommendations(answerCount: nat, stats: seq<CategoryStats>): seq<Advice>
  {
    CompletionAdvice(answerCount) + CategoryAdvice(stats) + MilestoneAdvice(answerCount)
  }

  /**
   * Below five answers the user is told how many answers unlock matching,
   * from five to fourteen how many reach fifteen, and nothing from fifteen.
   */
  lemma CompletionAdviceExact(answerCount: nat)
    ensures var r := CompletionAdvice(answerCount);
      && |r| <= 1
      && (r != [] && r[0].Essential? <==> answerCount < 5)
      && (r != [] && r[0].Improve? <==> 5 <= answerCount < 15)
      && (r != [] && r[0].Essential? ==> answerCount + r[0].questionsNeeded == 5)
      && (r != [] && r[0].Improve? ==> answerCount + r[0].questionsNeeded == 15)
  {
  }

  /**
   * A category is recommended exactly when some category's completion
   * score is below 3, and it is the first such category in key order.
   */
  lemma CategoryAdviceExact(stats: seq<CategoryStats>)
    ensures var r := CategoryAdvice(stats);
      && |r| <= 1
      && (r != [] <==> exists k :: 0 <= k < |stats| && stats[k].completionScore < 3)
      && (r != [] ==>
            exists k :: (0 <= k < |stats| && stats[k].category == r[0].category
              && stats[k].completionScore < 3
              && forall j :: 0 <= j < k ==> stats[j].completionScore >= 3))
  {
    var p := (s: CategoryStats) => s.completionScore < 3;
    FirstPassing(stats, p);
    if UnderRepresented(stats) == [] {
      forall k | 0 <= k < |stats| ensures stats[k].completionScore >= 3 {
        assert stats[k] in stats;
      }
    }
  }

  /**
   * The milestone recommendation appears exactly below 25 answers when
   * the count is not one past a multiple of five, and names the distance
   * to the next multiple of five (0 on a multiple of five).
   */
  lemma MilestoneAdviceExact(answerCount: nat)
    ensures var r := MilestoneAdvice(answerCount);
      && |r| <= 1
      && (r != [] <==> answerCount < 25 && answerCount % 5 != 1)
      && (r != [] ==>
            (r[0].Milestone? && r[0].questionsNeeded <= 3 && (answerCount + r[0].questionsNeeded) % 5 == 0))
  {
  }

  /**
   * The recommendations in order: at most one completion, one category
   * and one milestone entry, so never more than three.
   */
  lemma RecommendationsShape(answerCount: nat, stats: seq<CategoryStats>)
    ensures var r := GenerateRecommendations(answerCount, stats);
      && |r| <= 3
      && (answerCount >= 25 ==> forall a :: a in r ==> a.Explore?)
      && (forall a :: a in r && a.Explore? ==>
            exists k :: 0 <= k < |stats| && stats[k].category == a.category && stats[k].completionScore < 3)
  {
    CompletionAdviceExact(answerCount);
    CategoryAdviceExact(stats);
    MilestoneAdviceExact(answerCount);
    var r := GenerateRecommendations(answerCount, stats);
    var c, d, m := CompletionAdvice(answerCount), CategoryAdvice(stats), MilestoneAdvice(answerCount);
    forall a | a in r ensures a in c || a in d || a in m {
    }
  }
}
