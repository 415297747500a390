/**
 * The question catalog and the answers users give to it, as the services
 * read them from the `questions` and `user_answers` tables.
 */
module Catalog {
  import opened Wrappers
  import opened JsValues
  import opened Seqs

  /** The six question categories (the `category` CHECK of the questions table). */
  datatype Category = Personality | Communication | Lifestyle | Values | Relationship | Compatibility

  /** The order in which the services list the categories. */
  const Categories: seq<Category> := [Personality, Communication, Lifestyle, Values, Relationship, Compatibility]

  function CategoryName(c: Category): string
  {
    match c
    case Personality => "personality"
    case Communication => "communication"
    case Lifestyle => "lifestyle"
    case Values => "values"
    case Relationship => "relationship"
    case Compatibility => "compatibility"
  }

  /** The `type` of a question; free text is handled like any type that is neither scale nor multiple. */
  datatype QuestionType = Scale | Multiple | Boolean | Text

  /**
   * A catalog entry. `minValue`/`maxValue` are the nullable bounds of a scale
   * question and `options` the `value` tokens of a multiple-choice question.
   */
  datatype Question = Question(
    id: string,
    category: Category,
    qtype: QuestionType,
    weight: int,
    minValue: Option<int>,
    maxValue: Option<int>,
    options: seq<string>,
    isActive: bool)

  /** The weight CHECK of the questions table: an integer from 1 to 10. */
  predicate ValidWeight(q: Question)
  {
    1 <= q.weight <= 10
  }

  /** A row of `user_answers` joined with its question. */
  datatype UserAnswer = UserAnswer(questionId: string, answer: Answer, question: Question)

  /** Every category is listed, each once. */
  lemma CategoriesComplete(c: Category)
    ensures c in Categories
    ensures forall i, j :: 0 <= i < j < |Categories| ==> Categories[i] != Categories[j]
  {
  }

  /** The answers of a user that fall in one category, in their stored order. */
  function AnswersIn(answers: seq<UserAnswer>, c: Category): (r: seq<UserAnswer>)
    ensures |r| <= |answers|
    ensures forall k :: 0 <= k < |r| ==> r[k].question.category == c && r[k] in answers
    ensures forall k :: 0 <= k < |answers| && answers[k].question.category == c ==> answers[k] in r
  {
    if answers == [] then []
    else (if answers[0].question.category == c then [answers[0]] else []) + AnswersIn(answers[1..], c)
  }

  /** The test `AnswersIn` applies: the answer's question is in the category. */
  function InCategoryTest(c: Category): UserAnswer -> bool
  {
    (a: UserAnswer) => a.question.category == c
  }

  /**
   * A category's answers are the user's answers filtered by category, so
   * they keep their stored order.
   */
  lemma {:induction false} AnswersInOrder(answers: seq<UserAnswer>, c: Category)
    ensures AnswersIn(answers, c) == Filter(answers, InCategoryTest(c))
    ensures IsSubsequence(AnswersIn(answers, c), answers)
  {
    if answers != [] {
      AnswersInOrder(answers[1..], c);
    }
    FilterIsSubsequence(answers, InCategoryTest(c));
  }

  /** The sum of the question weights of some answers (`reduce((sum, a) => sum + a.question.weight, 0)`). */
  function AnswerWeightSum(answers: seq<UserAnswer>): int
  {
    if answers == [] then 0 else answers[0].question.weight + AnswerWeightSum(answers[1..])
  }
}
