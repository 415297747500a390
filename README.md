# SoulSync compatibility and question-recommendation engine in Dafny

This project models the matching core of the SoulSync dating back end. The core has five parts:

- **Enhanced matcher** (`src/services/enhancedMatching.js`). It pairs two users' answers to shared questions. Each pair is scored by question type: scale answers by distance, multiple-choice answers by strict equality, other answers by case-insensitive equality. It builds a six-category breakdown and combines it into a confidence-weighted overall score, a data confidence and an explanation. It then selects and ranks candidates for `findEnhancedMatches` and reports the insights of `getMatchingInsights`.
- **Legacy matcher** (`src/services/matchingAlgorithm.js`). It scores over the question-id → answer object with category weights, then adds diversity, completeness, interest and communication bonuses, clamped to [0, 10]. It also covers the basic-profile fallback, the exclusion list built from existing matches, the ranking with its 6.0 threshold, and the match explanation.
- **Question recommender** (`src/services/personalizedQuestions.js`). Selection runs in three phases: essential heavy questions for new users, one question per least-complete category, then a weight fill. It also covers the category distribution, the improvement potential, the readiness score and the recommendations.
- **Question routes** (`src/routes/questions.js`). This covers the round-robin selection of `/additional-for-matching` with its improvement estimate, and the validation, upsert and progress figures of `/:id/answer`.
- **City table** (`src/data/locationData.js`). This covers flattening the continent → country → state → city table in `getAllCities`, and the 20-result substring search `searchCities`.

JavaScript values are modelled explicitly (module `JsValues`):

- An answer is `Null | Bool | Num | Str | Items`.
- `parseFloat`, `parseInt` and `Number()` are prefix parsers returning `Option<real>` or `Option<int>`, where `None` is NaN.
- `String()`, `toLowerCase`, `split(/\s+/)` and `===` are modelled, with arrays never strictly equal.
- `Math.round(x)` is `floor(x + 0.5)` on exact reals.

Database reads become input sequences in storage order: answers, catalog, candidate pools and existing matches. A Prisma `where … take n` is a filter followed by a cut to `n`. A thrown `TypeError` that the source catches or returns is a `Result` failure.

Modules and files:

- `wrappers.dfy`: `Option`, `Result`.
- `jsvalues.dfy`: JavaScript coercions and rounding.
- `seqs.dfy`: filter, take, subsequences, a stable insertion sort over a total preorder, and code-unit string order.
- `catalog.dfy`: categories, questions, answers.
- `enhanced.dfy`, `legacy.dfy`, `recommender.dfy`, `question_routes.dfy`, `locations.dfy`: one per core source file.

Imperative code is modelled as methods proved equal to specification functions. The specification functions carry the properties as lemmas. This applies to:

- the `forEach` accumulations;
- the candidate loop of `findEnhancedMatches`;
- the scoring loop of `calculateCompatibilityScore`;
- the grouping, in-place sorts and three phases of `selectQuestionsWithDiversityBonus`;
- `baseImprovement`;
- the round-robin `while` loop;
- the nested `forEach` pushes of `getAllCities`;
- the answer table, which is a class whose map field `Upsert` updates.

## Model

| member | source | states |
|---|---|---|
| Catalog.CategoriesComplete | src/services/enhancedMatching.js:247 | the six-category list holds every category, each exactly once |
| Catalog.AnswersIn | src/services/personalizedQuestions.js:96 | a category's answers are exactly the user's answers in that category |
| Catalog.AnswersInOrder | src/services/personalizedQuestions.js:96 | a category's answers are the user's answers filtered by category, a subsequence in stored order |
| JsValues.ToLowerAt | src/services/enhancedMatching.js:313 | lower-casing keeps the length and maps character by character |
| JsValues.SplitWhitespace | src/services/matchingAlgorithm.js:105-106 | splitting on whitespace always yields at least one word |
| JsValues.ParseIntOfIntToString | src/routes/questions.js:374 | `parseInt` reads back every integer that `String()` writes |
| JsValues.ParseFloatOfIntToString | src/services/enhancedMatching.js:298-299 | `parseFloat` reads back every integer that `String()` writes |
| JsValues.StringToNumberOfIntToString | src/services/matchingAlgorithm.js:97 | `Number()` reads back every integer that `String()` writes |
| JsValues.ParseFloatAnswerIsParseFloat | src/services/enhancedMatching.js:298-299 | `parseFloat` of an answer is `parseFloat` of its string form, so null and booleans are NaN |
| JsValues.WordIsNaN | src/services/enhancedMatching.js:301 | a word starting with a letter is NaN under `parseFloat` |
| JsValues.RoundMonotone | src/services/personalizedQuestions.js:210 | `Math.round` is monotone |
| JsValues.RoundOfInt | src/services/personalizedQuestions.js:210 | `Math.round` leaves integers unchanged |
| JsValues.RoundBetween | src/services/personalizedQuestions.js:210 | rounding a value between two integers stays between them |
| JsValues.RoundToTenthsBetween | src/services/enhancedMatching.js:278 | rounding to tenths stays within integer bounds |
| JsValues.RoundToHundredthsBetween | src/services/enhancedMatching.js:281 | rounding to hundredths stays within integer bounds |
| JsValues.RoundToTenthsMonotone | src/services/enhancedMatching.js:278 | rounding to tenths is monotone |
| JsValues.RoundToHundredthsMonotone | src/services/enhancedMatching.js:345 | rounding to hundredths is monotone |
| EnhancedMatching.FindAnswer | src/services/enhancedMatching.js:234 | `find` returns the first answer to the question, and returns one exactly when such an answer exists |
| EnhancedMatching.Pairs | src/services/enhancedMatching.js:233-239 | one common-question entry per kept answer, position by position |
| EnhancedMatching.FindCommonQuestions | src/services/enhancedMatching.js:228-241 | empty exactly when no question of user 2 was answered by user 1; at most one entry per answer of user 2; entries keep well-formedness and valid weights |
| EnhancedMatching.CommonQuestionsExact | src/services/enhancedMatching.js:228-241 | the entries are exactly user 2's answers to questions user 1 also answered, in user 2's order, each paired with user 1's answer |
| EnhancedMatching.ScaleSimilarity | src/services/enhancedMatching.js:292-305 | scale similarity is in [0, 1]; 0 when either side is NaN; 1 for equal values; 0 at a distance of the whole range |
| EnhancedMatching.TextSimilarity | src/services/enhancedMatching.js:311-313 | text similarity is 1 exactly for case-insensitively equal strings, otherwise 0; a non-string answer throws |
| EnhancedMatching.QuestionCompatibility | src/services/enhancedMatching.js:291-315 | per-question similarity is in [0, 1]; multiple choice is 1 on strict equality and 0 otherwise; text is case-insensitive equality; it fails exactly for a text question with a non-string answer |
| EnhancedMatching.ScaleSimilaritySymmetric | src/services/enhancedMatching.js:292-305 | scale similarity does not depend on argument order |
| EnhancedMatching.TextSimilaritySymmetric | src/services/enhancedMatching.js:311-313 | text similarity does not depend on argument order |
| EnhancedMatching.ScaleCompatibilitySymmetric | src/services/enhancedMatching.js:292-305 | a scale question scores both users alike |
| EnhancedMatching.ChoiceCompatibilitySymmetric | src/services/enhancedMatching.js:307-309 | a multiple-choice question scores both users alike |
| EnhancedMatching.TextCompatibilitySymmetric | src/services/enhancedMatching.js:311-313 | a text question scores both users alike |
| EnhancedMatching.QuestionCompatibilitySymmetric | src/services/enhancedMatching.js:291-315 | per-question similarity is symmetric in the two answers |
| EnhancedMatching.ScaleOfIntegers | src/services/enhancedMatching.js:294-305 | whole-number scale answers are read back exactly, and the min/max fallbacks give the range |
| EnhancedMatching.ScaleEqualAnswers | src/services/enhancedMatching.js:292-305 | equal scale answers score 1 |
| EnhancedMatching.ScaleOppositeEnds | src/services/enhancedMatching.js:292-305 | answers at the two ends of the range score 0 |
| EnhancedMatching.InCategoryMembers | src/services/enhancedMatching.js:251 | a category's questions are common questions of that category |
| EnhancedMatching.Weighted | src/services/enhancedMatching.js:271 | a similarity times a non-negative weight lies between 0 and the weight |
| EnhancedMatching.Contribution | src/services/enhancedMatching.js:266-271 | one question adds between 0 and its weight, or throws the `toLowerCase` TypeError |
| EnhancedMatching.WeightedSimilarity | src/services/enhancedMatching.js:266-272 | the only failure of a category's accumulation is the `toLowerCase` TypeError |
| EnhancedMatching.WeightedSimilarityBounds | src/services/enhancedMatching.js:263-272 | with valid weights, the weighted similarity lies between 0 and the total weight |
| EnhancedMatching.WeightedSimilarityStep | src/services/enhancedMatching.js:266-272 | one more question adds its weight to the total and its contribution to the score |
| EnhancedMatching.WeightedSimilarityFails | src/services/enhancedMatching.js:266-272 | once one question throws, the whole category throws |
| EnhancedMatching.CategoryScoreValue | src/services/enhancedMatching.js:274-278 | a category score, rounded to one decimal, lies in [0, 10] when the weighted sum is within the weight |
| EnhancedMatching.CategoryConfidence | src/services/enhancedMatching.js:275-281 | category confidence is in [0, 1], 0 exactly without questions, and 1 from three questions |
| EnhancedMatching.CategoryEntry | src/services/enhancedMatching.js:251-282 | a category without common questions has score, weight, count and confidence all 0; otherwise the weight is the sum of its questions' weights and the count is their number |
| EnhancedMatching.CategoryEntryBounds | src/services/enhancedMatching.js:253-282 | with valid weights, score is in [0, 10] and confidence in [0, 1]; confidence is 0 exactly without questions; weight is at least the count |
| EnhancedMatching.WeightSumAtLeastCount | src/services/enhancedMatching.js:270 | weights of at least 1 make the total weight at least the question count |
| EnhancedMatching.BreakdownOf | src/services/enhancedMatching.js:246-286 | one entry per category visited, or the TypeError |
| EnhancedMatching.BreakdownOfFails | src/services/enhancedMatching.js:250-283 | once one category throws, the whole breakdown throws |
| EnhancedMatching.BreakdownOfEntries | src/services/enhancedMatching.js:250-283 | each breakdown entry is its category's entry |
| EnhancedMatching.CalculateCategoryCompatibility | src/services/enhancedMatching.js:246-286 | the loop over the categories builds the breakdown |
| EnhancedMatching.CategoryCompatibility | src/services/enhancedMatching.js:251-282 | the loop body computes one category's entry |
| EnhancedMatching.AccumulateCategory | src/services/enhancedMatching.js:263-272 | the `forEach` computes the total weight and the weighted similarity |
| EnhancedMatching.CountInCons | src/services/enhancedMatching.js:251 | one more question adds one count per occurrence of its category |
| EnhancedMatching.CategoriesPartition | src/services/enhancedMatching.js:247-251 | every common question is counted in exactly one of the six categories |
| EnhancedMatching.CountInNothing | src/services/enhancedMatching.js:247-251 | no questions, no counts |
| EnhancedMatching.OccursOnce | src/services/enhancedMatching.js:247 | each category occurs once in the category list |
| EnhancedMatching.TotalQuestionsOf | src/services/enhancedMatching.js:280 | the entries' question counts add up to the per-category counts |
| EnhancedMatching.BreakdownShape | src/services/enhancedMatching.js:247-283 | every one of the six categories appears, in order, and the counts add up to the number of common questions |
| EnhancedMatching.BreakdownBounds | src/services/enhancedMatching.js:253-282 | every entry of a breakdown has its score in [0, 10], confidence in [0, 1] and a non-negative weight |
| EnhancedMatching.AdjustedWeight | src/services/enhancedMatching.js:327 | weight times confidence is non-negative |
| EnhancedMatching.CalculateWeightedCompatibilityScore | src/services/enhancedMatching.js:320-334 | the accumulation loop computes the confidence-weighted mean, or 0 |
| EnhancedMatching.ProductBetween | src/services/enhancedMatching.js:330 | a score between bounds, times a non-negative weight, lies between the weighted bounds |
| EnhancedMatching.QuotientBetween | src/services/enhancedMatching.js:333 | dividing by a positive total keeps a sum between the bounds |
| EnhancedMatching.TotalAdjustedWeightNonNegative | src/services/enhancedMatching.js:329 | the total adjusted weight is non-negative |
| EnhancedMatching.WeightedScoreSumAbove | src/services/enhancedMatching.js:325-331 | the weighted sum is at least the smallest contributing score times the total weight |
| EnhancedMatching.WeightedScoreSumBelow | src/services/enhancedMatching.js:325-331 | the weighted sum is at most the largest contributing score times the total weight |
| EnhancedMatching.OverallScoreBetween | src/services/enhancedMatching.js:320-334 | the overall score is 0 without adjusted weight, and otherwise lies between the smallest and largest contributing category scores |
| EnhancedMatching.SumsAppend | src/services/enhancedMatching.js:325-331 | both sums split over concatenation |
| EnhancedMatching.ZeroWeightIgnored | src/services/enhancedMatching.js:320-334 | a category with zero adjusted weight does not change the overall score |
| EnhancedMatching.ConfidenceScore | src/services/enhancedMatching.js:339-346 | the data confidence is in [0, 1] |
| EnhancedMatching.ConfidenceMonotone | src/services/enhancedMatching.js:339-346 | more common questions or more answers never lower the confidence |
| EnhancedMatching.ConfidenceExtremes | src/services/enhancedMatching.js:339-346 | confidence is 1 at 8 common questions and 10 answers each, and 0 without data |
| EnhancedMatching.GenerateExplanation | src/services/enhancedMatching.js:351-373 | the limited-data message is chosen exactly below confidence 0.3 |
| EnhancedMatching.ExplanationGrounded | src/services/enhancedMatching.js:351-373 | low compatibility exactly when no category is strong; the high and good messages name strong categories, in breakdown order; a growth area is a weak category, and is absent only when none is weak |
| EnhancedMatching.ExplanationChoice | src/services/enhancedMatching.js:351-373 | from confidence 0.3 on, the high message exactly when three or more categories are strong and the good message exactly when one or two are; high names the first two strong categories, good the first strong one and the first weak one as growth area |
| EnhancedMatching.ProfileStrengthMonotone | src/services/enhancedMatching.js:378-383 | the strength tier is reached exactly at 5, 15 and 25 answers and never drops with more answers |
| EnhancedMatching.CalculateEnhancedCompatibility | src/services/enhancedMatching.js:17-78 | the steps of `calculateEnhancedCompatibility` compute the pair score, including the early returns at lines 27-48 |
| EnhancedMatching.EnhancedCompatibilityBounds | src/services/enhancedMatching.js:27-72 | with valid weights the score is in [0, 10] and confidence in [0, 1]; with no common question (in particular when either user has no answers) the result is score 0 and confidence 0, with no error |
| EnhancedMatching.PotentialMatches | src/services/enhancedMatching.js:118-152 | the candidate query keeps well-formed stored questions |
| EnhancedMatching.VerdictMeaning | src/services/enhancedMatching.js:159-177 | a candidate is kept exactly when their preference admits the requester, scoring succeeds, score > 0 and confidence > 0.2 |
| EnhancedMatching.Kept | src/services/enhancedMatching.js:157-177 | the scoring loop keeps at most one entry per candidate |
| EnhancedMatching.ByScoreDescendingTotal | src/services/enhancedMatching.js:181 | the ranking comparator is a total preorder |
| EnhancedMatching.KeptStep | src/services/enhancedMatching.js:159-177 | one candidate's iteration appends their verdict, or skips them |
| EnhancedMatching.FindEnhancedMatches | src/services/enhancedMatching.js:83-200 | the candidate loop of `findEnhancedMatches` computes the specified response |
| EnhancedMatching.KeptExact | src/services/enhancedMatching.js:159-177 | exactly the candidates with a verdict are kept, each with its verdict's score |
| EnhancedMatching.EnhancedMatchesOutcome | src/services/enhancedMatching.js:101-115 | the search fails only for an unknown user, and returns the empty "answer more questions" response exactly below three answers |
| EnhancedMatching.PotentialMatchesSound | src/services/enhancedMatching.js:118-152 | at most `limit * 3` candidates, each a stored active verified other user of the wanted gender and age |
| EnhancedMatching.RankedMatchesSound | src/services/enhancedMatching.js:157-194 | at most `limit` matches, sorted by descending score, a prefix of a permutation of the kept ones, each a queried candidate satisfying the reciprocal and threshold filters |
| EnhancedMatching.AnalyzeCategory | src/services/enhancedMatching.js:399-407 | a category's analysis counts its answers; the average is 0 without answers |
| EnhancedMatching.AnswerWeightSumBounds | src/services/enhancedMatching.js:403 | `n` answers with weights in 1..10 sum to between `n` and `10n` |
| EnhancedMatching.AverageWeightBounds | src/services/enhancedMatching.js:404-405 | the average weight of an answered category lies in [1, 10] |
| EnhancedMatching.AnswersInMembers | src/services/enhancedMatching.js:400 | a category's answers are the user's answers |
| EnhancedMatching.AnalyzeCategories | src/services/enhancedMatching.js:396-407 | one analysis per category, in order |
| EnhancedMatching.MatchingReadinessExact | src/services/enhancedMatching.js:410 | insights readiness is five points per answer, capped at 100, and reaches 100 exactly at twenty answers |
| EnhancedMatching.EstimatedMatches | src/services/enhancedMatching.js:451 | estimated matches are `2 * (n - 3)` above three answers and 0 otherwise |
| EnhancedMatching.MatchingInsights | src/services/enhancedMatching.js:388-458 | the report counts all answers and analyses the six categories in order |
| EnhancedMatching.ProgressRecommendation | src/services/enhancedMatching.js:415-429 | critical advice up to five answers below five, improvement advice up to fifteen below fifteen, never both |
| EnhancedMatching.DiversityRecommendation | src/services/enhancedMatching.js:432-443 | diversity advice is given, once, exactly when some category has fewer than two answers |
| EnhancedMatching.DiversityNamesFirst | src/services/enhancedMatching.js:432-443 | the advice names the first such category |
| LegacyMatching.Lookup | src/services/matchingAlgorithm.js:37 | `answers[key]` is defined exactly when the key is stored |
| LegacyMatching.MetadataKinds | src/services/matchingAlgorithm.js:120-152 | every id maps to the scale or multiple rule; an unknown id maps to `other` and scale; no id is in the compatibility category |
| LegacyMatching.CategoryWeight | src/services/matchingAlgorithm.js:22-45 | the category weight lies in [1, 2.5] |
| LegacyMatching.AnswerSimilarity | src/services/matchingAlgorithm.js:93-114 | similarity of non-scale answers is in [0, 1]; scale similarity is at most 1, and NaN exactly when an answer is not a number |
| LegacyMatching.KeywordShare | src/services/matchingAlgorithm.js:109 | the keyword share is in [0, 1], and 1 when every keyword is shared |
| LegacyMatching.ScaleSimilarityOfNumbers | src/services/matchingAlgorithm.js:95-98 | numeric scale answers score `1 - abs(a - b) / 10`: 1 when equal, 0 when ten apart |
| LegacyMatching.ChoiceAndUnknownSimilarity | src/services/matchingAlgorithm.js:100-112 | multiple choice is exactly 1 on strict equality and 0 otherwise; an unknown type gives 0.5 |
| LegacyMatching.TextSimilarityBounds | src/services/matchingAlgorithm.js:104-109 | text overlap is in [0, 1], and an answer matches itself fully |
| LegacyMatching.TallyWeights | src/services/matchingAlgorithm.js:36-58 | each counted answer adds weight between 1 and 2.5; no more answers are counted than user 1 gave; distinct categories do not exceed counted answers |
| LegacyMatching.SkippedQuestion | src/services/matchingAlgorithm.js:39 | a question the other user left missing or falsy changes neither score, weight, count nor categories |
| LegacyMatching.InterestBonusBounds | src/services/matchingAlgorithm.js:157-171 | interest bonus is `min(1, 0.2 × shared)`, and 0 when either side is not a list |
| LegacyMatching.CommunicationBonusLevels | src/services/matchingAlgorithm.js:176-193 | communication bonus is 0, 0.2 or 0.5; non-zero only when both answers are present and at most 4 apart; 0.5 exactly at a gap of at most 2 |
| LegacyMatching.Clamp | src/services/matchingAlgorithm.js:83 | clamping keeps NaN, and otherwise lands in [0, 10] without moving in-range values |
| LegacyMatching.TallyStep | src/services/matchingAlgorithm.js:36-58 | one entry's iteration updates score, weight, count and category set as the loop body does |
| LegacyMatching.CalculateCompatibilityScore | src/services/matchingAlgorithm.js:13-84 | the scoring loop computes the specified score |
| LegacyMatching.CompatibilityScoreBounds | src/services/matchingAlgorithm.js:14-83 | a missing answer map gives exactly 5.0; any non-NaN score lies in [0, 10]; the raw score is 5 when nothing was counted |
| LegacyMatching.NumericAnswersScore | src/services/matchingAlgorithm.js:13-84 | answers that are all numbers never make the score NaN |
| LegacyMatching.NumericTally | src/services/matchingAlgorithm.js:36-58 | with numeric answers the running total is never NaN |
| LegacyMatching.LookupIn | src/services/matchingAlgorithm.js:37 | a value found by lookup is stored under its key |
| LegacyMatching.FilterIncluded | src/services/matchingAlgorithm.js:449 | the interest filter fails only with the `includes` TypeError |
| LegacyMatching.CommonInterests | src/services/matchingAlgorithm.js:447-449 | common interests come from user 1's interest list; the only failures are the `filter`/`includes` TypeErrors |
| LegacyMatching.FilterIncludedMembers | src/services/matchingAlgorithm.js:449 | the filter keeps exactly the interests the other side includes, and fails exactly when that side has no `includes` |
| LegacyMatching.MatchExplanationExact | src/services/matchingAlgorithm.js:439-481 | each strength appears exactly at a gap of at most 2; "different personality" exactly at a gap of at least 6; never both personality messages |
| LegacyMatching.DefaultsAgree | src/services/matchingAlgorithm.js:452-478 | without answers the defaults of 5 give all three strengths and no challenge |
| LegacyMatching.Counterparts | src/services/matchingAlgorithm.js:229-231 | one counterpart per existing match, in order |
| LegacyMatching.ExcludedIdsExact | src/services/matchingAlgorithm.js:229-232 | an id is excluded exactly when it is the user or the other side of one of their matches |
| LegacyMatching.ByScoreTotal | src/services/matchingAlgorithm.js:286 | the ranking comparator is a total preorder |
| LegacyMatching.LowerAll | src/services/matchingAlgorithm.js:268-269 | lower-casing the interests keeps their number |
| LegacyMatching.BasicScoreBounds | src/services/matchingAlgorithm.js:258-282 | the basic-profile score lies in [5, 10] |
| LegacyMatching.ScoreBasic | src/services/matchingAlgorithm.js:257-284 | each candidate is paired with their basic score, in order |
| LegacyMatching.BasicProfileMatchesSound | src/services/matchingAlgorithm.js:202-292 | at most `limit` matches, sorted by descending score, each a queried candidate with their basic score in [5, 10]; none for an unknown user |
| LegacyMatching.ScoreQuiz | src/services/matchingAlgorithm.js:392-414 | each kept candidate's score is their non-NaN compatibility rounded to one decimal |
| LegacyMatching.CompatibleMatchesOutcome | src/services/matchingAlgorithm.js:301-431 | fails exactly for an unknown user; no quiz answers give an empty list; at most `limit` matches sorted by descending score |
| LegacyMatching.QuizMatchesSound | src/services/matchingAlgorithm.js:364-420 | every quiz match scores at least 6.0, is a stored unexcluded active candidate with answers, and carries their rounded score |
| QuestionSelection.StatsFor | src/services/personalizedQuestions.js:95-106 | one statistic per category, in order |
| QuestionSelection.AnalyzeCategoryDistribution | src/services/personalizedQuestions.js:91-109 | all six categories are reported, each with its answer count and completion score `min(10, count)` |
| QuestionSelection.CategoriesOf | src/services/personalizedQuestions.js:120-133 | the category keys are exactly the pool's categories, without repeats |
| QuestionSelection.GroupStep | src/services/personalizedQuestions.js:120-125 | one question's iteration adds a new key or extends its category's list |
| QuestionSelection.AbsentCategory | src/services/personalizedQuestions.js:121-123 | a category no question has gets no questions |
| QuestionSelection.GroupInOrder | src/services/personalizedQuestions.js:118-125 | the grouping loop maps each present category to its questions in pool order |
| QuestionSelection.SortGroups | src/services/personalizedQuestions.js:128-130 | the in-place sorts leave each category's questions heaviest first |
| QuestionSelection.SortedStep | src/services/personalizedQuestions.js:128-130 | sorting the next category extends the sorted ones by one |
| QuestionSelection.PickPerCategory | src/services/personalizedQuestions.js:157-169 | the phase 2 loop computes the diversity phase |
| QuestionSelection.PickEssential | src/services/personalizedQuestions.js:136-143 | phase 1 computes the essential phase |
| QuestionSelection.FillRemaining | src/services/personalizedQuestions.js:173-182 | the phase 3 loop computes the fill phase |
| QuestionSelection.SelectQuestionsWithDiversityBonus | src/services/personalizedQuestions.js:115-186 | grouping, sorting and the three phases compute the specified selection |
| QuestionSelection.Ids | src/services/personalizedQuestions.js:162 | the id list matches the questions position by position |
| QuestionSelection.HasIdExact | src/services/personalizedQuestions.js:162-177 | `find` by id succeeds exactly when the id is selected |
| QuestionSelection.EssentialPhaseShape | src/services/personalizedQuestions.js:136-143 | phase 1 runs only below five answers and adds at most `min(3, limit)` pool questions, each of weight at least 8, in pool order |
| QuestionSelection.ByWeightPreorder | src/services/personalizedQuestions.js:129-178 | the weight comparator is a total preorder |
| QuestionSelection.UnpickedExact | src/services/personalizedQuestions.js:160-163 | a group's unselected questions are exactly the pool's unselected questions of that category |
| QuestionSelection.UnpickedSorted | src/services/personalizedQuestions.js:160-163 | they stay heaviest first |
| QuestionSelection.PickStep | src/services/personalizedQuestions.js:160-168 | the question taken for a category is its heaviest unselected one; none is taken exactly when all are selected |
| QuestionSelection.DiversityPicks | src/services/personalizedQuestions.js:146-170 | phase 2 extends the selection, at most one question per visited category and at most `limit`, each the heaviest unselected question of its category |
| QuestionSelection.DiversityOnePerCategory | src/services/personalizedQuestions.js:157-169 | phase 2 adds no two questions of the same category |
| QuestionSelection.VisitOrderShape | src/services/personalizedQuestions.js:150-154 | phase 2 visits each present category once, in ascending completion score |
| QuestionSelection.AppendFreshDistinct | src/services/personalizedQuestions.js:181 | appending questions with new distinct ids keeps ids distinct |
| QuestionSelection.ExtendDistinct | src/services/personalizedQuestions.js:161-166 | adding only unselected ids keeps ids distinct |
| QuestionSelection.DiverseDrawnFrom | src/services/personalizedQuestions.js:136-170 | after phases 1 and 2: at most `limit` pool questions, with distinct ids when the pool's are |
| QuestionSelection.RemainingShape | src/services/personalizedQuestions.js:176-178 | the phase 3 candidates are unselected pool questions, with distinct ids |
| QuestionSelection.UnselectedShape | src/services/personalizedQuestions.js:176-177 | the unselected questions are pool questions with unselected, distinct ids |
| QuestionSelection.RemainingCount | src/services/personalizedQuestions.js:176-181 | enough unselected questions remain to fill up to the pool size |
| QuestionSelection.FillDrawnFrom | src/services/personalizedQuestions.js:173-182 | phase 3 adds only unselected pool questions and keeps ids distinct |
| QuestionSelection.SelectionDrawnFrom | src/services/personalizedQuestions.js:136-185 | the selection has at most `limit` questions, all from the pool, none twice |
| QuestionSelection.SelectionLength | src/services/personalizedQuestions.js:136-185 | with distinct pool ids, exactly `min(limit, pool size)` questions are selected |
| QuestionSelection.CalculateImprovementPotential | src/services/personalizedQuestions.js:191-211 | the step-by-step update of `baseImprovement` computes the specified potential |
| QuestionSelection.DiminishingFactorRange | src/services/personalizedQuestions.js:196-199 | the factor lies in [0.3, 1]: 1 up to ten answers, `(20 - n) / 10` up to sixteen, then 0.3 |
| QuestionSelection.CrossesMilestoneExact | src/services/personalizedQuestions.js:202-208 | the bonus applies exactly when a multiple of five lies in `(current, current + additional]` |
| QuestionSelection.ImprovementPotentialBounds | src/services/personalizedQuestions.js:191-211 | the potential is in [0, 50], 0 for no questions, at least 10 when a milestone is crossed, and `min(50, 5 × additional)` up to ten answers otherwise |
| QuestionSelection.MatchingReadinessExact | src/services/personalizedQuestions.js:216-220 | readiness is `5n` below 15, `75 + 2(n - 15)` below 28, then 100 |
| QuestionSelection.MatchingReadinessLevels | src/services/personalizedQuestions.js:216-220 | readiness is in [0, 100] and monotone; at most 20 below 5 answers, in [25, 70] for 5–14, at least 75 from 15 |
| QuestionSelection.CompletionAdviceExact | src/services/personalizedQuestions.js:229-245 | essential advice up to five below five answers, improvement advice up to fifteen below fifteen |
| QuestionSelection.CategoryAdviceExact | src/services/personalizedQuestions.js:248-261 | diversity advice is given exactly when some category's completion is below 3, naming the first such category |
| QuestionSelection.MilestoneAdviceExact | src/services/personalizedQuestions.js:264-273 | milestone advice is given exactly below 25 answers when the next multiple of five is at most three away (at a multiple of five the gap is 0, so the advice asks for 0 more) |
| QuestionSelection.RecommendationsShape | src/services/personalizedQuestions.js:225-276 | at most three recommendations; from 25 answers only category advice remains; explored categories are under-represented |
| QuestionRoutes.QueueTotalShift | src/routes/questions.js:286-287 | `shift()` removes exactly one queued question |
| QuestionRoutes.RoundRobinLoop | src/routes/questions.js:279-293 | the `while` loop computes the round-robin; it runs at most `3 × categories` iterations, and each iteration removes at most one question |
| QuestionRoutes.GroupedQueues | src/routes/questions.js:267-276 | the grouping loop builds the initial queues |
| QuestionRoutes.SelectAdditionalQuestions | src/routes/questions.js:266-301 | grouping, round-robin and fill compute the specified selection |
| QuestionRoutes.RoundRobinPicks | src/routes/questions.js:282-293 | the round-robin adds at most `limit` questions, each queued and not already selected |
| QuestionRoutes.RoundRobinDrawn | src/routes/questions.js:282-293 | the round-robin picks at most `limit` fetched questions, with no repeated id |
| QuestionRoutes.FillFromRemainingDrawn | src/routes/questions.js:296-301 | the fill adds only fetched, unselected questions and stays within `limit` |
| QuestionRoutes.AdditionalQuestionsDrawn | src/routes/questions.js:266-312 | the response holds at most `limit` fetched questions, none twice |
| QuestionRoutes.AdditionalQuestionsLength | src/routes/questions.js:266-301 | with distinct ids, exactly `min(limit, fetched)` questions are returned |
| QuestionRoutes.DiminishingReturnsRange | src/routes/questions.js:333 | the factor lies in [0.5, 1], is 1 exactly up to ten answers, and is 0.5 from twenty |
| QuestionRoutes.PotentialImprovementBounds | src/routes/questions.js:331-335 | the improvement is in [0, 25] and at most 5% per question; up to ten answers it is exactly `min(25, 5 × additional)` |
| QuestionRoutes.AdditionalForMatching | src/routes/questions.js:236-326 | the response holds at most `limit` questions of the unanswered pool and an improvement in [0, 25] |
| QuestionRoutes.FindActiveQuestion | src/routes/questions.js:358-370 | the lookup finds an active catalog question with that id, and finds none exactly when no such question exists |
| QuestionRoutes.CheckAnswerExact | src/routes/questions.js:373-389 | a scale answer is accepted exactly when its `parseInt` lies within the bounds; a multiple-choice answer exactly when it equals an option; other types always; a rejection names the reason |
| QuestionRoutes.ProgressReadinessExact | src/routes/questions.js:420 | readiness is `min(100, 5 × total)` |
| QuestionRoutes.ReachedMilestoneExact | src/routes/questions.js:422 | a milestone is reached exactly at 5, 10, 15, 20 and 25 |
| QuestionRoutes.CompletionPercentageRange | src/routes/questions.js:438 | the percentage is null exactly without active questions, and in [0, 100] while answers do not outnumber questions |
| QuestionRoutes.ProgressExact | src/routes/questions.js:410-446 | the progress figures: readiness, milestone flag and number, and new matches possible exactly from five answers |
| QuestionRoutes.ProgressMessage | src/routes/questions.js:448-454 | the message order: first answer, milestone, new matches, keep going |
| QuestionRoutes.AnswerStore.constructor | src/routes/questions.js:392-408 | the table starts empty |
| QuestionRoutes.AnswerStore.Upsert | src/routes/questions.js:392-408 | the (user, question) answer becomes the new value and everything else is unchanged; the user's count grows by one exactly for a new question |
| QuestionRoutes.AnswerStore.SubmitAnswer | src/routes/questions.js:338-455 | a rejected answer changes nothing and names the reason; an accepted one is upserted and reports the user's progress over the active catalog |
| QuestionRoutes.UpsertCount | src/routes/questions.js:392-413 | after an upsert exactly one answer exists for the key, other answers are unchanged, and only this user's count grows, by one for a new key |
| Locations.TagAll | src/data/locationData.js:337-345 | one tagged city per city of a state |
| Locations.PushStateCities | src/data/locationData.js:337-345 | the push loop appends a state's tagged cities |
| Locations.PushCountryCities | src/data/locationData.js:336-346 | the loop appends a country's cities, state by state |
| Locations.PushContinentCities | src/data/locationData.js:335-347 | the loop appends a continent's cities, country by country |
| Locations.GetAllCities | src/data/locationData.js:331-351 | the nested loops, then the sort, compute the specified city list |
| Locations.TagAllExact | src/data/locationData.js:337-345 | a state's tagged cities are exactly its cities with that state's names |
| Locations.CitiesOfStatesExact | src/data/locationData.js:336-346 | a country's cities are exactly those of its states |
| Locations.CitiesOfCountriesExact | src/data/locationData.js:335-347 | a continent's cities are exactly those of its countries |
| Locations.FlattenSource | src/data/locationData.js:334-348 | every flattened city comes from one of the continents |
| Locations.FlattenHas | src/data/locationData.js:334-348 | every continent's cities are in the flattened list |
| Locations.FlattenExact | src/data/locationData.js:334-348 | the flattened list has exactly the continents' cities |
| Locations.AllCitiesExact | src/data/locationData.js:331-350 | a listed city is exactly some table city tagged with its own state, country and continent; `fullLocation` is `name, state, country` |
| Locations.AllCitiesCount | src/data/locationData.js:331-350 | the list has as many entries as the table has cities, so each appears once |
| Locations.FlattenCount | src/data/locationData.js:334-348 | flattening keeps the city count |
| Locations.CountriesCount | src/data/locationData.js:335-347 | a continent contributes its countries' city counts |
| Locations.StatesCount | src/data/locationData.js:336-346 | a country contributes its states' city counts |
| Locations.AllCitiesSorted | src/data/locationData.js:350 | the list is sorted by city name |
| Locations.SearchCitiesSound | src/data/locationData.js:354-364 | at most 20 results, each a listed city containing the lower-cased query, in list order; with fewer than 20 results every match is returned |

## Left out

- Database access: Prisma reads are input sequences in storage order. A `where … take n` is a filter and a cut. A user lookup is an `Option`. The active-question count is `ActiveCount` over the catalog passed in.
- Concurrency: the two answer fetches run in parallel through `Promise.all` in `src/services/enhancedMatching.js`; here they are sequential.
- Randomness: the shuffle `sort(() => 0.5 - Math.random())` in `src/routes/questions.js:193` belongs to a route outside this model.
- I/O: logging, HTTP status codes, response envelopes and the `updatedAt` timestamp of the upsert are not modelled.
- Floating point: scores are exact reals. `Math.round(x)` is `floor(x + 0.5)`, and `toFixed(1)` on a non-negative score is the same rule at one decimal. IEEE rounding of intermediate results, and the odd `toFixed` ties of binary floats, are not modelled.
- Numbers in answers are integers (`Num(int)`); fractional JSON numbers are not modelled. `parseFloat`, `parseInt` and `Number()` accept optional whitespace, a sign, digits and (for the float parsers) a decimal fraction. Exponents, hexadecimal, `Infinity` and the full Unicode whitespace set are not modelled.
- `toLowerCase` is ASCII-only, and `split(/\s+/)` splits on ASCII whitespace.
- `localeCompare` is replaced by code-unit lexicographic order (`StrLe`) in `Locations.AllCitiesSorted` and the `getAllCities` sort; the locale's collation is not modelled.
- In-place `Array.prototype.sort` is modelled as the stable insertion sort `Seqs.Sort` on values. Sorting in place, aliasing of the sorted array, and engine-specific orders for inconsistent comparators are not modelled.
- JavaScript object key order: category maps are sequences in their source order. Object keys that look like integers, which JavaScript would reorder, are not modelled.
- `calculateDistance` (`src/data/locationData.js:367-376`) is trigonometric floating-point code and is not part of this model. The city table is a parameter of `GetAllCities` and `SearchCities`, not the literal data.
- Outside the core, and not part of this model: `getPersonalizedQuestions`, `getQuestionsByCategory`, `getHighImpactQuestions` and `calculatePersonalityProfile` in `src/services/personalizedQuestions.js`, and the other routes of `src/routes/questions.js`.
- EnhancedMatching.QuestionCompatibility: requires a well-formed question, i.e. a scale question whose fallback bounds satisfy max > min; with `max <= min` the source divides by zero or a negative range.
- EnhancedMatching.PotentialMatches: age filters are integers or absent; a non-numeric `minAge`/`maxAge` string is not modelled.
- LegacyMatching.CompatibleMatchesOutcome: candidates whose score is NaN are dropped before ranking, because a JavaScript sort with a NaN comparator result has no defined order.
- LegacyMatching.QuizMatchesSound: stated for the NaN-free candidates kept by `ScoreQuiz`, for the reason above.
- QuestionRoutes.AdditionalForMatching: `limit` is a natural number, so a negative or NaN `parseInt(limit)` is not modelled; the same holds for the `limit` of the other selection members.
- QuestionRoutes.CheckAnswerExact: express-validator's `notEmpty()` is read as "not null and not the empty string"; its sanitising of arrays and objects is not modelled. A null `minValue`/`maxValue` compares as 0, as JavaScript does.
- QuestionRoutes.CompletionPercentageRange: a division by zero without active questions is `None`, standing for the `null` that `Infinity` or `NaN` become in JSON.
- QuestionRoutes.AnswerStore.Upsert: the table is a map keyed by (user, question), which is the table's unique key; row ids and timestamps are left out.
