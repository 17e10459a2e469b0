# tabliczka: a verified model of the multiplication-drill engine

tabliczka drills the multiplication table on the grid {1..10} × {1..10}. It keeps a
weight for every fact (a, b). It picks the next question at random, with likelier
picks for heavier facts. Each question comes with four answers: the product and three
distractors taken from products of neighbouring operands. An answer is scored by
comparing its stripped text with the decimal product. The answer and its delay are
then folded back into the fact's weight.

The repository holds two versions of this engine, and both are modelled:

- `tabliczka.py`, the current version (module `Tabliczka`):
  - real weights from 1 to 100, and 101 for an unknown fact;
  - a clamped linear curve from answer delay to weight;
  - averaging of the old weight with the new one;
  - a choice that never repeats the question just asked;
  - a session loop with an optional limit on correct answers.
- `tm.py`, the prototype (module `Tm`):
  - integer weights with three levels (50 unknown or wrong, 30 slow, 1 quick);
  - a choice without exclusion;
  - an endless session loop.

The modules shared by both versions:

- `Problems`: the neighbourhoods `closest_ns` and `close_ns`, the distractor pool
  `wrong_answers`, the answer list and the `Problem` class. The two versions share this
  code. The only difference is that `tabliczka.py` sorts the distractor texts before
  sampling, while `tm.py` samples them in dictionary order. The `sortKeys` parameter
  selects between the two.
- `Draws`: `random.choice`, `random.sample` and `random.shuffle`, each as CPython
  implements it.
  - Each call is driven by an explicit supply of draws, `dice: seq<nat>`.
  - Each draw stands for one `randbelow(n)` and is reduced modulo n. An exhausted
    supply reads as 0.
  - So every outcome the random module can produce is the outcome of some supply
    (`ChoiceReaches`, `SampleReaches`). The model says which outcomes are possible,
    not how likely they are.
- `Pools`: the weighted pool `list(chain(*(repeat(k, w) ...)))` both versions draw from.
- `Text`: `str()` of an integer, `str.strip()` and `sorted()` of strings.
- `Facts`: the grid and `itertools.product` order.
- `Seqs`: general sequence facts.

The distractor dictionaries are keyed by `str(x * y)` in the source. The model keys them
by the product itself. Because `str` is injective on integers (`Text.IntStrInjective`),
dictionaries that agree on integer keys agree on the text keys. The texts come back in
`Problems.Texts`.

State that the source mutates is modelled as classes whose methods change their fields:

- `Tabliczka.State` and `Tm.State` keep the frequency map as a `map` field. Its
  insertion order is a `seq` field, `keys`.
- `Problems.Problem`: its answer list is filled once by a Fisher-Yates shuffle of an
  `array` (`Draws.Shuffle`). The answer text and delay are set by `Answered`.

## Model

| member | source | states |
|---|---|---|
| Tabliczka.Frequency | tabliczka.py:97-102 | the weight lies in [1, 100] for every delay; it is 1 up to 2 s and 100 from 10 s; between them it is 1 + (d − 2)·99/8 |
| Tabliczka.FrequencyMonotone | tabliczka.py:97-102 | a slower answer never earns a smaller weight |
| Tabliczka.FrequencyTable | tabliczka_test.py:28-47 | the unit test's table holds in exact arithmetic: 1 at and below 2 s, 1.12375 at 2.01 s, 50.5 at 6 s, 99.87625 at 9.99 s, 100 at and above 10 s |
| Tabliczka.DefaultKeys | tabliczka.py:130-134 | the default map has exactly the 100 facts of the grid as keys, each of weight 101, and its insertion order lists each key once, in `itertools.product(_NUMBERS, _NUMBERS)` order |
| Tabliczka.NextWeight | tabliczka.py:139-145 | an unknown weight is replaced by the latest one; a known weight is averaged with it, so the result lies between the two and halves the distance to the latest |
| Tabliczka.NextWeightOk | tabliczka.py:139-145 | folding a weight from [1, 100] into a valid weight gives a weight in [1, 100], never unknown again |
| Tabliczka.Folded | tabliczka.py:139-145 | the map after `_update_frequency`: same key set, the question's new weight, every other weight unchanged |
| Tabliczka.FoldedOk | tabliczka.py:147-154 | folding keeps every weight either 101 or in [1, 100], and the folded weight is not 101 |
| Tabliczka.Trunc | tabliczka.py:164 | `int()` truncates toward zero: for w ≥ 0 the result is the floor, for w < 0 the ceiling |
| Tabliczka.GenerationPool | tabliczka.py:164-165 | every fact in the pool is a key, is not the last generated fact and has `int(weight)` ≥ 1 |
| Tabliczka.GenerationPoolMembers | tabliczka.py:164-165 | a fact is in the pool exactly when it is a key, is not the last generated fact, and has `int(weight)` ≥ 1 |
| Tabliczka.GenerationPoolCounts | tabliczka.py:164-165 | each fact in the pool occurs exactly `int(weight)` times |
| Tabliczka.GenerationPoolValid | tabliczka.py:164-166 | with valid weights the pool is all keys but the last generated one, so two or more keys never leave it empty |
| Tabliczka.Generated | tabliczka.py:166 | the choice is empty exactly when the pool is empty, and otherwise is a pool element |
| Tabliczka.GeneratedValid | tabliczka.py:163-168 | the chosen fact is a key of the grid, differs from the last generated fact and has `int(weight)` ≥ 1 |
| Tabliczka.State.constructor | tabliczka.py:130-137 | an empty map gives the default map in product order; a non-empty one is kept; the counters are as given; no fact was generated yet |
| Tabliczka.State.UpdateFrequency | tabliczka.py:139-145 | only the question's weight changes, to `NextWeight` of the old one; keys, counters and last fact are unchanged |
| Tabliczka.State.UpdateFrom | tabliczka.py:147-154 | a wrong answer folds in 100 and adds one error; a right one folds in `frequency(delay)` and adds one success; the key set is unchanged |
| Tabliczka.State.GenerateProblem | tabliczka.py:163-168 | the problem is for the chosen fact, with answers drawn from sorted distractors; the fact becomes the last generated one; an empty pool yields no problem and no change; valid weights and two or more keys always yield a problem |
| Tabliczka.PlayRound | tabliczka.py:87-91 | one round keeps validity and keys; the choice fails exactly when `Generated` is empty, and then nothing but the failure happens; otherwise the outcome is whether the round's answer solves the generated fact, that fact becomes the last generated one and the weights become `Folded` of what the answer earned; exactly the counter the outcome names moves; valid weights stay valid, and with two or more keys never fail |
| Tabliczka.AnswerAndFold | tabliczka.py:88-89 | the outcome is whether the round's stripped answer is the product text; the weights become `Folded` of the old ones at the fact with what the answer earned (100 when wrong, `frequency(delay)` when right); the last generated fact is unchanged; exactly the counter the outcome names moves; valid weights stay valid |
| Tabliczka.Run | tabliczka.py:84-94 | the ghost results are a trace of the rounds played: round i asked a fact `Generated` from the weights before it and the fact asked before it, its outcome is whether its answer solves that fact, and it took the weights to `Folded` of what the answer earned; the number solved is the number of true outcomes, and the counters grow by the successes and errors; a limit decrements only on success and the loop stops once `max(limit, 0)` successes were counted; with rounds left over it stopped because of the limit or because the choice failed on an empty pool; valid weights and two or more keys never fail |
| Tabliczka.Earned | tabliczka.py:149-153 | the weight folded in lies in [1, 100] and is 100 for a wrong answer |
| Tabliczka.StepAtAppend | tabliczka.py:86-94 | appending a round to a trace keeps every earlier round as it was |
| Tabliczka.TraceExtend | tabliczka.py:86-94 | a trace followed by one more step from its last weights and last fact is a trace |
| Tabliczka.TraceNoRepeat | tabliczka.py:164-167 | in a session no fact is asked twice in a row, and the first one differs from the fact generated before the session |
| Tabliczka.TraceWeights | tabliczka.py:139-154 | every round of a session keeps the key set of the weights, and valid weights stay valid through the whole session |
| Tm.NewWeight | tm.py:100-108 | a wrong answer gives 50; a right one gives 1 when it took at most 5 s and 30 otherwise (each as an if-and-only-if) |
| Tm.NewWeightOrder | tm.py:100-108 | a slower right answer never gets a smaller weight, and a wrong answer always gets more than a right one |
| Tm.DefaultKeys | tm.py:89-93 | the default map has exactly the 100 facts of the grid as keys, each of weight 50; its insertion order lists each key once in product order; all its weights are levels |
| Tm.Inserted | tm.py:101 | dictionary assignment keeps the key order of an existing key and adds a new one last, without repetitions |
| Tm.GenerationPool | tm.py:118-119 | every fact in the pool is a key of weight ≥ 1 |
| Tm.GenerationPoolMembers | tm.py:118-119 | a fact is in the pool exactly when it is a key of weight ≥ 1; the last question is not excluded |
| Tm.GenerationPoolCounts | tm.py:118-119 | each fact in the pool occurs exactly as often as its weight |
| Tm.GenerationPoolNonEmpty | tm.py:118-120 | with weights in {1, 30, 50} a map with any key never leaves the pool empty |
| Tm.Generated | tm.py:120 | the choice is empty exactly when the pool is empty, and otherwise is a pool element |
| Tm.GeneratedValid | tm.py:117-120 | the chosen fact is a key of the grid of weight ≥ 1 |
| Tm.State.constructor | tm.py:89-95 | an empty map gives the default map in product order; a non-empty one is kept; the counters are as given |
| Tm.State.UpdateFrom | tm.py:97-108 | the question's weight becomes `NewWeight` of the outcome and delay; the matching counter goes up by one; a missing key is added last; weights in {1, 30, 50} stay so |
| Tm.State.GenerateProblem | tm.py:117-120 | the problem is for the chosen fact, with answers drawn from distractors in dictionary order; the state is unchanged; weights that are levels, in a map with at least one key, always yield a problem |
| Tm.PlayRound | tm.py:56-58 | one round keeps validity and keys; the choice fails exactly when `Generated` is empty, and then nothing changes; otherwise the outcome is whether the round's answer solves the generated fact and that fact's weight becomes `NewWeight` of the outcome and delay; exactly the counter the outcome names moves; levels stay levels and a non-empty map of levels never fails |
| Tm.AnswerAndFold | tm.py:57-58 | the outcome is whether the round's stripped answer is the product text; the fact's weight becomes `NewWeight` of that outcome and the delay, and no other weight changes; exactly the counter the outcome names moves; levels stay levels |
| Tm.Run | tm.py:53-61 | the ghost results are a trace of the rounds played: round i asked a fact `Generated` from the weights before it, its outcome is whether its answer solves that fact, and it set that fact's weight to `NewWeight`; the number solved is the number of true outcomes and the counters grow by the successes and errors; every round is played unless the choice fails on an empty pool; valid levels with any key never fail |
| Tm.StepAtAppend | tm.py:55-61 | appending a round to a trace keeps every earlier round as it was |
| Tm.TraceExtend | tm.py:55-61 | a trace followed by one more step from its last weights is a trace |
| Tm.TraceWeights | tm.py:97-108 | every round of a session keeps the key set of the weights, and levels stay levels through the whole session |
| Problems.ClosestNs | tabliczka.py:391-397 | n is in the neighbourhood, with no repeats; for n in 1..10 it is exactly the operands of 1..10 within distance 1 of n; the prototype has the same code at tm.py:298-304 |
| Problems.CloseNs | tabliczka.py:400-406 | n is in the window, with no repeats and at least four entries; for n = 1 or 2 the window is exactly 1..4, for n = 9 or 10 exactly 7..10, and otherwise exactly n − 2..n + 2; for n in 1..10 every member is in 1..10; the prototype has the same code at tm.py:307-313 |
| Problems.ClosestWithinClose | tabliczka.py:391-406 | the closest neighbourhood lies inside the close one |
| Problems.CorrectAnswerSpec | tabliczka.py:360-361 | the correct answer has no surrounding whitespace and is the text of a·b and of no other integer |
| Problems.ProductMap | tabliczka.py:370 | the dictionary has a key for every pair's product, and the pair a key holds multiplies to it |
| Problems.ProductOrder | tabliczka.py:370 | the dictionary's key order lists each of its keys once |
| Problems.PoolOf | tabliczka.py:370-371 | after `del`, the correct product is gone and every entry is a pair of the neighbourhoods multiplying to its key |
| Problems.CorrectProductPresent | tabliczka.py:371 | the key `del` removes is always present, so `del` never raises |
| Problems.InPool | tabliczka.py:370-371 | every product of the neighbourhoods other than a·b is a key of the pool |
| Problems.Without | tabliczka.py:371 | `del` of a key from the key order: the other keys stay, the removed one is gone, repeats do not appear, an absent key changes nothing, and a present key is cut out at its position |
| Problems.PoolOrder | tabliczka.py:370-371 | the key order after `del` lists exactly the keys of the pool, each once |
| Problems.ClosestPool | tabliczka.py:368-371 | the closest pool excludes a·b, each pair comes from the closest neighbourhoods and multiplies to its key, and every such product other than a·b is a key |
| Problems.ClosePool | tabliczka.py:374-377 | the close pool excludes a·b, each pair comes from the close windows and multiplies to its key, and every such product other than a·b is a key |
| Problems.ClosePoolEnough | tabliczka.py:374-378 | the close pool has at least three distractors for every pair of operands |
| Problems.WrongAnswers | tabliczka.py:366-378 | the correct product is excluded; each pair multiplies to its key; every pair comes from the close neighbourhoods and lies in the grid; the prototype has the same code at tm.py:273-285 |
| Problems.WrongAnswersChoice | tabliczka.py:372-373 | the closest pool is returned exactly when it has at least three entries, which fails only at (1, 1) and (10, 10) |
| Problems.ClosestPoolLarge | tabliczka.py:368-373 | away from (1, 1) and (10, 10) the closest pool has at least three distractors |
| Problems.ClosestPoolSmall | tabliczka.py:368-373 | at (1, 1) and (10, 10) the closest pool has exactly two distractors |
| Problems.CornerFallback | tabliczka.py:374-378 | at the corners the close pool is returned and has at least three distractors |
| Problems.WrongAnswersEnough | tabliczka.py:351 | for every pair of integer operands there are at least three distractors, so `random.sample(..., 3)` never raises |
| Problems.CorrectNotDistractor | tabliczka.py:360-371 | the correct answer's text is never a distractor text |
| Problems.DistractorKeys | tabliczka.py:366-378 | the key order of `wrong_answers()` lists each key once and exactly the dictionary's keys |
| Problems.Distractors | tabliczka.py:351 | there are as many distractor texts as dictionary entries, sorted in Python's string order when sorting is on; with sorting off they are the texts of `DistractorKeys` (tm.py:258) |
| Problems.DistractorsSpec | tabliczka.py:351 | the distractor texts are distinct and are exactly the `str()` of the dictionary's keys |
| Problems.AnswerTexts | tabliczka.py:351 | three sampled texts then the correct one; they have no repeats when the texts have none and exclude the correct one |
| Problems.AnswerList | tabliczka.py:351 | the list before shuffling has four entries and ends with the correct answer |
| Problems.AnswerListValid | tabliczka.py:351 | the list before shuffling holds four distinct answers: the correct one and three distractors |
| Problems.ShuffledAnswers | tabliczka.py:351-352 | the shuffled list is a permutation of the list before shuffling |
| Problems.ProblemAnswers | tabliczka.py:351-352 | a problem's answers are four distinct texts, one of them `str(a*b)` and the rest distractors, and exactly one of them is scored correct; with sorting off this is the prototype's tm.py:258-259 |
| Problems.ShuffledAnswersValid | tabliczka.py:352 | a permutation of a valid answer list is valid |
| Problems.OneCorrectAnswer | tabliczka.py:387-388 | among valid answers exactly one position strips to the correct answer |
| Problems.AnswersTrimmed | tabliczka.py:351 | every answer on offer is a decimal text with no surrounding whitespace |
| Problems.DrawAnswers | tabliczka.py:351-352 | sampling, appending and shuffling in place give `ShuffledAnswers` |
| Problems.Problem.constructor | tabliczka.py:348-352 | for any integer operands the problem keeps its operands, its answers are `ShuffledAnswers` of the draws and are valid; it is unanswered; the prototype's constructor (tm.py:255-259) is this one with sorting off |
| Problems.Problem.Correct | tabliczka.py:360-361 | `correct_answer()` of a valid problem is one of the answers on offer; `CorrectAnswerSpec` states which text it is |
| Problems.Problem.Answers | tabliczka.py:363-364 | `answers()` holds four distinct texts: the correct answer and three distractors |
| Problems.Problem.Answered | tabliczka.py:380-382 | the stripped text and the time elapsed since asking are stored; the prototype has the same code at tm.py:287-289 |
| Problems.ScoringByText | tabliczka.py:387-388 | an answer is scored correct exactly when its text is the decimal product with only whitespace around it; the prototype has the same code at tm.py:294-295 |
| Text.Decimal | tabliczka.py:361 | `str(n)` of n ≥ 0: at least one character, all digits, no leading zero |
| Text.ValueOfDecimal | tabliczka.py:361 | reading the digits back gives n |
| Text.IntStr | tabliczka.py:361 | `str(n)`: a non-empty text with no surrounding whitespace |
| Text.IntStrInjective | tabliczka.py:360-361 | different integers have different texts, both ways |
| Text.TrimStartSpec | tabliczka.py:381 | `lstrip()` leaves a suffix that does not start with whitespace, and only whitespace was dropped |
| Text.TrimEndSpec | tabliczka.py:381 | `rstrip()` leaves a prefix that does not end with whitespace, and only whitespace was dropped |
| Text.StripSpec | tabliczka.py:381 | `strip()` leaves a trimmed text that sits in the input between whitespace only |
| Text.StripPadded | tabliczka.py:381 | a trimmed text with whitespace around it strips to itself |
| Text.StripMatches | tabliczka.py:381-388 | a text strips to a trimmed t exactly when it is t with whitespace only around it |
| Text.StripTrimmed | tabliczka.py:381 | a text without surrounding whitespace strips to itself |
| Text.SortStrings | tabliczka.py:351 | `sorted()`: the result is in Python's string order and is a permutation of the input, without repeats when the input has none |
| Text.LexTotal | tabliczka.py:351 | Python's string order is total |
| Pools.Repeat | tabliczka.py:164 | `itertools.repeat(x, n)` gives n copies of x, none for n ≤ 0 |
| Pools.RepeatCount | tabliczka.py:164 | x occurs in `repeat(x, n)` exactly as often as the result is long |
| Pools.Pool | tabliczka.py:164-165 | a fact is in the flattened pool exactly when it is listed, is not skipped and is repeated at least once |
| Pools.PoolMultiplicity | tabliczka.py:164-165 | each admitted fact occurs in the pool exactly as often as its repetition count |
| Draws.Roll | tabliczka.py:166 | a draw for `randbelow(n)` is below n, and a draw already below n is taken as is |
| Draws.Choice | tabliczka.py:166 | `random.choice` returns an element of the list |
| Draws.ChoiceReaches | tabliczka.py:166 | every element of the list can be chosen |
| Draws.RemoveAt | tabliczka.py:351 | the sample's pool after a draw has one element fewer, keeps every other element and loses the drawn one |
| Draws.Sample | tabliczka.py:351 | `random.sample(pop, k)` returns k elements of pop, without repeats when pop has none |
| Draws.SampleReaches | tabliczka.py:351 | every ordered choice of distinct elements of pop can be drawn |
| Draws.Swap | tabliczka.py:352 | an exchange is a permutation and keeps a list without repeats so |
| Draws.Shuffled | tabliczka.py:352 | Fisher-Yates from the last position down gives a permutation, without repeats when the input has none |
| Draws.Shuffle | tabliczka.py:352 | `random.shuffle` in place on an array leaves `Shuffled` of its old contents |
| Facts.GridOrderFacts | tabliczka.py:134 | the grid order lists every fact of the grid exactly once |
| Facts.GridIsProduct | tabliczka.py:134 | the grid order is `itertools.product(_NUMBERS, _NUMBERS)` |
| Facts.Numbers | tabliczka.py:30 | `_NUMBERS` holds exactly 1..10, without repeats |
| Facts.CrossHas | tabliczka.py:370 | every pair of the operands occurs in `itertools.product` |
| Facts.Cross | tabliczka.py:370 | every entry of `itertools.product(xs, ys)` pairs an element of xs with one of ys |
| Facts.GridSet | tabliczka.py:134 | the key set of the default map is exactly the grid and has 100 elements |
| Facts.UniformMap | tabliczka.py:134 | `dict((q, w) for q in product(...))` has exactly the facts of the grid as keys, each with weight w; the prototype has the same code at tm.py:93 |
| Seqs.CountTrueAppend | tabliczka.py:89-93 | the number of correct answers of a session is additive over its rounds |

## Left out

- Pickle persistence, the state and legacy file paths and the XDG lookup are left out because they are file I/O; `save`, `load` and `load_from` are not modelled. Missing counters become the constructor's arguments.
- The CLI and GUI classes, pygame, the feedback delays, `dump`, `__str__`, argparse and logging are left out because they are user interface.
- `time.time()` is left out: the clock reading is a parameter of `Problem.Answered`.
- The rounds a user plays are a parameter of `Run`: the answer text, the two clock readings and the draws of each round.
- The probability distribution of random choices is left out; the model says which outcomes are possible.
- Exact IEEE digits are left out (the unit test's 1.1237499999999974 at 2.01 s): weights are Dafny reals, and `Tabliczka.FrequencyTable` states 1.12375.
- A `None` and an empty map argument are both falsy in the source; both are modelled as the empty `map`.
- Tabliczka.State.constructor and Tm.State.constructor: require the loaded keys to be listed once each and to be facts of the grid. A pickle holding other keys, or non-numeric weights, is not modelled.
- Tabliczka.State.UpdateFrom, Tabliczka.State.UpdateFrequency: require the question to be a key, because the source raises KeyError otherwise; the exception is not modelled.
- Tabliczka.State.UpdateFrom, Tm.State.UpdateFrom: require an answered problem; calling them before `answered` raises AttributeError in the source.
- Problems.Problem.AnswerDelay and Problems.Problem.AnsweredCorrectly: carry no contract of their own; `Problems.ScoringByText` states what the scoring means.
- `Tabliczka.State.CorrectCount`, `Tabliczka.State.ErrorCount`, `Tm.State.CorrectCount` and `Tm.State.ErrorCount` are plain accessors without a contract; the counters they return are stated by the methods that change them.
- Draws.Shuffled: it is not proved that every permutation is reachable, only that the result is a permutation.
- Draws.Sample: follows the pool method CPython uses for populations of at most 21 elements. The set-based method for larger populations is not modelled, since no distractor pool is that large.
- The call to `self.answers()` on a `CLI` object (tm.py:146) fails in the source; it is user interface and is not modelled.
- `random.sample` of `dict.keys()` (tm.py:258) is rejected by Python 3.11 and later. It is modelled as in earlier versions, as a sample of the keys in dictionary order.
- Problems.ProductOrder and Problems.DistractorKeys: state which keys the dictionary order holds, each once; the exact first-insertion order of `dict()` is computed but not stated as a property.
- Problems.Distractors: with sorting off its order is that of `DistractorKeys`, so the prototype's distractor order is exact only as far as that key order is stated.