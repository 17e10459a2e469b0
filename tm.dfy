/** The prototype of the drill: an integer weight per fact with three levels
    (unknown or wrong, slow, quick) and a weighted choice of the next question
    that may repeat the question just asked. The problems are those of the
    current version, except that the distractors are sampled in dictionary
    order rather than sorted. */
module Tm {
  import opened Seqs
  import opened Facts
  import opened Draws
  import opened Pools
  import opened Problems

  /** The weight of a fact never answered, or last answered wrongly. */
  const FreqUnknown: int := 50
  /** The weight of a correct but slow answer. */
  const FreqSlow: int := 30
  /** The weight of a quick correct answer. */
  const FreqQuick: int := 1
  /** Correct answers this quick or quicker are quick. */
  const QuickAnswerSec: real := 5.0

  /** One of the three weights the program writes. */
  predicate Level(w: int) {
    w == FreqUnknown || w == FreqSlow || w == FreqQuick
  }

  predicate WeightsOk(m: map<Fact, int>) {
    forall f :: f in m ==> Level(m[f])
  }

  /** The map a fresh state starts from: every fact of the grid, unknown. */
  function DefaultMap(): map<Fact, int> {
    UniformMap(FreqUnknown)
  }

  /** The default map lists its keys, the grid, once each in `itertools.product` order,
      and all its weights are levels. */
  lemma DefaultKeys()
    ensures Distinct(GridOrder())
    ensures forall f :: f in GridOrder() <==> f in DefaultMap()
    ensures forall f :: f in DefaultMap() ==> InGrid(f)
    ensures forall f :: f in DefaultMap() ==> DefaultMap()[f] == FreqUnknown
    ensures WeightsOk(DefaultMap())
  {
    GridOrderFacts();
  }

  /** The weight `update_from` writes for an answer: the unknown weight when it was
      wrong, the quick one when it was right within five seconds, the slow one otherwise. */
  function NewWeight(correct: bool, delay: real): (r: int)
    ensures Level(r)
    ensures r == FreqUnknown <==> !correct
    ensures r == FreqQuick <==> correct && delay <= QuickAnswerSec
    ensures r == FreqSlow <==> correct && delay > QuickAnswerSec
  {
    if !correct then FreqUnknown else if delay <= QuickAnswerSec then FreqQuick else FreqSlow
  }

  /** A slower correct answer never earns a smaller weight, and a wrong answer earns
      more than any correct one. */
  lemma NewWeightOrder(d1: real, d2: real)
    requires d1 <= d2
    ensures NewWeight(true, d1) <= NewWeight(true, d2) < NewWeight(false, d1)
  {
  }

  /** The keys of a dictionary in insertion order after `m[q] = w`: a new key goes last. */
  function Inserted(keys: seq<Fact>, q: Fact): (r: seq<Fact>)
    ensures forall f :: f in r <==> f in keys || f == q
    ensures Distinct(keys) ==> Distinct(r)
    ensures q in keys ==> r == keys
    ensures q !in keys ==> r == keys + [q]
  {
    InsertedDistinct(keys, q);
    if q in keys then keys else keys + [q]
  }

  lemma InsertedDistinct(keys: seq<Fact>, q: Fact)
    ensures Distinct(keys) && q !in keys ==> Distinct(keys + [q])
  {
    var r := keys + [q];
    assert forall i :: 0 <= i < |keys| ==> r[i] == keys[i];
  }

  /** The list `generate_problem` chooses from: the facts in the map's order, each
      repeated its weight times. Nothing is left out. */
  function GenerationPool(keys: seq<Fact>, m: map<Fact, int>): (r: seq<Fact>)
    requires forall f :: f in keys ==> f in m
    ensures forall f :: f in r ==> f in keys && m[f] >= 1
  {
    Pool(keys, m, None)
  }

  /** A fact is on offer exactly when it is a key of weight at least one, whether or
      not it was asked last. */
  lemma GenerationPoolMembers(keys: seq<Fact>, m: map<Fact, int>, f: Fact)
    requires forall g :: g in keys <==> g in m
    ensures f in GenerationPool(keys, m) <==> f in m && m[f] >= 1
  {
  }

  /** Every fact on offer occurs as often as its weight says. */
  lemma GenerationPoolCounts(keys: seq<Fact>, m: map<Fact, int>, f: Fact)
    requires Distinct(keys)
    requires forall g :: g in keys <==> g in m
    ensures multiset(GenerationPool(keys, m))[f] == if f in m && m[f] > 0 then m[f] else 0
  {
    PoolMultiplicity(keys, m, None, f);
  }

  /** With weights that are levels, a map with any key never leaves the choice empty. */
  lemma GenerationPoolNonEmpty(keys: seq<Fact>, m: map<Fact, int>)
    requires forall g :: g in keys <==> g in m
    requires WeightsOk(m) && keys != []
    ensures GenerationPool(keys, m) != []
  {
    assert keys[0] in m && Level(m[keys[0]]);
    GenerationPoolMembers(keys, m, keys[0]);
  }

  /** The fact `generate_problem` draws with `random.choice`, or None when the pool is empty. */
  function Generated(keys: seq<Fact>, m: map<Fact, int>, dice: seq<nat>): (r: Option<Fact>)
    requires forall f :: f in keys ==> f in m
    ensures r.None? <==> GenerationPool(keys, m) == []
    ensures r.Some? ==> r.value in GenerationPool(keys, m)
  {
    if GenerationPool(keys, m) == [] then None else Some(Choice(GenerationPool(keys, m), dice))
  }

  /** The drawn fact is a key of the map, of the grid when the map is, and of weight at
      least one. */
  lemma GeneratedValid(keys: seq<Fact>, m: map<Fact, int>, dice: seq<nat>)
    requires forall f :: f in keys <==> f in m
    requires forall f :: f in m ==> InGrid(f)
    ensures Generated(keys, m, dice).Some? ==>
              var f := Generated(keys, m, dice).value;
              f in m && InGrid(f) && m[f] >= 1
  {
    if Generated(keys, m, dice).Some? {
      GenerationPoolMembers(keys, m, Generated(keys, m, dice).value);
    }
  }

  /** `State`: the weight of every fact, kept in the dictionary's insertion order, and
      the two counters. */
  class State {
    /** The keys of `_frequency_map` in insertion order. */
    var keys: seq<Fact>
    var frequencyMap: map<Fact, int>
    var correctCount: int
    var errorCount: int

    /** The keys list the map's keys once each, and all are facts of the grid. */
    ghost predicate Valid()
      reads this
    {
      && Distinct(keys)
      && (forall f :: f in keys <==> f in frequencyMap)
      && (forall f :: f in frequencyMap ==> InGrid(f))
    }

    /** `State(frequency_map, correct_count, error_count)`. A missing or empty map
        (both are falsy in the source) gives the default map of 100 unknown facts. */
    constructor (loadedKeys: seq<Fact>, loaded: map<Fact, int>, correctCount: int, errorCount: int)
      requires Distinct(loadedKeys)
      requires forall f :: f in loadedKeys <==> f in loaded
      requires forall f :: f in loaded ==> InGrid(f)
      ensures Valid()
      ensures |loaded| == 0 ==> keys == GridOrder() && frequencyMap == DefaultMap()
      ensures |loaded| > 0 ==> keys == loadedKeys && frequencyMap == loaded
      ensures this.correctCount == correctCount && this.errorCount == errorCount
    {
      if |loaded| > 0 {
        keys := loadedKeys;
        frequencyMap := loaded;
      } else {
        DefaultKeys();
        keys := GridOrder();
        frequencyMap := DefaultMap();
      }
      this.correctCount := correctCount;
      this.errorCount := errorCount;
    }

    /** `update_from(problem)`: the question's weight is overwritten with the level the
        answer earns, and the matching counter goes up. The assignment adds the
        question to the map if it was missing. */
    method UpdateFrom(problem: Problem)
      requires problem.answerText.Some?
      modifies this
      ensures frequencyMap == old(frequencyMap)[Fact(problem.a, problem.b) :=
                NewWeight(problem.AnsweredCorrectly(), problem.AnswerDelay())]
      ensures keys == Inserted(old(keys), Fact(problem.a, problem.b))
      ensures problem.AnsweredCorrectly() ==>
                correctCount == old(correctCount) + 1 && errorCount == old(errorCount)
      ensures !problem.AnsweredCorrectly() ==>
                errorCount == old(errorCount) + 1 && correctCount == old(correctCount)
      ensures old(WeightsOk(frequencyMap)) ==> WeightsOk(frequencyMap)
      ensures old(Valid()) && InGrid(Fact(problem.a, problem.b)) ==> Valid()
    {
      var q := Fact(problem.a, problem.b);
      keys := Inserted(keys, q);
      if !problem.AnsweredCorrectly() {
        frequencyMap := frequencyMap[q := FreqUnknown];
        errorCount := errorCount + 1;
      } else if problem.AnswerDelay() <= QuickAnswerSec {
        frequencyMap := frequencyMap[q := FreqQuick];
        correctCount := correctCount + 1;
      } else {
        frequencyMap := frequencyMap[q := FreqSlow];
        correctCount := correctCount + 1;
      }
    }

    /** `generate_problem()`: a fact drawn from the weighted pool becomes the question;
        the state does not change. An empty pool makes `random.choice` raise
        IndexError, modelled as no problem; weights that are levels never allow it. */
    method GenerateProblem(dice: seq<nat>) returns (r: Option<Problem>)
      requires Valid()
      ensures r.None? <==> Generated(keys, frequencyMap, dice).None?
      ensures r.Some? ==>
                && fresh(r.value)
                && Generated(keys, frequencyMap, dice) == Some(Fact(r.value.a, r.value.b))
                && r.value.answers == ShuffledAnswers(r.value.a, r.value.b, false, Rest(dice))
                && r.value.answerText == None
                && Fact(r.value.a, r.value.b) in frequencyMap
      ensures WeightsOk(frequencyMap) && keys != [] ==> r.Some?
    {
      if WeightsOk(frequencyMap) && keys != [] {
        GenerationPoolNonEmpty(keys, frequencyMap);
      }
      var generated := Generated(keys, frequencyMap, dice);
      if generated.None? {
        return None;
      }
      GeneratedValid(keys, frequencyMap, dice);
      var problem := new Problem(generated.value.a, generated.value.b, false, Rest(dice));
      r := Some(problem);
    }

    /** `correct_count()`. */
    function CorrectCount(): int
      reads this
    {
      correctCount
    }

    /** `error_count()`. */
    function ErrorCount(): int
      reads this
    {
      errorCount
    }
  }

  /** One round of `run`: the round's draws choose f from the weights m, its answer is
      scored ok, and the weights become m'. */
  ghost predicate Step(keys: seq<Fact>, m: map<Fact, int>, round: Round, f: Fact, ok: bool, m': map<Fact, int>)
  {
    && (forall g :: g in keys ==> g in m)
    && Generated(keys, m, round.dice) == Some(f)
    && ok == Solves(round, f)
    && m' == m[f := NewWeight(ok, round.now - round.askedTime)]
  }

  /** Round i of a trace is a step from the weights before it to the weights after it. */
  ghost predicate StepAt(keys: seq<Fact>, rounds: seq<Round>, asked: seq<Fact>, outcomes: seq<bool>,
                         weights: seq<map<Fact, int>>, i: nat)
  {
    && i < |asked| && i < |outcomes| && i < |rounds| && i + 1 < |weights|
    && Step(keys, weights[i], rounds[i], asked[i], outcomes[i], weights[i + 1])
  }

  /** The rounds of a session so far: round i asked asked[i], was answered with outcome
      outcomes[i], and took the weights from weights[i] to weights[i + 1]. */
  ghost predicate Trace(keys: seq<Fact>, rounds: seq<Round>, asked: seq<Fact>, outcomes: seq<bool>,
                        weights: seq<map<Fact, int>>)
  {
    && |asked| == |outcomes| <= |rounds|
    && |weights| == |asked| + 1
    && forall i :: 0 <= i < |asked| ==> StepAt(keys, rounds, asked, outcomes, weights, i)
  }

  /** Appending a round leaves every earlier round of a trace as it was. */
  lemma StepAtAppend(keys: seq<Fact>, rounds: seq<Round>, asked: seq<Fact>, outcomes: seq<bool>,
                     weights: seq<map<Fact, int>>, f: Fact, ok: bool, m': map<Fact, int>, i: nat)
    requires StepAt(keys, rounds, asked, outcomes, weights, i)
    ensures StepAt(keys, rounds, asked + [f], outcomes + [ok], weights + [m'], i)
  {
    assert (asked + [f])[i] == asked[i] && (outcomes + [ok])[i] == outcomes[i];
    assert (weights + [m'])[i] == weights[i] && (weights + [m'])[i + 1] == weights[i + 1];
  }

  /** A trace grows by one round at a time. */
  lemma TraceExtend(keys: seq<Fact>, rounds: seq<Round>, asked: seq<Fact>, outcomes: seq<bool>,
                    weights: seq<map<Fact, int>>, f: Fact, ok: bool, m': map<Fact, int>)
    requires Trace(keys, rounds, asked, outcomes, weights) && |asked| < |rounds|
    requires Step(keys, weights[|asked|], rounds[|asked|], f, ok, m')
    ensures Trace(keys, rounds, asked + [f], outcomes + [ok], weights + [m'])
  {
    var n := |asked|;
    forall i | 0 <= i < n
      ensures StepAt(keys, rounds, asked + [f], outcomes + [ok], weights + [m'], i)
    {
      StepAtAppend(keys, rounds, asked, outcomes, weights, f, ok, m', i);
    }
    assert StepAt(keys, rounds, asked + [f], outcomes + [ok], weights + [m'], n);
  }

  /** Every round keeps the keys of the weights and, when they are levels, keeps them so. */
  lemma {:induction false} TraceWeights(keys: seq<Fact>, rounds: seq<Round>, asked: seq<Fact>, outcomes: seq<bool>,
                                        weights: seq<map<Fact, int>>, i: nat)
    requires Trace(keys, rounds, asked, outcomes, weights) && i < |weights|
    ensures weights[i].Keys == weights[0].Keys
    ensures WeightsOk(weights[0]) ==> WeightsOk(weights[i])
  {
    if i > 0 {
      TraceWeights(keys, rounds, asked, outcomes, weights, i - 1);
      var k := i - 1;
      assert StepAt(keys, rounds, asked, outcomes, weights, k);
      assert asked[k] in GenerationPool(keys, weights[k]);
    }
  }

  /** One pass through the body of the loop in `run`: a problem is generated, answered
      and folded into the state. None when generating raises on an empty pool, and
      otherwise whether the answer was right. */
  method PlayRound(state: State, round: Round) returns (outcome: Option<bool>, ghost asked: Fact)
    requires state.Valid()
    modifies state
    ensures state.Valid() && state.keys == old(state.keys)
    ensures outcome.None? <==> Generated(old(state.keys), old(state.frequencyMap), round.dice).None?
    ensures outcome.None? ==> state.frequencyMap == old(state.frequencyMap)
    ensures outcome.Some? ==>
              Step(old(state.keys), old(state.frequencyMap), round, asked, outcome.value, state.frequencyMap)
    ensures old(WeightsOk(state.frequencyMap)) ==> WeightsOk(state.frequencyMap)
    ensures WeightsOk(old(state.frequencyMap)) && old(state.keys) != [] ==> outcome.Some?
    ensures outcome.None? ==> state.correctCount == old(state.correctCount) && state.errorCount == old(state.errorCount)
    ensures outcome == Some(true) ==> state.correctCount == old(state.correctCount) + 1 && state.errorCount == old(state.errorCount)
    ensures outcome == Some(false) ==> state.errorCount == old(state.errorCount) + 1 && state.correctCount == old(state.correctCount)
  {
    var problem := state.GenerateProblem(round.dice);
    asked := Fact(0, 0);
    if problem.None? {
      return None, asked;
    }
    asked := Fact(problem.value.a, problem.value.b);
    outcome := AnswerAndFold(state, problem.value, round);
  }

  /** The rest of a round: the problem is answered with the round's text and folded
      into the state. */
  method AnswerAndFold(state: State, p: Problem, round: Round) returns (outcome: Option<bool>)
    requires state.Valid() && Fact(p.a, p.b) in state.frequencyMap
    modifies state, p
    ensures state.Valid() && state.keys == old(state.keys)
    ensures outcome == Some(Solves(round, Fact(p.a, p.b)))
    ensures state.frequencyMap ==
              old(state.frequencyMap)[Fact(p.a, p.b) := NewWeight(Solves(round, Fact(p.a, p.b)), round.now - round.askedTime)]
    ensures old(WeightsOk(state.frequencyMap)) ==> WeightsOk(state.frequencyMap)
    ensures outcome == Some(true) ==> state.correctCount == old(state.correctCount) + 1 && state.errorCount == old(state.errorCount)
    ensures outcome == Some(false) ==> state.errorCount == old(state.errorCount) + 1 && state.correctCount == old(state.correctCount)
  {
    p.Answered(round.text, round.askedTime, round.now);
    var correct := p.AnsweredCorrectly();
    state.UpdateFrom(p);
    outcome := Some(correct);
  }

  /** `run(ui)` over the rounds a user plays: the loop never ends by itself, so it runs
      until the rounds run out or the choice raises on an empty pool, which weights that
      are levels rule out. The ghost results record the facts asked, the outcome of
      each, and the weights before and after every round. */
  method Run(state: State, rounds: seq<Round>)
    returns (played: nat, solved: nat, crashed: bool,
             ghost asked: seq<Fact>, ghost outcomes: seq<bool>, ghost weights: seq<map<Fact, int>>)
    requires state.Valid()
    modifies state
    ensures state.Valid() && state.keys == old(state.keys)
    ensures Trace(old(state.keys), rounds, asked, outcomes, weights)
    ensures played == |asked| <= |rounds| && solved == CountTrue(outcomes) <= played
    ensures weights[0] == old(state.frequencyMap) && state.frequencyMap == weights[played]
    ensures crashed ==> played < |rounds| && Generated(old(state.keys), weights[played], rounds[played].dice).None?
    ensures !crashed ==> played == |rounds|
    ensures state.correctCount == old(state.correctCount) + solved
    ensures state.errorCount == old(state.errorCount) + (played - solved)
    ensures old(WeightsOk(state.frequencyMap)) ==> WeightsOk(state.frequencyMap)
    ensures WeightsOk(old(state.frequencyMap)) && old(state.keys) != [] ==> !crashed
  {
    played, solved, crashed := 0, 0, false;
    asked, outcomes, weights := [], [], [state.frequencyMap];
    while played < |rounds|
      invariant state.Valid() && state.keys == old(state.keys)
      invariant Trace(old(state.keys), rounds, asked, outcomes, weights)
      invariant played == |asked| <= |rounds| && solved <= played
      invariant solved == CountTrue(outcomes)
      invariant weights[0] == old(state.frequencyMap) && state.frequencyMap == weights[played]
      invariant state.correctCount == old(state.correctCount) + solved
      invariant state.errorCount == old(state.errorCount) + (played - solved)
      invariant old(WeightsOk(state.frequencyMap)) ==> WeightsOk(state.frequencyMap)
    {
      var outcome, f := PlayRound(state, rounds[played]);
      if outcome.None? {
        crashed := true;
        return;
      }
      TraceExtend(old(state.keys), rounds, asked, outcomes, weights, f, outcome.value, state.frequencyMap);
      CountTrueSnoc(outcomes, outcome.value);
      asked := asked + [f];
      outcomes := outcomes + [outcome.value];
      weights := weights + [state.frequencyMap];
      if outcome.value {
        solved := solved + 1;
      }
      played := played + 1;
    }
  }
}
