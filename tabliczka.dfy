/** The current version of the drill: a weight per fact that follows how
    slowly the fact was last answered, and a weighted choice of the next
    question that never repeats the question just asked. */
module Tabliczka {
  import opened Seqs
  import opened Facts
  import opened Draws
  import opened Pools
  import opened Problems

  /** The weight of a fact that has never been answered. */
  const FreqUnknown: real := 101.0
  /** The weight of a slow or wrong answer. */
  const FreqMax: real := 100.0
  /** Answers this slow or slower get the largest weight. */
  const AnswerSecMax: real := 10.0
  /** The weight of a quick answer. */
  const FreqQuick: real := 1.0
  /** Answers this quick or quicker get the smallest weight. */
  const AnswerSecQuick: real := 2.0

  function Min(x: real, y: real): real {
    if x <= y then x else y
  }

  function Max(x: real, y: real): real {
    if x >= y then x else y
  }

  /** `frequency(answer_delay)`: the weight an answer given after `answerDelay`
      seconds earns, rising linearly from the quick weight to the largest one. */
  function Frequency(answerDelay: real): (r: real)
    ensures FreqQuick <= r <= FreqMax
    ensures answerDelay <= AnswerSecQuick ==> r == FreqQuick
    ensures answerDelay >= AnswerSecMax ==> r == FreqMax
    ensures AnswerSecQuick <= answerDelay <= AnswerSecMax ==>
              r == 1.0 + (answerDelay - 2.0) * 99.0 / 8.0
  {
    Max(FreqQuick, Min(FreqMax, FreqQuick + ((answerDelay - AnswerSecQuick) / (AnswerSecMax - AnswerSecQuick)) * (FreqMax - FreqQuick)))
  }

  /** A slower answer never earns a smaller weight. */
  lemma FrequencyMonotone(d1: real, d2: real)
    requires d1 <= d2
    ensures Frequency(d1) <= Frequency(d2)
  {
  }

  /** The delays and weights of the unit test of `frequency`, in exact arithmetic. */
  lemma FrequencyTable()
    ensures Frequency(-10000000000.0) == FreqQuick
    ensures Frequency(-10.0) == FreqQuick && Frequency(-1.0) == FreqQuick
    ensures Frequency(-0.01) == FreqQuick && Frequency(0.0) == FreqQuick
    ensures Frequency(0.01) == FreqQuick && Frequency(AnswerSecQuick) == FreqQuick
    ensures Frequency(2.01) == 1.12375
    ensures Frequency((AnswerSecQuick + AnswerSecMax) / 2.0) == (FreqQuick + FreqMax) / 2.0
    ensures Frequency(9.99) == 99.87625
    ensures Frequency(AnswerSecMax) == FreqMax && Frequency(10.01) == FreqMax
    ensures Frequency(20.0) == FreqMax && Frequency(10000000010.0) == FreqMax
  {
  }

  /** A weight the program itself produces: unknown, or between the quick and the largest. */
  predicate WeightOk(w: real) {
    w == FreqUnknown || FreqQuick <= w <= FreqMax
  }

  predicate WeightsOk(m: map<Fact, real>) {
    forall f :: f in m ==> WeightOk(m[f])
  }

  /** The map a fresh state starts from: every fact of the grid, unknown. */
  function DefaultMap(): map<Fact, real> {
    UniformMap(FreqUnknown)
  }

  /** The default map lists its keys, the grid, once each in `itertools.product` order. */
  lemma DefaultKeys()
    ensures Distinct(GridOrder())
    ensures forall f :: f in GridOrder() <==> f in DefaultMap()
    ensures forall f :: f in DefaultMap() ==> InGrid(f)
    ensures forall f :: f in DefaultMap() ==> DefaultMap()[f] == FreqUnknown
  {
    GridOrderFacts();
  }

  /** `_update_frequency`: the latest weight replaces an unknown one and is
      otherwise averaged with the previous one. */
  function NextWeight(previous: real, latest: real): (r: real)
    ensures previous == FreqUnknown ==> r == latest
    ensures previous != FreqUnknown ==> Min(previous, latest) <= r <= Max(previous, latest)
    ensures previous != FreqUnknown ==> r - latest == (previous - latest) / 2.0
  {
    if previous == FreqUnknown then latest else (previous + latest) / 2.0
  }

  /** Folding in a weight between the quick and the largest one keeps every weight valid,
      and no update ever makes a weight unknown again. */
  lemma NextWeightOk(previous: real, latest: real)
    requires WeightOk(previous) && FreqQuick <= latest <= FreqMax
    ensures WeightOk(NextWeight(previous, latest))
    ensures FreqQuick <= NextWeight(previous, latest) <= FreqMax
  {
  }

  /** `int(x)` of a float: truncation toward zero. */
  function Trunc(w: real): (r: int)
    ensures w >= 0.0 ==> r as real <= w < r as real + 1.0
    ensures w < 0.0 ==> r as real - 1.0 < w <= r as real
  {
    if w >= 0.0 then w.Floor else -((-w).Floor)
  }

  /** `int(weight)` for every fact of the map. */
  function Repetitions(m: map<Fact, real>): (r: map<Fact, int>)
    ensures r.Keys == m.Keys
    ensures forall f :: f in r ==> r[f] == Trunc(m[f])
  {
    map f | f in m :: Trunc(m[f])
  }

  /** The list `generate_problem` chooses from: the facts in the map's order,
      each `int(weight)` times, the last generated one left out. */
  function GenerationPool(keys: seq<Fact>, m: map<Fact, real>, last: Option<Fact>): (r: seq<Fact>)
    requires forall f :: f in keys ==> f in m
    ensures forall f :: f in r ==> f in keys && Some(f) != last && Trunc(m[f]) >= 1
  {
    Pool(keys, Repetitions(m), last)
  }

  /** A fact is on offer exactly when it is a key, was not generated last and has an
      integer weight of at least one. */
  lemma GenerationPoolMembers(keys: seq<Fact>, m: map<Fact, real>, last: Option<Fact>, f: Fact)
    requires forall g :: g in keys <==> g in m
    ensures f in GenerationPool(keys, m, last) <==> f in m && Some(f) != last && Trunc(m[f]) >= 1
  {
  }

  /** Every fact on offer occurs as often as its integer weight says. */
  lemma GenerationPoolCounts(keys: seq<Fact>, m: map<Fact, real>, last: Option<Fact>, f: Fact)
    requires Distinct(keys)
    requires forall g :: g in keys <==> g in m
    ensures multiset(GenerationPool(keys, m, last))[f] ==
            if f in m && Some(f) != last && Trunc(m[f]) > 0 then Trunc(m[f]) else 0
  {
    PoolMultiplicity(keys, Repetitions(m), last, f);
  }

  /** With valid weights every key other than the last generated one is on offer,
      so a map of two or more facts never leaves the choice empty. */
  lemma GenerationPoolValid(keys: seq<Fact>, m: map<Fact, real>, last: Option<Fact>)
    requires forall g :: g in keys <==> g in m
    requires WeightsOk(m)
    ensures forall f :: f in GenerationPool(keys, m, last) <==> f in m && Some(f) != last
    ensures Distinct(keys) && |keys| >= 2 ==> GenerationPool(keys, m, last) != []
  {
    forall f | f in m
      ensures Trunc(m[f]) >= 1
    {
      assert WeightOk(m[f]);
    }
    if Distinct(keys) && |keys| >= 2 {
      var f := if Some(keys[0]) != last then keys[0] else keys[1];
      assert f in GenerationPool(keys, m, last);
    }
  }

  /** The fact `generate_problem` draws with `random.choice`, or None when the pool is empty. */
  function Generated(keys: seq<Fact>, m: map<Fact, real>, last: Option<Fact>, dice: seq<nat>): (r: Option<Fact>)
    requires forall f :: f in keys ==> f in m
    ensures r.None? <==> GenerationPool(keys, m, last) == []
    ensures r.Some? ==> r.value in GenerationPool(keys, m, last)
  {
    if GenerationPool(keys, m, last) == [] then None else Some(Choice(GenerationPool(keys, m, last), dice))
  }

  /** The drawn fact is a key of the map, of the grid when the map is, different from the
      last generated one, and of integer weight at least one. */
  lemma GeneratedValid(keys: seq<Fact>, m: map<Fact, real>, last: Option<Fact>, dice: seq<nat>)
    requires forall f :: f in keys <==> f in m
    requires forall f :: f in m ==> InGrid(f)
    ensures Generated(keys, m, last, dice).Some? ==>
              var f := Generated(keys, m, last, dice).value;
              f in m && InGrid(f) && Some(f) != last && Trunc(m[f]) >= 1
  {
    if Generated(keys, m, last, dice).Some? {
      GenerationPoolMembers(keys, m, last, Generated(keys, m, last, dice).value);
    }
  }

  /** `State`: the weight of every fact, kept in the dictionary's insertion order,
      the two counters and the last generated fact. */
  class State {
    /** The keys of `_frequency_map` in insertion order. */
    var keys: seq<Fact>
    var frequencyMap: map<Fact, real>
    var correctCount: int
    var errorCount: int
    var lastGenerated: Option<Fact>

    /** The keys list the map's keys once each, and all are facts of the grid. */
    ghost predicate Valid()
      reads this
    {
      && Distinct(keys)
      && (forall f :: f in keys <==> f in frequencyMap)
      && (forall f :: f in frequencyMap ==> InGrid(f))
    }

    /** `State(frequency_map, correct_count, error_count)`. A missing or empty map
        (both are falsy in the source) gives the default map of 100 unknown facts. */
    constructor (loadedKeys: seq<Fact>, loaded: map<Fact, real>, correctCount: int, errorCount: int)
      requires Distinct(loadedKeys)
      requires forall f :: f in loadedKeys <==> f in loaded
      requires forall f :: f in loaded ==> InGrid(f)
      ensures Valid()
      ensures |loaded| == 0 ==> keys == GridOrder() && frequencyMap == DefaultMap()
      ensures |loaded| > 0 ==> keys == loadedKeys && frequencyMap == loaded
      ensures this.correctCount == correctCount && this.errorCount == errorCount
      ensures lastGenerated == None
    {
      if |loaded| > 0 {
        keys := loadedKeys;
        frequencyMap := loaded;
      } else {
        DefaultKeys();
        keys := GridOrder();
        frequencyMap := DefaultMap();
      }
      this.correctCount := correctCount;
      this.errorCount := errorCount;
      lastGenerated := None;
    }

    /** `_update_frequency(question, latest_frequency)`: only the question's weight changes. */
    method UpdateFrequency(question: Fact, latest: real)
      requires question in frequencyMap
      modifies this
      ensures frequencyMap == old(frequencyMap)[question := NextWeight(old(frequencyMap)[question], latest)]
      ensures keys == old(keys) && lastGenerated == old(lastGenerated)
      ensures correctCount == old(correctCount) && errorCount == old(errorCount)
    {
      var previous := frequencyMap[question];
      var next: real;
      if previous == FreqUnknown {
        next := latest;
      } else {
        next := (previous + latest) / 2.0;
      }
      frequencyMap := frequencyMap[question := next];
    }

    /** `update_from(problem)`: a wrong answer folds in the largest weight and counts an
        error, a right one folds in the weight its delay earns and counts a success. */
    method UpdateFrom(problem: Problem)
      requires problem.answerText.Some?
      requires Fact(problem.a, problem.b) in frequencyMap
      modifies this
      ensures !problem.AnsweredCorrectly() ==>
                && frequencyMap == Folded(old(frequencyMap), Fact(problem.a, problem.b), FreqMax)
                && errorCount == old(errorCount) + 1 && correctCount == old(correctCount)
      ensures problem.AnsweredCorrectly() ==>
                && frequencyMap == Folded(old(frequencyMap), Fact(problem.a, problem.b), Frequency(problem.AnswerDelay()))
                && correctCount == old(correctCount) + 1 && errorCount == old(errorCount)
      ensures frequencyMap.Keys == old(frequencyMap).Keys
      ensures keys == old(keys) && lastGenerated == old(lastGenerated)
    {
      var q := Fact(problem.a, problem.b);
      if !problem.AnsweredCorrectly() {
        UpdateFrequency(q, FreqMax);
        errorCount := errorCount + 1;
      } else {
        UpdateFrequency(q, Frequency(problem.AnswerDelay()));
        correctCount := correctCount + 1;
      }
    }

    /** `generate_problem()`: the drawn fact becomes the last generated one and the
        question. An empty pool makes `random.choice` raise IndexError, modelled as no
        problem and no change. */
    method GenerateProblem(dice: seq<nat>) returns (r: Option<Problem>)
      requires Valid()
      modifies this
      ensures r.None? <==> Generated(old(keys), old(frequencyMap), old(lastGenerated), dice).None?
      ensures r.Some? ==>
                && fresh(r.value)
                && Generated(old(keys), old(frequencyMap), old(lastGenerated), dice) == Some(Fact(r.value.a, r.value.b))
                && r.value.answers == ShuffledAnswers(r.value.a, r.value.b, true, Rest(dice))
                && r.value.answerText == None
                && Fact(r.value.a, r.value.b) in old(frequencyMap)
      ensures lastGenerated == if r.Some? then Some(Fact(r.value.a, r.value.b)) else old(lastGenerated)
      ensures WeightsOk(old(frequencyMap)) && |old(keys)| >= 2 ==> r.Some?
      ensures unchanged(this`keys, this`frequencyMap, this`correctCount, this`errorCount)
    {
      if WeightsOk(frequencyMap) && |keys| >= 2 {
        GenerationPoolValid(keys, frequencyMap, lastGenerated);
      }
      var generated := Generated(keys, frequencyMap, lastGenerated, dice);
      if generated.None? {
        return None;
      }
      GeneratedValid(keys, frequencyMap, lastGenerated, dice);
      lastGenerated := generated;
      var problem := new Problem(generated.value.a, generated.value.b, true, Rest(dice));
      r := Some(problem);
    }

    /** `correct_count()`. */
    function CorrectCount(): int
      reads this
    {
      correctCount
    }

    /** `error_count()`. */
    function ErrorCount(): int
      reads this
    {
      errorCount
    }
  }

  /** The map after `_update_frequency(question, latest)`. */
  function Folded(m: map<Fact, real>, question: Fact, latest: real): (r: map<Fact, real>)
    requires question in m
    ensures r.Keys == m.Keys
    ensures r[question] == NextWeight(m[question], latest)
    ensures forall f :: f in m && f != question ==> r[f] == m[f]
  {
    m[question := NextWeight(m[question], latest)]
  }

  /** Folding in a weight the program produces keeps the weight invariant, and the
      folded weight is never unknown. */
  lemma FoldedOk(m: map<Fact, real>, question: Fact, latest: real)
    requires question in m && WeightsOk(m)
    requires FreqQuick <= latest <= FreqMax
    ensures WeightsOk(Folded(m, question, latest))
    ensures Folded(m, question, latest)[question] != FreqUnknown
  {
    NextWeightOk(m[question], latest);
  }

  /** The weight a round folds into the fact asked, given whether it was answered right. */
  function Earned(ok: bool, round: Round): (r: real)
    ensures FreqQuick <= r <= FreqMax
    ensures !ok ==> r == FreqMax
  {
    if ok then Frequency(round.now - round.askedTime) else FreqMax
  }

  /** One round of `run`: from the weights m and the last generated fact, the round's
      draws choose f, its answer is scored ok, and the weights become m'. */
  ghost predicate Step(keys: seq<Fact>, m: map<Fact, real>, last: Option<Fact>, round: Round,
                       f: Fact, ok: bool, m': map<Fact, real>)
  {
    && (forall g :: g in keys ==> g in m)
    && Generated(keys, m, last, round.dice) == Some(f)
    && ok == Solves(round, f)
    && m' == Folded(m, f, Earned(ok, round))
  }

  /** The fact generated last before round i of a trace. */
  function Before(last: Option<Fact>, asked: seq<Fact>, i: nat): Option<Fact>
    requires i <= |asked|
  {
    if i == 0 then last else Some(asked[i - 1])
  }

  /** Round i of a trace is a step from the weights before it to the weights after it. */
  ghost predicate StepAt(keys: seq<Fact>, last: Option<Fact>, rounds: seq<Round>,
                         asked: seq<Fact>, outcomes: seq<bool>, weights: seq<map<Fact, real>>, i: nat)
  {
    && i < |asked| && i < |outcomes| && i < |rounds| && i + 1 < |weights|
    && Step(keys, weights[i], Before(last, asked, i), rounds[i], asked[i], outcomes[i], weights[i + 1])
  }

  /** The rounds of a session so far: round i asked asked[i], was answered with outcome
      outcomes[i], and took the weights from weights[i] to weights[i + 1]. */
  ghost predicate Trace(keys: seq<Fact>, last: Option<Fact>, rounds: seq<Round>,
                        asked: seq<Fact>, outcomes: seq<bool>, weights: seq<map<Fact, real>>)
  {
    && |asked| == |outcomes| <= |rounds|
    && |weights| == |asked| + 1
    && forall i :: 0 <= i < |asked| ==> StepAt(keys, last, rounds, asked, outcomes, weights, i)
  }

  /** Appending a round leaves every earlier round of a trace as it was. */
  lemma StepAtAppend(keys: seq<Fact>, last: Option<Fact>, rounds: seq<Round>,
                     asked: seq<Fact>, outcomes: seq<bool>, weights: seq<map<Fact, real>>,
                     f: Fact, ok: bool, m': map<Fact, real>, i: nat)
    requires StepAt(keys, last, rounds, asked, outcomes, weights, i)
    ensures StepAt(keys, last, rounds, asked + [f], outcomes + [ok], weights + [m'], i)
  {
    assert (asked + [f])[i] == asked[i] && (outcomes + [ok])[i] == outcomes[i];
    assert (weights + [m'])[i] == weights[i] && (weights + [m'])[i + 1] == weights[i + 1];
    assert Before(last, asked + [f], i) == Before(last, asked, i);
  }

  /** A trace grows by one round at a time. */
  lemma TraceExtend(keys: seq<Fact>, last: Option<Fact>, rounds: seq<Round>,
                    asked: seq<Fact>, outcomes: seq<bool>, weights: seq<map<Fact, real>>,
                    f: Fact, ok: bool, m': map<Fact, real>)
    requires Trace(keys, last, rounds, asked, outcomes, weights) && |asked| < |rounds|
    requires Step(keys, weights[|asked|], Before(last, asked, |asked|), rounds[|asked|], f, ok, m')
    ensures Trace(keys, last, rounds, asked + [f], outcomes + [ok], weights + [m'])
  {
    var n := |asked|;
    forall i | 0 <= i < n
      ensures StepAt(keys, last, rounds, asked + [f], outcomes + [ok], weights + [m'], i)
    {
      StepAtAppend(keys, last, rounds, asked, outcomes, weights, f, ok, m', i);
    }
    assert Before(last, asked + [f], n) == Before(last, asked, n);
    assert StepAt(keys, last, rounds, asked + [f], outcomes + [ok], weights + [m'], n);
  }

  /** The question just asked is never asked again straight away: every fact of a trace
      differs from the one before it. */
  lemma TraceNoRepeat(keys: seq<Fact>, last: Option<Fact>, rounds: seq<Round>,
                      asked: seq<Fact>, outcomes: seq<bool>, weights: seq<map<Fact, real>>)
    requires Trace(keys, last, rounds, asked, outcomes, weights)
    ensures |asked| > 0 ==> Some(asked[0]) != last
    ensures forall i :: 0 < i < |asked| ==> asked[i] != asked[i - 1]
  {
    forall i | 0 <= i < |asked| ensures Some(asked[i]) != Before(last, asked, i) {
      assert StepAt(keys, last, rounds, asked, outcomes, weights, i);
      assert asked[i] in GenerationPool(keys, weights[i], Before(last, asked, i));
    }
  }

  /** Every round keeps the keys of the weights and changes only the weight of the fact
      it asked, to the next weight of what its answer earned. */
  lemma {:induction false} TraceWeights(keys: seq<Fact>, last: Option<Fact>, rounds: seq<Round>,
                                        asked: seq<Fact>, outcomes: seq<bool>, weights: seq<map<Fact, real>>,
                                        i: nat)
    requires Trace(keys, last, rounds, asked, outcomes, weights) && i < |weights|
    ensures weights[i].Keys == weights[0].Keys
    ensures WeightsOk(weights[0]) ==> WeightsOk(weights[i])
  {
    if i > 0 {
      TraceWeights(keys, last, rounds, asked, outcomes, weights, i - 1);
      var k := i - 1;
      assert StepAt(keys, last, rounds, asked, outcomes, weights, k);
      if WeightsOk(weights[0]) {
        FoldedOk(weights[k], asked[k], Earned(outcomes[k], rounds[k]));
      }
    }
  }

  /** One pass through the body of the loop in `run`: a problem is generated, answered
      and folded into the state. None when generating raises on an empty pool, and
      otherwise whether the answer was right. */
  method PlayRound(state: State, round: Round) returns (outcome: Option<bool>)
    requires state.Valid()
    modifies state
    ensures state.Valid() && state.keys == old(state.keys)
    ensures outcome.None? <==> Generated(old(state.keys), old(state.frequencyMap), old(state.lastGenerated), round.dice).None?
    ensures outcome.None? ==> state.frequencyMap == old(state.frequencyMap) && state.lastGenerated == old(state.lastGenerated)
    ensures outcome.Some? ==>
              && state.lastGenerated.Some?
              && Step(old(state.keys), old(state.frequencyMap), old(state.lastGenerated), round,
                      state.lastGenerated.value, outcome.value, state.frequencyMap)
    ensures old(WeightsOk(state.frequencyMap)) ==> WeightsOk(state.frequencyMap)
    ensures WeightsOk(old(state.frequencyMap)) && |old(state.keys)| >= 2 ==> outcome.Some?
    ensures outcome.None? ==> state.correctCount == old(state.correctCount) && state.errorCount == old(state.errorCount)
    ensures outcome == Some(true) ==> state.correctCount == old(state.correctCount) + 1 && state.errorCount == old(state.errorCount)
    ensures outcome == Some(false) ==> state.errorCount == old(state.errorCount) + 1 && state.correctCount == old(state.correctCount)
  {
    var problem := state.GenerateProblem(round.dice);
    if problem.None? {
      return None;
    }
    outcome := AnswerAndFold(state, problem.value, round);
  }

  /** The rest of a round: the problem is answered with the round's text and folded
      into the state. */
  method AnswerAndFold(state: State, p: Problem, round: Round) returns (outcome: Option<bool>)
    requires state.Valid() && Fact(p.a, p.b) in state.frequencyMap
    modifies state, p
    ensures state.Valid() && state.keys == old(state.keys)
    ensures outcome == Some(Solves(round, Fact(p.a, p.b)))
    ensures state.frequencyMap == Folded(old(state.frequencyMap), Fact(p.a, p.b), Earned(Solves(round, Fact(p.a, p.b)), round))
    ensures state.lastGenerated == old(state.lastGenerated)
    ensures old(WeightsOk(state.frequencyMap)) ==> WeightsOk(state.frequencyMap)
    ensures outcome == Some(true) ==> state.correctCount == old(state.correctCount) + 1 && state.errorCount == old(state.errorCount)
    ensures outcome == Some(false) ==> state.errorCount == old(state.errorCount) + 1 && state.correctCount == old(state.correctCount)
  {
    p.Answered(round.text, round.askedTime, round.now);
    var correct := p.AnsweredCorrectly();
    state.UpdateFrom(p);
    outcome := Some(correct);
    if old(WeightsOk(state.frequencyMap)) {
      FoldedOk(old(state.frequencyMap), Fact(p.a, p.b), Earned(correct, round));
    }
  }

  /** How many correct answers a limit lets `run` count before it stops. */
  function Quota(limit: int): nat {
    if limit > 0 then limit else 0
  }

  /** The countdown of `run` after the outcomes so far: `left` is the limit less the
      correct answers, which never exceed the quota, and every round started below the
      limit. */
  ghost predicate LimitTrack(limit: Option<int>, left: Option<int>, outcomes: seq<bool>) {
    && left.Some? == limit.Some?
    && (limit.Some? ==> left.value == limit.value - CountTrue(outcomes))
    && (limit.Some? ==> CountTrue(outcomes) <= Quota(limit.value))
    && (limit.Some? && |outcomes| > 0 ==> CountTrue(outcomes[..|outcomes| - 1]) < limit.value)
  }

  /** A round played while the countdown is above zero keeps the countdown's invariant. */
  lemma LimitStep(limit: Option<int>, left: Option<int>, outcomes: seq<bool>, ok: bool)
    requires LimitTrack(limit, left, outcomes) && (left.None? || left.value > 0)
    ensures LimitTrack(limit, if ok && left.Some? then Some(left.value - 1) else left, outcomes + [ok])
  {
    var s := outcomes + [ok];
    assert s[..|s| - 1] == outcomes && s[|s| - 1] == ok;
  }

  /** `run(ui, limit)` over the rounds a user plays: each round generates a problem,
      answers it, folds it into the state, and counts down `limit` on a correct answer.
      The loop ends when the limit reaches zero, the rounds run out, or the choice
      raises on an empty pool. The ghost results record the facts asked, the outcome of
      each, and the weights before and after every round. */
  method Run(state: State, limit: Option<int>, rounds: seq<Round>)
    returns (played: nat, solved: nat, crashed: bool,
             ghost asked: seq<Fact>, ghost outcomes: seq<bool>, ghost weights: seq<map<Fact, real>>)
    requires state.Valid()
    modifies state
    ensures state.Valid() && state.keys == old(state.keys)
    ensures Trace(old(state.keys), old(state.lastGenerated), rounds, asked, outcomes, weights)
    ensures played == |asked| <= |rounds| && solved == CountTrue(outcomes) <= played
    ensures weights[0] == old(state.frequencyMap) && state.frequencyMap == weights[played]
    ensures state.lastGenerated == Before(old(state.lastGenerated), asked, played)
    ensures state.correctCount == old(state.correctCount) + solved
    ensures state.errorCount == old(state.errorCount) + (played - solved)
    ensures crashed ==> played < |rounds| && (limit.None? || solved < limit.value) &&
                        Generated(old(state.keys), weights[played], state.lastGenerated, rounds[played].dice).None?
    ensures !crashed && played < |rounds| ==> limit.Some? && solved == Quota(limit.value)
    ensures limit.Some? ==> solved <= Quota(limit.value)
    ensures limit.Some? && played > 0 ==> CountTrue(outcomes[..played - 1]) < limit.value
    ensures old(WeightsOk(state.frequencyMap)) ==> WeightsOk(state.frequencyMap)
    ensures WeightsOk(old(state.frequencyMap)) && |old(state.keys)| >= 2 ==> !crashed
  {
    var left := limit;
    played, solved, crashed := 0, 0, false;
    asked, outcomes, weights := [], [], [state.frequencyMap];
    while played < |rounds| && (left.None? || left.value > 0)
      invariant state.Valid() && state.keys == old(state.keys)
      invariant Trace(old(state.keys), old(state.lastGenerated), rounds, asked, outcomes, weights)
      invariant played == |asked| <= |rounds| && solved <= played
      invariant solved == CountTrue(outcomes)
      invariant weights[0] == old(state.frequencyMap) && state.frequencyMap == weights[played]
      invariant state.lastGenerated == Before(old(state.lastGenerated), asked, played)
      invariant state.correctCount == old(state.correctCount) + solved
      invariant state.errorCount == old(state.errorCount) + (played - solved)
      invariant LimitTrack(limit, left, outcomes)
      invariant old(WeightsOk(state.frequencyMap)) ==> WeightsOk(state.frequencyMap)
    {
      var outcome := PlayRound(state, rounds[played]);
      if outcome.None? {
        crashed := true;
        return;
      }
      TraceExtend(old(state.keys), old(state.lastGenerated), rounds, asked, outcomes, weights,
                  state.lastGenerated.value, outcome.value, state.frequencyMap);
      CountTrueSnoc(outcomes, outcome.value);
      LimitStep(limit, left, outcomes, outcome.value);
      asked := asked + [state.lastGenerated.value];
      outcomes := outcomes + [outcome.value];
      weights := weights + [state.frequencyMap];
      if outcome.value {
        solved := solved + 1;
        if left.Some? {
          left := Some(left.value - 1);
        }
      }
      played := played + 1;
    }
  }
}
