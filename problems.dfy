/** A multiple-choice question for one fact: operand neighbourhoods, the
    distractor pool, the four displayed answers and scoring. Both versions of
    the program share this code.

    The source keys its distractor dictionaries by `str(x * y)`. Since `str`
    is injective on integers (`Text.IntStrInjective`), the model keys them by
    the product itself: the model's key n stands for the source's key
    `str(n)`, and dictionaries that agree on their integer keys agree on
    their text keys. */
module Problems {
  import opened Seqs
  import opened Facts
  import opened Text
  import opened Draws

  /** `closest_ns(n)`: n and its immediate neighbours, cut off at the ends of 1..10. */
  function ClosestNs(n: int): (r: seq<int>)
    ensures n in r && Distinct(r)
    ensures InRange(n) ==> forall x :: x in r <==> InRange(x) && n - 1 <= x <= n + 1
  {
    if n == 1 then [1, 2] else if n == 10 then [9, 10] else [n - 1, n, n + 1]
  }

  /** `close_ns(n)`: a window of four or five operands around n, shifted inwards at the ends. */
  function CloseNs(n: int): (r: seq<int>)
    ensures n in r && Distinct(r) && |r| >= 4
    ensures forall x :: x in r ==> n - 3 <= x <= n + 3
    ensures n == 1 || n == 2 ==> forall x :: x in r <==> 1 <= x <= 4
    ensures n == 9 || n == 10 ==> forall x :: x in r <==> 7 <= x <= 10
    ensures n != 1 && n != 2 && n != 9 && n != 10 ==> forall x :: x in r <==> n - 2 <= x <= n + 2
    ensures InRange(n) ==> forall x :: x in r ==> InRange(x)
    ensures InRange(n) ==> forall x :: InRange(x) && n - 2 <= x <= n + 2 ==> x in r
  {
    if n == 1 || n == 2 then [1, 2, 3, 4]
    else if n == 9 || n == 10 then [7, 8, 9, 10]
    else [n - 2, n - 1, n, n + 1, n + 2]
  }

  /** The closest neighbourhood lies inside the close one. */
  lemma ClosestWithinClose(n: int)
    ensures forall x :: x in ClosestNs(n) ==> x in CloseNs(n)
  {
    if n == 1 || n == 2 || n == 9 || n == 10 {
    } else {
      assert ClosestNs(n) == [n - 1, n, n + 1];
      assert CloseNs(n) == [n - 2, n - 1, n, n + 1, n + 2];
    }
  }

  /** `correct_answer()`: the decimal text of the product. */
  function CorrectAnswer(a: int, b: int): string {
    IntStr(a * b)
  }

  /** The correct answer is a text without surrounding whitespace that no other
      integer has. */
  lemma CorrectAnswerSpec(a: int, b: int)
    ensures Trimmed(CorrectAnswer(a, b))
    ensures forall n :: IntStr(n) == CorrectAnswer(a, b) <==> n == a * b
  {
    forall n ensures IntStr(n) == IntStr(a * b) <==> n == a * b {
      IntStrInjective(n, a * b);
    }
  }

  /** `dict((str(p[0]*p[1]), p) for p in pairs)`: one pair per product;
      when two pairs have the same product the later one stays. */
  function ProductMap(pairs: seq<Fact>): (r: map<int, Fact>)
    ensures forall p :: p in pairs ==> p.a * p.b in r
    ensures forall k :: k in r ==> r[k] in pairs && r[k].a * r[k].b == k
  {
    if pairs == [] then map[]
    else
      var p := pairs[|pairs| - 1];
      var init := pairs[..|pairs| - 1];
      assert forall q :: q in pairs <==> q in init || q == p;
      ProductMap(init)[p.a * p.b := p]
  }

  /** The products of `xs` times `ys` without the correct product
      (`del problems[self.correct_answer()]`). */
  function PoolOf(xs: seq<int>, ys: seq<int>, a: int, b: int): (r: map<int, Fact>)
    requires a in xs && b in ys
    ensures a * b !in r
    ensures forall k :: k in r ==> r[k].a in xs && r[k].b in ys && r[k].a * r[k].b == k
  {
    // the key `del` removes is always present, so the source never raises KeyError here
    CorrectProductPresent(xs, ys, a, b);
    ProductMap(Cross(xs, ys)) - {a * b}
  }

  lemma CorrectProductPresent(xs: seq<int>, ys: seq<int>, a: int, b: int)
    requires a in xs && b in ys
    ensures a * b in ProductMap(Cross(xs, ys))
  {
    CrossHas(xs, ys, a, b);
  }

  /** Every product of the two neighbourhoods other than a * b is offered. */
  lemma InPool(xs: seq<int>, ys: seq<int>, a: int, b: int, x: int, y: int)
    requires a in xs && b in ys && x in xs && y in ys && x * y != a * b
    ensures x * y in PoolOf(xs, ys, a, b)
  {
    var p := Fact(x, y);
    CrossHas(xs, ys, x, y);
    assert p.a * p.b in ProductMap(Cross(xs, ys));
  }

  /** `closest_problems` after the `del`: the products of the closest neighbourhoods
      other than a * b, each with a pair that gives it. */
  function ClosestPool(a: int, b: int): (r: map<int, Fact>)
    ensures a * b !in r
    ensures forall k :: k in r ==> r[k].a in ClosestNs(a) && r[k].b in ClosestNs(b) && r[k].a * r[k].b == k
    ensures forall x, y :: x in ClosestNs(a) && y in ClosestNs(b) && x * y != a * b ==> x * y in r
  {
    forall x, y | x in ClosestNs(a) && y in ClosestNs(b) && x * y != a * b
      ensures x * y in PoolOf(ClosestNs(a), ClosestNs(b), a, b)
    {
      InPool(ClosestNs(a), ClosestNs(b), a, b, x, y);
    }
    PoolOf(ClosestNs(a), ClosestNs(b), a, b)
  }

  /** `close_problems` after the `del`: the products of the close windows other than
      a * b, each with a pair that gives it. */
  function ClosePool(a: int, b: int): (r: map<int, Fact>)
    ensures a * b !in r
    ensures forall k :: k in r ==> r[k].a in CloseNs(a) && r[k].b in CloseNs(b) && r[k].a * r[k].b == k
    ensures forall x, y :: x in CloseNs(a) && y in CloseNs(b) && x * y != a * b ==> x * y in r
  {
    forall x, y | x in CloseNs(a) && y in CloseNs(b) && x * y != a * b
      ensures x * y in PoolOf(CloseNs(a), CloseNs(b), a, b)
    {
      InPool(CloseNs(a), CloseNs(b), a, b, x, y);
    }
    PoolOf(CloseNs(a), CloseNs(b), a, b)
  }

  /** `wrong_answers()`: the closest pool when it offers at least three
      distractors, otherwise the wider close pool. */
  function WrongAnswers(a: int, b: int): (r: map<int, Fact>)
    ensures a * b !in r
    ensures forall k :: k in r ==> r[k].a * r[k].b == k
    ensures forall k :: k in r ==> r[k].a in CloseNs(a) && r[k].b in CloseNs(b)
    ensures InRange(a) && InRange(b) ==> forall k :: k in r ==> InGrid(r[k])
  {
    if |ClosestPool(a, b)| >= 3 then
      ClosestWithinClose(a);
      ClosestWithinClose(b);
      ClosestPool(a, b)
    else
      ClosePool(a, b)
  }

  /** Three pairs with different products, none of them a * b, give a pool of at least three. */
  lemma ThreeInPool(xs: seq<int>, ys: seq<int>, a: int, b: int,
                    x1: int, y1: int, x2: int, y2: int, x3: int, y3: int)
    requires a in xs && b in ys
    requires x1 in xs && x2 in xs && x3 in xs && y1 in ys && y2 in ys && y3 in ys
    requires x1 * y1 != a * b && x2 * y2 != a * b && x3 * y3 != a * b
    requires x1 * y1 != x2 * y2 && x2 * y2 != x3 * y3 && x1 * y1 != x3 * y3
    ensures |PoolOf(xs, ys, a, b)| >= 3
  {
    InPool(xs, ys, a, b, x1, y1);
    InPool(xs, ys, a, b, x2, y2);
    InPool(xs, ys, a, b, x3, y3);
    ThreeKeys(PoolOf(xs, ys, a, b), x1 * y1, x2 * y2, x3 * y3);
  }

  /** Away from the corners (1, 1) and (10, 10) the closest pool already has three distractors. */
  lemma ClosestPoolLarge(a: int, b: int)
    requires InRange(a) && InRange(b)
    requires !(a == 1 && b == 1) && !(a == 10 && b == 10)
    ensures |ClosestPool(a, b)| >= 3
  {
    var xs, ys := ClosestNs(a), ClosestNs(b);
    if a == 1 {
      if b == 10 {
        ThreeInPool(xs, ys, a, b, 1, 9, 2, 9, 2, 10);
      } else {
        ThreeInPool(xs, ys, a, b, 1, b - 1, 1, b + 1, 2, b);
      }
    } else if a == 10 {
      if b == 1 {
        ThreeInPool(xs, ys, a, b, 9, 1, 9, 2, 10, 2);
      } else {
        ThreeInPool(xs, ys, a, b, 9, b, 10, b - 1, 10, b + 1);
      }
    } else if b == 1 {
      ThreeInPool(xs, ys, a, b, a - 1, 1, a + 1, 1, a, 2);
    } else if b == 10 {
      ThreeInPool(xs, ys, a, b, a, 9, a - 1, 10, a + 1, 10);
    } else {
      assert (a - 1) * (b - 1) == a * b - a - b + 1;
      assert (a - 1) * b == a * b - b;
      assert (a + 1) * b == a * b + b;
      ThreeInPool(xs, ys, a, b, a - 1, b - 1, a - 1, b, a + 1, b);
    }
  }

  /** A map whose keys are exactly two different numbers has two entries. */
  lemma TwoKeys(m: map<int, Fact>, k1: int, k2: int)
    requires k1 in m && k2 in m && k1 != k2
    requires forall k :: k in m ==> k == k1 || k == k2
    ensures |m| == 2
  {
    forall k ensures k in m.Keys <==> k in {k1, k2} {
    }
    assert m.Keys == {k1, k2};
  }

  /** At (1, 1) and (10, 10) the closest pool has only two distractors,
      so `wrong_answers` falls back to the close pool there. */
  lemma ClosestPoolSmall(a: int, b: int)
    requires (a == 1 && b == 1) || (a == 10 && b == 10)
    ensures |ClosestPool(a, b)| == 2
  {
    if a == 1 {
      CornerPool(1, 2);
    } else {
      CornerPool(10, 9);
    }
  }

  /** The closest pool at the corner (n, n), whose neighbourhood is {n, other}. */
  lemma CornerPool(n: int, other: int)
    requires ClosestNs(n) == [n, other] || ClosestNs(n) == [other, n]
    requires n * other != other * other
    requires n * n != n * other && n * n != other * other
    ensures |ClosestPool(n, n)| == 2
  {
    var m := ClosestPool(n, n);
    var xs := ClosestNs(n);
    assert forall x :: x in xs <==> x == n || x == other;
    forall k | k in m ensures k == n * other || k == other * other {
      CornerProduct(n, other, m[k].a, m[k].b);
    }
    InPool(xs, xs, n, n, n, other);
    InPool(xs, xs, n, n, other, other);
    TwoKeys(m, n * other, other * other);
  }

  lemma CornerProduct(n: int, other: int, x: int, y: int)
    requires x == n || x == other
    requires y == n || y == other
    ensures x * y == n * n || x * y == n * other || x * y == other * other
  {
  }

  /** At the corners the wider close pool is used, and it has at least three distractors. */
  lemma CornerFallback(n: int)
    requires n == 1 || n == 10
    ensures WrongAnswers(n, n) == ClosePool(n, n)
    ensures |ClosePool(n, n)| >= 3
  {
    ClosestPoolSmall(n, n);
    FallsBack(n, n);
    if n == 1 {
      LowCornerClose();
    } else {
      HighCornerClose();
    }
  }

  lemma FallsBack(a: int, b: int)
    requires |ClosestPool(a, b)| < 3
    ensures WrongAnswers(a, b) == ClosePool(a, b)
  {
  }

  lemma LowCornerClose()
    ensures |ClosePool(1, 1)| >= 3
  {
    ThreeInPool(CloseNs(1), CloseNs(1), 1, 1, 1, 2, 1, 3, 1, 4);
  }

  lemma HighCornerClose()
    ensures |ClosePool(10, 10)| >= 3
  {
    ThreeInPool(CloseNs(10), CloseNs(10), 10, 10, 7, 10, 8, 10, 9, 10);
  }

  /** `wrong_answers()` offers at least three distractors for every pair of
      operands, which the three-element sample in the constructor relies on. */
  lemma WrongAnswersEnough(a: int, b: int)
    ensures |WrongAnswers(a, b)| >= 3
  {
    if |ClosestPool(a, b)| < 3 {
      ClosePoolEnough(a, b);
    }
  }

  /** The close pool always has three distractors: four different operands from the
      window of a times one nonzero operand from the window of b give four different
      products, and at most one of them is a * b. */
  lemma ClosePoolEnough(a: int, b: int)
    ensures |ClosePool(a, b)| >= 3
  {
    var xs, ys := CloseNs(a), CloseNs(b);
    var y := if ys[0] != 0 then ys[0] else ys[1];
    assert y != 0 && y in ys;
    var x0, x1, x2, x3 := xs[0], xs[1], xs[2], xs[3];
    assert x0 != x1 && x0 != x2 && x0 != x3 && x1 != x2 && x1 != x3 && x2 != x3;
    ScaleInjective(x0, x1, y);
    ScaleInjective(x0, x2, y);
    ScaleInjective(x0, x3, y);
    ScaleInjective(x1, x2, y);
    ScaleInjective(x1, x3, y);
    ScaleInjective(x2, x3, y);
    if x0 * y == a * b {
      ThreeInPool(xs, ys, a, b, x1, y, x2, y, x3, y);
    } else if x1 * y == a * b {
      ThreeInPool(xs, ys, a, b, x0, y, x2, y, x3, y);
    } else if x2 * y == a * b {
      ThreeInPool(xs, ys, a, b, x0, y, x1, y, x3, y);
    } else {
      ThreeInPool(xs, ys, a, b, x0, y, x1, y, x2, y);
    }
  }

  /** Multiplying by a nonzero number keeps different numbers different. */
  lemma ScaleInjective(x1: int, x2: int, y: int)
    requires x1 != x2 && y != 0
    ensures x1 * y != x2 * y
  {
    assert x1 * y - x2 * y == (x1 - x2) * y;
  }

  /** The closest pool is the answer exactly when it has at least three
      distractors, and that fails only at the corners (1, 1) and (10, 10). */
  lemma WrongAnswersChoice(a: int, b: int)
    requires InRange(a) && InRange(b)
    ensures WrongAnswers(a, b) == ClosestPool(a, b) <==> |ClosestPool(a, b)| >= 3
    ensures |ClosestPool(a, b)| >= 3 <==> !(a == 1 && b == 1) && !(a == 10 && b == 10)
  {
    WrongAnswersEnough(a, b);
    if (a == 1 && b == 1) || (a == 10 && b == 10) {
      ClosestPoolSmall(a, b);
    } else {
      ClosestPoolLarge(a, b);
    }
  }

  /** The keys of `dict((str(p[0]*p[1]), p) for p in pairs)` in the dictionary's own
      order: each product where it first occurs. */
  function ProductOrder(pairs: seq<Fact>): (r: seq<int>)
    ensures Distinct(r)
    ensures forall k :: k in r <==> k in ProductMap(pairs)
  {
    if pairs == [] then []
    else
      var p := pairs[|pairs| - 1];
      var init := ProductOrder(pairs[..|pairs| - 1]);
      assert ProductMap(pairs) == ProductMap(pairs[..|pairs| - 1])[p.a * p.b := p];
      if p.a * p.b in init then init else init + [p.a * p.b]
  }

  /** s with x taken out (`del`): the other elements keep their order. */
  function Without(s: seq<int>, x: int): (r: seq<int>)
    ensures forall k :: k in r <==> k in s && k != x
    ensures Distinct(s) ==> Distinct(r)
    ensures x !in s ==> r == s
    ensures Distinct(s) && x in s ==> exists i :: 0 <= i < |s| && s[i] == x && r == s[..i] + s[i + 1..]
  {
    if s == [] then []
    else
      WithoutStep(s, x, Without(s[1..], x));
      if s[0] == x then Without(s[1..], x) else [s[0]] + Without(s[1..], x)
  }

  /** One step of `Without`: what the tail's result says about the whole. */
  lemma WithoutStep(s: seq<int>, x: int, rest: seq<int>)
    requires s != []
    requires forall k :: k in rest <==> k in s[1..] && k != x
    requires Distinct(s[1..]) ==> Distinct(rest)
    requires x !in s[1..] ==> rest == s[1..]
    requires Distinct(s[1..]) && x in s[1..] ==>
               exists i :: 0 <= i < |s[1..]| && s[1..][i] == x && rest == s[1..][..i] + s[1..][i + 1..]
    ensures Distinct(s) ==> Distinct(if s[0] == x then rest else [s[0]] + rest)
    ensures x !in s ==> [s[0]] + rest == s
    ensures Distinct(s) && x in s ==>
              exists i :: 0 <= i < |s| && s[i] == x && (if s[0] == x then rest else [s[0]] + rest) == s[..i] + s[i + 1..]
  {
    DistinctCons(s);
    if s[0] != x {
      DistinctCons([s[0]] + rest);
      assert ([s[0]] + rest)[1..] == rest;
    }
    if x !in s {
      assert s == [s[0]] + s[1..];
    }
    if Distinct(s) && x in s {
      if s[0] == x {
        assert x !in s[1..];
        assert s[..0] + s[1..] == s[1..];
      } else {
        assert x in s[1..];
        var i :| 0 <= i < |s[1..]| && s[1..][i] == x && rest == s[1..][..i] + s[1..][i + 1..];
        assert s[i + 1] == x;
        assert [s[0]] + rest == s[..i + 1] + s[i + 2..];
      }
    }
  }

  /** The keys of a pool in its dictionary order. */
  function PoolOrder(xs: seq<int>, ys: seq<int>, a: int, b: int): (r: seq<int>)
    requires a in xs && b in ys
    ensures Distinct(r)
    ensures forall k :: k in r <==> k in PoolOf(xs, ys, a, b)
  {
    Without(ProductOrder(Cross(xs, ys)), a * b)
  }

  /** The keys of `wrong_answers()` in its dictionary order. */
  function DistractorKeys(a: int, b: int): (r: seq<int>)
    ensures Distinct(r)
    ensures forall k :: k in r <==> k in WrongAnswers(a, b)
    ensures |r| == |WrongAnswers(a, b)|
  {
    if |ClosestPool(a, b)| >= 3 then
      DistinctKeysCard(PoolOrder(ClosestNs(a), ClosestNs(b), a, b), ClosestPool(a, b));
      PoolOrder(ClosestNs(a), ClosestNs(b), a, b)
    else
      DistinctKeysCard(PoolOrder(CloseNs(a), CloseNs(b), a, b), ClosePool(a, b));
      PoolOrder(CloseNs(a), CloseNs(b), a, b)
  }

  /** The texts `str(k)` of the keys of `wrong_answers()`. */
  function DistractorTexts(a: int, b: int): set<string> {
    set k | k in WrongAnswers(a, b) :: IntStr(k)
  }

  /** The correct answer is never among the distractors. */
  lemma CorrectNotDistractor(a: int, b: int)
    ensures CorrectAnswer(a, b) !in DistractorTexts(a, b)
  {
    var w := WrongAnswers(a, b);
    assert a * b !in w;
    forall k | k in w ensures IntStr(k) != IntStr(a * b) {
      IntStrInjective(k, a * b);
    }
  }

  /** The four answers of a problem: distinct, one of them correct, the others distractors. */
  predicate ValidAnswers(a: int, b: int, s: seq<string>) {
    && |s| == 4
    && Distinct(s)
    && CorrectAnswer(a, b) in s
    && forall x :: x in s && x != CorrectAnswer(a, b) ==> x in DistractorTexts(a, b)
  }

  /** The texts of a sequence of numbers. */
  function Texts(ns: seq<int>): (r: seq<string>)
    ensures |r| == |ns|
  {
    if ns == [] then [] else [IntStr(ns[0])] + Texts(ns[1..])
  }

  lemma {:induction false} TextsAt(ns: seq<int>, i: int)
    requires 0 <= i < |ns|
    ensures Texts(ns)[i] == IntStr(ns[i])
  {
    if i > 0 {
      TextsAt(ns[1..], i - 1);
    }
  }

  /** The texts of an enumeration of a map's keys, without repetitions, are the texts
      of its keys, without repetitions. */
  lemma KeyTexts(keys: seq<int>, w: map<int, Fact>)
    requires Distinct(keys)
    requires forall k :: k in keys <==> k in w
    ensures Distinct(Texts(keys))
    ensures forall x :: x in Texts(keys) <==> x in set k | k in w :: IntStr(k)
  {
    var texts := Texts(keys);
    forall i, j | 0 <= i < j < |keys| ensures texts[i] != texts[j] {
      TextsAt(keys, i);
      TextsAt(keys, j);
      IntStrInjective(keys[i], keys[j]);
    }
    forall x ensures x in texts <==> x in set k | k in w :: IntStr(k) {
      if x in texts {
        var i :| 0 <= i < |texts| && texts[i] == x;
        TextsAt(keys, i);
        assert keys[i] in w;
      }
      if x in set k | k in w :: IntStr(k) {
        var k :| k in w && x == IntStr(k);
        var i :| 0 <= i < |keys| && keys[i] == k;
        TextsAt(keys, i);
        assert texts[i] == x;
      }
    }
  }

  /** The distractor texts the sample draws from: `sorted(self.wrong_answers())`
      (Python's string order) when `sortKeys` holds, as in tabliczka.py, and otherwise
      `self.wrong_answers().keys()` in dictionary order, as in tm.py. */
  function Distractors(a: int, b: int, sortKeys: bool): (r: seq<string>)
    ensures |r| == |WrongAnswers(a, b)|
    ensures sortKeys ==> Sorted(r) && multiset(r) == multiset(Texts(DistractorKeys(a, b)))
    ensures !sortKeys ==> r == Texts(DistractorKeys(a, b))
  {
    if sortKeys then SortStrings(Texts(DistractorKeys(a, b))) else Texts(DistractorKeys(a, b))
  }

  /** The distractor texts are distinct and are exactly the texts of the keys of `wrong_answers()`. */
  lemma DistractorsSpec(a: int, b: int, sortKeys: bool)
    ensures Distinct(Distractors(a, b, sortKeys))
    ensures forall x :: x in Distractors(a, b, sortKeys) <==> x in DistractorTexts(a, b)
  {
    KeyTexts(DistractorKeys(a, b), WrongAnswers(a, b));
  }

  /** Three texts drawn without replacement from `texts`, followed by `correct`. */
  function AnswerTexts(texts: seq<string>, correct: string, dice: seq<nat>): (r: seq<string>)
    requires |texts| >= 3
    ensures |r| == 4 && r[3] == correct
    ensures forall x :: x in r && x != correct ==> x in texts
    ensures Distinct(texts) && correct !in texts ==> Distinct(r)
  {
    Sample(texts, 3, dice) + [correct]
  }

  /** The answer list before shuffling: three distractors drawn without
      replacement from the distractor texts, then the correct answer. */
  function AnswerList(a: int, b: int, sortKeys: bool, dice: seq<nat>): (r: seq<string>)
    ensures |r| == 4 && r[3] == CorrectAnswer(a, b)
  {
    WrongAnswersEnough(a, b);
    AnswerTexts(Distractors(a, b, sortKeys), CorrectAnswer(a, b), dice)
  }

  /** The answer list holds four distinct answers: the correct one and three distractors. */
  lemma AnswerListValid(a: int, b: int, sortKeys: bool, dice: seq<nat>)
    ensures ValidAnswers(a, b, AnswerList(a, b, sortKeys, dice))
  {
    WrongAnswersEnough(a, b);
    CorrectNotDistractor(a, b);
    DistractorsSpec(a, b, sortKeys);
  }

  /** Every answer on offer is a trimmed decimal text. */
  lemma AnswersTrimmed(a: int, b: int, s: seq<string>)
    requires ValidAnswers(a, b, s)
    ensures forall x :: x in s ==> Trimmed(x)
  {
    forall x | x in s ensures Trimmed(x) {
      if x != CorrectAnswer(a, b) {
        var k :| k in WrongAnswers(a, b) && x == IntStr(k);
      }
    }
  }

  /** Of the four answers on offer exactly one is scored correct when it is picked. */
  lemma OneCorrectAnswer(a: int, b: int, s: seq<string>)
    requires ValidAnswers(a, b, s)
    ensures exists i :: 0 <= i < |s| && Strip(s[i]) == CorrectAnswer(a, b)
    ensures forall i, j ::
              0 <= i < |s| && 0 <= j < |s| && Strip(s[i]) == CorrectAnswer(a, b) && Strip(s[j]) == CorrectAnswer(a, b)
              ==> i == j
  {
    AnswersTrimmed(a, b, s);
    OneMatch(s, CorrectAnswer(a, b));
  }

  /** In a list of distinct trimmed texts containing c, exactly one entry strips to c. */
  lemma OneMatch(s: seq<string>, c: string)
    requires Distinct(s) && c in s
    requires forall x :: x in s ==> Trimmed(x)
    ensures exists i :: 0 <= i < |s| && Strip(s[i]) == c
    ensures forall i, j :: 0 <= i < |s| && 0 <= j < |s| && Strip(s[i]) == c && Strip(s[j]) == c ==> i == j
  {
    forall i | 0 <= i < |s| ensures Strip(s[i]) == s[i] {
      StripTrimmed(s[i]);
    }
    var i :| 0 <= i < |s| && s[i] == c;
    assert Strip(s[i]) == c;
  }

  /** The answers `Problem(a, b)` holds: the answer list after `random.shuffle`.
      The first three draws go to the sample, the rest to the shuffle. */
  function ShuffledAnswers(a: int, b: int, sortKeys: bool, dice: seq<nat>): (r: seq<string>)
    ensures multiset(r) == multiset(AnswerList(a, b, sortKeys, dice))
  {
    Shuffled(AnswerList(a, b, sortKeys, dice), 3, Drop(dice, 3))
  }

  /** A problem's answers are four distinct texts, one of them `str(a * b)` and the
      others distractors, and exactly one of them is scored correct. */
  lemma ProblemAnswers(a: int, b: int, sortKeys: bool, dice: seq<nat>)
    ensures ValidAnswers(a, b, ShuffledAnswers(a, b, sortKeys, dice))
    ensures exists i :: 0 <= i < 4 && Strip(ShuffledAnswers(a, b, sortKeys, dice)[i]) == CorrectAnswer(a, b)
    ensures forall i, j :: 0 <= i < 4 && 0 <= j < 4
              && Strip(ShuffledAnswers(a, b, sortKeys, dice)[i]) == CorrectAnswer(a, b)
              && Strip(ShuffledAnswers(a, b, sortKeys, dice)[j]) == CorrectAnswer(a, b)
              ==> i == j
  {
    var list := AnswerList(a, b, sortKeys, dice);
    AnswerListValid(a, b, sortKeys, dice);
    ShuffledAnswersValid(a, b, list, ShuffledAnswers(a, b, sortKeys, dice));
    OneCorrectAnswer(a, b, ShuffledAnswers(a, b, sortKeys, dice));
  }

  /** The answer list of `Problem(a, b)`: three distractors sampled from the distractor
      texts, the correct answer appended, and the list shuffled in place. */
  method DrawAnswers(a: int, b: int, sortKeys: bool, dice: seq<nat>) returns (r: seq<string>)
    ensures r == ShuffledAnswers(a, b, sortKeys, dice)
  {
    var buffer := ToArray(AnswerList(a, b, sortKeys, dice));
    Shuffle(buffer, Drop(dice, 3));
    r := buffer[..];
  }

  /** A multiplication problem: its operands, the list of its four answers and, once
      answered, the stripped answer text and the delay. */
  class Problem {
    const a: int
    const b: int
    const answers: seq<string>
    var answerText: Option<string>
    var answerDelay: real

    /** `Problem(a, b)`: the answers are drawn once and never change afterwards;
        `ProblemAnswers` states what the list holds. */
    constructor (a: int, b: int, sortKeys: bool, dice: seq<nat>)
      ensures this.a == a && this.b == b
      ensures answers == ShuffledAnswers(a, b, sortKeys, dice)
      ensures answerText == None
      ensures Valid()
    {
      ProblemAnswers(a, b, sortKeys, dice);
      this.a := a;
      this.b := b;
      var list := DrawAnswers(a, b, sortKeys, dice);
      answers := list;
      answerText := None;
      answerDelay := 0.0;
    }

    /** The answers a constructed problem holds: four distinct texts, the correct one
        and three distractors. */
    ghost predicate Valid() {
      ValidAnswers(a, b, answers)
    }

    /** `answers()`: the four answers on offer, exactly one of them correct. */
    function Answers(): (r: seq<string>)
      requires Valid()
      ensures |r| == 4 && Distinct(r)
      ensures Correct() in r
      ensures forall x :: x in r && x != Correct() ==> x in DistractorTexts(a, b)
    {
      answers
    }

    /** `correct_answer()`: the text of a * b, which is one of the answers on offer. */
    function Correct(): (r: string)
      ensures Valid() ==> r in answers
    {
      CorrectAnswer(a, b)
    }

    /** `answered(answer_text, asked_time)`: keeps the stripped text and the time
        elapsed since the question was asked; the clock reading is a parameter. */
    method Answered(text: string, askedTime: real, now: real)
      modifies this
      ensures answerText == Some(Strip(text)) && answerDelay == now - askedTime
    {
      answerText := Some(Strip(text));
      answerDelay := now - askedTime;
    }

    /** `answer_delay()`: only defined once the problem has been answered. */
    function AnswerDelay(): real
      requires answerText.Some?
      reads this
    {
      answerDelay
    }

    /** `answered_correctly()`: only defined once the problem has been answered. */
    predicate AnsweredCorrectly()
      requires answerText.Some?
      reads this
    {
      answerText.value == Correct()
    }
  }

  /** One answered round a session loop consumes: the draws for the question, the
      text answered, and the clock readings when it was asked and answered. */
  datatype Round = Round(dice: seq<nat>, text: string, askedTime: real, now: real)

  /** Whether the text answered in a round is scored correct for the fact asked. */
  predicate Solves(round: Round, f: Fact) {
    Strip(round.text) == CorrectAnswer(f.a, f.b)
  }

  /** A permutation of a valid answer list is valid. */
  lemma ShuffledAnswersValid(a: int, b: int, list: seq<string>, s: seq<string>)
    requires ValidAnswers(a, b, list)
    requires |s| == |list| && multiset(s) == multiset(list) && (Distinct(list) ==> Distinct(s))
    ensures ValidAnswers(a, b, s)
  {
    assert forall x :: x in s <==> x in multiset(list);
  }

  /** Answering with text t is scored correct exactly when t is the decimal product with
      only whitespace around it. */
  lemma ScoringByText(a: int, b: int, text: string)
    ensures Strip(text) == CorrectAnswer(a, b)
        <==> exists i :: PaddedAt(text, i, CorrectAnswer(a, b))
  {
    StripMatches(text, CorrectAnswer(a, b));
  }
}
