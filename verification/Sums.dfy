/** Finite sums over sets, the bookkeeping language of the conservation laws.
    A sum is defined by picking elements in any order; Pick says the order does
    not matter, and the other lemmas follow from it. */
module Sums {

  ghost function AddUp<T(!new)>(s: set<T>, f: T -> real): real {
    if s == {} then 0.0 else var x :| x in s; f(x) + AddUp(s - {x}, f)
  }

  ghost function Adder<T(!new)>(f: T -> real): set<T> -> real {
    s => AddUp(s, f)
  }

  /** The sum of f over s. It goes through a function value so that the solver
      does not unfold sums by itself: elsewhere only the lemmas below are used. */
  ghost function Sum<T(!new)>(s: set<T>, f: T -> real): real {
    Adder(f)(s)
  }

  lemma {:induction false} Empty<T(!new)>(f: T -> real)
    ensures Sum({}, f) == 0.0
  {
    assert AddUp({}, f) == 0.0;
  }

  lemma {:induction false} Pick<T(!new)>(s: set<T>, x: T, f: T -> real)
    requires x in s
    ensures Sum(s, f) == f(x) + Sum(s - {x}, f)
  {
    PickAddUp(s, x, f);
  }

  lemma {:induction false} PickAddUp<T(!new)>(s: set<T>, x: T, f: T -> real)
    requires x in s
    ensures AddUp(s, f) == f(x) + AddUp(s - {x}, f)
  {
    var y :| y in s && AddUp(s, f) == f(y) + AddUp(s - {y}, f);
    if y != x {
      PickAddUp(s - {y}, x, f);
      PickAddUp(s - {x}, y, f);
      assert s - {y} - {x} == s - {x} - {y};
    }
  }

  lemma {:induction false} Congruence<T(!new)>(s: set<T>, f: T -> real, g: T -> real)
    requires forall x :: x in s ==> f(x) == g(x)
    ensures Sum(s, f) == Sum(s, g)
  {
    if s != {} {
      var x :| x in s;
      Congruence(s - {x}, f, g);
      Pick(s, x, f);
      Pick(s, x, g);
    } else {
      Empty(f);
      Empty(g);
    }
  }

  lemma {:induction false} Monotone<T(!new)>(s: set<T>, f: T -> real, g: T -> real)
    requires forall x :: x in s ==> f(x) <= g(x)
    ensures Sum(s, f) <= Sum(s, g)
  {
    if s != {} {
      var x :| x in s;
      Monotone(s - {x}, f, g);
      Pick(s, x, f);
      Pick(s, x, g);
    } else {
      Empty(f);
      Empty(g);
    }
  }

  /** Sums are linear: h = a*f + g pointwise gives the same for the sums. */
  lemma {:induction false} Linear<T(!new)>(s: set<T>, a: real, f: T -> real, g: T -> real, h: T -> real)
    requires forall x :: x in s ==> h(x) == a * f(x) + g(x)
    ensures Sum(s, h) == a * Sum(s, f) + Sum(s, g)
  {
    if s != {} {
      var x :| x in s;
      Linear(s - {x}, a, f, g, h);
      Pick(s, x, f);
      Pick(s, x, g);
      Pick(s, x, h);
      assert a * (f(x) + Sum(s - {x}, f)) == a * f(x) + a * Sum(s - {x}, f);
    } else {
      Empty(f);
      Empty(g);
      Empty(h);
    }
  }

  lemma {:induction false} Zero<T(!new)>(s: set<T>, f: T -> real)
    requires forall x :: x in s ==> f(x) == 0.0
    ensures Sum(s, f) == 0.0
  {
    if s != {} {
      var x :| x in s;
      Zero(s - {x}, f);
      Pick(s, x, f);
    } else {
      Empty(f);
    }
  }

  lemma Scaled<T(!new)>(s: set<T>, a: real, f: T -> real, h: T -> real)
    requires forall x :: x in s ==> h(x) == a * f(x)
    ensures Sum(s, h) == a * Sum(s, f)
  {
    var none := (x: T) => 0.0;
    Linear(s, a, f, none, h);
    Zero(s, none);
  }

  lemma ScaleUp(c: real, a: real, b: real)
    requires a <= b && c >= 0.0
    ensures c * a <= c * b
  {
  }

  /** `n` times `c`, as repeated addition. */
  ghost function Times(n: nat, c: real): real {
    if n == 0 then 0.0 else c + Times(n - 1, c)
  }

  lemma {:induction false} TimesIsProduct(n: nat, c: real)
    ensures Times(n, c) == n as real * c
  {
    if n > 0 { TimesIsProduct(n - 1, c); }
  }

  lemma {:induction false} TimesNonNegative(n: nat, c: real)
    requires c >= 0.0
    ensures Times(n, c) >= 0.0
  {
    if n > 0 { TimesNonNegative(n - 1, c); }
  }

  /** Monotone, up to a slack per element. */
  lemma {:induction false} WithinSlack<T(!new)>(s: set<T>, slack: real, f: T -> real, g: T -> real)
    requires forall x :: x in s ==> f(x) <= slack + g(x)
    ensures Sum(s, f) <= Times(|s|, slack) + Sum(s, g)
  {
    if s != {} {
      var x :| x in s;
      WithinSlack(s - {x}, slack, f, g);
      Pick(s, x, f);
      Pick(s, x, g);
      assert |s - {x}| == |s| - 1;
    } else {
      Empty(f);
      Empty(g);
    }
  }

  /** Only one element carries weight. */
  lemma Single<T(!new)>(s: set<T>, x: T, f: T -> real)
    requires x in s
    requires forall y :: y in s && y != x ==> f(y) == 0.0
    ensures Sum(s, f) == f(x)
  {
    Pick(s, x, f);
    Zero(s - {x}, f);
  }

  lemma {:induction false} Split<T(!new)>(s: set<T>, t: set<T>, f: T -> real)
    requires s !! t
    ensures Sum(s + t, f) == Sum(s, f) + Sum(t, f)
  {
    if s == {} {
      assert s + t == t;
      Empty(f);
    } else {
      var x :| x in s;
      Split(s - {x}, t, f);
      Pick(s, x, f);
      Pick(s + t, x, f);
      assert s + t - {x} == s - {x} + t;
    }
  }

  /** Terms outside the subset that carry weight may be dropped. */
  lemma Restrict<T(!new)>(s: set<T>, t: set<T>, f: T -> real)
    requires t <= s
    requires forall x :: x in s - t ==> f(x) == 0.0
    ensures Sum(s, f) == Sum(t, f)
  {
    Split(t, s - t, f);
    assert t + (s - t) == s;
    Zero(s - t, f);
  }

  /** Finite sums commute: adding row by row or column by column is the same. */
  lemma {:induction false} Exchange<T(!new), U(!new)>(s: set<T>, t: set<U>, f: T -> U -> real, g: U -> T -> real,
                                                      row: T -> real, col: U -> real)
    requires forall x, y :: x in s && y in t ==> f(x)(y) == g(y)(x)
    requires forall x :: x in s ==> row(x) == Sum(t, f(x))
    requires forall y :: y in t ==> col(y) == Sum(s, g(y))
    ensures Sum(s, row) == Sum(t, col)
  {
    if s == {} {
      Empty(row);
      forall y | y in t ensures col(y) == 0.0 { Empty(g(y)); }
      Zero(t, col);
    } else {
      var x0 :| x0 in s;
      var rest := y => Sum(s - {x0}, g(y));
      forall y | y in t ensures col(y) == 1.0 * f(x0)(y) + rest(y) {
        Pick(s, x0, g(y));
      }
      Linear(t, 1.0, f(x0), rest, col);
      Exchange(s - {x0}, t, f, g, row, rest);
      Pick(s, x0, row);
    }
  }

  lemma {:induction false} SomeNonZero<T(!new)>(s: set<T>, f: T -> real) returns (x: T)
    requires Sum(s, f) != 0.0
    ensures x in s && f(x) != 0.0
  {
    if forall y :: y in s ==> f(y) == 0.0 { Zero(s, f); }
    x :| x in s && f(x) != 0.0;
  }

  /** Changing one term of a sum, or adding it, moves the sum by the change of that term. */
  lemma SumAdjust<T(!new)>(s: set<T>, k: T, f: T -> real, g: T -> real)
    requires forall x :: x in s && x != k ==> f(x) == g(x)
    ensures Sum(s + {k}, g) == Sum(s, f) + g(k) - (if k in s then f(k) else 0.0)
  {
    Pick(s + {k}, k, g);
    assert s + {k} - {k} == s - {k};
    Congruence(s - {k}, f, g);
    if k in s { Pick(s, k, f); } else { assert s - {k} == s; }
  }
}
