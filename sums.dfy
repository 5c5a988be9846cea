/**
 Finite sums of real-valued functions over finite sets. Every "the values
 add up to one" statement of the PageRank model is a statement about Sum.
 */
module Sums {

  /** Some element of a non-empty set; fixing one choice makes Sum a function. */
  ghost function Pick<T>(s: set<T>): (x: T)
    requires s != {}
    ensures x in s
  {
    var x :| x in s; x
  }

  /** The sum of f over the elements of s. */
  ghost function Sum<T>(s: set<T>, f: T -> real): real
    decreases s
  {
    if s == {} then 0.0 else
      var x := Pick(s);
      f(x) + Sum(s - {x}, f)
  }

  /** The values of a map as a total function, 0 outside its keys. */
  function ValueOf<T>(m: map<T, real>): T -> real
  {
    k => if k in m then m[k] else 0.0
  }

  /** The sum of the values of a map. */
  ghost function Total<T>(m: map<T, real>): real
  {
    Sum(m.Keys, ValueOf(m))
  }

  /** Maps with the same keys and the same value at every key are equal. */
  lemma SameMaps<T>(a: map<T, real>, b: map<T, real>)
    requires a.Keys == b.Keys
    requires forall k :: k in a ==> a[k] == b[k]
    ensures a == b
  {
  }

  // Solver hints. The lemmas from Cancel to OneMore (and Combine and
  // CancelCount below) are one-step facts of real arithmetic that Dafny
  // proves without a body. They are stated as lemmas so that a longer proof
  // can name the step it needs, which keeps that proof cheap to check; they
  // state nothing about the program.

  /** Multiplying a quotient back by its divisor. */
  lemma Cancel(x: real, c: real)
    requires x != 0.0
    ensures x * (c / x) == c
  {
  }

  /** Equal factors give equal products. */
  lemma SameProduct(x: real, y: real, c: real)
    requires x == y
    ensures x * c == y * c && c * x == c * y
  {
  }

  /** A non-zero number divided by itself is one. */
  lemma DivSelf(x: real)
    requires x != 0.0
    ensures x / x == 1.0
  {
  }

  /** The product of non-negative numbers is non-negative. */
  lemma ProductNonNegative(x: real, y: real)
    requires 0.0 <= x && 0.0 <= y
    ensures 0.0 <= x * y
  {
  }

  /** Quotients by the same divisor add up as their numerators do. */
  lemma AddQuotients(a: real, b: real, c: real)
    requires c != 0.0
    ensures a / c + b / c == (a + b) / c
  {
  }

  /** No copies of c. */
  lemma NoCopies(k: int, c: real)
    requires k == 0
    ensures k as real * c == 0.0
  {
  }

  /** One more copy of c. */
  lemma OneMore(j: int, k: int, c: real)
    requires j == k - 1
    ensures c + j as real * c == k as real * c
  {
  }

  /** Sum does not depend on the order in which elements are taken out. */
  lemma {:induction false} SumRemove<T>(s: set<T>, f: T -> real, x: T)
    requires x in s
    ensures Sum(s, f) == f(x) + Sum(s - {x}, f)
    decreases s
  {
    var y := Pick(s);
    if y != x {
      SumRemove(s - {y}, f, x);
      SumRemove(s - {x}, f, y);
      assert s - {y} - {x} == s - {x} - {y};
    }
  }

  /** Adding one new element adds its value. */
  lemma SumInsert<T>(s: set<T>, f: T -> real, x: T)
    requires x !in s
    ensures Sum(s + {x}, f) == Sum(s, f) + f(x)
  {
    SumRemove(s + {x}, f, x);
    assert s + {x} - {x} == s;
  }

  /** Functions that agree on s have the same sum over s. */
  lemma {:induction false} SumCongruence<T>(s: set<T>, f: T -> real, g: T -> real)
    requires forall x :: x in s ==> f(x) == g(x)
    ensures Sum(s, f) == Sum(s, g)
    decreases s
  {
    if s != {} {
      SumCongruence(s - {Pick(s)}, f, g);
    }
  }

  /** The sum of a pointwise sum is the sum of the sums. */
  lemma {:induction false} SumLinear<T>(s: set<T>, h: T -> real, f: T -> real, g: T -> real)
    requires forall x :: x in s ==> h(x) == f(x) + g(x)
    ensures Sum(s, h) == Sum(s, f) + Sum(s, g)
    decreases s
  {
    if s != {} {
      SumLinear(s - {Pick(s)}, h, f, g);
    }
  }

  /** A constant factor comes out of a sum. */
  lemma {:induction false} SumScale<T>(s: set<T>, h: T -> real, g: T -> real, b: real)
    requires forall x :: x in s ==> h(x) == b * g(x)
    ensures Sum(s, h) == b * Sum(s, g)
    decreases s
  {
    if s != {} {
      var x := Pick(s);
      SumScale(s - {x}, h, g, b);
      assert Sum(s, h) == b * g(x) + b * Sum(s - {x}, g);
    }
  }

  /** A common divisor comes out of a sum. */
  lemma {:induction false} SumDivide<T>(s: set<T>, h: T -> real, g: T -> real, c: real)
    requires c != 0.0
    requires forall x :: x in s ==> h(x) == g(x) / c
    ensures Sum(s, h) == Sum(s, g) / c
    decreases s
  {
    if s != {} {
      var x := Pick(s);
      SumDivide(s - {x}, h, g, c);
      AddQuotients(g(x), Sum(s - {x}, g), c);
    }
  }

  /** Summing c over the members of t, and 0 elsewhere, gives |t| * c. */
  lemma {:induction false} SumIndicator<T>(s: set<T>, t: set<T>, f: T -> real, c: real)
    requires t <= s
    requires forall x :: x in s ==> f(x) == if x in t then c else 0.0
    ensures Sum(s, f) == |t| as real * c
    decreases s
  {
    if s == {} {
      assert t == {};
      NoCopies(|t|, c);
    } else {
      var x := Pick(s);
      if x in t {
        IndicatorRest(s, t, f, c, x);
        SumIndicator(s - {x}, t - {x}, f, c);
        IndicatorStep(s, t, f, c, x, |t - {x}| as real * c);
      } else {
        SumIndicator(s - {x}, t, f, c);
      }
    }
  }

  /** Taking a member x of t out of both sets keeps the shape SumIndicator needs. */
  lemma IndicatorRest<T>(s: set<T>, t: set<T>, f: T -> real, c: real, x: T)
    requires t <= s && x in t
    requires forall y :: y in s ==> f(y) == if y in t then c else 0.0
    ensures t - {x} <= s - {x}
    ensures forall y :: y in s - {x} ==> f(y) == if y in t - {x} then c else 0.0
    ensures |t - {x}| == |t| - 1
  {
  }

  /** The inductive step of SumIndicator when the picked element is in t. */
  lemma IndicatorStep<T>(s: set<T>, t: set<T>, f: T -> real, c: real, x: T, rest: real)
    requires t <= s && s != {} && x == Pick(s) && x in t
    requires forall y :: y in s ==> f(y) == if y in t then c else 0.0
    requires rest == |t - {x}| as real * c
    requires Sum(s - {x}, f) == rest
    ensures Sum(s, f) == |t| as real * c
  {
    OneMore(|t - {x}|, |t|, c);
  }

  /** Spreading a evenly over the members of t, and 0 elsewhere, adds up to a. */
  lemma SumSpread<T>(s: set<T>, t: set<T>, f: T -> real, a: real)
    requires t <= s && t != {}
    requires forall x :: x in s ==> f(x) == if x in t then a / |t| as real else 0.0
    ensures Sum(s, f) == a
  {
    assert Sum(s, f) == |t| as real * (a / |t| as real) by {
      SumIndicator(s, t, f, a / |t| as real);
    }
    Cancel(|t| as real, a);
  }

  /** h is c + b * g on s. */
  ghost predicate IsAffine<T>(s: set<T>, h: T -> real, c: real, b: real, g: T -> real)
  {
    forall x :: x in s ==> h(x) == c + b * g(x)
  }

  /** Summing c + b * g(x) over s gives |s| * c plus b times the sum of g. */
  lemma AffineTotal<T>(s: set<T>, h: T -> real, c: real, b: real, g: T -> real)
    requires IsAffine(s, h, c, b, g)
    ensures Sum(s, h) == |s| as real * c + b * Sum(s, g)
  {
    var base := (x: T) => c;
    var scaled := (x: T) => b * g(x);
    SumLinear(s, h, base, scaled);
    SumIndicator(s, s, base, c);
    SumScale(s, scaled, g, b);
  }

  /** Solver hint: rewriting both parts of total = k + b * s. */
  lemma Combine(total: real, k: real, a: real, b: real, s: real, t: real)
    requires total == k + b * s && k == a && s == t
    ensures total == a + b * t
  {
    SameProduct(s, t, b);
  }

  /** Solver hint: n copies of a / n, for n the size of a set, make a. */
  lemma CancelCount<T>(keys: set<T>, n: real, a: real)
    requires n == |keys| as real && n != 0.0
    ensures |keys| as real * (a / n) == a
  {
    SameProduct(|keys| as real, n, a / n);
    Cancel(n, a);
  }

  /**
   The total of a map whose values are c + b * g over its keys, from the
   sum of g: the constant parts add up to a.
   */
  lemma AffineMapTotal<T>(m: map<T, real>, keys: set<T>, c: real, b: real, g: T -> real,
                          a: real, t: real)
    requires m.Keys == keys && |keys| as real * c == a
    requires IsAffine(keys, ValueOf(m), c, b, g)
    requires Sum(keys, g) == t
    ensures Total(m) == a + b * t
  {
    AffineTotal(keys, ValueOf(m), c, b, g);
    Combine(Sum(keys, ValueOf(m)), |keys| as real * c, a, b, Sum(keys, g), t);
  }

  /** AffineMapTotal for a constant part a / n, with n the number of keys. */
  lemma SpreadMapTotal<T>(m: map<T, real>, keys: set<T>, a: real, b: real, g: T -> real,
                          n: real, t: real)
    requires m.Keys == keys && n == |keys| as real && n != 0.0
    requires IsAffine(keys, ValueOf(m), a / n, b, g)
    requires Sum(keys, g) == t
    ensures Total(m) == a + b * t
  {
    assert |keys| as real * (a / n) == a by {
      CancelCount(keys, n, a);
    }
    AffineMapTotal(m, keys, a / n, b, g, a, t);
  }

  /** A sum of non-negative values is non-negative. */
  lemma {:induction false} SumNonNegative<T>(s: set<T>, f: T -> real)
    requires forall x :: x in s ==> 0.0 <= f(x)
    ensures 0.0 <= Sum(s, f)
    decreases s
  {
    if s != {} {
      SumNonNegative(s - {Pick(s)}, f);
    }
  }

  /** A non-negative value is at most the sum of all non-negative values. */
  lemma ValueAtMostTotal<T>(m: map<T, real>, k: T)
    requires k in m
    requires forall x :: x in m ==> 0.0 <= m[x]
    ensures m[k] <= Total(m)
  {
    SumRemove(m.Keys, ValueOf(m), k);
    SumNonNegative(m.Keys - {k}, ValueOf(m));
  }

  /** Column p of a two-argument function: i => c(i, p). */
  function Column<T>(c: (T, T) -> real, p: T): T -> real
  {
    i => c(i, p)
  }

  /** Row i of a two-argument function: p => c(i, p). */
  function Row<T>(c: (T, T) -> real, i: T): T -> real
  {
    p => c(i, p)
  }

  /** For every p, the sum of column p over the given rows. */
  ghost function ColumnSums<T>(rows: set<T>, c: (T, T) -> real): T -> real
  {
    p => Sum(rows, Column(c, p))
  }

  /** For every i, the sum of row i over the given columns. */
  ghost function RowSums<T>(cols: set<T>, c: (T, T) -> real): T -> real
  {
    i => Sum(cols, Row(c, i))
  }

  /** A finite double sum may be taken in either order. */
  lemma {:induction false} SumSwap<T>(rows: set<T>, cols: set<T>, c: (T, T) -> real)
    ensures Sum(cols, ColumnSums(rows, c)) == Sum(rows, RowSums(cols, c))
    decreases cols
  {
    if cols == {} {
      SumIndicator(rows, {}, RowSums(cols, c), 0.0);
    } else {
      var p := Pick(cols);
      SumSwap(rows, cols - {p}, c);
      forall i | i in rows
        ensures RowSums(cols, c)(i) == Column(c, p)(i) + RowSums(cols - {p}, c)(i)
      {
        SumRemove(cols, Row(c, i), p);
      }
      SumLinear(rows, RowSums(cols, c), Column(c, p), RowSums(cols - {p}, c));
    }
  }
}
