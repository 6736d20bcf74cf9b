/** Results, optional values and text splitting shared by the models. */
module Common {

  datatype Option<+T> = None | Some(value: T)

  datatype Result<+T, +E> = Ok(value: T) | Err(error: E) {
    predicate IsFailure() {
      Err?
    }

    function PropagateFailure<U>(): Result<U, E>
      requires Err?
    {
      Err(error)
    }

    function Extract(): T
      requires Ok?
    {
      value
    }
  }
}

/** Invariants over the places of a run. */
module Induction {

  /**
   * If at every place where `holds` does, one more step keeps it exactly when the step
   * is `careful`, then it holds throughout exactly when every step was.
   */
  lemma {:induction false} HoldsThroughout(holds: nat -> bool, careful: nat -> bool, n: nat)
    requires holds(0) && forall m: nat | m < n && holds(m) :: holds(m + 1) <==> careful(m)
    ensures (forall m: nat | m < n :: careful(m)) <==> (forall m: nat | m <= n :: holds(m))
  {
    if n > 0 {
      HoldsThroughout(holds, careful, n - 1);
      if holds(n - 1) {
        assert holds(n - 1 + 1) <==> careful(n - 1);
      }
    }
  }
}

/** Runs of a state machine, given by its step function. */
module Runs {

  /** The state after a list of events. */
  function Fold<S, E>(step: (S, E) -> S, s: S, es: seq<E>): S {
    if es == [] then s else step(Fold(step, s, es[..|es| - 1]), es[|es| - 1])
  }

  lemma FoldNext<S, E>(step: (S, E) -> S, s: S, es: seq<E>, n: nat)
    requires n < |es|
    ensures Fold(step, s, es[..n + 1]) == step(Fold(step, s, es[..n]), es[n])
  {
    assert es[..n + 1][..n] == es[..n];
  }

  lemma FoldThree<S, E>(step: (S, E) -> S, s: S, es: seq<E>)
    requires |es| == 3
    ensures Fold(step, s, es) == step(step(step(s, es[0]), es[1]), es[2])
  {
    FoldNext(step, s, es, 0);
    FoldNext(step, s, es, 1);
    FoldNext(step, s, es, 2);
    assert es[..3] == es;
  }

  lemma FoldFour<S, E>(step: (S, E) -> S, s: S, es: seq<E>)
    requires |es| == 4
    ensures Fold(step, s, es) == step(step(step(step(s, es[0]), es[1]), es[2]), es[3])
  {
    FoldThree(step, s, es[..3]);
    FoldNext(step, s, es, 3);
    assert es[..4] == es;
  }

  lemma {:induction false} FoldConcat<S, E>(step: (S, E) -> S, s: S, es: seq<E>, more: seq<E>)
    ensures Fold(step, s, es + more) == Fold(step, Fold(step, s, es), more)
  {
    if more == [] {
      assert es + more == es;
    } else {
      FoldConcat(step, s, es, more[..|more| - 1]);
      assert (es + more)[..|es + more| - 1] == es + more[..|more| - 1];
    }
  }
}

/** Finite sets. */
module Sets {

  lemma SubsetSize<T>(a: set<T>, b: set<T>)
    requires a <= b
    ensures |a| <= |b|
  {
    assert b == a + (b - a);
  }
}

/** Python's `str.split(sep)` and `sep.join(parts)` for a one-character separator. */
module Text {

  function Split(s: string, sep: char): (parts: seq<string>)
    ensures |parts| >= 1
  {
    if s == [] then [[]]
    else
      var rest := Split(s[1..], sep);
      if s[0] == sep then [[]] + rest else [[s[0]] + rest[0]] + rest[1..]
  }

  function Join(parts: seq<string>, sep: char): string {
    if parts == [] then []
    else if |parts| == 1 then parts[0]
    else parts[0] + [sep] + Join(parts[1..], sep)
  }

  predicate Free(parts: seq<string>, sep: char) {
    forall i | 0 <= i < |parts| :: sep !in parts[i]
  }

  predicate StartsWith(s: string, prefix: string) {
    prefix <= s
  }

  predicate EndsWith(s: string, suffix: string) {
    |suffix| <= |s| && s[|s| - |suffix|..] == suffix
  }

  /** Splitting loses nothing: joining the parts gives the text back. */
  lemma {:induction false} JoinSplit(s: string, sep: char)
    ensures Join(Split(s, sep), sep) == s
  {
    if s != [] {
      JoinSplit(s[1..], sep);
      var rest := Split(s[1..], sep);
      var parts := Split(s, sep);
      if s[0] == sep {
        assert parts[1..] == rest;
      } else if |rest| > 1 {
        assert parts[1..] == rest[1..];
      }
    }
  }

  lemma {:induction false} SplitFree(s: string, sep: char)
    ensures Free(Split(s, sep), sep)
  {
    if s != [] {
      SplitFree(s[1..], sep);
    }
  }

  lemma {:induction false} SplitWhole(s: string, sep: char)
    requires sep !in s
    ensures Split(s, sep) == [s]
  {
    if s != [] {
      SplitWhole(s[1..], sep);
      assert [s[0]] + s[1..] == s;
    }
  }

  lemma {:induction false} SplitStep(s: string, sep: char)
    requires s != []
    ensures var rest := Split(s[1..], sep);
            Split(s, sep) == if s[0] == sep then [[]] + rest else [[s[0]] + rest[0]] + rest[1..]
  {
  }

  /** A separator in the middle of a text splits it in two independent halves. */
  lemma {:induction false} SplitConcat(a: string, b: string, sep: char)
    ensures Split(a + [sep] + b, sep) == Split(a, sep) + Split(b, sep)
  {
    var whole := a + [sep] + b;
    SplitStep(whole, sep);
    if a == [] {
      assert whole[1..] == b && whole[0] == sep;
      assert Split(a, sep) == [[]];
    } else {
      assert whole[0] == a[0] && whole[1..] == a[1..] + [sep] + b;
      SplitConcat(a[1..], b, sep);
      SplitStep(a, sep);
      SplitGrows(a[0], Split(a[1..], sep), Split(b, sep), sep);
    }
  }

  lemma SplitGrows(c: char, parts: seq<string>, more: seq<string>, sep: char)
    requires parts != []
    ensures if c == sep then [[]] + (parts + more) == ([[]] + parts) + more
            else [[c] + (parts + more)[0]] + (parts + more)[1..] == ([[c] + parts[0]] + parts[1..]) + more
  {
  }

  lemma {:induction false} SplitJoin(parts: seq<string>, sep: char)
    requires parts != [] && Free(parts, sep)
    ensures Split(Join(parts, sep), sep) == parts
  {
    if |parts| == 1 {
      SplitWhole(parts[0], sep);
    } else {
      SplitJoin(parts[1..], sep);
      SplitWhole(parts[0], sep);
      SplitConcat(parts[0], Join(parts[1..], sep), sep);
    }
  }

  lemma {:induction false} JoinConcat(a: seq<string>, b: seq<string>, sep: char)
    requires a != [] && b != []
    ensures Join(a + b, sep) == Join(a, sep) + [sep] + Join(b, sep)
  {
    if |a| == 1 {
      assert (a + b)[1..] == b;
    } else {
      assert (a + b)[1..] == a[1..] + b;
      JoinConcat(a[1..], b, sep);
      assert Join(a, sep) == a[0] + [sep] + Join(a[1..], sep);
    }
  }
}

/** Decimal numbers as text. */
module Decimals {

  function Digit(d: nat): char
    requires d < 10
  {
    "0123456789"[d]
  }

  /** The decimal text of a number, as Python's `f"{n}"` writes it. */
  function Decimal(n: nat): (s: string)
    ensures s != []
  {
    if n < 10 then [Digit(n)] else Decimal(n / 10) + [Digit(n % 10)]
  }

  predicate IsDigit(c: char) {
    '0' <= c <= '9'
  }

  predicate AllDigits(s: string) {
    forall i | 0 <= i < |s| :: IsDigit(s[i])
  }

  function Value(s: string): nat
    requires AllDigits(s)
  {
    if s == [] then 0
    else
      assert IsDigit(s[|s| - 1]);
      10 * Value(s[..|s| - 1]) + (s[|s| - 1] as int - '0' as int)
  }

  lemma {:induction false} ValueOfDecimal(n: nat)
    ensures AllDigits(Decimal(n)) && Value(Decimal(n)) == n
  {
    if n < 10 {
      assert Decimal(n)[..0] == [];
    } else {
      ValueOfDecimal(n / 10);
      var s := Decimal(n);
      assert s[..|s| - 1] == Decimal(n / 10);
    }
  }
}
