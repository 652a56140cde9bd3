/** Finding a directory name that is not taken. */
module FreshNames {

  function Digits(n: nat): (s: string)
    ensures s != ""
  {
    if n < 10 then [Digit(n)] else Digits(n / 10) + [Digit(n % 10)]
  }

  function Digit(n: nat): char
    requires n < 10
  {
    "0123456789"[n]
  }

  lemma ShortWhenSmall(n: nat)
    ensures |Digits(n)| == 1 <==> n < 10
  {
  }

  lemma {:induction false} DigitsInjective(a: nat, b: nat)
    requires Digits(a) == Digits(b)
    ensures a == b
  {
    ShortWhenSmall(a);
    ShortWhenSmall(b);
    if a < 10 {
      assert Digits(a)[0] == Digit(a) && Digits(b)[0] == Digit(b);
    } else {
      var da, db := Digits(a), Digits(b);
      assert da[..|da| - 1] == Digits(a / 10) && db[..|db| - 1] == Digits(b / 10);
      assert da[|da| - 1] == Digit(a % 10) && db[|db| - 1] == Digit(b % 10);
      DigitsInjective(a / 10, b / 10);
    }
  }

  ghost predicate Distinct(f: nat -> string) {
    forall i, j :: i < j ==> f(i) != f(j)
  }

  /** The plain name, then the name with a running number. */
  function Numbered(base: string): (f: nat -> string)
    ensures Distinct(f)
  {
    NumberedDistinct(base);
    (n: nat) => NumberedName(base, n)
  }

  function NumberedName(base: string, n: nat): string {
    if n == 0 then base else base + "-" + Digits(n)
  }

  lemma NumberedDistinct(base: string)
    ensures forall i: nat, j: nat :: i < j ==> NumberedName(base, i) != NumberedName(base, j)
  {
    forall i: nat, j: nat | i < j ensures NumberedName(base, i) != NumberedName(base, j) {
      var a, b := NumberedName(base, i), NumberedName(base, j);
      if i == 0 {
        assert |b| > |a|;
      } else if a == b {
        assert a[|base| + 1..] == Digits(i) && b[|base| + 1..] == Digits(j);
        DigitsInjective(i, j);
      }
    }
  }

  /** Names that keep growing: each try appends its number to the name tried before. */
  function Extended(base: string): (f: nat -> string)
    ensures Distinct(f)
  {
    ExtendedDistinct(base);
    (n: nat) => ExtendedName(base, n)
  }

  function ExtendedName(base: string, n: nat): string {
    if n == 0 then base else ExtendedName(base, n - 1) + "-" + Digits(n)
  }

  lemma ExtendedDistinct(base: string)
    ensures forall i: nat, j: nat :: i < j ==> ExtendedName(base, i) != ExtendedName(base, j)
  {
    forall i: nat, j: nat | i < j ensures ExtendedName(base, i) != ExtendedName(base, j) {
      ExtendedGrows(base, i, j);
    }
  }

  lemma {:induction false} ExtendedGrows(base: string, i: nat, j: nat)
    requires i < j
    ensures |ExtendedName(base, i)| < |ExtendedName(base, j)|
  {
    if i < j - 1 { ExtendedGrows(base, i, j - 1); }
  }

  lemma {:induction false} TriedBounded(taken: set<string>, f: nat -> string, n: nat)
    requires Distinct(f) && forall i :: 0 <= i < n ==> f(i) in taken
    ensures n <= |taken|
    decreases n
  {
    if n > 0 {
      var rest := taken - {f(n - 1)};
      forall i | 0 <= i < n - 1 ensures f(i) in rest {
        assert f(i) != f(n - 1);
      }
      TriedBounded(rest, f, n - 1);
    }
  }

  /** The first free name of a family, from the n-th on. */
  function Fresh(taken: set<string>, f: nat -> string, n: nat): (name: string)
    requires Distinct(f) && forall i :: 0 <= i < n ==> f(i) in taken
    ensures name !in taken
    ensures exists k: nat :: name == f(k) && forall i :: 0 <= i < k ==> f(i) in taken
    decreases |taken| + 1 - n
  {
    TriedBounded(taken, f, n);
    if f(n) !in taken then f(n)
    else
      TriedBounded(taken, f, n + 1);
      Fresh(taken, f, n + 1)
  }
}
