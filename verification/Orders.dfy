/** Comparators that return a sign, and how they compose. */
module Orders {
  function Sign(x: int): int { if x < 0 then -1 else if x > 0 then 1 else 0 }

  /** The signs of comparing a with b, b with c and a with c fit one order. */
  predicate Consistent(ab: int, bc: int, ac: int) {
    && (ab <= 0 && bc <= 0 ==> ac <= 0)
    && (ab <= 0 && bc < 0 ==> ac < 0)
    && (ab < 0 && bc <= 0 ==> ac < 0)
    && (ab >= 0 && bc >= 0 ==> ac >= 0)
    && (ab >= 0 && bc > 0 ==> ac > 0)
    && (ab > 0 && bc >= 0 ==> ac > 0)
  }

  /** A total preorder on the values p accepts: signs flip with the arguments and are
      transitive. */
  ghost predicate TotalPreorder<T(!new)>(cmp: (T, T) -> int, p: T -> bool) {
    && (forall x, y | p(x) && p(y) :: cmp(x, y) == -cmp(y, x))
    && (forall x, y, z | p(x) && p(y) && p(z) :: Consistent(cmp(x, y), cmp(y, z), cmp(x, z)))
  }

  /** Decide by the first comparison, and by the second where that is even. */
  function Then(first: int, second: int): int { if first != 0 then first else second }

  /** Lexicographic order, an ended sequence first. */
  function LexBy<T>(cmp: (T, T) -> int, a: seq<T>, b: seq<T>): int {
    if a == [] then (if b == [] then 0 else -1)
    else if b == [] then 1
    else Then(cmp(a[0], b[0]), LexBy(cmp, a[1..], b[1..]))
  }

  /** Position by position, an ended sequence continued with `zero`. */
  function PadBy<T>(cmp: (T, T) -> int, zero: T, a: seq<T>, b: seq<T>): int
    decreases |a| + |b|
  {
    if a == [] && b == [] then 0
    else Then(cmp(Head(a, zero), Head(b, zero)), PadBy(cmp, zero, Tail(a), Tail(b)))
  }

  function Head<T>(s: seq<T>, zero: T): T { if s == [] then zero else s[0] }

  function Tail<T>(s: seq<T>): seq<T> { if s == [] then [] else s[1..] }

  /** The i-th position, or `zero` past the end. */
  function At<T>(s: seq<T>, i: nat, zero: T): T { if i < |s| then s[i] else zero }

  /** What is left after n positions. */
  function Drop<T>(s: seq<T>, n: nat): seq<T> { if n <= |s| then s[n..] else [] }

  /** PadBy from a position on. */
  function PadFrom<T>(cmp: (T, T) -> int, zero: T, a: seq<T>, b: seq<T>, n: nat): int
    decreases |a| + |b| - n
  {
    if n >= |a| && n >= |b| then 0 else Then(cmp(At(a, n, zero), At(b, n, zero)), PadFrom(cmp, zero, a, b, n + 1))
  }

  lemma {:induction false} PadFromIs<T>(cmp: (T, T) -> int, zero: T, a: seq<T>, b: seq<T>, n: nat)
    ensures PadFrom(cmp, zero, a, b, n) == PadBy(cmp, zero, Drop(a, n), Drop(b, n))
    decreases |a| + |b| - n
  {
    if n < |a| || n < |b| {
      PadFromIs(cmp, zero, a, b, n + 1);
      assert Tail(Drop(a, n)) == Drop(a, n + 1) && Tail(Drop(b, n)) == Drop(b, n + 1);
      assert Head(Drop(a, n), zero) == At(a, n, zero) && Head(Drop(b, n), zero) == At(b, n, zero);
    }
  }

  lemma {:induction false} PadFromStart<T>(cmp: (T, T) -> int, zero: T, a: seq<T>, b: seq<T>)
    ensures PadFrom(cmp, zero, a, b, 0) == PadBy(cmp, zero, a, b)
  {
    PadFromIs(cmp, zero, a, b, 0);
    assert Drop(a, 0) == a && Drop(b, 0) == b;
  }

  /** LexBy from a position on. */
  function LexFrom<T>(cmp: (T, T) -> int, a: seq<T>, b: seq<T>, n: nat): int
    decreases |a| - n
  {
    if n >= |a| then (if n >= |b| then 0 else -1)
    else if n >= |b| then 1
    else Then(cmp(a[n], b[n]), LexFrom(cmp, a, b, n + 1))
  }

  lemma {:induction false} LexFromIs<T>(cmp: (T, T) -> int, a: seq<T>, b: seq<T>, n: nat)
    ensures LexFrom(cmp, a, b, n) == LexBy(cmp, Drop(a, n), Drop(b, n))
    decreases |a| - n
  {
    if n < |a| && n < |b| {
      LexFromIs(cmp, a, b, n + 1);
      assert Drop(a, n)[1..] == Drop(a, n + 1) && Drop(b, n)[1..] == Drop(b, n + 1);
    }
  }

  lemma {:induction false} LexFromStart<T>(cmp: (T, T) -> int, a: seq<T>, b: seq<T>)
    ensures LexFrom(cmp, a, b, 0) == LexBy(cmp, a, b)
  {
    LexFromIs(cmp, a, b, 0);
    assert Drop(a, 0) == a && Drop(b, 0) == b;
  }

  lemma {:induction false} LexAnti<T(!new)>(cmp: (T, T) -> int, p: T -> bool, a: seq<T>, b: seq<T>)
    requires TotalPreorder(cmp, p)
    requires (forall x | x in a :: p(x)) && (forall x | x in b :: p(x))
    ensures LexBy(cmp, a, b) == -LexBy(cmp, b, a)
  {
    if a != [] && b != [] {
      assert p(a[0]) && p(b[0]);
      LexAnti(cmp, p, a[1..], b[1..]);
    }
  }

  lemma {:induction false} LexTransitive<T(!new)>(cmp: (T, T) -> int, p: T -> bool, a: seq<T>, b: seq<T>, c: seq<T>)
    requires TotalPreorder(cmp, p)
    requires (forall x | x in a :: p(x)) && (forall x | x in b :: p(x)) && (forall x | x in c :: p(x))
    ensures Consistent(LexBy(cmp, a, b), LexBy(cmp, b, c), LexBy(cmp, a, c))
  {
    if a != [] && b != [] && c != [] {
      assert p(a[0]) && p(b[0]) && p(c[0]);
      LexTransitive(cmp, p, a[1..], b[1..], c[1..]);
    }
  }

  lemma {:induction false} PadAnti<T(!new)>(cmp: (T, T) -> int, p: T -> bool, zero: T, a: seq<T>, b: seq<T>)
    requires TotalPreorder(cmp, p) && p(zero)
    requires (forall x | x in a :: p(x)) && (forall x | x in b :: p(x))
    ensures PadBy(cmp, zero, a, b) == -PadBy(cmp, zero, b, a)
    decreases |a| + |b|
  {
    if a != [] || b != [] {
      assert p(Head(a, zero)) && p(Head(b, zero));
      PadAnti(cmp, p, zero, Tail(a), Tail(b));
    }
  }

  lemma {:induction false} PadTransitive<T(!new)>(cmp: (T, T) -> int, p: T -> bool, zero: T, a: seq<T>, b: seq<T>, c: seq<T>)
    requires TotalPreorder(cmp, p) && p(zero)
    requires (forall x | x in a :: p(x)) && (forall x | x in b :: p(x)) && (forall x | x in c :: p(x))
    ensures Consistent(PadBy(cmp, zero, a, b), PadBy(cmp, zero, b, c), PadBy(cmp, zero, a, c))
    decreases |a| + |b| + |c|
  {
    if a != [] || b != [] || c != [] {
      assert p(Head(a, zero)) && p(Head(b, zero)) && p(Head(c, zero));
      PadTransitive(cmp, p, zero, Tail(a), Tail(b), Tail(c));
    }
  }

  // ----- text -----

  function CompareChar(a: char, b: char): int { Sign(a as int - b as int) }

  /** strings.Compare. The order of code points is the order of their UTF-8 bytes. */
  function CompareText(a: string, b: string): int { LexBy(CompareChar, a, b) }

  function CompareInt(a: int, b: int): int { Sign(a - b) }

  lemma TextPreorder(a: string, b: string, c: string)
    ensures CompareText(a, b) == -CompareText(b, a)
    ensures Consistent(CompareText(a, b), CompareText(b, c), CompareText(a, c))
    ensures -1 <= CompareText(a, b) <= 1
  {
    var any := (x: char) => true;
    LexAnti(CompareChar, any, a, b);
    LexTransitive(CompareChar, any, a, b, c);
    TextSign(a, b);
  }

  lemma {:induction false} TextSign(a: string, b: string)
    ensures -1 <= CompareText(a, b) <= 1
    ensures CompareText(a, b) == 0 <==> a == b
  {
    if a != [] && b != [] {
      TextSign(a[1..], b[1..]);
      assert a == [a[0]] + a[1..] && b == [b[0]] + b[1..];
    }
  }

  lemma PaddedIntsPreorder(a: seq<int>, b: seq<int>, c: seq<int>)
    ensures PadBy(CompareInt, 0, a, b) == -PadBy(CompareInt, 0, b, a)
    ensures Consistent(PadBy(CompareInt, 0, a, b), PadBy(CompareInt, 0, b, c), PadBy(CompareInt, 0, a, c))
  {
    var any := (x: int) => true;
    PadAnti(CompareInt, any, 0, a, b);
    PadTransitive(CompareInt, any, 0, a, b, c);
  }
}
