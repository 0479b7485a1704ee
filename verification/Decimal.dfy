/** libc.c: numbers as strings of decimal digits. */
module Decimal {
  import opened Common

  const ZERO: Byte := '0' as int

  predicate Digit(c: Byte) {
    ZERO <= c <= ZERO + 9
  }

  ghost predicate Digits(s: seq<Byte>) {
    forall k | 0 <= k < |s| :: Digit(s[k])
  }

  /** The number a string of digits stands for in base 10. */
  function Value(s: seq<Byte>): int {
    if s == [] then 0 else Value(s[..|s| - 1]) * 10 + (s[|s| - 1] - ZERO)
  }

  /** The decimal string of a number: what `itoa` writes before the final zero byte.  For negative numbers its
      loop does not run, and the string is empty. */
  function Text(a: int): seq<Byte> {
    if a < 0 then [] else if a < 10 then [ZERO + a] else Text(a / 10) + [ZERO + a % 10]
  }

  /** No leading zero, unless the string is "0". */
  predicate Canonical(s: seq<Byte>) {
    s != [] && (s[0] == ZERO ==> |s| == 1)
  }

  /** Round trip: the string parses back to the number and is canonical. */
  lemma {:induction false} TextValue(a: int)
    requires a >= 0
    ensures Digits(Text(a)) && Canonical(Text(a)) && Value(Text(a)) == a
    ensures a > 0 ==> Text(a)[0] != ZERO
  {
    if a < 10 {
      assert [ZERO + a][..0] == [];
    } else {
      TextValue(a / 10);
      assert Text(a)[..|Text(a)| - 1] == Text(a / 10);
      assert Text(a)[0] == Text(a / 10)[0];
    }
  }

  lemma {:induction false} ValuePositive(s: seq<Byte>)
    requires Digits(s)
    ensures Value(s) >= 0
    ensures s != [] && s[0] != ZERO ==> Value(s) > 0
  {
    if s != [] {
      ValuePositive(s[..|s| - 1]);
    }
  }

  /** And back: a canonical string of digits is the string of its number, so there is one for each number. */
  lemma {:induction false} ValueText(s: seq<Byte>)
    requires Digits(s) && Canonical(s)
    ensures Text(Value(s)) == s
  {
    ValuePositive(s);
    if |s| == 1 {
      assert s[..0] == [];
    } else {
      var front := s[..|s| - 1];
      ValuePositive(front);
      ValueText(front);
      assert Value(s) == Value(front) * 10 + (s[|s| - 1] - ZERO);
      assert Value(s) / 10 == Value(front) && Value(s) % 10 == s[|s| - 1] - ZERO;
      assert s == front + [s[|s| - 1]];
    }
  }

  function Reversed(s: seq<Byte>): (r: seq<Byte>)
    ensures |r| == |s|
    ensures forall k | 0 <= k < |s| :: r[k] == s[|s| - 1 - k]
  {
    if s == [] then [] else [s[|s| - 1]] + Reversed(s[..|s| - 1])
  }

  /** The digits in `done`, last digit of `a` first, and the number n still to be written make up `a`. */
  ghost predicate Written(a: int, n: int, done: seq<Byte>) {
    (if n > 0 then Text(n) else []) + Reversed(done) == Text(a)
  }

  lemma ReversedAppend(s: seq<Byte>, c: Byte)
    ensures Reversed(s + [c]) == [c] + Reversed(s)
  {
    assert (s + [c])[..|s|] == s;
  }

  /** One turn of the digit loop. */
  lemma OneDigit(a: int, n: int, done: seq<Byte>)
    requires n > 0 && Written(a, n, done)
    ensures |done| < |Text(a)|
    ensures Written(a, n / 10, done + [ZERO + n % 10])
  {
    var c := ZERO + n % 10;
    ReversedAppend(done, c);
    var high := if n < 10 then [] else Text(n / 10);
    assert Text(n) == high + [c];
    assert (high + [c]) + Reversed(done) == high + ([c] + Reversed(done));
  }

  lemma NothingWritten(a: int)
    requires a != 0
    ensures Written(a, a, [])
  {
    assert Text(a) + [] == Text(a);
  }

  lemma AllWritten(a: int, n: int, done: seq<Byte>)
    requires n <= 0 && Written(a, n, done)
    ensures Reversed(done) == Text(a) && |done| == |Text(a)|
  {
    assert [] + Reversed(done) == Reversed(done);
  }

  lemma TextZero()
    ensures Text(0) == [ZERO]
  {
  }

  lemma Assembled(now: seq<Byte>, was: seq<Byte>, text: seq<Byte>)
    requires |now| == |was| && |text| < |was|
    requires now[..|text|] == text && now[|text|] == 0 && now[|text| + 1..] == was[|text| + 1..]
    ensures now == text + [0] + was[|text| + 1..]
  {
    assert now == now[..|text|] + [now[|text|]] + now[|text| + 1..];
  }

  /** `itoa`: digits in reverse, then a reversal in place, then the terminator. */
  method Itoa(a: int, b: array<Byte>)
    requires |Text(a)| < b.Length
    modifies b
    ensures b[..] == Text(a) + [0] + old(b[..])[|Text(a)| + 1..]
  {
    hide Text, Reversed;
    ghost var was := b[..];
    if a == 0 {
      TextZero();
      b[0] := ZERO;
      b[1] := 0;
      Assembled(b[..], was, Text(a));
      return;
    }
    var i := WriteDigits(a, b);
    ReversePrefix(b, i);
    assert b[..i] == Text(a) && b[i..] == was[i..];
    b[i] := 0;
    assert b[i + 1..] == was[i..][1..] == was[i + 1..];
    Assembled(b[..], was, Text(a));
  }

  /** The digit loop; the last digit comes first. */
  method WriteDigits(a: int, b: array<Byte>) returns (i: nat)
    requires a != 0 && |Text(a)| < b.Length
    modifies b
    ensures i == |Text(a)| && Reversed(b[..i]) == Text(a)
    ensures b[i..] == old(b[i..])
  {
    hide Text, Reversed, Written;
    i := 0;
    var n := a;
    NothingWritten(a);
    while n > 0
      invariant 0 <= i <= |Text(a)|
      invariant Written(a, n, b[..i])
      invariant b[i..] == old(b[i..])
    {
      ghost var done := b[..i];
      OneDigit(a, n, done);
      b[i] := n % 10 + ZERO;
      n := n / 10;
      i := i + 1;
      assert b[..i] == done + [b[i - 1]];
    }
    AllWritten(a, n, b[..i]);
  }

  /** The reversal loop of `itoa`. */
  method ReversePrefix(b: array<Byte>, i: nat)
    requires i <= b.Length
    modifies b
    ensures b[..i] == Reversed(old(b[..i])) && b[i..] == old(b[i..])
  {
    var i1 := 0;
    while i1 < i / 2
      invariant 0 <= i1 <= i / 2
      invariant forall k | 0 <= k < i1 :: b[k] == old(b[i - k - 1]) && b[i - k - 1] == old(b[k])
      invariant forall k | i1 <= k < i - i1 :: b[k] == old(b[k])
      invariant b[i..] == old(b[i..])
    {
      var c := b[i1];
      b[i1] := b[i - i1 - 1];
      b[i - i1 - 1] := c;
      i1 := i1 + 1;
    }
    ghost var r := Reversed(old(b[..i]));
    forall k | 0 <= k < i
      ensures b[k] == r[k]
    {
    }
  }

  /** `strlen`: the position of the first zero byte. */
  method Strlen(a: array<Byte>) returns (i: nat)
    requires exists k :: 0 <= k < a.Length && a[k] == 0
    ensures i < a.Length && a[i] == 0
    ensures forall k | 0 <= k < i :: a[k] != 0
  {
    i := 0;
    while a[i] != 0
      invariant 0 <= i < a.Length
      invariant forall k | 0 <= k < i :: a[k] != 0
      decreases a.Length - i
    {
      i := i + 1;
    }
  }
}
