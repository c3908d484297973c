// Bitwise operators on machine words, as functions of the binary digits, and
// the arithmetic they amount to where words are cut into fields.
module Bits {
  function And(a: nat, b: nat): nat
    decreases a
  {
    if a == 0 then 0 else (if a % 2 == 1 && b % 2 == 1 then 1 else 0) + 2 * And(a / 2, b / 2)
  }

  function Or(a: nat, b: nat): nat
    decreases a + b
  {
    if a == 0 && b == 0 then 0 else (if a % 2 == 1 || b % 2 == 1 then 1 else 0) + 2 * Or(a / 2, b / 2)
  }

  function Pow2(k: nat): (r: nat)
    ensures r >= 1
  {
    if k == 0 then 1 else 2 * Pow2(k - 1)
  }

  // x << k and x >> k
  function Shl(x: nat, k: nat): nat {
    if k == 0 then x else 2 * Shl(x, k - 1)
  }

  function Shr(x: nat, k: nat): nat
    decreases k
  {
    if k == 0 then x else Shr(x / 2, k - 1)
  }

  lemma SmallMultiple(x: int, d: nat)
    requires -(d as int) < x * d < d
    ensures x == 0
  {
  }

  lemma DivisionIsUnique(a: nat, d: nat, q: nat, r: nat)
    requires a == q * d + r && r < d
    ensures a / d == q && a % d == r
  {
    assert (a / d - q) * d == r - a % d;
    SmallMultiple(a / d - q, d);
  }

  // One binary digit of a division by 2 * p.
  lemma Halve(a: nat, p: nat)
    requires p >= 1
    ensures a / (2 * p) == a / 2 / p
    ensures a % (2 * p) == a % 2 + 2 * (a / 2 % p)
  {
    var h := a / 2;
    assert h == h / p * p + h % p;
    assert a == h / p * (2 * p) + (a % 2 + 2 * (h % p));
    DivisionIsUnique(a, 2 * p, h / p, a % 2 + 2 * (h % p));
  }

  lemma AndDigits(a: nat, b: nat)
    ensures And(a, b) == (if a % 2 == 1 && b % 2 == 1 then 1 else 0) + 2 * And(a / 2, b / 2)
  {
  }

  lemma {:induction false} AndZero(a: nat)
    ensures And(a, 0) == 0
  {
    if a > 0 {
      AndZero(a / 2);
    }
  }

  // A mask of k ones keeps the low k bits.
  lemma {:induction false} MaskIsRemainder(a: nat, k: nat)
    ensures And(a, Pow2(k) - 1) == a % Pow2(k)
    decreases k
  {
    hide And;
    if k == 0 {
      AndZero(a);
    } else {
      var p := Pow2(k - 1);
      Halve(a, p);
      AndDigits(a, 2 * p - 1);
      assert (2 * p - 1) / 2 == p - 1;
      MaskIsRemainder(a / 2, k - 1);
    }
  }

  lemma {:induction false} ShiftsAreArithmetic(x: nat, k: nat)
    ensures Shl(x, k) == x * Pow2(k) && Shr(x, k) == x / Pow2(k)
    decreases k
  {
    if k > 0 {
      ShiftsAreArithmetic(x, k - 1);
      ShiftsAreArithmetic(x / 2, k - 1);
      Halve(x, Pow2(k - 1));
    }
  }

  // Masking higher bits and shifting them down is masking the shifted word.
  lemma {:induction false} MaskThenShift(a: nat, m: nat, k: nat)
    ensures Shr(And(a, Shl(m, k)), k) == And(Shr(a, k), m)
    decreases k
  {
    hide And;
    if k > 0 {
      AndDigits(a, Shl(m, k));
      MaskThenShift(a / 2, m, k - 1);
    }
  }

  lemma {:induction false} OrZero(b: nat)
    ensures Or(0, b) == b
  {
    if b > 0 {
      OrZero(b / 2);
    }
  }

  lemma OrDigits(a: nat, b: nat)
    ensures Or(a, b) == (if a % 2 == 1 || b % 2 == 1 then 1 else 0) + 2 * Or(a / 2, b / 2)
  {
  }

  // Joining a field with one above it adds the two.
  lemma {:induction false} OrAdds(a: nat, b: nat, k: nat)
    requires a < Pow2(k)
    ensures Or(a, Shl(b, k)) == a + Shl(b, k)
    decreases k
  {
    hide Or;
    if k == 0 {
      OrZero(b);
    } else {
      OrDigits(a, Shl(b, k));
      OrAdds(a / 2, b, k - 1);
    }
  }

  // ----- Fields of a word, with the powers of two written out ------------------

  lemma FieldAt(word: nat, at: nat, p: nat, width: nat, q: nat)
    requires p == Pow2(at) && q == Pow2(width)
    ensures And(Shr(word, at), q - 1) == word / p % q
  {
    ShiftsAreArithmetic(word, at);
    MaskIsRemainder(Shr(word, at), width);
  }

  lemma LowField(word: nat, width: nat, q: nat)
    requires q == Pow2(width)
    ensures And(word, q - 1) == word % q
  {
    MaskIsRemainder(word, width);
  }

  lemma MaskedField(word: nat, mask: nat, at: nat, p: nat, width: nat, q: nat)
    requires p == Pow2(at) && q == Pow2(width) && mask == (q - 1) * p
    ensures Shr(And(word, mask), at) == word / p % q
  {
    ShiftsAreArithmetic(q - 1, at);
    MaskThenShift(word, q - 1, at);
    FieldAt(word, at, p, width, q);
  }

  lemma FieldAbove(low: nat, high: nat, at: nat, p: nat)
    requires p == Pow2(at) && low < p
    ensures Or(low, Shl(high, at)) == low + high * p
  {
    ShiftsAreArithmetic(high, at);
    OrAdds(low, high, at);
  }

  lemma Powers()
    ensures Pow2(8) == 0x100 && Pow2(12) == 0x1000 && Pow2(16) == 0x1_0000 && Pow2(6) == 0x40 && Pow2(7) == 0x80
    ensures Pow2(24) == 0x100_0000 && Pow2(32) == 0x1_0000_0000 && Pow2(48) == 0x1_0000_0000_0000
  {
    assert Pow2(5) == 32;
    assert Pow2(10) == 1024;
    assert Pow2(15) == 32768;
    assert Pow2(20) == 0x10_0000;
    assert Pow2(25) == 0x200_0000;
    assert Pow2(30) == 0x4000_0000;
    assert Pow2(35) == 0x8_0000_0000;
    assert Pow2(40) == 0x100_0000_0000;
    assert Pow2(45) == 0x2000_0000_0000;
  }
}
