/** Machine words as natural numbers, with the bitwise operations defined bit by bit. */
module Words {
  /** Bit i of w, counted from the least significant. */
  predicate Bit(w: nat, i: nat) {
    if i == 0 then w % 2 == 1 else Bit(w / 2, i - 1)
  }

  function Digit(b: bool): nat {
    if b then 1 else 0
  }

  /** A bitwise operation. */
  function Bitwise(op: (bool, bool) -> bool, a: nat, b: nat): nat
    requires !op(false, false)
    decreases a + b
  {
    if a == 0 && b == 0 then 0
    else Digit(op(a % 2 == 1, b % 2 == 1)) + 2 * Bitwise(op, a / 2, b / 2)
  }

  function Or(a: nat, b: nat): nat { Bitwise((x, y) => x || y, a, b) }

  function And(a: nat, b: nat): nat { Bitwise((x, y) => x && y, a, b) }

  function Xor(a: nat, b: nat): nat { Bitwise((x, y) => x != y, a, b) }

  /** a & !b */
  function AndNot(a: nat, b: nat): nat { Bitwise((x, y) => x && !y, a, b) }

  /** w << n, not yet cut to a width */
  function ShiftLeft(w: nat, n: nat): nat {
    if n == 0 then w else 2 * ShiftLeft(w, n - 1)
  }

  /** The low n bits of w. */
  function Low(w: nat, n: nat): nat {
    if n == 0 then 0 else w % 2 + 2 * Low(w / 2, n - 1)
  }

  function CountOnes(w: nat): nat {
    if w == 0 then 0 else w % 2 + CountOnes(w / 2)
  }

  lemma {:induction false} BitwiseBit(op: (bool, bool) -> bool, a: nat, b: nat, i: nat)
    requires !op(false, false)
    ensures Bit(Bitwise(op, a, b), i) == op(Bit(a, i), Bit(b, i))
    decreases i
  {
    if a == 0 && b == 0 {
      ZeroHasNoBits(i);
    } else {
      var low, high := Digit(op(a % 2 == 1, b % 2 == 1)), Bitwise(op, a / 2, b / 2);
      DigitAndRest(low, high);
      if i > 0 {
        BitwiseBit(op, a / 2, b / 2, i - 1);
      }
    }
  }

  lemma DigitAndRest(low: nat, high: nat)
    requires low < 2
    ensures (low + 2 * high) % 2 == low && (low + 2 * high) / 2 == high
  {
  }

  lemma {:induction false} ZeroHasNoBits(i: nat)
    ensures !Bit(0, i)
  {
    if i == 0 {
    } else {
      ZeroHasNoBits(i - 1);
    }
  }

  lemma {:induction false} ShiftLeftBit(w: nat, n: nat, i: nat)
    ensures Bit(ShiftLeft(w, n), i) <==> i >= n && Bit(w, i - n)
  {
    if n == 0 {
    } else {
      DigitAndRest(0, ShiftLeft(w, n - 1));
      if i > 0 {
        ShiftLeftBit(w, n - 1, i - 1);
      }
    }
  }

  lemma {:induction false} LowBit(w: nat, n: nat, i: nat)
    ensures Bit(Low(w, n), i) <==> i < n && Bit(w, i)
  {
    if n == 0 {
      ZeroHasNoBits(i);
    } else {
      DigitAndRest(w % 2, Low(w / 2, n - 1));
      if i > 0 {
        LowBit(w / 2, n - 1, i - 1);
      }
    }
  }

  /** (1 << n) - 1 has exactly the bits below n. */
  lemma {:induction false} MaskBit(n: nat, i: nat)
    ensures ShiftLeft(1, n) >= 1
    ensures Bit(ShiftLeft(1, n) - 1, i) <==> i < n
  {
    if n == 0 {
      ZeroHasNoBits(i);
    } else {
      MaskBit(n - 1, if i > 0 then i - 1 else 0);
      DigitAndRest(1, ShiftLeft(1, n - 1) - 1);
    }
  }

  lemma {:induction false} OneBit(i: nat)
    ensures Bit(1, i) <==> i == 0
  {
    if i > 0 {
      ZeroHasNoBits(i - 1);
    }
  }

  /** A word is zero exactly when it has no bit set. */
  lemma {:induction false} NonzeroHasBit(w: nat) returns (i: nat)
    requires w != 0
    ensures Bit(w, i)
  {
    if w % 2 == 1 {
      i := 0;
    } else {
      i := NonzeroHasBit(w / 2);
      i := i + 1;
    }
  }

  /** Testing a single bit with a mask. */
  lemma {:induction false} TestBit(w: nat, i: nat)
    ensures And(w, ShiftLeft(1, i)) != 0 <==> Bit(w, i)
  {
    var m := And(w, ShiftLeft(1, i));
    if m != 0 {
      var j := NonzeroHasBit(m);
      BitwiseBit((x, y) => x && y, w, ShiftLeft(1, i), j);
      ShiftLeftBit(1, i, j);
      if j >= i { OneBit(j - i); }
    }
    if Bit(w, i) {
      BitwiseBit((x, y) => x && y, w, ShiftLeft(1, i), i);
      ShiftLeftBit(1, i, i);
      ZeroHasNoBits(i);
    }
  }

  /** Setting a single bit. */
  lemma {:induction false} SetBit(w: nat, n: nat, i: nat)
    ensures Bit(Or(w, ShiftLeft(1, n)), i) <==> Bit(w, i) || i == n
  {
    BitwiseBit((x, y) => x || y, w, ShiftLeft(1, n), i);
    ShiftLeftBit(1, n, i);
    if i >= n { OneBit(i - n); }
  }
}
