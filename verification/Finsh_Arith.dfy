/** The operations on longs, and what they mean on integers and on binary digits. */
module FinshArith {
  import opened Wrappers
  import opened Binary
  import opened FinshWord

  datatype BinOp = Add | Sub | Div | Mod | Mul | And | Or | Xor | Shl | Shr

  predicate Negative(a: word) { a >= SIGN }

  function Magnitude(a: word): word { if Negative(a) then Wrap(-(a as int)) else a }

  /** C's `/` and `%` on a 32-bit long: truncation toward zero. */
  function Quotient(a: word, b: word): word
    requires b != 0
  {
    var q := Magnitude(a) / Magnitude(b);
    if Negative(a) != Negative(b) then Wrap(-(q as int)) else q
  }

  function Remainder(a: word, b: word): word
    requires b != 0
  {
    Wrap(a as int - Quotient(a, b) as int * b as int)
  }

  /** C's `~`. */
  function Complement(a: word): word { 0xFFFF_FFFF - a }

  predicate DigitOf(op: BinOp, x: bool, y: bool) {
    match op
    case And => x && y
    case Or => x || y
    case _ => x != y
  }

  /** C's `&`, `|` and `^` on the `width` low binary digits. */
  function Bitwise(op: BinOp, a: nat, b: nat, width: nat): (r: nat)
    ensures r < Pow2(width)
  {
    if width == 0 then 0
    else 2 * Bitwise(op, a / 2, b / 2, width - 1) + if DigitOf(op, a % 2 == 1, b % 2 == 1) then 1 else 0
  }

  function BitwiseWord(op: BinOp, a: word, b: word): word {
    Pow2Of32();
    Bitwise(op, a as nat, b as nat, 32) as word
  }

  function ShiftLeft(a: word, n: word): word
    requires n < 32
  {
    Wrap(a as int * Pow2(n as nat))
  }

  /** C's `>>` on a signed long copies the sign. */
  function ShiftRight(a: word, n: word): word
    requires n < 32
  {
    if Negative(a) then Complement(Down(Complement(a) as nat, n as nat) as word) else Down(a as nat, n as nat) as word
  }

  /** What OP_BIN_DWORD stores, or None where C leaves the operation undefined. */
  function Arith(op: BinOp, a: word, b: word): Option<word> {
    match op
    case Add => Some(Wrap(a as int + b as int))
    case Sub => Some(Wrap(a as int - b as int))
    case Mul => Some(Wrap(a as int * b as int))
    case And | Or | Xor => Some(BitwiseWord(op, a, b))
    case Div => if b == 0 || (a == SIGN && b == 0xFFFF_FFFF) then None else Some(Quotient(a, b))
    case Mod => if b == 0 || (a == SIGN && b == 0xFFFF_FFFF) then None else Some(Remainder(a, b))
    case Shl => if b < 32 then Some(ShiftLeft(a, b)) else None
    case Shr => if b < 32 then Some(ShiftRight(a, b)) else None
  }

  /** `r` is the long that agrees with `x` modulo 2^32. */
  predicate IsLong(r: Option<word>, x: int) { r.Some? && (x - Signed(r.value)) % 0x1_0000_0000 == 0 }

  predicate FitsLong(x: int) { -0x8000_0000 <= x < 0x8000_0000 }

  /** A result that fits a long is that long. */
  lemma LongExact(r: Option<word>, x: int)
    requires IsLong(r, x) && FitsLong(x)
    ensures Signed(r.value) == x
  {
  }

  /** Sums and differences are those of the integers modulo 2^32. */
  lemma SumsWrap(a: word, b: word)
    ensures IsLong(Arith(Add, a, b), Signed(a) + Signed(b))
    ensures IsLong(Arith(Sub, a, b), Signed(a) - Signed(b))
  {
    WrapIsLong(a as int + b as int, Signed(a) + Signed(b));
    WrapIsLong(a as int - b as int, Signed(a) - Signed(b));
  }

  /** Products are those of the integers modulo 2^32. */
  lemma ProductWraps(a: word, b: word)
    ensures IsLong(Arith(Mul, a, b), Signed(a) * Signed(b))
  {
    hide Signed, Wrap, IsLong;
    ProductCongruent(a, b);
    WrapIsLong(a as int * b as int, Signed(a) * Signed(b));
  }

  lemma WrapIsLong(x: int, y: int)
    requires (x - y) % 0x1_0000_0000 == 0
    ensures IsLong(Some(Wrap(x)), y)
  {
  }

  lemma ProductCongruent(a: word, b: word)
    ensures (a as int * b as int - Signed(a) * Signed(b)) % 0x1_0000_0000 == 0
  {
    var x, y := a as int, b as int;
    var i, j := if a < SIGN then 0 else 1, if b < SIGN then 0 else 1;
    var m := 0x1_0000_0000;
    assert Signed(a) == x - i * m && Signed(b) == y - j * m;
    assert x * y - (x - i * m) * (y - j * m) == m * (j * x + i * y - i * j * m);
  }

  predicate WordBit(a: word, p: nat) { Bit(a as nat, p) }

  /** `&`, `|` and `^` work on each binary digit. */
  lemma BitwiseDigits(a: word, b: word, p: nat)
    requires p < 32
    ensures WordBit(BitwiseWord(And, a, b), p) == (WordBit(a, p) && WordBit(b, p))
    ensures WordBit(BitwiseWord(Or, a, b), p) == (WordBit(a, p) || WordBit(b, p))
    ensures WordBit(BitwiseWord(Xor, a, b), p) == (WordBit(a, p) != WordBit(b, p))
  {
    DigitOfBitwise(And, a as nat, b as nat, 32, p);
    DigitOfBitwise(Or, a as nat, b as nat, 32, p);
    DigitOfBitwise(Xor, a as nat, b as nat, 32, p);
  }

  lemma {:induction false} DigitOfBitwise(op: BinOp, a: nat, b: nat, width: nat, p: nat)
    requires p < width
    ensures Bit(Bitwise(op, a, b, width), p) == DigitOf(op, Bit(a, p), Bit(b, p))
  {
    var r := Bitwise(op, a / 2, b / 2, width - 1);
    assert Bitwise(op, a, b, width) / 2 == r;
    if p > 0 {
      DigitOfBitwise(op, a / 2, b / 2, width - 1, p - 1);
    }
  }

  /** `r` is `a` with every binary digit turned over. */
  ghost predicate Inverts(a: word, r: word) { forall p :: 0 <= p < 32 ==> WordBit(r, p) == !WordBit(a, p) }

  lemma ComplementInverts(a: word)
    ensures Inverts(a, Complement(a))
  {
    Pow2Of32();
    forall p | 0 <= p < 32 ensures WordBit(Complement(a), p) == !WordBit(a, p) {
      DigitOfComplement(a as nat, 32, p);
    }
  }

  lemma {:induction false} DigitOfComplement(x: nat, width: nat, p: nat)
    requires p < width && x < Pow2(width)
    ensures Bit(Pow2(width) - 1 - x, p) == !Bit(x, p)
  {
    assert (Pow2(width) - 1 - x) / 2 == Pow2(width - 1) - 1 - x / 2;
    if p > 0 {
      DigitOfComplement(x / 2, width - 1, p - 1);
    }
  }

  function Absolute(x: int): nat { if x < 0 then -x else x }

  /** `q` is `a / b` rounded towards zero and `r` the rest, which has the sign of `a`. */
  predicate Truncates(a: int, b: int, q: int, r: int) {
    q * b + r == a && Absolute(r) < Absolute(b) && (r > 0 ==> a > 0) && (r < 0 ==> a < 0)
  }

  /** Division truncates towards zero; it and the remainder are undefined for the same operands. */
  lemma DivisionTruncates(a: word, b: word)
    ensures Arith(Div, a, b).Some? == Arith(Mod, a, b).Some?
    ensures Arith(Div, a, b).Some? <==> Signed(b) != 0 && !(Signed(a) == -0x8000_0000 && Signed(b) == -1)
    ensures Arith(Div, a, b).Some? ==>
              Truncates(Signed(a), Signed(b), Signed(Arith(Div, a, b).value), Signed(Arith(Mod, a, b).value))
  {
    if Arith(Div, a, b).Some? {
      hide Truncates;
      QuotientSigned(a, b);
      TruncatedTruncates(Signed(a), Signed(b));
      RemainderSigned(a, b, Truncated(Signed(a), Signed(b)));
    }
  }

  /** The quotient of the magnitudes with the sign of the quotient. */
  function Truncated(a: int, b: int): int
    requires b != 0
  {
    var q := Absolute(a) / Absolute(b);
    if (a < 0) != (b < 0) then -q else q
  }

  lemma QuotientSigned(a: word, b: word)
    requires b != 0 && !(a == SIGN && b == 0xFFFF_FFFF)
    ensures Signed(Quotient(a, b)) == Truncated(Signed(a), Signed(b))
  {
    QuotientSmaller(Absolute(Signed(a)), Absolute(Signed(b)));
    assert Magnitude(a) as int == Absolute(Signed(a)) && Magnitude(b) as int == Absolute(Signed(b));
  }

  /** The quotient and remainder of natural numbers. */
  lemma DivisionParts(x: nat, d: nat)
    requires d > 0
    ensures x == x / d * d + x % d && 0 <= x % d < d && x / d >= 0
  {
  }

  lemma QuotientSmaller(x: nat, d: nat)
    requires d > 0
    ensures 0 <= x / d <= x
    ensures d >= 2 && x > 0 ==> x / d < x
  {
    DivisionParts(x, d);
    PartsSmaller(x, d, x / d, x % d);
  }

  lemma PartsSmaller(x: nat, d: nat, q: nat, r: nat)
    requires x == q * d + r && d > 0
    ensures q <= x
    ensures d >= 2 && x > 0 ==> q < x
  {
    assert q * d == q + q * (d - 1);
    if d >= 2 && q > 0 {
      assert q * (d - 1) >= 1;
    }
  }

  lemma TruncatedTruncates(a: int, b: int)
    requires b != 0
    ensures var q := Truncated(a, b); Truncates(a, b, q, a - q * b)
  {
    var m, n := Absolute(a), Absolute(b);
    DivisionParts(m, n);
    SignedParts(a, b, m / n, m % n);
  }

  lemma SignedParts(a: int, b: int, q: int, r: nat)
    requires b != 0 && q >= 0 && Absolute(a) == q * Absolute(b) + r && r < Absolute(b)
    ensures var s := if (a < 0) != (b < 0) then -q else q; Truncates(a, b, s, a - s * b)
  {
    assert (-q) * b == -(q * b) && q * (-b) == -(q * b);
  }

  lemma RemainderSigned(a: word, b: word, q: int)
    requires b != 0 && Signed(Quotient(a, b)) == q
    requires Truncates(Signed(a), Signed(b), q, Signed(a) - q * Signed(b))
    ensures Signed(Remainder(a, b)) == Signed(a) - q * Signed(b)
  {
    var p := Quotient(a, b);
    var x, y := p as int * b as int, q * Signed(b);
    SignedCongruent(a);
    ProductCongruent(p, b);
    hide *;
    CongruentDifference(a as int, Signed(a), x, y);
    WrapIsLong(a as int - x, Signed(a) - y);
    RemainderIsLong(a, b, x, Signed(a) - y);
  }

  lemma SignedCongruent(a: word)
    ensures (a as int - Signed(a)) % 0x1_0000_0000 == 0
  {
  }

  lemma CongruentDifference(x: int, x': int, y: int, y': int)
    requires (x - x') % 0x1_0000_0000 == 0 && (y - y') % 0x1_0000_0000 == 0
    ensures (x - y - (x' - y')) % 0x1_0000_0000 == 0
  {
  }

  /** The remainder is less than the divisor in magnitude, so it fits a long. */
  lemma RemainderIsLong(a: word, b: word, x: int, r: int)
    requires b != 0 && x == Quotient(a, b) as int * b as int
    requires IsLong(Some(Wrap(a as int - x)), r) && Absolute(r) < Absolute(Signed(b))
    ensures Signed(Remainder(a, b)) == r
  {
    hide Quotient;
    LongExact(Some(Remainder(a, b)), r);
  }

  /** `<<` moves the digits up, drops those that leave the word and fills with zeros. */
  lemma ShiftLeftDigits(a: word, n: word, p: nat)
    requires p < 32 && n < 32
    ensures WordBit(ShiftLeft(a, n), p) == (p >= n as nat && WordBit(a, p - n as nat))
  {
    Pow2Of32();
    BitOfRemainder(a as nat * Pow2(n as nat), 32, p);
    BitOfMultiple(a as nat, n as nat, p);
  }

  lemma {:induction false} BitOfMultiple(x: nat, n: nat, p: nat)
    ensures Bit(x * Pow2(n), p) == (p >= n && Bit(x, p - n))
  {
    if n > 0 {
      var y := x * Pow2(n - 1);
      assert x * Pow2(n) == 2 * y by { Twice(x, Pow2(n - 1)); }
      if p > 0 {
        BitOfMultiple(x, n - 1, p - 1);
      }
    }
  }

  /** `>>` is division by a power of two, rounded down also for a negative long. */
  lemma ShiftRightDivides(a: word, n: word)
    requires n < 32
    ensures var r := Signed(ShiftRight(a, n)); r * Pow2(n as nat) <= Signed(a) < (r + 1) * Pow2(n as nat)
  {
    hide Down, Pow2;
    if Negative(a) {
      var c := Complement(a) as nat;
      DownDivides(c, n as nat);
      MirroredBounds(c, Down(c, n as nat), Pow2(n as nat));
    } else {
      DownDivides(a as nat, n as nat);
    }
  }

  lemma MirroredBounds(c: int, q: int, d: int)
    requires q * d <= c < (q + 1) * d
    ensures (-q - 1) * d <= -c - 1 < (-q - 1 + 1) * d
  {
    assert (-q - 1) * d == -((q + 1) * d) && (-q - 1 + 1) * d == -(q * d);
  }

  /** The meaning of a binary operation: what `r` must be for the operands `a` and `b`. */
  ghost predicate Means(op: BinOp, a: word, b: word, r: Option<word>) {
    match op
    case Add => IsLong(r, Signed(a) + Signed(b))
    case Sub => IsLong(r, Signed(a) - Signed(b))
    case Mul => IsLong(r, Signed(a) * Signed(b))
    case And => r.Some? && forall p :: 0 <= p < 32 ==> WordBit(r.value, p) == (WordBit(a, p) && WordBit(b, p))
    case Or => r.Some? && forall p :: 0 <= p < 32 ==> WordBit(r.value, p) == (WordBit(a, p) || WordBit(b, p))
    case Xor => r.Some? && forall p :: 0 <= p < 32 ==> WordBit(r.value, p) == (WordBit(a, p) != WordBit(b, p))
    case Div =>
      && (r.Some? <==> Divides(a, b))
      && (r.Some? ==> exists m: int :: Truncates(Signed(a), Signed(b), Signed(r.value), m))
    case Mod =>
      && (r.Some? <==> Divides(a, b))
      && (r.Some? ==> exists q: int :: Truncates(Signed(a), Signed(b), q, Signed(r.value)))
    case Shl =>
      && (r.Some? <==> b < 32)
      && (r.Some? ==> forall p :: 0 <= p < 32 ==> WordBit(r.value, p) == (p >= b as nat && WordBit(a, p - b as nat)))
    case Shr =>
      && (r.Some? <==> b < 32)
      && (r.Some? ==> var s := Signed(r.value); s * Pow2(b as nat) <= Signed(a) < (s + 1) * Pow2(b as nat))
  }

  /** The divisions that C defines: by anything but zero, unless the quotient leaves the range. */
  predicate Divides(a: word, b: word) { Signed(b) != 0 && !(Signed(a) == -0x8000_0000 && Signed(b) == -1) }

  /** The machine's operations mean what C's operators on a 32-bit long mean. */
  lemma ArithMeans(op: BinOp, a: word, b: word)
    ensures Means(op, a, b, Arith(op, a, b))
  {
    hide IsLong, Truncates, WordBit, BitwiseWord, ShiftLeft, ShiftRight, Quotient, Remainder;
    match op
    case Add | Sub => SumsWrap(a, b);
    case Mul => ProductWraps(a, b);
    case And | Or | Xor =>
      forall p | 0 <= p < 32 { BitwiseDigits(a, b, p); }
    case Div | Mod => DivisionTruncates(a, b);
    case Shl =>
      if b < 32 {
        forall p | 0 <= p < 32 { ShiftLeftDigits(a, b, p); }
      }
    case Shr =>
      if b < 32 { ShiftRightDivides(a, b); }
  }

  /** The meaning leaves no choice: it determines the result of every operation. */
  lemma MeansUnique(op: BinOp, a: word, b: word, r: Option<word>, r': Option<word>)
    requires Means(op, a, b, r) && Means(op, a, b, r')
    ensures r == r'
  {
    hide IsLong, Truncates, WordBit, Signed, Pow2;
    if op == Add {
      LongUnique(r, r', Signed(a) + Signed(b));
    } else if op == Sub {
      LongUnique(r, r', Signed(a) - Signed(b));
    } else if op == Mul {
      LongUnique(r, r', Signed(a) * Signed(b));
    } else if r.Some? && r'.Some? {
      match op
      case And | Or | Xor | Shl => WordsDetermined(r.value, r'.value);
      case Div =>
        var m: int :| Truncates(Signed(a), Signed(b), Signed(r.value), m);
        var m': int :| Truncates(Signed(a), Signed(b), Signed(r'.value), m');
        TruncationUnique(Signed(a), Signed(b), Signed(r.value), m, Signed(r'.value), m');
        SignedUnique(r.value, r'.value);
      case Mod =>
        var q: int :| Truncates(Signed(a), Signed(b), q, Signed(r.value));
        var q': int :| Truncates(Signed(a), Signed(b), q', Signed(r'.value));
        TruncationUnique(Signed(a), Signed(b), q, Signed(r.value), q', Signed(r'.value));
        SignedUnique(r.value, r'.value);
      case Shr =>
        FloorUnique(Signed(a), Pow2(b as nat), Signed(r.value), Signed(r'.value));
        SignedUnique(r.value, r'.value);
    }
  }

  lemma LongUnique(r: Option<word>, r': Option<word>, x: int)
    requires IsLong(r, x) && IsLong(r', x)
    ensures r == r'
  {
  }

  lemma SignedUnique(a: word, b: word)
    requires Signed(a) == Signed(b)
    ensures a == b
  {
  }

  lemma WordsDetermined(a: word, b: word)
    requires forall p :: 0 <= p < 32 ==> WordBit(a, p) == WordBit(b, p)
    ensures a == b
  {
    Pow2Of32();
    var x, y: nat := a as nat, b as nat;
    forall p | 0 <= p < 32 ensures Bit(x, p) == Bit(y, p) {
      assert WordBit(a, p) == WordBit(b, p);
    }
    BitsDetermine(x, y, 32);
  }

  lemma TruncationUnique(a: int, b: int, q: int, r: int, q': int, r': int)
    requires Truncates(a, b, q, r) && Truncates(a, b, q', r')
    ensures q == q' && r == r'
  {
    var k := q - q';
    assert k * b == q * b - q' * b == r' - r;
    if k > 0 {
      AtLeast(k, b);
    } else if k < 0 {
      assert (-k) * b == -(k * b);
      AtLeast(-k, b);
    }
  }

  lemma AtLeast(k: int, b: int)
    requires k >= 1
    ensures Absolute(k * b) >= Absolute(b)
  {
    assert k * b == (k - 1) * b + b;
    if b >= 0 {
      assert (k - 1) * b >= 0;
    } else {
      assert (k - 1) * b <= 0;
    }
  }

  lemma FloorUnique(x: int, d: int, s: int, s': int)
    requires d > 0 && s * d <= x < (s + 1) * d && s' * d <= x < (s' + 1) * d
    ensures s == s'
  {
    if s > s' {
      Multiple(s - s', s, s', d);
    } else if s < s' {
      Multiple(s' - s, s', s, d);
    }
  }
}
