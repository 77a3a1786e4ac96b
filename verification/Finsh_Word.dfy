/** The byte and 32-bit word types of the shell, with the little-endian operand macros. */
module FinshWord {
  import opened Binary

  newtype byte = x: int | 0 <= x < 256
  newtype word = x: int | 0 <= x < 0x1_0000_0000

  const SIGN: word := 0x8000_0000

  /** Long cells of memory, by address. */
  type Memory = map<nat, word>

  /** FINSH_SET32: least significant byte first. */
  function SetDword(v: word): (b: seq<byte>)
    ensures |b| == 4
  {
    var v1 := v / 0x100;
    var v2 := v1 / 0x100;
    [(v % 0x100) as byte, (v1 % 0x100) as byte, (v2 % 0x100) as byte, (v2 / 0x100) as byte]
  }

  /** FINSH_GET32 at offset `at` of a byte string. */
  function GetDword(b: seq<byte>, at: nat): word
    requires at + 4 <= |b|
  {
    b[at] as word + 0x100 * (b[at + 1] as word + 0x100 * (b[at + 2] as word + 0x100 * (b[at + 3] as word)))
  }

  /** An operand that was written is read back unchanged, wherever it stands in the text segment. */
  lemma GetSetDword(b: seq<byte>, at: nat, v: word)
    requires at + 4 <= |b|
    requires b[at..at + 4] == SetDword(v)
    ensures GetDword(b, at) == v
  {
    var s := b[at..at + 4];
    assert b[at] == s[0] && b[at + 1] == s[1] && b[at + 2] == s[2] && b[at + 3] == s[3];
  }

  /** The 32 low bits of a result. */
  function Wrap(x: int): word { (x % 0x1_0000_0000) as word }

  /** A long as C reads it: two's complement. */
  function Signed(a: word): int { if a < SIGN then a as int else a as int - 0x1_0000_0000 }

  /** Byte `k` of a stored operand holds binary digits 8k to 8k + 7 of the word. */
  lemma DwordBits(v: word, k: nat, i: nat)
    requires k < 4 && i < 8
    ensures Bit(SetDword(v)[k] as nat, i) == Bit(v as nat, 8 * k + i)
  {
    var x := v as nat / 0x100;
    assert ByteAt(v as nat, 1) == ByteAt(x, 0) == x;
    assert ByteAt(v as nat, 2) == ByteAt(x, 1) == x / 0x100;
    assert ByteAt(v as nat, 3) == ByteAt(x, 2) == ByteAt(x / 0x100, 1) == x / 0x100 / 0x100;
    assert SetDword(v)[k] as nat == ByteAt(v as nat, k) % 0x100;
    ByteAtBits(v as nat, k, i);
    assert Pow2(8) == 0x100;
    BitOfRemainder(ByteAt(v as nat, k), 8, i);
  }

  function ByteAt(x: nat, k: nat): nat { if k == 0 then x else ByteAt(x / 0x100, k - 1) }

  lemma {:induction false} ByteAtBits(x: nat, k: nat, p: nat)
    ensures Bit(ByteAt(x, k), p) == Bit(x, 8 * k + p)
  {
    if k > 0 {
      ByteAtBits(x / 0x100, k - 1, p);
      DownDivides(x, 8);
      assert Pow2(8) == 0x100 && Down(x, 8) == x / 0x100;
      BitOfDown(x, 8, 8 * (k - 1) + p);
    }
  }
}
