/** Byte streams: the big-endian words and flag bits that both migration formats are built from. */
module Wire {

  datatype Option<+T> = None | Some(value: T)

  type Byte = x: int | 0 <= x < 256

  /** 2^64, the range of a `uint64_t` on the stream. */
  const U64: nat := 0x1_0000_0000_0000_0000

  function Pow256(n: nat): nat
  {
    if n == 0 then 1 else 256 * Pow256(n - 1)
  }

  /** The low n bytes of x, most significant first (qemu_put_be64 for n = 8). */
  function Be(n: nat, x: nat): (s: seq<Byte>)
    ensures |s| == n
  {
    if n == 0 then [] else Be(n - 1, x / 256) + [x % 256]
  }

  /** The number a big-endian byte string stands for (qemu_get_be64 on 8 bytes). */
  function UnBe(s: seq<Byte>): nat
  {
    if s == [] then 0 else 256 * UnBe(s[..|s| - 1]) + s[|s| - 1]
  }

  lemma {:induction false} UnBeBe(n: nat, x: nat)
    requires x < Pow256(n)
    ensures UnBe(Be(n, x)) == x
  {
    if n > 0 {
      UnBeBe(n - 1, x / 256);
      assert Be(n, x)[..n - 1] == Be(n - 1, x / 256);
    }
  }

  /** Every 64-bit word survives the stream. */
  lemma Be64RoundTrip(x: nat)
    requires x < U64
    ensures UnBe(Be(8, x)) == x
  {
    assert Pow256(8) == U64 by {
      assert Pow256(4) == 0x1_0000_0000;
      assert Pow256(6) == 0x1_0000_0000_0000;
    }
    UnBeBe(8, x);
  }

  /** Most significant byte first, for every 64-bit word. */
  lemma BigEndian(x: nat)
    requires x < U64
    ensures Be(8, x) == [x / 0x100_0000_0000_0000, x / 0x1_0000_0000_0000 % 256, x / 0x100_0000_0000 % 256,
                         x / 0x1_0000_0000 % 256, x / 0x100_0000 % 256, x / 0x1_0000 % 256, x / 0x100 % 256, x % 256]
  {
    hide Be;
    var y := x / 0x1_0000_0000;
    BeFour(4, x);
    BeFour(0, y);
    BeStep(0, y / 0x1_0000_0000);
    assert y / 0x100_0000 == x / 0x100_0000_0000_0000 && y / 0x1_0000 == x / 0x1_0000_0000_0000;
    assert y / 0x100 == x / 0x100_0000_0000 && y / 0x100_0000 % 256 == y / 0x100_0000;
  }

  lemma BeFour(n: nat, x: nat)
    ensures Be(n + 4, x) ==
            Be(n, x / 0x1_0000_0000) + [x / 0x100_0000 % 256, x / 0x1_0000 % 256, x / 0x100 % 256, x % 256]
  {
    hide Be;
    BeStep(n + 4, x);
    BeStep(n + 3, x / 0x100);
    BeStep(n + 2, x / 0x1_0000);
    BeStep(n + 1, x / 0x100_0000);
  }

  lemma BeStep(n: nat, x: nat)
    ensures Be(n, x) == if n == 0 then [] else Be(n - 1, x / 256) + [x % 256]
  {
  }

  /** `flags & f` for f a power of two. */
  predicate HasFlag(flags: nat, f: nat)
    requires f > 0
  {
    flags / f % 2 == 1
  }

  /** A C string ends at its first NUL. */
  function CString(s: seq<Byte>): seq<Byte> {
    if s == [] || s[0] == 0 then [] else [s[0]] + CString(s[1..])
  }

  lemma {:induction false} CStringOfPlain(s: seq<Byte>)
    requires 0 !in s
    ensures CString(s) == s
  {
    if s != [] {
      CStringOfPlain(s[1..]);
    }
  }
}
