/** FNV-1 hashing of keys on 32-bit words, as in the hash table library of GNU Bash. */
module KeyHash {

  // ----- Bit operations on machine words, as natural numbers

  function Pow2(k: nat): (p: nat) ensures p > 0 { if k == 0 then 1 else 2 * Pow2(k - 1) }

  function BitAnd(a: nat, b: nat): (r: nat)
    ensures r <= b
  {
    if a == 0 || b == 0 then 0 else 2 * BitAnd(a / 2, b / 2) + (if a % 2 == 1 && b % 2 == 1 then 1 else 0)
  }

  /** Exclusive or of the low `width` bits. */
  function BitXor(a: nat, b: nat, width: nat): (r: nat)
    ensures r < Pow2(width)
  {
    if width == 0 then 0 else 2 * BitXor(a / 2, b / 2, width - 1) + (if a % 2 != b % 2 then 1 else 0)
  }

  lemma {:induction false} ModUnique(a: nat, m: nat, q: nat, r: nat)
    requires m > 0 && a == q * m + r && r < m
    ensures a % m == r
  {
    var d: int := a / m - q;
    assert d >= 1 ==> d * m >= m;
    assert d <= -1 ==> d * m + m <= 0;
    assert d * m == (a / m) * m - q * m;
  }

  lemma {:induction false} HalfRemainder(a: nat, m: nat)
    requires m > 0
    ensures a % (2 * m) == 2 * (a / 2 % m) + a % 2
  {
    var half := a / 2;
    var q, r := half / m, half % m;
    assert half == q * m + r;
    assert q * (2 * m) == 2 * (q * m);
    ModUnique(a, 2 * m, q, 2 * r + a % 2);
  }

  lemma MaskStep(a: nat, m: nat)
    requires m > 0
    ensures BitAnd(a, 2 * m - 1) == 2 * BitAnd(a / 2, m - 1) + a % 2
  {
    assert (2 * m - 1) / 2 == m - 1 && (2 * m - 1) % 2 == 1;
  }

  /** Masking with a power of two less one keeps the remainder. */
  lemma {:induction false} MaskIsRemainder(a: nat, k: nat)
    ensures BitAnd(a, Pow2(k) - 1) == a % Pow2(k)
  {
    if k > 0 {
      var m := Pow2(k - 1);
      MaskIsRemainder(a / 2, k - 1);
      HalfRemainder(a, m);
      MaskStep(a, m);
    }
  }

  lemma Divided(a: nat, n: nat) returns (q: nat, r: nat)
    requires n > 0
    ensures a == q * n + r && r < n && r == a % n
  {
    q, r := a / n, a % n;
  }

  lemma Regroup(q: nat, s: nat, m: nat)
    ensures q * (4 * m) + s * m == (4 * q + s) * m
  {
  }

  lemma {:induction false} InnerRemainder(a: nat, m: nat, q: nat, r: nat, s: nat, t: nat)
    requires a == q * (4 * m) + r && r == s * m + t && t < m
    ensures a % m == t && r % m == t
  {
    Regroup(q, s, m);
    ModUnique(a, m, 4 * q + s, t);
    ModUnique(r, m, s, t);
  }

  lemma {:induction false} RemainderOfRemainder(a: nat, m: nat)
    requires m > 0
    ensures a % (4 * m) % m == a % m
  {
    var q, r := Divided(a, 4 * m);
    var s, t := Divided(r, m);
    InnerRemainder(a, m, q, r, s, t);
  }

  lemma {:induction false} XorCancels(a: nat, b: nat, c: nat, width: nat)
    requires BitXor(a, b, width) == BitXor(a, c, width) && b < Pow2(width) && c < Pow2(width)
    ensures b == c
  {
    if width > 0 { XorCancels(a / 2, b / 2, c / 2, width - 1); }
  }

  // ----- Hash

  /** The bytes of a character in UTF-8. */
  function Utf8(c: char): (bytes: seq<nat>)
    ensures forall b | b in bytes :: b < 256
  {
    var n := c as int;
    if n < 0x80 then [n]
    else if n < 0x800 then [0xC0 + n / 0x40, 0x80 + n % 0x40]
    else if n < 0x1_0000 then [0xE0 + n / 0x1000, 0x80 + n / 0x40 % 0x40, 0x80 + n % 0x40]
    else [0xF0 + n / 0x4_0000, 0x80 + n / 0x1000 % 0x40, 0x80 + n / 0x40 % 0x40, 0x80 + n % 0x40]
  }

  function Bytes(s: string): (bytes: seq<nat>)
    ensures forall b | b in bytes :: b < 256
  {
    if s == "" then [] else Utf8(s[0]) + Bytes(s[1..])
  }

  const WORD := 0x1_0000_0000
  const FNV_OFFSET: nat := 2166136261
  const FNV_PRIME: nat := 16777619

  /** A byte as a signed 8-bit number, widened to 32 bits. */
  function SignExtended(b: nat): nat { if b < 0x80 then b else b + 0xFFFF_FF00 }

  function HashStep(hash: nat, b: nat): nat { BitXor(hash * FNV_PRIME % WORD, SignExtended(b), 32) }

  function HashBytes(bytes: seq<nat>): nat {
    if bytes == [] then FNV_OFFSET else HashStep(HashBytes(bytes[..|bytes| - 1]), bytes[|bytes| - 1])
  }

  method BashHashString(key: string) returns (hash: nat)
    ensures hash == HashBytes(Bytes(key))
  {
    var bytes := Bytes(key);
    hash := FNV_OFFSET;
    for i := 0 to |bytes|
      invariant hash == HashBytes(bytes[..i])
    {
      assert bytes[..i + 1][..i] == bytes[..i];
      hash := hash * FNV_PRIME % WORD;
      hash := BitXor(hash, SignExtended(bytes[i]), 32);
    }
    assert bytes[..|bytes|] == bytes;
  }

  /** Keys of the same bytes but for the last never hash alike. */
  lemma LastByteSeparates(front: seq<nat>, b: nat, c: nat)
    requires b < 256 && c < 256 && b != c
    ensures HashBytes(front + [b]) != HashBytes(front + [c])
  {
    assert (front + [b])[..|front|] == front == (front + [c])[..|front|];
    assert Pow2(32) == WORD by { Pow2Of32(); }
    var h := HashBytes(front) * FNV_PRIME % WORD;
    if HashBytes(front + [b]) == HashBytes(front + [c]) {
      XorCancels(h, SignExtended(b), SignExtended(c), 32);
    }
  }

  lemma {:induction false} Pow2Of32()
    ensures Pow2(32) == WORD
  {
    assert Pow2(8) == 256;
    assert Pow2(16) == 65536;
    assert Pow2(24) == 16777216;
  }

  /** The bytes of a character spell its code point: one byte for ASCII, else a leading byte and continuations of six
      bits each. */
  lemma Utf8Spells(c: char)
    ensures var n, u := c as int, Utf8(c);
            && (n < 0x80 ==> u == [n])
            && (0x80 <= n < 0x800 ==> |u| == 2 && n == 0x40 * (u[0] - 0xC0) + (u[1] - 0x80))
            && (0x800 <= n < 0x1_0000 ==>
                  |u| == 3 && n == 0x1000 * (u[0] - 0xE0) + 0x40 * (u[1] - 0x80) + (u[2] - 0x80))
            && (0x1_0000 <= n ==>
                  && |u| == 4
                  && n == 0x4_0000 * (u[0] - 0xF0) + 0x1000 * (u[1] - 0x80) + 0x40 * (u[2] - 0x80) + (u[3] - 0x80))
            && forall i | 0 < i < |u| :: 0x80 <= u[i] < 0xC0
  {
    var n := c as int;
    SixBits(n);
    SixBits(n / 0x40);
    SixBits(n / 0x1000);
  }

  lemma SixBits(n: nat)
    ensures n == 0x40 * (n / 0x40) + n % 0x40 && n / 0x40 / 0x40 == n / 0x1000 && n / 0x1000 / 0x40 == n / 0x4_0000
  {
  }

  // ----- Values of the hash

  lemma XorStep(a: nat, b: nat, w: nat)
    ensures BitXor(a, b, w + 1) == 2 * BitXor(a / 2, b / 2, w) + (if a % 2 != b % 2 then 1 else 0)
  {
  }

  lemma XorPair(a: nat, b: nat, w: nat)
    ensures BitXor(a, b, w + 2) == 4 * BitXor(a / 4, b / 4, w) + BitXor(a % 4, b % 4, 2)
  {
    hide BitXor;
    XorStep(a, b, w + 1);
    XorStep(a / 2, b / 2, w);
    XorStep(a % 4, b % 4, 1);
    XorStep(a % 4 / 2, b % 4 / 2, 0);
    XorNothing(a / 2 / 2, b / 2 / 2);
    XorNothing(a % 4 / 2 / 2, b % 4 / 2 / 2);
  }

  lemma XorNothing(a: nat, b: nat)
    ensures BitXor(a, b, 0) == 0
  {
  }

  lemma XorNibble(a: nat, b: nat, w: nat)
    ensures BitXor(a, b, w + 4) == 16 * BitXor(a / 16, b / 16, w) + BitXor(a % 16, b % 16, 4)
  {
    hide BitXor;
    XorPair(a, b, w + 2);
    XorPair(a / 4, b / 4, w);
    XorPair(a % 16, b % 16, 2);
    XorPair(a % 16 / 4, b % 16 / 4, 0);
    XorNothing(a % 16 / 4 / 4, b % 16 / 4 / 4);
    assert a % 16 / 4 == a / 4 % 4 && b % 16 / 4 == b / 4 % 4;
  }

  lemma XorByte(a: nat, b: nat, w: nat)
    ensures BitXor(a, b, w + 8) == 256 * BitXor(a / 256, b / 256, w) + BitXor(a % 256, b % 256, 8)
  {
    hide BitXor;
    XorNibble(a, b, w + 4);
    XorNibble(a / 16, b / 16, w);
    XorNibble(a % 256, b % 256, 4);
    ByteParts(a);
    ByteParts(b);
  }

  lemma ByteParts(a: nat)
    ensures a / 16 / 16 == a / 256
    ensures a % 256 / 16 == a / 16 % 16 && a % 256 % 16 == a % 16
  {
    var q, r := a / 256, a % 256;
    assert a / 16 == 16 * q + r / 16;
  }

  lemma {:induction false} XorZero(a: nat, w: nat)
    requires a < Pow2(w)
    ensures BitXor(a, 0, w) == a
  {
    if w > 0 { XorZero(a / 2, w - 1); }
  }

  lemma {:induction false} XorOnes(a: nat, w: nat)
    requires a < Pow2(w)
    ensures BitXor(a, Pow2(w) - 1, w) == Pow2(w) - 1 - a
  {
    if w > 0 {
      XorOnes(a / 2, w - 1);
      var half := Pow2(w - 1) - 1;
      assert Pow2(w) - 1 == 2 * half + 1;
      XorStep(a, 2 * half + 1, w - 1);
      hide BitXor, Pow2;
      assert (2 * half + 1) / 2 == half && (2 * half + 1) % 2 == 1;
    }
  }

  /** Exclusive or with a byte changes the low byte, and turns the upper three over when the byte counts as negative. */
  lemma XorWithByte(h: nat, b: nat)
    requires h < 0x1_0000_0000 && b < 256
    ensures BitXor(h, SignExtended(b), 32) ==
            256 * (if b < 128 then h / 256 else 0xFF_FFFF - h / 256) + BitXor(h % 256, b, 8)
  {
    Pow2Of24();
    SignParts(b);
    hide BitXor, Pow2, SignExtended;
    XorByte(h, SignExtended(b), 24);
    if b < 128 { XorZero(h / 256, 24); } else { XorOnes(h / 256, 24); }
  }

  lemma SignParts(b: nat)
    requires b < 256
    ensures SignExtended(b) % 256 == b && SignExtended(b) / 256 == if b < 128 then 0 else 0xFF_FFFF
  {
  }

  lemma HashSnoc(bytes: seq<nat>, b: nat)
    requires b < 256
    ensures var h := HashBytes(bytes) * 16777619 % 0x1_0000_0000;
            HashBytes(bytes + [b]) ==
            256 * (if b < 128 then h / 256 else 0xFF_FFFF - h / 256) + BitXor(h % 256, b, 8)
    ensures HashBytes([]) == 2166136261
  {
    hide BitXor;
    assert (bytes + [b])[..|bytes|] == bytes;
    XorWithByte(HashBytes(bytes) * 16777619 % 0x1_0000_0000, b);
  }

  lemma Pow2Of24()
    ensures Pow2(24) == 0x100_0000
  {
    assert Pow2(8) == 256;
    assert Pow2(16) == 0x1_0000;
  }

  lemma HashGoes(bytes: seq<nat>, b: nat, before: nat, mixed: nat)
    requires b < 256 && HashBytes(bytes) == before && before * 16777619 % 0x1_0000_0000 == mixed
    ensures HashBytes(bytes + [b]) ==
            256 * (if b < 128 then mixed / 256 else 0xFF_FFFF - mixed / 256) + BitXor(mixed % 256, b, 8)
  {
    HashSnoc(bytes, b);
  }

  lemma NibbleXor(a1: nat, a0: nat, b1: nat, b0: nat)
    requires a1 < 16 && a0 < 16 && b1 < 16 && b0 < 16
    ensures BitXor(16 * a1 + a0, 16 * b1 + b0, 8) == 16 * BitXor(a1, b1, 4) + BitXor(a0, b0, 4)
  {
    hide BitXor;
    XorNibble(16 * a1 + a0, 16 * b1 + b0, 4);
  }

  lemma ShortXor(a: nat, b: nat)
    ensures BitXor(a, b, 4) ==
            8 * (if a / 8 % 2 != b / 8 % 2 then 1 else 0) + 4 * (if a / 4 % 2 != b / 4 % 2 then 1 else 0)
            + 2 * (if a / 2 % 2 != b / 2 % 2 then 1 else 0) + (if a % 2 != b % 2 then 1 else 0)
  {
    hide BitXor;
    XorStep(a, b, 3);
    XorStep(a / 2, b / 2, 2);
    XorStep(a / 2 / 2, b / 2 / 2, 1);
    XorStep(a / 2 / 2 / 2, b / 2 / 2 / 2, 0);
    XorNothing(a / 2 / 2 / 2 / 2, b / 2 / 2 / 2 / 2);
    assert a / 2 / 2 == a / 4 && a / 4 / 2 == a / 8 && b / 2 / 2 == b / 4 && b / 4 / 2 == b / 8;
  }

  lemma HashOfZeroOnly(bytes: seq<nat>)
    requires HashBytes(bytes) == 0x811C_9DC5
    ensures HashBytes(bytes + [0x30]) == 0x050C_5D2F
  {
    hide BitXor, HashBytes;
    HashGoes(bytes, 0x30, 0x811C_9DC5, 0x050C_5D1F);
    NibbleXor(1, 15, 3, 0);
    ShortXor(1, 3);
    ShortXor(15, 0);
    assert 16 * 1 + 15 == 0x050C_5D1F % 256 && 16 * 3 + 0 == 0x30;
  }

  lemma HashOfZero()
    ensures HashBytes(Bytes("0")) == 0x050C_5D2F
  {
    assert "0"[1..] == "";
    assert Bytes("0") == [] + [0x30];
    hide *;
    HashSnoc([], 0);
    HashOfZeroOnly([]);
  }

  lemma HashOfTwo1(bytes: seq<nat>)
    requires HashBytes(bytes) == 0x811C_9DC5
    ensures HashBytes(bytes + [0x74]) == 0x050C_5D6B
  {
    hide BitXor, HashBytes;
    HashGoes(bytes, 0x74, 0x811C_9DC5, 0x050C_5D1F);
    NibbleXor(1, 15, 7, 4);
    ShortXor(1, 7);
    ShortXor(15, 4);
    assert 16 * 1 + 15 == 0x050C_5D1F % 256 && 16 * 7 + 4 == 0x74;
  }

  lemma HashOfTwo2(bytes: seq<nat>)
    requires HashBytes(bytes) == 0x050C_5D6B
    ensures HashBytes(bytes + [0x77]) == 0x5D77_0F06
  {
    hide BitXor, HashBytes;
    HashGoes(bytes, 0x77, 0x050C_5D6B, 0x5D77_0F71);
    NibbleXor(7, 1, 7, 7);
    ShortXor(7, 7);
    ShortXor(1, 7);
    assert 16 * 7 + 1 == 0x5D77_0F71 % 256 && 16 * 7 + 7 == 0x77;
  }

  lemma HashOfTwo3(bytes: seq<nat>)
    requires HashBytes(bytes) == 0x5D77_0F06
    ensures HashBytes(bytes + [0x6F]) == 0x286C_A61D
  {
    hide BitXor, HashBytes;
    HashGoes(bytes, 0x6F, 0x5D77_0F06, 0x286C_A672);
    NibbleXor(7, 2, 6, 15);
    ShortXor(7, 6);
    ShortXor(2, 15);
    assert 16 * 7 + 2 == 0x286C_A672 % 256 && 16 * 6 + 15 == 0x6F;
  }

  lemma HashOfTwo()
    ensures HashBytes(Bytes("two")) == 0x286C_A61D
  {
    assert "two"[1..] == "wo" && "wo"[1..] == "o" && "o"[1..] == "";
    assert Bytes("o") == [0x6F] && Bytes("wo") == [0x77, 0x6F];
    assert Bytes("two") == [] + [0x74] + [0x77] + [0x6F];
    hide *;
    HashSnoc([], 0);
    HashOfTwo1([]);
    HashOfTwo2([] + [0x74]);
    HashOfTwo3([] + [0x74] + [0x77]);
  }

  lemma HashOfAccent1(bytes: seq<nat>)
    requires HashBytes(bytes) == 0x811C_9DC5
    ensures HashBytes(bytes + [0xC3]) == 0xFAF3_A2DC
  {
    hide BitXor, HashBytes;
    HashGoes(bytes, 0xC3, 0x811C_9DC5, 0x050C_5D1F);
    NibbleXor(1, 15, 12, 3);
    ShortXor(1, 12);
    ShortXor(15, 3);
    assert 16 * 1 + 15 == 0x050C_5D1F % 256 && 16 * 12 + 3 == 0xC3;
  }

  lemma HashOfAccent2(bytes: seq<nat>)
    requires HashBytes(bytes) == 0xFAF3_A2DC
    ensures HashBytes(bytes + [0xA9]) == 0x1676_9FFD
  {
    hide BitXor, HashBytes;
    HashGoes(bytes, 0xA9, 0xFAF3_A2DC, 0xE989_6054);
    NibbleXor(5, 4, 10, 9);
    ShortXor(5, 10);
    ShortXor(4, 9);
    assert 16 * 5 + 4 == 0xE989_6054 % 256 && 16 * 10 + 9 == 0xA9;
  }

  lemma HashOfAccent()
    ensures HashBytes(Bytes("\U{E9}")) == 0x1676_9FFD
  {
    assert "\U{E9}"[1..] == "";
    assert Bytes("\U{E9}") == [] + [0xC3] + [0xA9];
    hide *;
    HashSnoc([], 0);
    HashOfAccent1([]);
    HashOfAccent2([] + [0xC3]);
  }

  /** Some hash values, one of them of a character beyond ASCII. */
  lemma HashValues()
    ensures HashBytes(Bytes("0")) == 0x050C_5D2F
    ensures HashBytes(Bytes("two")) == 0x286C_A61D
    ensures HashBytes(Bytes("\U{E9}")) == 0x1676_9FFD
  {
    hide *;
    HashOfZero();
    HashOfTwo();
    HashOfAccent();
  }
}
