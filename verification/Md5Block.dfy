// The compression function of MD5: the unrolled rounds of ngx_md5_body against section 3.4
// of RFC 1321.

module Md5Block {
  type Byte = x: nat | x < 256

  // A word of 32 bits.
  type Word = x: nat | x < 0x1_0000_0000

  datatype State = State(a: Word, b: Word, c: Word, d: Word)

  function Bits(x: Word): bv32 {
    x as bv32
  }

  function Plus(x: Word, y: Word): Word {
    var sum: nat := x + y;
    if sum < 0x1_0000_0000 then sum else sum - 0x1_0000_0000
  }

  // Section 3.4 of RFC 1321

  function F(x: Word, y: Word, z: Word): Word {
    ((Bits(x) & Bits(y)) | (!Bits(x) & Bits(z))) as Word
  }

  function G(x: Word, y: Word, z: Word): Word {
    ((Bits(x) & Bits(z)) | (Bits(y) & !Bits(z))) as Word
  }

  function H(x: Word, y: Word, z: Word): Word {
    (Bits(x) ^ Bits(y) ^ Bits(z)) as Word
  }

  function I(x: Word, y: Word, z: Word): Word {
    (Bits(y) ^ (Bits(x) | !Bits(z))) as Word
  }

  function Mix(i: nat, x: Word, y: Word, z: Word): Word {
    if i < 16 then F(x, y, z) else if i < 32 then G(x, y, z) else if i < 48 then H(x, y, z) else I(x, y, z)
  }

  // The word that step i adds.
  function Index(i: nat): (k: nat)
    ensures k < 16
  {
    if i < 16 then i else if i < 32 then (5 * i + 1) % 16 else if i < 48 then (3 * i + 5) % 16 else 7 * i % 16
  }

  function Turn(i: nat): (s: nat)
    ensures 0 < s < 32
  {
    (if i < 16 then [7, 12, 17, 22] else if i < 32 then [5, 9, 14, 20] else if i < 48 then [4, 11, 16, 23]
     else [6, 10, 15, 21])[i % 4]
  }

  // The table T.
  const T0: seq<Word> := [
    0xd76aa478, 0xe8c7b756, 0x242070db, 0xc1bdceee,
    0xf57c0faf, 0x4787c62a, 0xa8304613, 0xfd469501,
    0x698098d8, 0x8b44f7af, 0xffff5bb1, 0x895cd7be,
    0x6b901122, 0xfd987193, 0xa679438e, 0x49b40821]
  const T1: seq<Word> := [
    0xf61e2562, 0xc040b340, 0x265e5a51, 0xe9b6c7aa,
    0xd62f105d, 0x02441453, 0xd8a1e681, 0xe7d3fbc8,
    0x21e1cde6, 0xc33707d6, 0xf4d50d87, 0x455a14ed,
    0xa9e3e905, 0xfcefa3f8, 0x676f02d9, 0x8d2a4c8a]
  const T2: seq<Word> := [
    0xfffa3942, 0x8771f681, 0x6d9d6122, 0xfde5380c,
    0xa4beea44, 0x4bdecfa9, 0xf6bb4b60, 0xbebfbc70,
    0x289b7ec6, 0xeaa127fa, 0xd4ef3085, 0x04881d05,
    0xd9d4d039, 0xe6db99e5, 0x1fa27cf8, 0xc4ac5665]
  const T3: seq<Word> := [
    0xf4292244, 0x432aff97, 0xab9423a7, 0xfc93a039,
    0x655b59c3, 0x8f0ccc92, 0xffeff47d, 0x85845dd1,
    0x6fa87e4f, 0xfe2ce6e0, 0xa3014314, 0x4e0811a1,
    0xf7537e82, 0xbd3af235, 0x2ad7d2bb, 0xeb86d391]

  function T(i: nat): Word
    requires i < 64
  {
    if i < 16 then T0[i] else if i < 32 then T1[i - 16] else if i < 48 then T2[i - 32] else T3[i - 48]
  }

  function RotateLeft(x: Word, s: nat): Word
    requires s < 32
  {
    ((Bits(x) << s) | (Bits(x) >> (32 - s))) as Word
  }

  function Turned(f: Word, a: Word, b: Word, x: Word, t: Word, s: nat): Word
    requires s < 32
  {
    Plus(b, RotateLeft(Plus(Plus(Plus(a, f), x), t), s))
  }

  function Step(s: State, x: seq<Word>, i: nat): State
    requires i < 64 && |x| == 16
  {
    State(s.d, Turned(Mix(i, s.b, s.c, s.d), s.a, s.b, x[Index(i)], T(i), Turn(i)), s.b, s.c)
  }

  function Steps(s: State, x: seq<Word>, n: nat): State
    requires n <= 64 && |x| == 16
  {
    if n == 0 then s else Step(Steps(s, x, n - 1), x, n - 1)
  }

  // Four bytes, the low one first.
  function Read(p: seq<Byte>): Word
    requires |p| == 4
  {
    p[0] as nat + 0x100 * p[1] as nat + 0x1_0000 * p[2] as nat + 0x100_0000 * p[3] as nat
  }

  function Words(p: seq<Byte>): (x: seq<Word>)
    requires |p| == 64
    ensures |x| == 16
  {
    seq(16, n requires 0 <= n < 16 => Read(p[4 * n..4 * n + 4]))
  }

  function Compress(s: State, p: seq<Byte>): State
    requires |p| == 64
  {
    var t := Steps(s, Words(p), 64);
    State(Plus(s.a, t.a), Plus(s.b, t.b), Plus(s.c, t.c), Plus(s.d, t.d))
  }

  // The round functions as the source computes them.

  function Choose(x: Word, y: Word, z: Word): (r: Word)
    ensures r == F(x, y, z)
  {
    Rewritten(Bits(x), Bits(y), Bits(z));
    (Bits(z) ^ (Bits(x) & (Bits(y) ^ Bits(z)))) as Word
  }

  function Select(x: Word, y: Word, z: Word): (r: Word)
    ensures r == G(x, y, z)
  {
    Rewritten(Bits(x), Bits(y), Bits(z));
    (Bits(y) ^ (Bits(z) & (Bits(x) ^ Bits(y)))) as Word
  }

  lemma {:induction false} Rewritten(x: bv32, y: bv32, z: bv32)
    ensures z ^ (x & (y ^ z)) == (x & y) | (!x & z)
    ensures y ^ (z & (x ^ y)) == (x & z) | (y & !z)
  {
  }

  // Four steps, after which the registers are back in their places.
  lemma {:induction false} Four(s: State, x: seq<Word>, i: nat, a: Word, b: Word, c: Word, d: Word)
    requires i + 4 <= 64 && |x| == 16
    requires var t := Steps(s, x, i);
             && a == Turned(Mix(i, t.b, t.c, t.d), t.a, t.b, x[Index(i)], T(i), Turn(i))
             && d == Turned(Mix(i + 1, a, t.b, t.c), t.d, a, x[Index(i + 1)], T(i + 1), Turn(i + 1))
             && c == Turned(Mix(i + 2, d, a, t.b), t.c, d, x[Index(i + 2)], T(i + 2), Turn(i + 2))
             && b == Turned(Mix(i + 3, c, d, a), t.b, c, x[Index(i + 3)], T(i + 3), Turn(i + 3))
    ensures Steps(s, x, i + 4) == State(a, b, c, d)
  {
    hide Turned, Mix, T, Turn, Index;
    assert Steps(s, x, i + 1) == Step(Steps(s, x, i), x, i);
    assert Steps(s, x, i + 2) == Step(Steps(s, x, i + 1), x, i + 1);
    assert Steps(s, x, i + 3) == Step(Steps(s, x, i + 2), x, i + 2);
  }

  method Round1(ghost s: State, x: seq<Word>, a0: Word, b0: Word, c0: Word, d0: Word)
    returns (a: Word, b: Word, c: Word, d: Word)
    requires |x| == 16 && State(a0, b0, c0, d0) == Steps(s, x, 0)
    ensures State(a, b, c, d) == Steps(s, x, 16)
  {
    hide Turned, Steps, F, G, H, I, Choose, Select, Bits;
    a, b, c, d := a0, b0, c0, d0;
    a := Turned(Choose(b, c, d), a, b, x[0], 0xd76aa478, 7);
    d := Turned(Choose(a, b, c), d, a, x[1], 0xe8c7b756, 12);
    c := Turned(Choose(d, a, b), c, d, x[2], 0x242070db, 17);
    b := Turned(Choose(c, d, a), b, c, x[3], 0xc1bdceee, 22);
    Four(s, x, 0, a, b, c, d);
    a := Turned(Choose(b, c, d), a, b, x[4], 0xf57c0faf, 7);
    d := Turned(Choose(a, b, c), d, a, x[5], 0x4787c62a, 12);
    c := Turned(Choose(d, a, b), c, d, x[6], 0xa8304613, 17);
    b := Turned(Choose(c, d, a), b, c, x[7], 0xfd469501, 22);
    Four(s, x, 4, a, b, c, d);
    a := Turned(Choose(b, c, d), a, b, x[8], 0x698098d8, 7);
    d := Turned(Choose(a, b, c), d, a, x[9], 0x8b44f7af, 12);
    c := Turned(Choose(d, a, b), c, d, x[10], 0xffff5bb1, 17);
    b := Turned(Choose(c, d, a), b, c, x[11], 0x895cd7be, 22);
    Four(s, x, 8, a, b, c, d);
    a := Turned(Choose(b, c, d), a, b, x[12], 0x6b901122, 7);
    d := Turned(Choose(a, b, c), d, a, x[13], 0xfd987193, 12);
    c := Turned(Choose(d, a, b), c, d, x[14], 0xa679438e, 17);
    b := Turned(Choose(c, d, a), b, c, x[15], 0x49b40821, 22);
    Four(s, x, 12, a, b, c, d);
  }

  method Round2(ghost s: State, x: seq<Word>, a0: Word, b0: Word, c0: Word, d0: Word)
    returns (a: Word, b: Word, c: Word, d: Word)
    requires |x| == 16 && State(a0, b0, c0, d0) == Steps(s, x, 16)
    ensures State(a, b, c, d) == Steps(s, x, 32)
  {
    hide Turned, Steps, F, G, H, I, Choose, Select, Bits;
    a, b, c, d := a0, b0, c0, d0;
    a := Turned(Select(b, c, d), a, b, x[1], 0xf61e2562, 5);
    d := Turned(Select(a, b, c), d, a, x[6], 0xc040b340, 9);
    c := Turned(Select(d, a, b), c, d, x[11], 0x265e5a51, 14);
    b := Turned(Select(c, d, a), b, c, x[0], 0xe9b6c7aa, 20);
    Four(s, x, 16, a, b, c, d);
    a := Turned(Select(b, c, d), a, b, x[5], 0xd62f105d, 5);
    d := Turned(Select(a, b, c), d, a, x[10], 0x02441453, 9);
    c := Turned(Select(d, a, b), c, d, x[15], 0xd8a1e681, 14);
    b := Turned(Select(c, d, a), b, c, x[4], 0xe7d3fbc8, 20);
    Four(s, x, 20, a, b, c, d);
    a := Turned(Select(b, c, d), a, b, x[9], 0x21e1cde6, 5);
    d := Turned(Select(a, b, c), d, a, x[14], 0xc33707d6, 9);
    c := Turned(Select(d, a, b), c, d, x[3], 0xf4d50d87, 14);
    b := Turned(Select(c, d, a), b, c, x[8], 0x455a14ed, 20);
    Four(s, x, 24, a, b, c, d);
    a := Turned(Select(b, c, d), a, b, x[13], 0xa9e3e905, 5);
    d := Turned(Select(a, b, c), d, a, x[2], 0xfcefa3f8, 9);
    c := Turned(Select(d, a, b), c, d, x[7], 0x676f02d9, 14);
    b := Turned(Select(c, d, a), b, c, x[12], 0x8d2a4c8a, 20);
    Four(s, x, 28, a, b, c, d);
  }

  method Round3(ghost s: State, x: seq<Word>, a0: Word, b0: Word, c0: Word, d0: Word)
    returns (a: Word, b: Word, c: Word, d: Word)
    requires |x| == 16 && State(a0, b0, c0, d0) == Steps(s, x, 32)
    ensures State(a, b, c, d) == Steps(s, x, 48)
  {
    hide Turned, Steps, F, G, H, I, Choose, Select, Bits;
    a, b, c, d := a0, b0, c0, d0;
    a := Turned(H(b, c, d), a, b, x[5], 0xfffa3942, 4);
    d := Turned(H(a, b, c), d, a, x[8], 0x8771f681, 11);
    c := Turned(H(d, a, b), c, d, x[11], 0x6d9d6122, 16);
    b := Turned(H(c, d, a), b, c, x[14], 0xfde5380c, 23);
    Four(s, x, 32, a, b, c, d);
    a := Turned(H(b, c, d), a, b, x[1], 0xa4beea44, 4);
    d := Turned(H(a, b, c), d, a, x[4], 0x4bdecfa9, 11);
    c := Turned(H(d, a, b), c, d, x[7], 0xf6bb4b60, 16);
    b := Turned(H(c, d, a), b, c, x[10], 0xbebfbc70, 23);
    Four(s, x, 36, a, b, c, d);
    a := Turned(H(b, c, d), a, b, x[13], 0x289b7ec6, 4);
    d := Turned(H(a, b, c), d, a, x[0], 0xeaa127fa, 11);
    c := Turned(H(d, a, b), c, d, x[3], 0xd4ef3085, 16);
    b := Turned(H(c, d, a), b, c, x[6], 0x04881d05, 23);
    Four(s, x, 40, a, b, c, d);
    a := Turned(H(b, c, d), a, b, x[9], 0xd9d4d039, 4);
    d := Turned(H(a, b, c), d, a, x[12], 0xe6db99e5, 11);
    c := Turned(H(d, a, b), c, d, x[15], 0x1fa27cf8, 16);
    b := Turned(H(c, d, a), b, c, x[2], 0xc4ac5665, 23);
    Four(s, x, 44, a, b, c, d);
  }

  method Round4(ghost s: State, x: seq<Word>, a0: Word, b0: Word, c0: Word, d0: Word)
    returns (a: Word, b: Word, c: Word, d: Word)
    requires |x| == 16 && State(a0, b0, c0, d0) == Steps(s, x, 48)
    ensures State(a, b, c, d) == Steps(s, x, 64)
  {
    hide Turned, Steps, F, G, H, I, Choose, Select, Bits;
    a, b, c, d := a0, b0, c0, d0;
    a := Turned(I(b, c, d), a, b, x[0], 0xf4292244, 6);
    d := Turned(I(a, b, c), d, a, x[7], 0x432aff97, 10);
    c := Turned(I(d, a, b), c, d, x[14], 0xab9423a7, 15);
    b := Turned(I(c, d, a), b, c, x[5], 0xfc93a039, 21);
    Four(s, x, 48, a, b, c, d);
    a := Turned(I(b, c, d), a, b, x[12], 0x655b59c3, 6);
    d := Turned(I(a, b, c), d, a, x[3], 0x8f0ccc92, 10);
    c := Turned(I(d, a, b), c, d, x[10], 0xffeff47d, 15);
    b := Turned(I(c, d, a), b, c, x[1], 0x85845dd1, 21);
    Four(s, x, 52, a, b, c, d);
    a := Turned(I(b, c, d), a, b, x[8], 0x6fa87e4f, 6);
    d := Turned(I(a, b, c), d, a, x[15], 0xfe2ce6e0, 10);
    c := Turned(I(d, a, b), c, d, x[6], 0xa3014314, 15);
    b := Turned(I(c, d, a), b, c, x[13], 0x4e0811a1, 21);
    Four(s, x, 56, a, b, c, d);
    a := Turned(I(b, c, d), a, b, x[4], 0xf7537e82, 6);
    d := Turned(I(a, b, c), d, a, x[11], 0xbd3af235, 10);
    c := Turned(I(d, a, b), c, d, x[2], 0x2ad7d2bb, 15);
    b := Turned(I(c, d, a), b, c, x[9], 0xeb86d391, 21);
    Four(s, x, 60, a, b, c, d);
  }

  // One block of ngx_md5_body.
  method Transform(s: State, p: seq<Byte>) returns (r: State)
    requires |p| == 64
    ensures r == Compress(s, p)
  {
    hide Steps, Words, Plus;
    var x := Words(p);
    Start(s, x);
    var a, b, c, d := Round1(s, x, s.a, s.b, s.c, s.d);
    a, b, c, d := Round2(s, x, a, b, c, d);
    a, b, c, d := Round3(s, x, a, b, c, d);
    a, b, c, d := Round4(s, x, a, b, c, d);
    r := State(Plus(s.a, a), Plus(s.b, b), Plus(s.c, c), Plus(s.d, d));
  }

  lemma {:induction false} Start(s: State, x: seq<Word>)
    requires |x| == 16
    ensures Steps(s, x, 0) == s
  {
  }
}
