// ngx_md5: the streaming interface.

module Md5 {
  import opened Md5Block

  const WORDS := 0x1_0000_0000_0000_0000

  const INIT := State(0x67452301, 0xefcdab89, 0x98badcfe, 0x10325476)

  type Compressor = (State, seq<Byte>) -> State

  function Block(s: State, p: seq<Byte>): State {
    if |p| == 64 then Compress(s, p) else s
  }

  // One compression for every 64 bytes.
  function Fold(f: Compressor, s: State, data: seq<Byte>): State
    requires |data| % 64 == 0
    decreases |data|
  {
    if data == [] then s else Fold(f, f(s, data[..64]), data[64..])
  }

  lemma {:induction false} FoldJoin(f: Compressor, s: State, x: seq<Byte>, y: seq<Byte>)
    requires |x| % 64 == 0 && |y| % 64 == 0
    ensures Fold(f, s, x + y) == Fold(f, Fold(f, s, x), y)
    decreases |x|
  {
    if x == [] {
      assert x + y == y;
    } else {
      assert (x + y)[..64] == x[..64] && (x + y)[64..] == x[64..] + y;
      FoldJoin(f, f(s, x[..64]), x[64..], y);
    }
  }

  // Byte i of a 64-bit number.
  function ByteOf(n: nat, i: nat): Byte
    requires i < 8
  {
    var shift := [0x1, 0x100, 0x1_0000, 0x100_0000, 0x1_0000_0000, 0x100_0000_0000, 0x1_0000_0000_0000,
          0x100_0000_0000_0000];
    n / shift[i] % 256
  }

  function Length(n: nat): (r: seq<Byte>)
    ensures |r| == 8
  {
    [ByteOf(n, 0), ByteOf(n, 1), ByteOf(n, 2), ByteOf(n, 3), ByteOf(n, 4), ByteOf(n, 5), ByteOf(n, 6), ByteOf(n, 7)]
  }

  function Zeros(n: nat): (z: seq<Byte>)
    ensures |z| == n
  {
    seq(n, i => 0)
  }

  // The padding of sections 3.1 and 3.2 of RFC 1321: a byte 0x80, as few zeros as make
  // the length 56 modulo 64, and the length in bits modulo 2^64.
  function Gap(n: nat): (z: nat)
    ensures z < 64 && (n + 1 + z) % 64 == 56
  {
    (119 - n % 64) % 64
  }

  function Padded(m: seq<Byte>): (p: seq<Byte>)
    ensures |p| % 64 == 0
  {
    WholeBlocks(|m| + 1 + Gap(|m|));
    m + [0x80] + Zeros(Gap(|m|)) + Length(8 * |m| % WORDS)
  }

  lemma {:induction false} WholeBlocks(n: nat)
    requires n % 64 == 56
    ensures (n + 8) % 64 == 0
  {
  }

  // The four bytes of a word, the low one first.
  function Low(w: Word): (p: seq<Byte>)
    ensures |p| == 4
  {
    [w % 256, w / 0x100 % 256, w / 0x1_0000 % 256, w / 0x100_0000 % 256]
  }

  // Section 3.5 of RFC 1321
  function Output(s: State): (p: seq<Byte>)
    ensures |p| == 16
  {
    Low(s.a) + Low(s.b) + Low(s.c) + Low(s.d)
  }

  // The digest of a message by RFC 1321.
  function Digest(m: seq<Byte>): (p: seq<Byte>)
    ensures |p| == 16
  {
    Output(Fold(Block, INIT, Padded(m)))
  }

  // The bytes of a word are read back as they are written.
  lemma {:induction false} ReadBack(w: Word)
    ensures Read(Low(w)) == w
  {
    var q := w / 0x100;
    assert w / 0x1_0000 == q / 0x100 && w / 0x100_0000 == q / 0x100 / 0x100;
  }

  class Context {
    var s: State
    var bytes: nat
    const buffer: array<Byte>

    ghost var message: seq<Byte>   // what the updates brought so far

    ghost function Used(): nat
      reads this
    {
      |message| % 64
    }

    // The whole blocks are compressed and the rest is in the buffer.
    ghost predicate Valid()
      reads this, buffer
    {
      && buffer.Length == 64 && bytes == |message| % WORDS
      && s == Fold(Block, INIT, message[..|message| - Used()])
      && buffer[..Used()] == message[|message| - Used()..]
    }

    // ngx_md5_init
    constructor ()
      ensures Valid() && message == [] && fresh(buffer)
    {
      s, bytes, message := INIT, 0, [];
      buffer := new Byte[64](i => 0);
    }

    // ngx_md5_body
    method Body(data: seq<Byte>)
      requires |data| % 64 == 0 && data != []
      modifies `s
      ensures s == Fold(Block, old(s), data)
    {
      hide Compress;
      var p := 0;
      while true
        invariant p % 64 == 0 && p < |data| && Fold(Block, old(s), data) == Fold(Block, s, data[p..])
        decreases |data| - p
      {
        assert data[p..][..64] == data[p..p + 64] && data[p..][64..] == data[p + 64..];
        s := Transform(s, data[p..p + 64]);
        p := p + 64;
        if p == |data| {
          break;
        }
      }
    }

    // ngx_memcpy into the buffer
    method Copy(at: nat, data: seq<Byte>)
      requires buffer.Length == 64 && at + |data| <= 64
      modifies buffer
      ensures buffer[..at + |data|] == old(buffer[..at]) + data
    {
      for i := 0 to |data|
        invariant forall j | 0 <= j < at :: buffer[j] == old(buffer[j])
        invariant forall j | 0 <= j < i :: buffer[at + j] == data[j]
      {
        buffer[at + i] := data[i];
      }
    }

    // The blocks of done are compressed, and the buffer begins with held.
    ghost predicate Midway(done: seq<Byte>, held: seq<Byte>)
      reads this, buffer
    {
      && buffer.Length == 64 && |done| % 64 == 0 && s == Fold(Block, INIT, done)
      && |held| < 64 && buffer[..|held|] == held
    }

    ghost method Halves() returns (done: seq<Byte>, held: seq<Byte>)
      requires Valid()
      ensures Midway(done, held) && message == done + held && |held| == bytes % 64 == Used()
    {
      hide Fold;
      Counted(|message|, 0);
      Remainder(|message|);
      done, held := message[..|message| - Used()], message[|message| - Used()..];
    }

    lemma {:induction false} Whole(done: seq<Byte>, held: seq<Byte>)
      requires Midway(done, held) && message == done + held && bytes == |message| % WORDS
      ensures Valid()
    {
      Split(message, done, held);
    }

    // The buffer is filled up and compressed.
    method Complete(data: seq<Byte>, ghost done: seq<Byte>, ghost held: seq<Byte>)
      requires Midway(done, held) && |held| + |data| == 64
      modifies `s, buffer
      ensures Midway(done + (held + data), [])
    {
      hide Fold;
      Copy(64 - |data|, data);
      assert buffer[..64] == buffer[..];
      Close(done, held + data);
    }

    // The full buffer is compressed.
    method Close(ghost done: seq<Byte>, ghost block: seq<Byte>)
      requires buffer.Length == 64 && buffer[..] == block && |done| % 64 == 0 && s == Fold(Block, INIT, done)
      modifies `s
      ensures |done + block| % 64 == 0 && s == Fold(Block, INIT, done + block)
    {
      hide Fold;
      FoldJoin(Block, INIT, done, block);
      Body(buffer[..]);
    }

    // ngx_md5_update
    method Update(data: seq<Byte>)
      requires Valid()
      modifies this, buffer
      ensures Valid() && message == old(message) + data
    {
      hide Fold, Valid;
      ghost var done, held := Halves();
      var used, rest := bytes % 64, data;
      Counted(|message|, |data|);
      BytesAre();
      bytes := (bytes + |data|) % WORDS;
      message := message + data;
      if used != 0 {
        var free := 64 - used;
        if |rest| < free {
          Copy(used, rest);
          Whole(done, held + rest);
          return;
        }
        Complete(rest[..free], done, held);
        done, held := done + (held + rest[..free]), [];
        rest := rest[free..];
      }
      assert done + rest == message;
      Rest(done, rest);
    }

    // The part of ngx_md5_update that starts at a block.
    method Rest(ghost done: seq<Byte>, data: seq<Byte>)
      requires Midway(done, []) && bytes == |message| % WORDS && message == done + data
      modifies `s, buffer
      ensures Valid()
    {
      hide Fold, Valid;
      var rest := data;
      ghost var whole := done;
      if |rest| >= 64 {
        var k := |rest| - |rest| % 64;
        RoundDown(|done|, |rest|);
        FoldJoin(Block, INIT, done, rest[..k]);
        Body(rest[..k]);
        whole := done + rest[..k];
        assert message == whole + rest[k..];
        rest := rest[k..];
      }
      Copy(0, rest);
      Whole(whole, rest);
    }

    lemma {:induction false} BytesAre()
      requires Valid()
      ensures bytes == |message| % WORDS
    {
    }

    // ngx_md5_final
    method Final(result: array<Byte>)
      requires Valid() && result.Length == 16 && result != buffer
      modifies this, buffer, result
      ensures result[..] == Digest(old(message))
      ensures s == State(0, 0, 0, 0) && bytes == 0 && buffer[..] == Zeros(64)
    {
      Pad();
      Write(result);
      s, bytes := State(0, 0, 0, 0), 0;
      Copy(0, Zeros(64));
      assert buffer[..64] == buffer[..];
    }

    method Write(result: array<Byte>)
      requires result.Length == 16 && result != buffer
      modifies result
      ensures result[..] == Output(s)
    {
      hide Low;
      Store(result, 0, s.a);
      Store(result, 4, s.b);
      Store(result, 8, s.c);
      Store(result, 12, s.d);
      assert result[..4] == Low(s.a) && result[4..8] == Low(s.b);
      assert result[8..12] == Low(s.c) && result[12..] == Low(s.d);
    }

    // A word, the low byte first.
    static method Store(result: array<Byte>, at: nat, w: Word)
      requires at + 4 <= result.Length
      modifies result
      ensures result[at..at + 4] == Low(w)
      ensures forall i | 0 <= i < result.Length && !(at <= i < at + 4) :: result[i] == old(result[i])
    {
      result[at] := w % 256;
      result[at + 1] := w / 0x100 % 256;
      result[at + 2] := w / 0x1_0000 % 256;
      result[at + 3] := w / 0x100_0000 % 256;
    }

    // The last blocks.
    method Pad()
      requires Valid()
      modifies this, buffer
      ensures s == Fold(Block, INIT, Padded(old(message)))
    {
      hide Fold, Padded, Length, Valid;
      ghost var done, held := Halves();
      BytesAre();
      var used := bytes % 64;
      ghost var u := used;
      PaddedIs(message, done, held, bytes * 8 % WORDS);
      Copy(used, [0x80]);
      used := used + 1;
      ghost var tail := held + [0x80];
      if 64 - used < 8 {
        Copy(used, Zeros(64 - used));
        assert buffer[..64] == buffer[..];
        Close(done, tail + Zeros(63 - u));
        done, tail := done + (tail + Zeros(63 - u)), [];
        used := 0;
      }
      bytes := bytes * 8 % WORDS;
      Finish(done, tail, used);
    }

    // The last block: zeros up to the length.
    method Finish(ghost done: seq<Byte>, ghost tail: seq<Byte>, used: nat)
      requires Midway(done, tail) && used == |tail| <= 56
      modifies `s, buffer
      ensures var block := tail + Zeros(56 - used) + Length(bytes);
              |done + block| % 64 == 0 && s == Fold(Block, INIT, done + block)
    {
      hide Fold, Length;
      Copy(used, Zeros(64 - used - 8));
      Copy(56, Length(bytes));
      assert buffer[..64] == buffer[..];
      Close(done, tail + Zeros(56 - used) + Length(bytes));
    }
  }

  lemma {:induction false} Counted(n: nat, k: nat)
    ensures n % WORDS % 64 == n % 64 && (n % WORDS + k) % WORDS == (n + k) % WORDS
  {
    var q, r := n / WORDS, n % WORDS;
    assert n == WORDS * q + r;
    assert n == 64 * (0x400_0000_0000_0000 * q) + r;
    assert n + k == WORDS * q + (r + k);
  }

  lemma {:induction false} Bits(n: nat)
    ensures n % WORDS * 8 % WORDS == 8 * n % WORDS
  {
    var q, k := n / WORDS, n % WORDS;
    assert 8 * n == 8 * k + (8 * q) * WORDS;
  }

  // The padding when the length fits into the last block, and when it does not.
  lemma {:induction false} PaddedIs(m: seq<Byte>, done: seq<Byte>, held: seq<Byte>, bits: nat)
    requires m == done + held && |done| % 64 == 0 && |held| < 64 && bits == |m| % WORDS * 8 % WORDS
    ensures var u := |held|;
            if u <= 55 then Padded(m) == done + (held + [0x80] + Zeros(55 - u) + Length(bits))
            else Padded(m) == done + (held + [0x80] + Zeros(63 - u)) + ([] + Zeros(56) + Length(bits))
  {
    hide Length;
    Split(m, done, held);
    Bits(|m|);
    var u := |held|;
    if u <= 55 {
      assert Gap(|m|) == 55 - u;
    } else {
      assert Gap(|m|) == 119 - u;
      assert Zeros(119 - u) == Zeros(63 - u) + Zeros(56);
    }
  }

  lemma {:induction false} Remainder(n: nat)
    ensures (n - n % 64) % 64 == 0
  {
    assert n - n % 64 == 64 * (n / 64);
  }

  lemma {:induction false} RoundDown(d: nat, n: nat)
    requires d % 64 == 0 && n >= 64
    ensures var k := n - n % 64; k % 64 == 0 && (d + k) % 64 == 0 && 0 < k <= n && n - k < 64
  {
    var q := n / 64;
    assert n - n % 64 == 64 * q;
  }

  // The blocks of a message and its rest.
  lemma {:induction false} Split(m: seq<Byte>, done: seq<Byte>, rest: seq<Byte>)
    requires m == done + rest && |done| % 64 == 0 && |rest| < 64
    ensures |m| % 64 == |rest| && m[..|m| - |rest|] == done && m[|m| - |rest|..] == rest
  {
  }
}
