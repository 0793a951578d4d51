// ngx_inet_addr, ngx_inet6_addr and ngx_inet6_ntop: IP addresses as text.

module Inet {
  // INADDR_NONE
  const NONE: nat := 0xffff_ffff

  datatype Option<T> = None | Some(value: T)

  predicate Octets(a: seq<nat>) {
    forall i | 0 <= i < |a| :: a[i] < 256
  }

  function Digit(c: char): nat
    requires '0' <= c <= '9'
  {
    c as int - '0' as int
  }

  // ngx_inet_addr over the rest of a text; n counts the dots.
  function Dotted(text: string, addr: nat, octet: nat, n: nat): nat {
    if text == [] then if n == 3 then (addr * 256 + octet) % 0x1_0000_0000 else NONE
    else if '0' <= text[0] <= '9' then
      var o := octet * 10 + Digit(text[0]);
      if o > 255 then NONE else Dotted(text[1..], addr, o, n)
    else if text[0] == '.' then Dotted(text[1..], (addr * 256 + octet) % 0x1_0000_0000, 0, n + 1)
    else NONE
  }

  method InetAddr(text: string) returns (r: nat)
    ensures r == Dotted(text, 0, 0, 0)
  {
    var addr: nat, octet: nat, n: nat, p: nat := 0, 0, 0, 0;
    while p < |text|
      invariant p <= |text| && Dotted(text, 0, 0, 0) == Dotted(text[p..], addr, octet, n)
    {
      var c := text[p];
      assert text[p..][1..] == text[p + 1..];
      if '0' <= c <= '9' {
        octet := octet * 10 + Digit(c);
        if octet > 255 {
          return NONE;
        }
      } else if c == '.' {
        addr := (addr * 256 + octet) % 0x1_0000_0000;
        octet := 0;
        n := n + 1;
      } else {
        return NONE;
      }
      p := p + 1;
    }
    if n == 3 {
      addr := (addr * 256 + octet) % 0x1_0000_0000;
      return addr;
    }
    return NONE;
  }

  // The value of a hexadecimal digit, as c | 0x20 tests it.
  function Nibble(c: char): Option<nat> {
    if '0' <= c <= '9' then Some(Digit(c))
    else if 'a' <= c <= 'f' then Some(c as int - 'a' as int + 10)
    else if 'A' <= c <= 'F' then Some(c as int - 'A' as int + 10)
    else None
  }

  // The state of ngx_inet6_addr: the words stored so far, where the "::" was, the digits
  // and value of the current word, and where the text after the last colon starts.
  datatype State = State(words: seq<nat>, zero: Option<nat>, nibbles: nat, word: nat, digit: Option<nat>)

  function Fill(words: seq<nat>, zero: Option<nat>): Option<seq<nat>>
    requires |words| <= 8 && (zero.Some? ==> zero.value <= |words|)
  {
    if |words| < 8 then
      if zero.Some? then Some(words[..zero.value] + seq(8 - |words|, i => 0) + words[zero.value..]) else None
    else if zero.None? then Some(words) else None
  }

  ghost predicate Going(text: string, i: nat, s: State) {
    && i <= |text| && |s.words| < 8 && s.nibbles <= 4 && (s.zero.Some? ==> s.zero.value <= |s.words|)
    && (s.digit.Some? ==> s.digit.value <= i)
  }

  // The loop of ngx_inet6_addr from position i on, and what follows it.
  function Scan(text: string, i: nat, s: State): Option<seq<nat>>
    requires Going(text, i, s)
    decreases |text| - i
  {
    if i == |text| then if s.nibbles == 0 && s.zero.None? then None else Fill(s.words + [s.word], s.zero)
    else if text[i] == ':' then
      if s.nibbles > 0 then
        if |s.words| + 1 < 8 then Scan(text, i + 1, State(s.words + [s.word], s.zero, 0, 0, Some(i + 1))) else None
      else if s.zero.None? then Scan(text, i + 1, s.(zero := Some(|s.words|), digit := Some(i + 1)))
      else None
    else if text[i] == '.' && s.nibbles > 0 then
      if |s.words| > 6 || s.digit.None? then None
      else
        var v := Dotted(text[s.digit.value..], 0, 0, 0);
        if v == NONE then None else Fill(s.words + [v / 0x1_0000, v % 0x1_0000], s.zero)
    else if s.nibbles == 4 then None
    else
      var v := Nibble(text[i]);
      if v.None? then None else Scan(text, i + 1, s.(nibbles := s.nibbles + 1, word := s.word * 16 + v.value))
  }

  function Start(): State {
    State([], None, 0, 0, None)
  }

  // The words that a text stands for.
  function Parse(text: string): Option<seq<nat>> {
    if text == [] then None else Scan(text, if text[0] == ':' then 1 else 0, Start())
  }

  // Words as bytes, the high byte first.
  function Bytes(words: seq<nat>): (b: seq<nat>)
    ensures |b| == 2 * |words|
  {
    if words == [] then [] else Bytes(words[..|words| - 1]) + Pair(words[|words| - 1])
  }

  function Pair(w: nat): seq<nat> {
    [w / 256 % 256, w % 256]
  }

  lemma {:induction false} BytesJoin(a: seq<nat>, b: seq<nat>)
    ensures Bytes(a + b) == Bytes(a) + Bytes(b)
  {
    if b == [] {
      assert a + b == a;
    } else {
      var c := b[..|b| - 1];
      assert (a + b)[..|a + b| - 1] == a + c;
      BytesJoin(a, c);
    }
  }

  lemma {:induction false} BytesMore(a: seq<nat>, w: nat)
    ensures Bytes(a + [w]) == Bytes(a) + Pair(w)
  {
    assert (a + [w])[..|a|] == a;
  }

  lemma {:induction false} BytesZero(n: nat)
    ensures Bytes(seq(n, i => 0)) == seq(2 * n, i => 0)
  {
    var z := seq(n, i => 0);
    if n > 0 {
      assert z[..n - 1] == seq(n - 1, i => 0);
      BytesZero(n - 1);
    }
  }

  // The words stored so far are in the buffer.
  ghost predicate Stored(addr: array<nat>, words: seq<nat>)
    reads addr
  {
    addr.Length == 16 && |words| <= 8 && addr[..2 * |words|] == Bytes(words)
  }

  method Store(addr: array<nat>, ghost words: seq<nat>, at: nat, w: nat)
    requires Stored(addr, words) && |words| < 8 && at == 2 * |words|
    modifies addr
    ensures Stored(addr, words + [w])
  {
    BytesMore(words, w);
    addr[at], addr[at + 1] := w / 256 % 256, w % 256;
    assert addr[..at + 2] == addr[..at] + Pair(w);
  }

  // The end of ngx_inet6_addr: the bytes from zero to at move to the end of the buffer.
  method MoveUp(addr: array<nat>, at: nat, zero: nat)
    requires addr.Length == 16 && zero <= at <= 16
    modifies addr
    ensures forall i | 0 <= i < zero :: addr[i] == old(addr[i])
    ensures forall j | zero + (16 - at) <= j < 16 :: addr[j] == old(addr[..])[j - (16 - at)]
  {
    ghost var was := addr[..];
    var n := 16 - at;
    var s, d := at - 1, at - 1 + n;
    while s >= zero
      invariant zero - 1 <= s < at && d == s + n
      invariant forall i | 0 <= i <= s :: addr[i] == was[i]
      invariant forall j | d < j < 16 :: addr[j] == was[j - n]
    {
      addr[d] := addr[s];
      d := d - 1;
      s := s - 1;
    }
  }

  // ngx_memzero
  method Clear(addr: array<nat>, from: nat, n: nat)
    requires from + n <= addr.Length
    modifies addr
    ensures forall i | 0 <= i < addr.Length :: addr[i] == if from <= i < from + n then 0 else old(addr[i])
  {
    for i := 0 to n
      invariant forall j | 0 <= j < addr.Length :: addr[j] == if from <= j < from + i then 0 else old(addr[j])
    {
      addr[from + i] := 0;
    }
  }

  method Spread(addr: array<nat>, ghost words: seq<nat>, at: nat, zero: nat)
    requires Stored(addr, words) && |words| < 8 && at == 2 * |words| && zero <= at && zero % 2 == 0
    modifies addr
    ensures Fill(words, Some(zero / 2)).Some? && addr[..] == Bytes(Fill(words, Some(zero / 2)).value)
  {
    hide Bytes;
    ghost var was := Bytes(words);
    assert forall i | 0 <= i < at :: addr[i] == addr[..at][i] == was[i];
    MoveUp(addr, at, zero);
    Clear(addr, zero, 16 - at);
    SpreadIs(words, zero / 2);
    ghost var full := was[..zero] + seq(16 - at, i => 0) + was[zero..];
    assert addr[..] == full;
  }

  lemma {:induction false} SpreadIs(words: seq<nat>, z: nat)
    requires |words| < 8 && z <= |words|
    ensures var b := Bytes(words);
            Bytes(Fill(words, Some(z)).value) == b[..2 * z] + seq(16 - 2 * |words|, i => 0) + b[2 * z..]
  {
    hide Bytes;
    var l, m, r := words[..z], seq(8 - |words|, i => 0), words[z..];
    assert words == l + r;
    BytesJoin(l, r);
    BytesJoin(l + m, r);
    BytesJoin(l, m);
    BytesZero(8 - |words|);
    Halves(Bytes(words), Bytes(l), Bytes(r));
  }

  lemma {:induction false} Halves(b: seq<nat>, l: seq<nat>, r: seq<nat>)
    requires b == l + r
    ensures b[..|l|] == l && b[|l|..] == r
  {
  }

  // ngx_inet6_addr; zero and digit are -1 for NULL.
  method Inet6Addr(text: string, addr: array<nat>) returns (ok: bool)
    requires addr.Length == 16
    modifies addr
    ensures ok <==> Parse(text).Some?
    ensures ok ==> addr[..] == Bytes(Parse(text).value)
  {
    hide Scan, Bytes, Fill;
    if |text| == 0 {
      return false;
    }
    var zero, digit, n, at, nibbles, word := -1, -1, 8, 0, 0, 0;
    var p := if text[0] == ':' then 1 else 0;
    ghost var s := Start();
    assert addr[..0] == Bytes([]) by {
      NoBytes();
    }
    while p < |text|
      invariant Going(text, p, s) && Parse(text) == Scan(text, p, s) && Stored(addr, s.words)
      invariant n == 8 - |s.words| && at == 2 * |s.words| && nibbles == s.nibbles && word == s.word
      invariant zero == if s.zero.Some? then 2 * s.zero.value else -1
      invariant digit == if s.digit.Some? then s.digit.value else -1
      decreases |text| - p
    {
      ScanStep(text, p, s);
      var c := text[p];
      p := p + 1;
      if c == ':' {
        if nibbles != 0 {
          digit := p;
          Store(addr, s.words, at, word);
          at := at + 2;
          n := n - 1;
          if n != 0 {
            s := State(s.words + [word], s.zero, 0, 0, Some(p));
            nibbles := 0;
            word := 0;
            continue;
          }
        } else if zero == -1 {
          digit := p;
          zero := at;
          s := s.(zero := Some(|s.words|), digit := Some(p));
          continue;
        }
        return false;
      }
      if c == '.' && nibbles != 0 {
        if n < 2 || digit == -1 {
          return false;
        }
        word := InetAddr(text[digit..]);
        if word == NONE {
          return false;
        }
        Store(addr, s.words, at, word / 0x1_0000);
        ok := Finish(addr, s.words + [word / 0x1_0000], at + 2, word % 0x1_0000, zero, n - 1);
        assert s.words + [word / 0x1_0000] + [word % 0x1_0000] == s.words + [word / 0x1_0000, word % 0x1_0000];
        return;
      }
      nibbles := nibbles + 1;
      if nibbles > 4 {
        return false;
      }
      var v := Nibble(c);
      if v == None {
        return false;
      }
      word := word * 16 + v.value;
      s := s.(nibbles := nibbles, word := word);
    }
    ScanEnd(text, s);
    if nibbles == 0 && zero == -1 {
      return false;
    }
    ok := Finish(addr, s.words, at, word, zero, n);
  }

  lemma {:induction false} NoBytes()
    ensures Bytes([]) == []
  {
  }

  lemma {:induction false} ScanEnd(text: string, s: State)
    requires Going(text, |text|, s)
    ensures Scan(text, |text|, s) == if s.nibbles == 0 && s.zero.None? then None else Fill(s.words + [s.word], s.zero)
  {
  }

  lemma {:induction false} ScanStep(text: string, i: nat, s: State)
    requires i < |text| && Going(text, i, s)
    ensures text[i] == ':' && s.nibbles > 0 ==>
              Scan(text, i, s) ==
              if |s.words| + 1 < 8 then Scan(text, i + 1, State(s.words + [s.word], s.zero, 0, 0, Some(i + 1)))
                  else None
    ensures text[i] == ':' && s.nibbles == 0 ==>
              Scan(text, i, s) ==
              if s.zero.None? then Scan(text, i + 1, s.(zero := Some(|s.words|), digit := Some(i + 1))) else None
    ensures text[i] == '.' && s.nibbles > 0 && (|s.words| > 6 || s.digit.None?) ==> Scan(text, i, s) == None
    ensures text[i] == '.' && s.nibbles > 0 && |s.words| <= 6 && s.digit.Some? ==>
              var v := Dotted(text[s.digit.value..], 0, 0, 0);
              Scan(text, i, s) == if v == NONE then None else Fill(s.words + [v / 0x1_0000, v % 0x1_0000], s.zero)
    ensures text[i] != ':' && (text[i] != '.' || s.nibbles == 0) ==>
              Scan(text, i, s) ==
              if s.nibbles == 4 || Nibble(text[i]).None? then None
              else Scan(text, i + 1, s.(nibbles := s.nibbles + 1, word := s.word * 16 + Nibble(text[i]).value))
  {
  }

  // The last word, and the zeros in the place of "::".
  method Finish(addr: array<nat>, ghost words: seq<nat>, at: nat, word: nat, zero: int, n: nat) returns (ok: bool)
    requires Stored(addr, words) && |words| < 8 && at == 2 * |words| && n == 8 - |words|
    requires -1 <= zero <= at && (zero >= 0 ==> zero % 2 == 0)
    modifies addr
    ensures var r := Fill(words + [word], if zero == -1 then None else Some(zero / 2));
            (ok <==> r.Some?) && (ok ==> addr[..] == Bytes(r.value))
  {
    hide Bytes;
    Store(addr, words, at, word);
    if n - 1 != 0 {
      if zero != -1 {
        Spread(addr, words + [word], at + 2, zero);
        return true;
      }
    } else if zero == -1 {
      assert addr[..16] == addr[..];
      return true;
    }
    return false;
  }
}
