// ngx_hash_init and ngx_hash_find: a hash whose elements are packed into one block of
// memory. An element is a value word, a two-byte length and the name, padded to the next
// word; a zero word ends a bucket. Sizes are kept in two-byte counters that wrap.

module FlatHash {
  const WRAP := 0x1_0000
  const WORDS := 0x1_0000_0000_0000_0000

  // The value that a two-byte counter keeps.
  function Wrap(x: nat): nat {
    x % WRAP
  }

  lemma {:induction false} WrapAdd(x: nat, e: nat)
    ensures Wrap(Wrap(x) + e) == Wrap(x + e)
  {
  }

  // gone: key.data is NULL, so the name takes no part.
  datatype Name = Name(key: string, gone: bool, hash: nat, value: nat)

  // A byte of memory: part k of a word, part k of a two-byte number, or a character.
  datatype Cell = Word(w: nat, k: nat) | Half(h: nat, k: nat) | Char(c: char)

  // The sizes of a word and of the cache lines that ngx_cpuinfo knows.
  predicate Unit(a: nat) {
    a == 8 || a == 32 || a == 64 || a == 128
  }

  function Align(x: nat, a: nat): (r: nat)
    requires Unit(a)
    ensures x <= r < x + a && r % 8 == 0
  {
    if a == 8 then Up(x, 1) else if a == 32 then Up(x, 4) else if a == 64 then Up(x, 8) else Up(x, 16)
  }

  // The next multiple of w words.
  function Up(x: nat, w: nat): (r: nat)
    requires w == 1 || w == 4 || w == 8 || w == 16
    ensures x <= r < x + 8 * w && r % 8 == 0
  {
    var q := (x + 8 * w - 1) / (8 * w);
    assert x <= q * (8 * w) < x + 8 * w;
    8 * (q * w)
  }

  // NGX_HASH_ELT_SIZE
  function Elt(n: Name): (r: nat)
    ensures r % 8 == 0 && |n.key| + 10 <= r < |n.key| + 18
  {
    8 + Align(|n.key| + 2, 8)
  }

  // The bytes that the first n names need in bucket b of size buckets.
  function Sum(names: seq<Name>, size: nat, b: nat, n: nat): (r: nat)
    requires size > 0 && n <= |names|
    ensures r % 8 == 0
  {
    if n == 0 then 0
    else Sum(names, size, b, n - 1) + if In(names[n - 1], size, b) then Elt(names[n - 1]) else 0
  }

  predicate In(n: Name, size: nat, b: nat)
    requires size > 0
  {
    !n.gone && n.hash % size == b
  }

  // The bytes of a bucket with its end word, none when it is empty.
  function Bucket(names: seq<Name>, size: nat, line: nat, b: nat): (r: nat)
    requires size > 0 && Unit(line)
    ensures r % 8 == 0
  {
    var s := Sum(names, size, b, |names|);
    if s == 0 then 0 else Align(s + 8, line)
  }

  // The bytes of the buckets before b.
  function Before(names: seq<Name>, size: nat, line: nat, b: nat): nat
    requires size > 0 && Unit(line)
  {
    if b == 0 then 0 else Before(names, size, line, b - 1) + Bucket(names, size, line, b - 1)
  }

  // No counter wraps in the layout.
  ghost predicate NoWrap(names: seq<Name>, size: nat, line: nat)
    requires size > 0 && Unit(line)
  {
    forall b | 0 <= b < size :: Bucket(names, size, line, b) < WRAP
  }

  // The test that the search for a size applies.
  ghost predicate Passes(names: seq<Name>, size: nat, room: nat)
    requires size > 0
  {
    forall n | 0 <= n < |names| && !names[n].gone ::
      Wrap(Sum(names, size, names[n].hash % size, n + 1)) <= Wrap(room)
  }

  lemma {:induction false} SumGrows(names: seq<Name>, size: nat, b: nat, m: nat, n: nat)
    requires size > 0 && m <= n <= |names|
    ensures Sum(names, size, b, m) <= Sum(names, size, b, n)
  {
    if m < n {
      SumGrows(names, size, b, m, n - 1);
    }
  }

  // With a bucket size of at most 32768 the wrapping test means what it should.
  lemma {:induction false} PassesMeans(names: seq<Name>, size: nat, room: nat, n: nat, b: nat)
    requires size > 0 && room < WRAP / 2 && n <= |names| && Passes(names, size, room)
    requires forall i | 0 <= i < |names| :: Elt(names[i]) <= room
    ensures Sum(names, size, b, n) <= room
  {
    hide Sum, Elt;
    SumNone(names, size);
    if n > 0 {
      PassesMeans(names, size, room, n - 1, b);
      SumStep(names, size, n - 1);
    }
  }

  lemma {:induction false} PassesNoWrap(names: seq<Name>, size: nat, room: nat, line: nat)
    requires size > 0 && Unit(line) && room < WRAP / 2 && Passes(names, size, room)
    requires forall i | 0 <= i < |names| :: Elt(names[i]) <= room
    ensures NoWrap(names, size, line)
  {
    forall b | 0 <= b < size
      ensures Bucket(names, size, line, b) < WRAP
    {
      PassesMeans(names, size, room, |names|, b);
    }
  }

  // Where things are, counted from the first aligned byte.

  function Place(names: seq<Name>, size: nat, line: nat, b: nat, n: nat): nat
    requires size > 0 && Unit(line) && n <= |names|
  {
    Before(names, size, line, b) + Sum(names, size, b, n)
  }

  lemma {:induction false} BeforeGrows(names: seq<Name>, size: nat, line: nat, b: nat, c: nat)
    requires size > 0 && Unit(line) && b < c
    ensures Before(names, size, line, b) + Bucket(names, size, line, b) <= Before(names, size, line, c)
  {
    if b + 1 < c {
      BeforeGrows(names, size, line, b, c - 1);
    }
  }

  lemma {:induction false} BeforeAligned(names: seq<Name>, size: nat, line: nat, b: nat)
    requires size > 0 && Unit(line)
    ensures Before(names, size, line, b) % 8 == 0
  {
    hide Bucket;
    if b > 0 {
      BeforeAligned(names, size, line, b - 1);
    }
  }

  // The element of name n lies inside its bucket, before the end word.
  lemma {:induction false} InBucket(names: seq<Name>, size: nat, line: nat, b: nat, n: nat)
    requires size > 0 && Unit(line) && n < |names| && In(names[n], size, b)
    ensures Place(names, size, line, b, n) + Elt(names[n]) == Place(names, size, line, b, n + 1)
    ensures Sum(names, size, b, |names|) > 0
    ensures Place(names, size, line, b, n + 1) <= Place(names, size, line, b, |names|)
    ensures Place(names, size, line, b, |names|) + 8 <= Before(names, size, line, b) + Bucket(names, size, line, b)
  {
    SumGrows(names, size, b, n + 1, |names|);
  }

  // Elements and end words do not overlap.

  lemma {:induction false} ElementsApart(names: seq<Name>, size: nat, line: nat, m: nat, n: nat)
    requires size > 0 && Unit(line) && m < n < |names| && !names[m].gone && !names[n].gone
    ensures var b, c := names[m].hash % size, names[n].hash % size;
            var p, q := Place(names, size, line, b, m), Place(names, size, line, c, n);
            p + Elt(names[m]) <= q || q + Elt(names[n]) <= p
  {
    var b, c := names[m].hash % size, names[n].hash % size;
    InBucket(names, size, line, b, m);
    InBucket(names, size, line, c, n);
    if b < c {
      BeforeGrows(names, size, line, b, c);
    } else if c < b {
      BeforeGrows(names, size, line, c, b);
    } else {
      SumGrows(names, size, b, m + 1, n);
    }
  }

  lemma {:induction false} EndApart(names: seq<Name>, size: nat, line: nat, n: nat, c: nat)
    requires size > 0 && Unit(line) && n < |names| && !names[n].gone && Sum(names, size, c, |names|) > 0
    ensures var b := names[n].hash % size;
            var p, q := Place(names, size, line, b, n), Place(names, size, line, c, |names|);
            p + Elt(names[n]) <= q || q + 8 <= p
  {
    var b := names[n].hash % size;
    InBucket(names, size, line, b, n);
    if b < c {
      BeforeGrows(names, size, line, b, c);
    } else if c < b {
      BeforeGrows(names, size, line, c, b);
    }
  }

  lemma {:induction false} EndsApart(names: seq<Name>, size: nat, line: nat, b: nat, c: nat)
    requires size > 0 && Unit(line) && b < c && Sum(names, size, b, |names|) > 0 && Sum(names, size, c, |names|) > 0
    ensures Place(names, size, line, b, |names|) + 8 <= Place(names, size, line, c, |names|)
  {
    BeforeGrows(names, size, line, b, c);
  }

  // The contents of memory from index i on.

  predicate WordAt(mem: seq<Cell>, i: nat, w: nat) {
    i + 8 <= |mem| && forall k | 0 <= k < 8 :: mem[i + k] == Word(w, k)
  }

  predicate HalfAt(mem: seq<Cell>, i: nat, h: nat) {
    i + 2 <= |mem| && mem[i] == Half(h, 0) && mem[i + 1] == Half(h, 1)
  }

  predicate TextAt(mem: seq<Cell>, i: nat, s: string) {
    i + |s| <= |mem| && forall k | 0 <= k < |s| :: mem[i + k] == Char(s[k])
  }

  function Low(c: char): char {
    if 'A' <= c <= 'Z' then c + (32 as char) else c
  }

  function Lower(s: string): (r: string)
    ensures |r| == |s| && forall i | 0 <= i < |s| :: r[i] == Low(s[i])
  {
    seq(|s|, i requires 0 <= i < |s| => Low(s[i]))
  }

  predicate EltAt(mem: seq<Cell>, i: nat, n: Name) {
    WordAt(mem, i, n.value) && HalfAt(mem, i + 8, |n.key|) && TextAt(mem, i + 10, Lower(n.key))
  }

  // Writing elsewhere keeps what is there.
  ghost predicate SameBut(mem: seq<Cell>, mem': seq<Cell>, lo: nat, hi: nat) {
    |mem'| == |mem| && forall i | 0 <= i < |mem| && !(lo <= i < hi) :: mem'[i] == mem[i]
  }

  lemma {:induction false} EltStays(mem: seq<Cell>, mem': seq<Cell>, lo: nat, hi: nat, i: nat, n: Name)
    requires SameBut(mem, mem', lo, hi) && EltAt(mem, i, n) && (i + Elt(n) <= lo || hi <= i)
    ensures EltAt(mem', i, n)
  {
  }

  lemma {:induction false} WordStays(mem: seq<Cell>, mem': seq<Cell>, lo: nat, hi: nat, i: nat, w: nat)
    requires SameBut(mem, mem', lo, hi) && WordAt(mem, i, w) && (i + 8 <= lo || hi <= i)
    ensures WordAt(mem', i, w)
  {
  }

  // The search for a size

  method SizePasses(names: seq<Name>, size: nat, room: nat, test: array<nat>) returns (ok: bool)
    requires 0 < size <= test.Length
    modifies test
    ensures ok <==> Passes(names, size, room)
  {
    hide Sum, Wrap, Elt, In;
    for i := 0 to size
      invariant forall j | 0 <= j < i :: test[j] == 0
    {
      test[i] := 0;
    }
    SumNone(names, size);
    for n := 0 to |names|
      invariant forall b | 0 <= b < size :: test[b] == Wrap(Sum(names, size, b, n))
      invariant forall i | 0 <= i < n && !names[i].gone ::
                  Wrap(Sum(names, size, names[i].hash % size, i + 1)) <= Wrap(room)
    {
      SumStep(names, size, n);
      if names[n].gone {
        continue;
      }
      var key := names[n].hash % size;
      WrapAdd(Sum(names, size, key, n), Elt(names[n]));
      test[key] := Wrap(test[key] + Elt(names[n]));
      if test[key] > Wrap(room) {
        return false;
      }
    }
    return true;
  }

  lemma {:induction false} SumNone(names: seq<Name>, size: nat)
    requires size > 0
    ensures forall b: nat :: Sum(names, size, b, 0) == 0 && Wrap(Sum(names, size, b, 0)) == 0
  {
  }

  lemma {:induction false} SumStep(names: seq<Name>, size: nat, n: nat)
    requires size > 0 && n < |names|
    ensures forall b: nat :: Sum(names, size, b, n + 1) ==
              Sum(names, size, b, n) + if !names[n].gone && names[n].hash % size == b then Elt(names[n]) else 0
  {
  }

  // The size that the search ends with: the first that passes, or the largest.
  ghost function Chosen(names: seq<Name>, room: nat, start: nat, max: nat): (r: nat)
    requires start > 0
    ensures max > 0 ==> 0 < r <= max
    decreases max - start
  {
    if start > max then max else if Passes(names, start, room) then start else Chosen(names, room, start + 1, max)
  }

  method FindSize(names: seq<Name>, room: nat, start: nat, max: nat, test: array<nat>) returns (size: nat)
    requires start > 0 && max <= test.Length
    modifies test
    ensures size == Chosen(names, room, start, max)
  {
    size := start;
    while size <= max
      invariant size >= start && Chosen(names, room, start, max) == Chosen(names, room, size, max)
    {
      var ok := SizePasses(names, size, room, test);
      if ok {
        return;
      }
      size := size + 1;
    }
    size := max;
  }

  // The layout

  // The bytes that every bucket needs.
  method Count(names: seq<Name>, size: nat, line: nat, test: array<nat>)
    requires 0 < size <= test.Length && Unit(line) && NoWrap(names, size, line)
    modifies test
    ensures forall b | 0 <= b < size :: test[b] == 8 + Sum(names, size, b, |names|)
  {
    hide Sum, Elt, Align, NoWrap;
    for i := 0 to size
      invariant forall j | 0 <= j < i :: test[j] == 8
    {
      test[i] := 8;
    }
    SumNone(names, size);
    for n := 0 to |names|
      invariant forall b | 0 <= b < size :: test[b] == 8 + Sum(names, size, b, n)
    {
      SumStep(names, size, n);
      if names[n].gone {
        continue;
      }
      var key := names[n].hash % size;
      SumFits(names, size, line, key, n + 1);
      test[key] := Wrap(test[key] + Elt(names[n]));
    }
  }

  // The sizes of the buckets, and their total.
  method Measure(names: seq<Name>, size: nat, line: nat, test: array<nat>) returns (len: nat)
    requires 0 < size <= test.Length && Unit(line) && NoWrap(names, size, line)
    modifies test
    ensures len == Before(names, size, line, size)
    ensures forall b | 0 <= b < size ::
              test[b] == if Sum(names, size, b, |names|) == 0 then 8 else Bucket(names, size, line, b)
  {
    hide Sum, NoWrap, Align, Wrap;
    Count(names, size, line, test);
    len := 0;
    for i := 0 to size
      invariant len == Before(names, size, line, i)
      invariant forall b | 0 <= b < i ::
                  test[b] == if Sum(names, size, b, |names|) == 0 then 8 else Bucket(names, size, line, b)
      invariant forall b | i <= b < size :: test[b] == 8 + Sum(names, size, b, |names|)
    {
      if test[i] == 8 {
        continue;
      }
      SumFits(names, size, line, i, |names|);
      assert Wrap(Align(test[i], line)) == Bucket(names, size, line, i);
      test[i] := Wrap(Align(test[i], line));
      len := len + test[i];
    }
  }

  lemma {:induction false} SumFits(names: seq<Name>, size: nat, line: nat, b: nat, n: nat)
    requires size > 0 && Unit(line) && NoWrap(names, size, line) && b < size && n <= |names|
    ensures 8 + Sum(names, size, b, n) < WRAP && Wrap(Bucket(names, size, line, b)) == Bucket(names, size, line, b)
  {
    SumGrows(names, size, b, n, |names|);
    assert Bucket(names, size, line, b) < WRAP;
  }

  // The first byte of every bucket, 0 for an empty one.
  method PlaceBuckets(names: seq<Name>, size: nat, line: nat, test: array<nat>, elts: nat, buckets: array<nat>)
    requires 0 < size <= test.Length && size == buckets.Length && Unit(line) && test != buckets
    requires forall b | 0 <= b < size ::
               test[b] == if Sum(names, size, b, |names|) == 0 then 8 else Bucket(names, size, line, b)
    requires forall b | 0 <= b < size :: buckets[b] == 0
    modifies buckets
    ensures forall b | 0 <= b < size ::
              buckets[b] == if Sum(names, size, b, |names|) == 0 then 0 else elts + Before(names, size, line, b)
  {
    var at := elts;
    for i := 0 to size
      invariant at == elts + Before(names, size, line, i)
      invariant forall b | i <= b < size :: buckets[b] == 0
      invariant forall b | 0 <= b < i ::
                  buckets[b] == if Sum(names, size, b, |names|) == 0 then 0 else elts + Before(names, size, line, b)
    {
      NotEight(names, size, line, i);
      if test[i] == 8 {
        continue;
      }
      buckets[i] := at;
      at := at + test[i];
    }
  }

  lemma {:induction false} NotEight(names: seq<Name>, size: nat, line: nat, b: nat)
    requires size > 0 && Unit(line)
    ensures Bucket(names, size, line, b) != 8
  {
  }

  // Stores to memory, byte by byte.

  method PutWord(mem: array<Cell>, i: nat, w: nat)
    requires i + 8 <= mem.Length
    modifies mem
    ensures WordAt(mem[..], i, w) && SameBut(old(mem[..]), mem[..], i, i + 8)
  {
    for k := 0 to 8
      invariant forall j | 0 <= j < k :: mem[i + j] == Word(w, j)
      invariant SameBut(old(mem[..]), mem[..], i, i + 8)
    {
      mem[i + k] := Word(w, k);
    }
  }

  method PutElt(mem: array<Cell>, i: nat, n: Name)
    requires i + Elt(n) <= mem.Length && |n.key| < WRAP
    modifies mem
    ensures EltAt(mem[..], i, n) && SameBut(old(mem[..]), mem[..], i, i + Elt(n))
  {
    PutWord(mem, i, n.value);
    var len := |n.key| % WRAP;
    mem[i + 8], mem[i + 9] := Half(len, 0), Half(len, 1);
    for k := 0 to |n.key|
      invariant WordAt(mem[..], i, n.value) && HalfAt(mem[..], i + 8, |n.key|)
      invariant forall j | 0 <= j < k :: mem[i + 10 + j] == Char(Low(n.key[j]))
      invariant SameBut(old(mem[..]), mem[..], i, i + Elt(n))
    {
      mem[i + 10 + k] := Char(Low(n.key[k]));
    }
  }

  // The finished hash: first is the index of the first aligned byte, base the address of
  // the memory block.
  ghost predicate Built(names: seq<Name>, size: nat, line: nat, buckets: seq<nat>, mem: seq<Cell>, base: nat,
        first: nat) {
    && size > 0 && Unit(line) && Bases(names, size, line, buckets, base, first) && base > 0 && (base + first) % 8 == 0
    && (forall n {:trigger names[n]} | 0 <= n < |names| && !names[n].gone ::
          EltAt(mem, first + Place(names, size, line, names[n].hash % size, n), names[n]))
    && (forall b {:trigger Place(names, size, line, b, |names|)} | 0 <= b < size && Sum(names, size, b, |names|) > 0 ::
          WordAt(mem, first + Place(names, size, line, b, |names|), 0))
  }

  ghost predicate Bases(names: seq<Name>, size: nat, line: nat, buckets: seq<nat>, base: nat, first: nat)
    requires size > 0 && Unit(line)
  {
    && |buckets| == size
    && forall b | 0 <= b < size ::
         buckets[b] == if Sum(names, size, b, |names|) == 0 then 0 else base + first + Before(names, size, line, b)
  }

  // The elements, in the order of the names.
  method Fill(names: seq<Name>, size: nat, line: nat, test: array<nat>, buckets: array<nat>, mem: array<Cell>,
      base: nat, ghost first: nat)
    requires 0 < size <= test.Length && buckets.Length == size && Unit(line) && NoWrap(names, size, line)
             && test != buckets
    requires Bases(names, size, line, buckets[..], base, first) && base > 0
    requires first + Before(names, size, line, size) <= mem.Length
    modifies test, mem
    ensures forall n {:trigger names[n]} | 0 <= n < |names| && !names[n].gone ::
              EltAt(mem[..], first + Place(names, size, line, names[n].hash % size, n), names[n])
    ensures forall b | 0 <= b < size :: test[b] == Sum(names, size, b, |names|)
  {
    hide Sum, Elt, NoWrap, Bucket, EltAt, SameBut, Before, Wrap;
    for i := 0 to size
      invariant forall j | 0 <= j < i :: test[j] == 0
    {
      test[i] := 0;
    }
    SumNone(names, size);
    for n := 0 to |names|
      invariant forall b | 0 <= b < size :: test[b] == Sum(names, size, b, n)
      invariant forall m {:trigger names[m]} | 0 <= m < n && !names[m].gone ::
                  EltAt(mem[..], first + Place(names, size, line, names[m].hash % size, m), names[m])
    {
      SumStep(names, size, n);
      if names[n].gone {
        continue;
      }
      var key := names[n].hash % size;
      EltFits(names, size, line, n);
      assert buckets[..][key] == buckets[key];
      var at := buckets[key] + test[key] - base;
      ghost var was := mem[..];
      PutElt(mem, at, names[n]);
      EltsStay(names, size, line, first, n, was, mem[..]);
      test[key] := Wrap(test[key] + Elt(names[n]));
    }
  }

  lemma {:induction false} EltFits(names: seq<Name>, size: nat, line: nat, n: nat)
    requires size > 0 && Unit(line) && NoWrap(names, size, line) && n < |names| && !names[n].gone
    ensures var b := names[n].hash % size;
            && Sum(names, size, b, |names|) > 0 && |names[n].key| < WRAP
            && Wrap(Sum(names, size, b, n + 1)) == Sum(names, size, b, n + 1)
            && Place(names, size, line, b, n) + Elt(names[n]) <= Before(names, size, line, size)
  {
    hide Sum, Before, Bucket, NoWrap;
    var b := names[n].hash % size;
    InBucket(names, size, line, b, n);
    SumFits(names, size, line, b, n + 1);
    BeforeGrows(names, size, line, b, size);
  }

  lemma {:induction false} EltsStay(names: seq<Name>, size: nat, line: nat, first: nat, n: nat, mem: seq<Cell>,
      mem': seq<Cell>)
    requires size > 0 && Unit(line) && n < |names| && !names[n].gone
    requires var i := first + Place(names, size, line, names[n].hash % size, n);
             SameBut(mem, mem', i, i + Elt(names[n])) && EltAt(mem', i, names[n])
    requires forall m {:trigger names[m]} | 0 <= m < n && !names[m].gone ::
               EltAt(mem, first + Place(names, size, line, names[m].hash % size, m), names[m])
    ensures forall m {:trigger names[m]} | 0 <= m <= n && !names[m].gone ::
              EltAt(mem', first + Place(names, size, line, names[m].hash % size, m), names[m])
  {
    hide Place, Elt, EltAt, SameBut;
    var i := first + Place(names, size, line, names[n].hash % size, n);
    forall m {:trigger names[m]} | 0 <= m < n && !names[m].gone
      ensures EltAt(mem', first + Place(names, size, line, names[m].hash % size, m), names[m])
    {
      ElementsApart(names, size, line, m, n);
      EltStays(mem, mem', i, i + Elt(names[n]), first + Place(names, size, line, names[m].hash % size, m), names[m]);
    }
  }

  // The words that end the buckets.
  method Terminate(names: seq<Name>, size: nat, line: nat, test: array<nat>, buckets: array<nat>, mem: array<Cell>,
      base: nat, ghost first: nat)
    requires 0 < size <= test.Length && buckets.Length == size && Unit(line)
    requires Bases(names, size, line, buckets[..], base, first) && base > 0 && (base + first) % 8 == 0
    requires first + Before(names, size, line, size) <= mem.Length
    requires forall n {:trigger names[n]} | 0 <= n < |names| && !names[n].gone ::
               EltAt(mem[..], first + Place(names, size, line, names[n].hash % size, n), names[n])
    requires forall b | 0 <= b < size :: test[b] == Sum(names, size, b, |names|)
    modifies mem
    ensures Built(names, size, line, buckets[..], mem[..], base, first)
  {
    hide Sum, Elt, Bucket, EltAt, WordAt, SameBut, Before;
    for i := 0 to size
      invariant forall n {:trigger names[n]} | 0 <= n < |names| && !names[n].gone ::
                  EltAt(mem[..], first + Place(names, size, line, names[n].hash % size, n), names[n])
      invariant forall b {:trigger Place(names, size, line, b, |names|)} | 0 <= b < i
                && Sum(names, size, b, |names|) > 0 ::
                  WordAt(mem[..], first + Place(names, size, line, b, |names|), 0)
    {
      assert buckets[..][i] == buckets[i];
      if buckets[i] == 0 {
        continue;
      }
      EndFits(names, size, line, i);
      var at := buckets[i] + test[i] - base;
      ghost var was := mem[..];
      PutWord(mem, at, 0);
      EndStays(names, size, line, first, i, was, mem[..]);
    }
  }

  lemma {:induction false} EndFits(names: seq<Name>, size: nat, line: nat, b: nat)
    requires size > 0 && Unit(line) && b < size && Sum(names, size, b, |names|) > 0
    ensures Place(names, size, line, b, |names|) + 8 <= Before(names, size, line, size)
  {
    BeforeGrows(names, size, line, b, size);
  }

  lemma {:induction false} EndStays(names: seq<Name>, size: nat, line: nat, first: nat, b: nat, mem: seq<Cell>,
      mem': seq<Cell>)
    requires size > 0 && Unit(line) && b < size && Sum(names, size, b, |names|) > 0
    requires var i := first + Place(names, size, line, b, |names|); SameBut(mem, mem', i, i + 8)
    requires forall n {:trigger names[n]} | 0 <= n < |names| && !names[n].gone ::
               EltAt(mem, first + Place(names, size, line, names[n].hash % size, n), names[n])
    requires forall c {:trigger Place(names, size, line, c, |names|)} | 0 <= c < b
             && Sum(names, size, c, |names|) > 0 ::
               WordAt(mem, first + Place(names, size, line, c, |names|), 0)
    ensures forall n {:trigger names[n]} | 0 <= n < |names| && !names[n].gone ::
              EltAt(mem', first + Place(names, size, line, names[n].hash % size, n), names[n])
    ensures forall c {:trigger Place(names, size, line, c, |names|)} | 0 <= c < b && Sum(names, size, c, |names|) > 0 ::
              WordAt(mem', first + Place(names, size, line, c, |names|), 0)
  {
    hide Elt, EltAt, WordAt, SameBut, Sum, Before;
    var i := first + Place(names, size, line, b, |names|);
    forall n {:trigger names[n]} | 0 <= n < |names| && !names[n].gone
      ensures EltAt(mem', first + Place(names, size, line, names[n].hash % size, n), names[n])
    {
      EndApart(names, size, line, n, b);
      EltStays(mem, mem', i, i + 8, first + Place(names, size, line, names[n].hash % size, n), names[n]);
    }
    forall c {:trigger Place(names, size, line, c, |names|)} | 0 <= c < b && Sum(names, size, c, |names|) > 0
      ensures WordAt(mem', first + Place(names, size, line, c, |names|), 0)
    {
      EndsApart(names, size, line, c, b);
      WordStays(mem, mem', i, i + 8, first + Place(names, size, line, c, |names|), 0);
    }
  }

  // The search

  // The value of the first name from n on that is in bucket b and equals name, or 0.
  function FirstIn(names: seq<Name>, size: nat, b: nat, name: string, n: nat): nat
    requires size > 0 && n <= |names|
    decreases |names| - n
  {
    if n == |names| then 0
    else if In(names[n], size, b) && Lower(names[n].key) == name then names[n].value
    else FirstIn(names, size, b, name, n + 1)
  }

  // The next name of the bucket at or after n, or the end of the list.
  ghost function NextIn(names: seq<Name>, size: nat, b: nat, n: nat): (r: nat)
    requires size > 0 && n <= |names|
    ensures n <= r <= |names| && (r < |names| ==> In(names[r], size, b))
    decreases |names| - n
  {
    if n == |names| || In(names[n], size, b) then n else NextIn(names, size, b, n + 1)
  }

  lemma {:induction false} SkipToNext(names: seq<Name>, size: nat, b: nat, name: string, n: nat)
    requires size > 0 && n <= |names|
    ensures var r := NextIn(names, size, b, n);
            && Sum(names, size, b, r) == Sum(names, size, b, n)
            && FirstIn(names, size, b, name, r) == FirstIn(names, size, b, name, n)
    decreases |names| - n
  {
    if n < |names| && !In(names[n], size, b) {
      SkipToNext(names, size, b, name, n + 1);
    }
  }

  method SameText(mem: array<Cell>, i: nat, ghost text: string, name: string) returns (same: bool)
    requires TextAt(mem[..], i, text) && |text| == |name|
    ensures same <==> text == name
  {
    for k := 0 to |name|
      invariant text[..k] == name[..k]
    {
      assert mem[..][i + k] == Char(text[k]);
      if mem[i + k] != Char(name[k]) {
        return false;
      }
    }
    assert text[..|name|] == text && name[..|name|] == name;
    return true;
  }

  // ngx_hash_find
  method Find(buckets: array<nat>, size: nat, mem: array<Cell>, base: nat, key: nat, name: string,
      ghost names: seq<Name>, ghost line: nat, ghost first: nat)
    returns (value: nat)
    requires size > 0 && Built(names, size, line, buckets[..], mem[..], base, first)
    requires forall n | 0 <= n < |names| :: names[n].value != 0
    ensures value == FirstIn(names, size, key % size, name, 0)
  {
    hide EltAt, WordAt, Sum, Before, FirstIn, NextIn, Elt, Built, Place, In, TextAt, Align;
    BuiltBases(names, size, line, buckets[..], mem[..], base, first, key % size);
    var b := key % size;
    var elt := buckets[b];
    assert buckets[..][b] == elt;
    ghost var n := NextIn(names, size, b, 0);
    SkipToNext(names, size, b, name, 0);
    SumNone(names, size);
    if elt == 0 {
      NoneIn(names, size, b, name, 0);
      return 0;
    }
    AtNext(names, size, line, buckets[..], mem[..], base, first, b, n);
    while mem[elt - base].w != 0
      invariant n <= |names| && elt == base + first + Place(names, size, line, b, n)
                && (n < |names| ==> In(names[n], size, b))
      invariant FirstIn(names, size, b, name, 0) == FirstIn(names, size, b, name, n)
      invariant base <= elt < base + mem.Length && mem[elt - base].Word?
      invariant mem[elt - base].w != 0 <==> n < |names|
      decreases |names| - n
    {
      AtElt(names, size, line, buckets[..], mem[..], base, first, b, n);
      FirstStep(names, size, b, name, n);
      var len := mem[elt - base + 8].h;
      if |name| == len {
        var same := SameText(mem, elt - base + 10, Lower(names[n].key), name);
        if same {
          return mem[elt - base].w;
        }
      }
      StepOver(names, size, line, base, first, b, n);
      elt := Align(elt + 10 + len, 8);
      SkipToNext(names, size, b, name, n + 1);
      SamePlace(names, size, line, b, n + 1);
      n := NextIn(names, size, b, n + 1);
      AtNext(names, size, line, buckets[..], mem[..], base, first, b, n);
    }
    FirstEnd(names, size, b, name);
    return 0;
  }

  lemma {:induction false} BuiltBases(names: seq<Name>, size: nat, line: nat, buckets: seq<nat>, mem: seq<Cell>,
      base: nat, first: nat, b: nat)
    requires Built(names, size, line, buckets, mem, base, first)
    ensures size > 0 && |buckets| == size && Unit(line) && (base + first) % 8 == 0 && base > 0
    ensures b < size ==> if Sum(names, size, b, |names|) == 0 then buckets[b] == 0
                         else buckets[b] == base + first + Place(names, size, line, b, 0) && buckets[b] != 0
    ensures b < size ==> Place(names, size, line, b, 0) == Place(names, size, line, b, NextIn(names, size, b, 0))
  {
    if b < size {
      SkipToNext(names, size, b, "", 0);
    }
  }

  lemma {:induction false} SamePlace(names: seq<Name>, size: nat, line: nat, b: nat, n: nat)
    requires size > 0 && Unit(line) && n <= |names|
    ensures Place(names, size, line, b, NextIn(names, size, b, n)) == Place(names, size, line, b, n)
  {
    SkipToNext(names, size, b, "", n);
  }

  lemma {:induction false} FirstEnd(names: seq<Name>, size: nat, b: nat, name: string)
    requires size > 0
    ensures FirstIn(names, size, b, name, |names|) == 0
  {
  }

  lemma {:induction false} FirstStep(names: seq<Name>, size: nat, b: nat, name: string, n: nat)
    requires size > 0 && n < |names| && In(names[n], size, b)
    ensures FirstIn(names, size, b, name, n) ==
            if Lower(names[n].key) == name then names[n].value else FirstIn(names, size, b, name, n + 1)
  {
  }

  lemma {:induction false} NoneIn(names: seq<Name>, size: nat, b: nat, name: string, n: nat)
    requires size > 0 && n <= |names| && Sum(names, size, b, |names|) == 0
    ensures FirstIn(names, size, b, name, n) == 0
    decreases |names| - n
  {
    if n < |names| {
      SumGrows(names, size, b, n + 1, |names|);
      NoneIn(names, size, b, name, n + 1);
    }
  }

  // The address is that of an element, or of the end word of the bucket.
  lemma {:induction false} AtNext(names: seq<Name>, size: nat, line: nat, buckets: seq<nat>, mem: seq<Cell>,
      base: nat, first: nat, b: nat, n: nat)
    requires Built(names, size, line, buckets, mem, base, first) && (forall n | 0 <= n < |names| :: names[n].value != 0)
    requires b < size && buckets[b] != 0 && n <= |names| && (n < |names| ==> In(names[n], size, b))
    ensures var i := first + Place(names, size, line, b, n);
            i + 8 <= |mem| && mem[i].Word? && (mem[i].w != 0 <==> n < |names|)
  {
    hide Sum, Place;
    assert Before(names, size, line, b) >= 0;
    var i := first + Place(names, size, line, b, n);
    if n < |names| {
      assert EltAt(mem, i, names[n]);
      assert mem[i + 0] == Word(names[n].value, 0);
    } else {
      assert WordAt(mem, i, 0);
      assert mem[i + 0] == Word(0, 0);
    }
  }

  lemma {:induction false} AtElt(names: seq<Name>, size: nat, line: nat, buckets: seq<nat>, mem: seq<Cell>,
      base: nat, first: nat, b: nat, n: nat)
    requires Built(names, size, line, buckets, mem, base, first) && n < |names| && In(names[n], size, b)
    ensures var i := first + Place(names, size, line, b, n);
            && i + 10 <= |mem| && mem[i] == Word(names[n].value, 0) && mem[i + 8] == Half(|names[n].key|, 0)
            && TextAt(mem, i + 10, Lower(names[n].key))
  {
    hide Sum, Place;
    assert EltAt(mem, first + Place(names, size, line, b, n), names[n]);
  }

  // The aligned step over an element lands on the next place.
  lemma {:induction false} StepOver(names: seq<Name>, size: nat, line: nat, base: nat, first: nat, b: nat, n: nat)
    requires size > 0 && Unit(line) && n < |names| && In(names[n], size, b) && (base + first) % 8 == 0
    ensures Align(base + first + Place(names, size, line, b, n) + 10 + |names[n].key|, 8)
            == base + first + Place(names, size, line, b, n + 1)
  {
    BeforeAligned(names, size, line, b);
    var at, len := base + first + Place(names, size, line, b, n), |names[n].key|;
    assert at % 8 == 0;
    AlignFrom(at + 8, len + 2);
  }

  lemma {:induction false} AlignFrom(at: nat, x: nat)
    requires at % 8 == 0
    ensures Align(at + x, 8) == at + Align(x, 8)
  {
  }

  // Every name fits a bucket.
  predicate AllFit(names: seq<Name>, bucketSize: nat) {
    forall n | 0 <= n < |names| :: bucketSize >= Elt(names[n]) + 8
  }

  // bucket_size without the end word, in the arithmetic of size_t.
  function Room(bucketSize: nat): nat {
    (bucketSize + WORDS - 8) % WORDS
  }

  function Start(count: nat, room: nat, max: nat): (r: nat)
    requires room >= 16
    ensures max > 0 ==> r > 0
  {
    if max > 10000 && count > 0 && max / count < 100 then max - 1000
    else
      var s := count / (room / 16);
      if s == 0 then 1 else s
  }

  // The caller's side: with no names at all the division by room / 16 needs a bucket
  // size of at least 24, and the chosen size must not make a counter wrap.
  ghost predicate Buildable(names: seq<Name>, max: nat, bucketSize: nat, line: nat) {
    && bucketSize < WORDS && Unit(line) && (names == [] ==> Room(bucketSize) >= 16)
    && (max > 0 && AllFit(names, bucketSize) && Room(bucketSize) >= 16 ==>
          NoWrap(names, Chosen(names, Room(bucketSize), Start(|names|, Room(bucketSize), max), max), line))
  }

  // Small bucket sizes are enough when the search succeeds.
  lemma {:induction false} SmallBuckets(names: seq<Name>, max: nat, bucketSize: nat, line: nat)
    requires 24 <= bucketSize <= WRAP / 2 && Unit(line)
    requires max > 0 && AllFit(names, bucketSize) ==>
               exists size ::
                 Start(|names|, Room(bucketSize), max) <= size <= max && Passes(names, size, Room(bucketSize))
    ensures Buildable(names, max, bucketSize, line)
  {
    var room := Room(bucketSize);
    assert room == bucketSize - 8;
    if max > 0 && AllFit(names, bucketSize) {
      var size :| Start(|names|, room, max) <= size <= max && Passes(names, size, room);
      ChosenPasses(names, room, Start(|names|, room, max), max, size);
      PassesNoWrap(names, Chosen(names, room, Start(|names|, room, max), max), room, line);
    }
  }

  lemma {:induction false} ChosenPasses(names: seq<Name>, room: nat, start: nat, max: nat, size: nat)
    requires 0 < start <= size <= max && Passes(names, size, room)
    ensures var c := Chosen(names, room, start, max); 0 < c <= max && Passes(names, c, room)
    decreases max - start
  {
    if !Passes(names, start, room) {
      ChosenPasses(names, room, start + 1, max, size);
    }
  }

  // ngx_hash_init; base is the address of the block that the pool returns.
  method Init(names: seq<Name>, max: nat, bucketSize: nat, line: nat, base: nat)
    returns (ok: bool, size: nat, buckets: array<nat>, mem: array<Cell>, ghost first: nat)
    requires Buildable(names, max, bucketSize, line) && base > 0
    ensures ok <==> max > 0 && AllFit(names, bucketSize)
    ensures ok ==> Room(bucketSize) >= 16
    ensures ok ==> size == Chosen(names, Room(bucketSize), Start(|names|, Room(bucketSize), max), max)
    ensures ok ==> Built(names, size, line, buckets[..], mem[..], base, first)
  {
    hide Built, Bases, NoWrap, Sum, Before, Chosen, Passes;
    size, buckets, mem, first := 0, new nat[0], new Cell[0], 0;
    if max == 0 {
      return false, size, buckets, mem, first;
    }
    for n := 0 to |names|
      invariant AllFit(names[..n], bucketSize)
    {
      if bucketSize < Elt(names[n]) + 8 {
        return false, size, buckets, mem, first;
      }
    }
    assert names[..|names|] == names;
    RoomEnough(names, bucketSize);
    var test := new nat[max];
    var room := Room(bucketSize);
    var start := Start(|names|, room, max);
    size := FindSize(names, room, start, max, test);
    buckets, mem, first := Lay(names, size, line, base, test);
    ok := true;
  }

  lemma {:induction false} RoomEnough(names: seq<Name>, bucketSize: nat)
    requires AllFit(names, bucketSize) && bucketSize < WORDS && (names == [] ==> Room(bucketSize) >= 16)
    ensures Room(bucketSize) >= 16
  {
    if names != [] {
      assert Elt(names[0]) % 8 == 0 && Elt(names[0]) >= 10;
    }
  }

  // The part of ngx_hash_init after the search for a size.
  method Lay(names: seq<Name>, size: nat, line: nat, base: nat, test: array<nat>)
    returns (buckets: array<nat>, mem: array<Cell>, ghost first: nat)
    requires 0 < size <= test.Length && Unit(line) && NoWrap(names, size, line) && base > 0
    modifies test
    ensures Built(names, size, line, buckets[..], mem[..], base, first)
  {
    hide NoWrap, Sum, Before, Built, Align;
    var len := Measure(names, size, line, test);
    buckets := new nat[size](i => 0);
    mem := new Cell[len + line];
    var elts := Align(base, line);
    first := elts - base;
    PlaceBuckets(names, size, line, test, elts, buckets);
    BasesOf(names, size, line, buckets, elts, base, first);
    Fill(names, size, line, test, buckets, mem, base, first);
    Terminate(names, size, line, test, buckets, mem, base, first);
  }

  lemma {:induction false} BasesOf(names: seq<Name>, size: nat, line: nat, buckets: array<nat>, elts: nat,
      base: nat, first: nat)
    requires size > 0 && buckets.Length == size && Unit(line) && elts == base + first
    requires forall b | 0 <= b < size ::
               buckets[b] == if Sum(names, size, b, |names|) == 0 then 0 else elts + Before(names, size, line, b)
    ensures Bases(names, size, line, buckets[..], base, first)
  {
  }

  // When the hash of a name depends on the name alone, the search finds the first entry
  // with that name.
  lemma {:induction false} FindsFirst(names: seq<Name>, size: nat, hash: string -> nat, name: string, n: nat)
    requires size > 0 && n <= |names| && forall i | 0 <= i < |names| :: names[i].hash == hash(Lower(names[i].key))
    ensures FirstIn(names, size, hash(name) % size, name, n) == FirstNamed(names, name, n)
    decreases |names| - n
  {
    if n < |names| {
      FindsFirst(names, size, hash, name, n + 1);
    }
  }

  function FirstNamed(names: seq<Name>, name: string, n: nat): nat
    requires n <= |names|
    decreases |names| - n
  {
    if n == |names| then 0
    else if !names[n].gone && Lower(names[n].key) == name then names[n].value
    else FirstNamed(names, name, n + 1)
  }
}
