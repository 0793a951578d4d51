// ngx_array: arrays that grow into the free tail of the first block of their pool.

module PoolArray {
  import opened Pool

  // sizeof(ngx_array_t)
  const HEAD := 40

  // A byte of memory; bytes that were never written read as 0.
  function Read(mem: map<nat, int>, a: nat): int {
    if a in mem then mem[a] else 0
  }

  function Copy(mem: map<nat, int>, dst: nat, src: nat, n: nat): map<nat, int> {
    if n == 0 then mem else Copy(mem, dst, src, n - 1)[dst + n - 1 := Read(mem, src + n - 1)]
  }

  lemma {:induction false} CopyIs(mem: map<nat, int>, dst: nat, src: nat, n: nat, a: nat)
    ensures Read(Copy(mem, dst, src, n), a) == if dst <= a < dst + n then Read(mem, src + (a - dst)) else Read(mem, a)
  {
    if n > 0 {
      CopyIs(mem, dst, src, n - 1, a);
    }
  }

  function Bytes(mem: map<nat, int>, at: nat, n: nat): seq<int> {
    seq(n, i requires 0 <= i < n => Read(mem, at + i))
  }

  // Nothing changes outside n bytes from at.
  ghost predicate SameOutside(m: map<nat, int>, m': map<nat, int>, at: nat, n: nat) {
    forall a: nat :: !(at <= a < at + n) ==> Read(m', a) == Read(m, a)
  }

  // Memory of n bytes at a that an array can hold: a small region, or a large allocation.
  ghost predicate Holds(s: State, a: nat, n: nat) {
    (Region(a, n) in s.home && NoNode(s, Region(a, n))) || (a in s.chunks && s.chunks[a] == n && !IsBlock(s.blocks, a))
  }

  lemma {:induction false} TopIsSmall(s: State, a: nat, n: nat)
    requires Inv(s) && Holds(s, a, n) && n > 0 && |s.blocks| > 0 && a + n == s.blocks[0].last
    ensures Region(a, n) in s.home && NoNode(s, Region(a, n)) && Top(s, Region(a, n))
  {
    hide Inv;
    if a in s.chunks && s.chunks[a] == n && !IsBlock(s.blocks, a) {
      LargeOutside(s, a, 0);
    }
    LastInside(s);
  }

  lemma {:induction false} LastInside(s: State)
    requires Inv(s) && |s.blocks| > 0
    ensures s.blocks[0].addr < s.blocks[0].last <= s.blocks[0].addr + s.size
  {
    assert BlockAt(s, 0);
  }

  // A large allocation lies outside the blocks.
  lemma {:induction false} LargeOutside(s: State, a: nat, i: nat)
    requires Inv(s) && !IsBlock(s.blocks, a) && a in s.chunks && i < |s.blocks|
    ensures Apart(a, s.chunks[a], s.blocks[i].addr, s.size)
  {
    assert BlockAt(s, i) && s.blocks[i].addr != a;
  }

  // Two pieces of memory that arrays can hold at once do not overlap.
  lemma {:induction false} HoldsApart(s: State, a: nat, n: nat, b: nat, m: nat)
    requires Inv(s) && Holds(s, a, n) && Holds(s, b, m) && n > 0 && m > 0 && a != b
    ensures Apart(a, n, b, m)
  {
    if Region(a, n) in s.home && Region(b, m) in s.home {
    } else if Region(a, n) in s.home {
      SmallAndLarge(s, Region(a, n), b);
    } else if Region(b, m) in s.home {
      SmallAndLarge(s, Region(b, m), a);
    }
  }

  lemma {:induction false} SmallAndLarge(s: State, r: Region, a: nat)
    requires Inv(s) && r in s.home && a in s.chunks && !IsBlock(s.blocks, a)
    ensures Apart(r.addr, r.size, a, s.chunks[a])
  {
    assert RegionAt(s, r) && BlockAt(s, s.home[r]);
    LargeOutside(s, a, s.home[r]);
  }

  class Array {
    const pool: Pool
    const head: nat       // where the ngx_array_t itself is
    const size: nat
    var elts: nat
    var nelts: nat
    var nalloc: nat

    ghost predicate Valid()
      reads this, pool
    {
      Inv(pool.S()) && size > 0 && nalloc >= 1 && nelts <= nalloc && Holds(pool.S(), elts, size * nalloc)
    }

    ghost function Contents(): seq<int>
      reads this, pool
    {
      Bytes(pool.mem, elts, size * nelts)
    }

    // ngx_array_init: room for n elements.
    constructor (pool: Pool, head: nat, n: nat, size: nat, p: nat, m: nat)
      requires Inv(pool.S()) && n >= 1 && size > 0 && (p != 0 ==> Fresh(pool.S(), p, n * size))
      requires m != 0 ==> Fresh(pool.S(), m, pool.size) && (p != 0 ==> m != p && Apart(p, n * size, m, pool.size))
      modifies pool
      ensures this.pool == pool && this.head == head && this.size == size
      ensures Inv(pool.S()) && Kept(old(pool.S()), pool.S()) && pool.mem == old(pool.mem)
      ensures if elts == 0 then pool.S() == old(pool.S()) else Valid() && nelts == 0 && nalloc == n
    {
      this.pool, this.head, this.size, nelts, nalloc := pool, head, size, 0, n;
      var e := pool.Palloc(n * size, p, m);
      elts := e;
      new;
      Product(size, n);
      if e != 0 {
        GrantedHolds(old(pool.S()), pool.S(), e, n * size);
      }
    }

    // The array ends where the free tail of the first block begins, and the tail has
    // room: the array grows in place.
    method Stretch(n: nat)
      requires Valid() && elts + size * nalloc == pool.blocks[0].last
      requires pool.blocks[0].last + size * n <= pool.blocks[0].addr + pool.size
      modifies this`nalloc, pool`blocks, pool`home
      ensures Valid() && nalloc == old(nalloc) + n && Around(old(pool.S()), pool.S(), Region(elts, size * old(nalloc)))
    {
      hide Inv;
      AnyBlock(pool.S(), 0);
      Product(size, nalloc);
      Distribute(size, nalloc, n);
      TopIsSmall(pool.S(), elts, size * nalloc);
      ghost var r := Region(elts, size * nalloc);
      StretchedKeeps(pool.S(), r, size * n);
      pool.blocks := pool.blocks[0 := pool.blocks[0].(last := pool.blocks[0].last + size * n)];
      pool.home := (pool.home - {r})[Region(elts, size * nalloc + size * n) := 0];
      nalloc := nalloc + n;
    }

    // A new place for the array, with its elements copied.
    method Move(total: nat, count: nat, p: nat, m: nat) returns (ok: bool)
      requires Valid() && total > nalloc && count == size * nelts && total * size >= 1
      requires p != 0 ==> Fresh(pool.S(), p, total * size)
      requires m != 0 ==> Fresh(pool.S(), m, pool.size) && (p != 0 ==> m != p && Apart(p, total * size, m, pool.size))
      modifies this`nalloc, this`elts, pool
      ensures Valid() && Kept(old(pool.S()), pool.S())
      ensures if ok then nalloc == total && Contents() == old(Contents())
                         && SameOutside(old(pool.mem), pool.mem, elts, size * nalloc)
              else nalloc == old(nalloc) && elts == old(elts) && pool.S() == old(pool.S()) && pool.mem == old(pool.mem)
    {
      hide Inv, Holds, Fresh, Granted, IsLarge, Copy, Bytes, SameOutside;
      ghost var before := pool.S();
      Product(size, total);
      Product(size, nalloc);
      var e := pool.Palloc(total * size, p, m);
      if e == 0 {
        KeptSelf(pool.S());
        return false;
      }
      FreshIsNew(before, p, total * size);
      MoveApart(before, pool.S(), elts, size * nalloc, e, total * size);
      CopyKeeps(pool.mem, e, elts, count);
      MulGrows(size, nelts, total);
      Wider(pool.mem, Copy(pool.mem, e, elts, count), e, count, size * total);
      pool.mem := Copy(pool.mem, e, elts, count);
      elts := e;
      nalloc := total;
      ok := true;
    }

    // What a push leaves alone: the regions of others, and all bytes outside the array.
    twostate predicate OthersStay()
      reads this, pool
    {
      && (forall q | q in old(pool.home) && q != Region(old(elts), size * old(nalloc)) :: q in pool.home)
      && (forall c | c in old(pool.chunks) :: c in pool.chunks && pool.chunks[c] == old(pool.chunks)[c])
      && SameOutside(old(pool.mem), pool.mem, elts, size * nalloc)
    }

    // Room for n more elements, in place or by moving to room for total.
    method Grow(n: nat, total: nat, p: nat, m: nat) returns (ok: bool)
      requires Valid() && n >= 1 && total > nalloc && total * size >= 1
      requires p != 0 ==> Fresh(pool.S(), p, total * size)
      requires m != 0 ==> Fresh(pool.S(), m, pool.size) && (p != 0 ==> m != p && Apart(p, total * size, m, pool.size))
      modifies this`nalloc, this`elts, pool
      ensures Valid() && Contents() == old(Contents()) && OthersStay()
      ensures if ok then nalloc == old(nalloc) + n || nalloc == total
              else nalloc == old(nalloc) && elts == old(elts) && pool.S() == old(pool.S()) && pool.mem == old(pool.mem)
    {
      AnyBlock(pool.S(), 0);
      var last, end := pool.blocks[0].last, pool.blocks[0].addr + pool.size;
      if elts + size * nalloc == last && last + size * n <= end {
        Stretch(n);
        return true;
      }
      ok := Move(total, size * nelts, p, m);
    }

    // ngx_array_push
    method Push(p: nat, m: nat) returns (elt: nat)
      requires Valid() && (p != 0 ==> Fresh(pool.S(), p, 2 * nalloc * size))
      requires m != 0 ==> Fresh(pool.S(), m, pool.size) && (p != 0 ==>
                 m != p && Apart(p, 2 * nalloc * size, m, pool.size))
      modifies this, pool
      ensures Valid() && OthersStay()
      ensures elt == 0 ==> nelts == old(nelts) && Contents() == old(Contents())
      ensures elt != 0 ==> nelts == old(nelts) + 1 && elt == elts + size * old(nelts)
      ensures elt != 0 ==> old(Contents()) <= Contents()
    {
      hide Inv, Holds, Fresh;
      if nelts == nalloc {
        Product(size, 2 * nalloc);
        var ok := Grow(1, 2 * nalloc, p, m);
        if !ok {
          return 0;
        }
      }
      elt := elts + size * nelts;
      NotNull(pool.S(), elts, size * nalloc);
      MorePrefix(pool.mem, elts, size, nelts, nelts + 1);
      nelts := nelts + 1;
    }

    // ngx_array_push_n
    method PushN(n: nat, p: nat, m: nat) returns (elt: nat)
      requires Valid() && (p != 0 ==> Fresh(pool.S(), p, Doubled(n, nalloc) * size))
      requires m != 0 ==> Fresh(pool.S(), m, pool.size) && (p != 0 ==>
                 m != p && Apart(p, Doubled(n, nalloc) * size, m, pool.size))
      modifies this, pool
      ensures Valid() && OthersStay()
      ensures elt == 0 ==> nelts == old(nelts) && Contents() == old(Contents())
      ensures elt != 0 ==> nelts == old(nelts) + n && elt == elts + size * old(nelts)
      ensures elt != 0 ==> old(Contents()) <= Contents()
    {
      hide Inv, Holds, Fresh;
      if nelts + n > nalloc {
        Product(size, Doubled(n, nalloc));
        var ok := Grow(n, Doubled(n, nalloc), p, m);
        if !ok {
          return 0;
        }
      }
      elt := elts + size * nelts;
      NotNull(pool.S(), elts, size * nalloc);
      MorePrefix(pool.mem, elts, size, nelts, nelts + n);
      nelts := nelts + n;
    }

    // The ngx_array_t is a region of its own, or not in the first block.
    ghost predicate HeadApart()
      reads this, pool
    {
      || (Region(head, HEAD) in pool.home && NoNode(pool.S(), Region(head, HEAD)) && head != elts)
      || (|pool.blocks| > 0 && !(pool.blocks[0].addr + POOL <= head + HEAD <= pool.blocks[0].addr + pool.size))
    }

    // ngx_array_destroy
    method Destroy()
      requires Valid() && HeadApart()
      modifies pool`blocks, pool`home
      ensures Inv(pool.S())
      ensures forall q | q in old(pool.home) && q != Region(elts, size * nalloc)
              && q != Region(head, HEAD) :: q in pool.home
      ensures old(Top(pool.S(), Region(elts, size * nalloc))) ==> pool.blocks[0].last <= elts
    {
      hide Inv;
      AnyBlock(pool.S(), 0);
      Product(size, nalloc);
      if elts + size * nalloc == pool.blocks[0].last {
        TopIsSmall(pool.S(), elts, size * nalloc);
        CutKeeps(pool.S(), Region(elts, size * nalloc));
        pool.blocks := pool.blocks[0 := pool.blocks[0].(last := pool.blocks[0].last - size * nalloc)];
        pool.home := pool.home - {Region(elts, size * nalloc)};
      }
      AnyBlock(pool.S(), 0);
      if head + HEAD == pool.blocks[0].last {
        CutKeeps(pool.S(), Region(head, HEAD));
        pool.blocks := pool.blocks[0 := pool.blocks[0].(last := head)];
        pool.home := pool.home - {Region(head, HEAD)};
      }
    }
  }

  // The new capacity of ngx_array_push_n.
  function Doubled(n: nat, nalloc: nat): nat {
    2 * if n >= nalloc then n else nalloc
  }

  lemma {:induction false} NotNull(s: State, a: nat, n: nat)
    requires Inv(s) && Holds(s, a, n)
    ensures a > 0
  {
    if Region(a, n) in s.home {
      assert RegionAt(s, Region(a, n)) && BlockAt(s, s.home[Region(a, n)]);
    }
  }

  lemma {:induction false} MorePrefix(mem: map<nat, int>, at: nat, size: nat, a: nat, b: nat)
    requires a <= b
    ensures Bytes(mem, at, size * a) <= Bytes(mem, at, size * b)
  {
    MulGrows(size, a, b);
  }

  lemma {:induction false} Product(size: nat, n: nat)
    requires size > 0 && n >= 1
    ensures size * n >= 1 && size * n == n * size
  {
  }

  lemma {:induction false} Distribute(size: nat, a: nat, b: nat)
    ensures size * (a + b) == size * a + size * b
  {
  }

  lemma {:induction false} FreshIsNew(s: State, p: nat, n: nat)
    requires p != 0 ==> Fresh(s, p, n)
    ensures p != 0 ==> p !in s.chunks
  {
  }

  lemma {:induction false} Wider(m: map<nat, int>, m': map<nat, int>, at: nat, n: nat, wide: nat)
    requires SameOutside(m, m', at, n) && n <= wide
    ensures SameOutside(m, m', at, wide)
  {
  }

  lemma {:induction false} MulGrows(size: nat, a: nat, b: nat)
    requires a <= b
    ensures size * a <= size * b
  {
  }

  // All regions but r stay.
  ghost predicate Around(s: State, t: State, r: Region) {
    && t.chunks == s.chunks && t.large == s.large
    && forall q | q in s.home && q != r :: q in t.home
  }

  lemma {:induction false} HoldsStill(s: State, t: State, a: nat, n: nat)
    requires Kept(s, t) && Holds(s, a, n)
    ensures Holds(t, a, n)
  {
    if a in s.chunks && IsBlock(t.blocks, a) {
      var k :| 0 <= k < |t.blocks| && t.blocks[k].addr == a;
      assert k < |s.blocks| && s.blocks[k].addr == a;
    }
  }

  lemma {:induction false} GrantedHolds(s: State, t: State, e: nat, n: nat)
    requires Inv(s) && Inv(t) && n > 0 && e != 0
    requires if n <= s.max then Granted(s, t, e, n) && t.large == s.large
               else e in t.chunks && t.chunks[e] == n && IsLarge(t.large, e)
    ensures Holds(t, e, n)
  {
    if n > s.max {
      var k :| 0 <= k < |t.large| && t.large[k].alloc == e;
    } else {
      forall i | 0 <= i < |t.large|
        ensures Region(t.large[i].node, LARGE) != Region(e, n)
      {
        assert Region(s.large[i].node, LARGE) in s.home;
      }
    }
  }

  lemma {:induction false} MoveApart(s: State, t: State, a: nat, n: nat, e: nat, m: nat)
    requires Inv(s) && Inv(t) && Kept(s, t) && Holds(s, a, n) && n > 0 && m > 0 && e != 0
    requires if m <= s.max then Granted(s, t, e, m) && t.large == s.large
             else e !in s.chunks && e in t.chunks && t.chunks[e] == m && IsLarge(t.large, e)
    ensures Holds(t, e, m) && Apart(a, n, e, m)
  {
    hide Inv;
    GrantedHolds(s, t, e, m);
    HoldsStill(s, t, a, n);
    OtherPlace(s, t, a, n, e, m);
    HoldsApart(t, a, n, e, m);
  }

  lemma {:induction false} OtherPlace(s: State, t: State, a: nat, n: nat, e: nat, m: nat)
    requires Inv(s) && Inv(t) && Kept(s, t) && Holds(s, a, n) && n > 0 && m > 0 && e != 0
    requires if m <= s.max then Granted(s, t, e, m) && t.large == s.large
             else e !in s.chunks && e in t.chunks && t.chunks[e] == m && IsLarge(t.large, e)
    ensures a != e
  {
    HoldsStill(s, t, a, n);
    GrantedHolds(s, t, e, m);
    if Region(a, n) in s.home && m > s.max {
      SmallAndLarge(t, Region(a, n), e);
    } else if Region(a, n) !in s.home && m <= s.max {
      SmallAndLarge(t, Region(e, m), a);
    }
  }

  lemma {:induction false} CopyKeeps(mem: map<nat, int>, dst: nat, src: nat, n: nat)
    ensures Bytes(Copy(mem, dst, src, n), dst, n) == Bytes(mem, src, n)
    ensures SameOutside(mem, Copy(mem, dst, src, n), dst, n)
  {
    var mem' := Copy(mem, dst, src, n);
    forall i | 0 <= i < n
      ensures Bytes(mem', dst, n)[i] == Bytes(mem, src, n)[i]
    {
      CopyIs(mem, dst, src, n, dst + i);
    }
    forall a: nat | !(dst <= a < dst + n)
      ensures Read(Copy(mem, dst, src, n), a) == Read(mem, a)
    {
      CopyIs(mem, dst, src, n, a);
    }
  }
}
