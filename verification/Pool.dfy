// ngx_palloc: the pool allocator, with memory as ranges of addresses.

module Pool {
  const WORD := 0x1_0000_0000_0000_0000
  const POOL := 80          // sizeof(ngx_pool_t)
  const DATA := 32          // sizeof(ngx_pool_data_t)
  const LARGE := 16         // sizeof(ngx_pool_large_t)

  // One block of the pool; the blocks stand in the order of their next links.
  datatype Block = Block(addr: nat, last: nat, failed: nat)

  // ngx_pool_large_t: the address of the list node and the memory it stands for, 0 for NULL.
  datatype Large = Large(node: nat, alloc: nat)

  // Memory that a caller holds.
  datatype Region = Region(addr: nat, size: nat)

  predicate Apart(a: nat, n: nat, b: nat, m: nat) {
    a + n <= b || b + m <= a
  }

  // ngx_align_ptr with NGX_ALIGNMENT
  function Align(x: nat): (r: nat)
    ensures x <= r < x + 8 && r % 8 == 0
  {
    (x + 7) / 8 * 8
  }

  // Subtraction of pointers as a size_t.
  function Minus(a: nat, b: nat): nat {
    (a - b) % WORD
  }

  // A pool never hands out memory past its end exactly when its size is a multiple of
  // the alignment: otherwise an aligned pointer can lie past the end, and the size that
  // is left over becomes huge.
  lemma {:induction false} AlignedSize(addr: nat, size: nat)
    requires addr % 16 == 0 && size > 0
    ensures (forall last | addr <= last <= addr + size :: Align(last) <= addr + size) <==> size % 8 == 0
  {
    hide Align;
    EndAligned(addr, size);
    if size % 8 != 0 {
      assert Align(addr + size) % 8 == 0;
    } else {
      forall last | addr <= last <= addr + size
        ensures Align(last) <= addr + size
      {
        AlignBelow(last, addr + size);
      }
    }
  }

  // The test of ngx_palloc_small lets a request through that does not fit.
  ghost predicate Overrun(addr: nat, size: nat, last: nat, n: nat) {
    addr <= last <= addr + size && n <= Minus(addr + size, Align(last)) && Align(last) + n > addr + size
  }

  // For some free position and request, exactly when the size is not a multiple of the alignment.
  lemma {:induction false} OverrunIff(addr: nat, size: nat)
    requires addr % 16 == 0 && size > 0 && addr + size + 8 < WORD
    ensures (exists last: nat, n: nat :: Overrun(addr, size, last, n)) <==> size % 8 != 0
  {
    hide Align;
    var end := addr + size;
    if size % 8 != 0 {
      assert end - Align(end) < 0 && Minus(end, Align(end)) == WORD + (end - Align(end));
      assert Overrun(addr, size, end, 1);
    } else {
      AlignedSize(addr, size);
      forall last: nat, n: nat
        ensures !Overrun(addr, size, last, n)
      {
        if addr <= last <= end {
          assert Align(last) <= end && Minus(end, Align(last)) == end - Align(last);
        }
      }
    }
  }

  // A pool of 100 bytes at 4096, full up to byte 98: one more aligned byte would be at 4200,
  // behind the end, and the test passes.
  lemma {:induction false} UnalignedPool()
    ensures Overrun(4096, 100, 4096 + 98, 1) && Align(4096 + 98) == 4096 + 104
  {
  }

  lemma {:induction false} AlignBelow(x: nat, end: nat)
    requires x <= end && end % 8 == 0
    ensures Align(x) <= end
  {
  }

  // A pool: home gives the block of every live small region, chunks the memory that
  // came from the system and has not gone back.
  datatype State = State(size: nat, max: nat, blocks: seq<Block>, current: nat, large: seq<Large>,
                         home: map<Region, nat>, chunks: map<nat, nat>)

  // New memory from the system.
  ghost predicate Fresh(s: State, m: nat, n: nat) {
    m > 0 && m % 16 == 0 && m + n < WORD && m !in s.chunks && forall c | c in s.chunks :: Apart(m, n, c, s.chunks[c])
  }

  // Where the memory for callers begins in a block.
  function Floor(b: Block, i: nat): nat {
    b.addr + if i == 0 then POOL else DATA
  }

  ghost predicate BlockAt(s: State, i: nat)
    requires i < |s.blocks|
  {
    var b := s.blocks[i];
    && b.addr > 0 && b.addr % 16 == 0 && b.addr + s.size < WORD && b.addr in s.chunks && s.chunks[b.addr] == s.size
    && Floor(b, i) <= b.last <= b.addr + s.size
  }

  ghost predicate Blocks(s: State) {
    && s.size >= POOL && s.size % 8 == 0 && s.max <= s.size - POOL && s.current < |s.blocks|
    && (forall i {:trigger BlockAt(s, i)} | 0 <= i < |s.blocks| :: BlockAt(s, i))
    && forall i, j | 0 <= i < j < |s.blocks| :: Apart(s.blocks[i].addr, s.size, s.blocks[j].addr, s.size)
  }

  ghost predicate RegionAt(s: State, r: Region)
    requires r in s.home
  {
    && r.size > 0 && s.home[r] < |s.blocks|
    && var b := s.blocks[s.home[r]]; Floor(b, s.home[r]) <= r.addr && r.addr + r.size <= b.last
  }

  // Live small regions are in bounds and disjoint.
  ghost predicate Regions(s: State) {
    && (forall r {:trigger RegionAt(s, r)} | r in s.home :: RegionAt(s, r))
    && forall r, t | r in s.home && t in s.home && r != t :: Apart(r.addr, r.size, t.addr, t.size)
  }

  ghost predicate IsBlock(blocks: seq<Block>, c: nat) {
    exists k :: 0 <= k < |blocks| && blocks[k].addr == c
  }

  ghost predicate IsLarge(large: seq<Large>, c: nat) {
    exists k :: 0 <= k < |large| && large[k].alloc == c
  }

  // Every chunk is a block or belongs to one node of the list of large allocations.
  ghost predicate Chunks(s: State) {
    && 0 !in s.chunks
    && (forall c, d | c in s.chunks && d in s.chunks && c != d :: Apart(c, s.chunks[c], d, s.chunks[d]))
    && (forall i | 0 <= i < |s.large| :: Region(s.large[i].node, LARGE) in s.home)
    && (forall i | 0 <= i < |s.large| && s.large[i].alloc != 0 ::
          s.large[i].alloc in s.chunks && !IsBlock(s.blocks, s.large[i].alloc))
    && (forall i, j | 0 <= i < j < |s.large| && s.large[i].alloc != 0 :: s.large[i].alloc != s.large[j].alloc)
    && (forall c | c in s.chunks :: IsBlock(s.blocks, c) || IsLarge(s.large, c))
  }

  ghost predicate Inv(s: State) {
    Blocks(s) && Regions(s) && Chunks(s)
  }

  // t grants n bytes at p on top of s.
  ghost predicate Granted(s: State, t: State, p: nat, n: nat) {
    && p > 0
    && if n == 0 then t.home == s.home
       else Region(p, n) !in s.home && Region(p, n) in t.home && t.home == s.home[Region(p, n) := t.home[Region(p, n)]]
  }

  // d.last moves over a new region.
  function Taken(s: State, i: nat, at: nat, n: nat): State
    requires i < |s.blocks|
  {
    s.(blocks := s.blocks[i := s.blocks[i].(last := at + n)], home := if n > 0 then s.home[Region(at, n) := i]
        else s.home)
  }

  ghost predicate Room(s: State, i: nat, at: nat, n: nat) {
    i < |s.blocks| && s.blocks[i].last <= at && at + n <= s.blocks[i].addr + s.size
  }

  lemma {:induction false} TakenRegions(s: State, i: nat, at: nat, n: nat)
    requires Blocks(s) && Regions(s) && Room(s, i, at, n)
    ensures Regions(Taken(s, i, at, n)) && Granted(s, Taken(s, i, at, n), at, n)
  {
    var t := Taken(s, i, at, n);
    assert BlockAt(s, i);
    if n > 0 {
      forall r | r in s.home
        ensures Apart(r.addr, r.size, at, n)
      {
        assert RegionAt(s, r) && BlockAt(s, s.home[r]);
      }
    }
    forall r | r in t.home
      ensures RegionAt(t, r)
    {
      assert r in s.home ==> RegionAt(s, r);
    }
  }

  lemma {:induction false} TakenKeeps(s: State, i: nat, at: nat, n: nat)
    requires Inv(s) && Room(s, i, at, n)
    ensures Inv(Taken(s, i, at, n)) && Granted(s, Taken(s, i, at, n), at, n)
  {
    var t := Taken(s, i, at, n);
    TakenRegions(s, i, at, n);
    forall j | 0 <= j < |t.blocks|
      ensures BlockAt(t, j)
    {
      assert BlockAt(s, j);
    }
    SameBases(s, t);
  }

  // ngx_palloc_block: a new block with a first region.
  function Grown(s: State, m: nat, n: nat, failed: seq<Block>, current: nat): State {
    s.(blocks := failed + [Block(m, m + DATA + n, 0)], current := current, chunks := s.chunks[m := s.size],
       home := if n > 0 then s.home[Region(m + DATA, n) := |failed|] else s.home)
  }

  // The blocks differ at most in their failure counts.
  ghost predicate SameBlocks(a: seq<Block>, b: seq<Block>) {
    |a| == |b| && forall i | 0 <= i < |a| :: a[i].addr == b[i].addr && a[i].last == b[i].last
  }

  lemma {:induction false} GrownRegions(s: State, m: nat, n: nat, failed: seq<Block>, current: nat)
    requires Blocks(s) && Regions(s) && Fresh(s, m, s.size) && DATA + n <= s.size && SameBlocks(s.blocks, failed)
    ensures Regions(Grown(s, m, n, failed, current)) && Granted(s, Grown(s, m, n, failed, current), m + DATA, n)
  {
    var t := Grown(s, m, n, failed, current);
    forall r | r in s.home
      ensures Apart(r.addr, r.size, m, s.size)
    {
      assert RegionAt(s, r) && BlockAt(s, s.home[r]);
    }
    forall r | r in t.home
      ensures RegionAt(t, r)
    {
      assert r in s.home ==> RegionAt(s, r);
    }
  }

  lemma {:induction false} GrownBlocks(s: State, m: nat, n: nat, failed: seq<Block>, current: nat)
    requires Blocks(s) && Fresh(s, m, s.size) && DATA + n <= s.size && SameBlocks(s.blocks, failed)
             && current < |s.blocks|
    ensures Blocks(Grown(s, m, n, failed, current))
  {
    var t := Grown(s, m, n, failed, current);
    assert |failed| > 0;
    forall j | 0 <= j < |t.blocks|
      ensures BlockAt(t, j)
    {
      assert j < |s.blocks| ==> BlockAt(s, j);
    }
    forall i, j | 0 <= i < j < |t.blocks|
      ensures Apart(t.blocks[i].addr, s.size, t.blocks[j].addr, s.size)
    {
      assert BlockAt(s, i);
    }
  }

  lemma {:induction false} GrownChunks(s: State, m: nat, n: nat, failed: seq<Block>, current: nat)
    requires Blocks(s) && Chunks(s) && Fresh(s, m, s.size) && SameBlocks(s.blocks, failed)
    ensures Chunks(Grown(s, m, n, failed, current))
  {
    var t := Grown(s, m, n, failed, current);
    assert t.blocks[|failed|].addr == m;
    forall c
      ensures IsBlock(t.blocks, c) <==> IsBlock(s.blocks, c) || c == m
    {
      if IsBlock(s.blocks, c) {
        var k :| 0 <= k < |s.blocks| && s.blocks[k].addr == c;
        assert t.blocks[k].addr == c;
      }
      if IsBlock(t.blocks, c) {
        var k :| 0 <= k < |t.blocks| && t.blocks[k].addr == c;
        assert k < |failed| ==> s.blocks[k].addr == c;
      }
    }
  }

  // Blocks and regions do not depend on the list of large allocations.
  lemma {:induction false} OtherLarge(s: State, t: State)
    requires Blocks(s) && Regions(s) && t == s.(large := t.large, chunks := t.chunks)
    requires forall k | 0 <= k < |s.blocks| :: s.blocks[k].addr in t.chunks && t.chunks[s.blocks[k].addr] == s.size
    ensures Blocks(t) && Regions(t)
  {
    forall j | 0 <= j < |t.blocks|
      ensures BlockAt(t, j)
    {
      assert BlockAt(s, j);
    }
    forall r | r in t.home
      ensures RegionAt(t, r)
    {
      assert RegionAt(s, r);
    }
  }

  lemma {:induction false} BlocksAreChunks(s: State)
    requires Blocks(s)
    ensures forall k | 0 <= k < |s.blocks| :: s.blocks[k].addr in s.chunks && s.chunks[s.blocks[k].addr] == s.size
  {
    forall k | 0 <= k < |s.blocks|
      ensures s.blocks[k].addr in s.chunks && s.chunks[s.blocks[k].addr] == s.size
    {
      assert BlockAt(s, k);
    }
  }

  // ngx_pfree and the ends of a pool: the memory of a list node goes back.
  function FreedAt(s: State, i: nat): State
    requires i < |s.large|
  {
    s.(large := s.large[i := s.large[i].(alloc := 0)], chunks := s.chunks - {s.large[i].alloc})
  }

  lemma {:induction false} FreedKeeps(s: State, i: nat)
    requires Inv(s) && i < |s.large| && s.large[i].alloc != 0
    ensures Inv(FreedAt(s, i))
  {
    hide Regions, Blocks;
    var t, c := FreedAt(s, i), s.large[i].alloc;
    BlocksAreChunks(s);
    forall k | 0 <= k < |s.blocks|
      ensures s.blocks[k].addr != c
    {
      assert IsBlock(s.blocks, s.blocks[k].addr);
    }
    OtherLarge(s, t);
    forall d | d in t.chunks
      ensures IsBlock(t.blocks, d) || IsLarge(t.large, d)
    {
      if !IsBlock(s.blocks, d) {
        var k :| 0 <= k < |s.large| && s.large[k].alloc == d;
        assert t.large[k].alloc == d;
      }
    }
    forall k | 0 <= k < |t.large| && t.large[k].alloc != 0
      ensures t.large[k].alloc in t.chunks && !IsBlock(t.blocks, t.large[k].alloc)
    {
      assert t.large[k] == s.large[k] && s.large[k].alloc != c;
    }
  }

  // ngx_palloc_large and ngx_pmemalign: new memory for a node that has none.
  function Attached(s: State, i: nat, p: nat, n: nat): State
    requires i < |s.large|
  {
    s.(large := s.large[i := s.large[i].(alloc := p)], chunks := s.chunks[p := n])
  }

  lemma {:induction false} AttachedKeeps(s: State, i: nat, p: nat, n: nat)
    requires Inv(s) && Fresh(s, p, n) && i < |s.large| && s.large[i].alloc == 0
    ensures Inv(Attached(s, i, p, n))
  {
    var t := Attached(s, i, p, n);
    BlocksAreChunks(s);
    OtherLarge(s, t);
    forall c | c in t.chunks
      ensures IsBlock(t.blocks, c) || IsLarge(t.large, c)
    {
      if c == p {
        assert t.large[i].alloc == c;
      } else if !IsBlock(s.blocks, c) {
        var k :| 0 <= k < |s.large| && s.large[k].alloc == c;
        assert t.large[k].alloc == c;
      }
    }
    forall j, k | 0 <= j < k < |t.large| && t.large[j].alloc != 0
      ensures t.large[j].alloc != t.large[k].alloc
    {
      assert k != i ==> t.large[k] == s.large[k];
      assert j != i ==> t.large[j] == s.large[j];
    }
  }

  // A node without memory in front of the list.
  function WithNode(s: State, node: nat): State {
    s.(large := [Large(node, 0)] + s.large)
  }

  lemma {:induction false} NodeKeeps(s: State, node: nat)
    requires Inv(s) && Region(node, LARGE) in s.home
    ensures Inv(WithNode(s, node))
  {
    var t := WithNode(s, node);
    BlocksAreChunks(s);
    OtherLarge(s, t);
    hide Blocks, Regions;
    forall i | 0 <= i < |t.large|
      ensures Region(t.large[i].node, LARGE) in t.home
      ensures t.large[i].alloc != 0 ==> t.large[i].alloc in t.chunks && !IsBlock(t.blocks, t.large[i].alloc)
      ensures t.large[i].alloc != 0 ==> forall j | i < j < |t.large| :: t.large[i].alloc != t.large[j].alloc
    {
      if i > 0 {
        assert t.large[i] == s.large[i - 1];
        assert forall j | i < j < |t.large| :: t.large[j] == s.large[j - 1];
      }
    }
    forall c | c in t.chunks
      ensures IsBlock(t.blocks, c) || IsLarge(t.large, c)
    {
      if !IsBlock(s.blocks, c) {
        var k :| 0 <= k < |s.large| && s.large[k].alloc == c;
        assert t.large[k + 1].alloc == c;
      }
    }
  }

  // The first block gives back its topmost memory: regions from at on are gone.
  function Cut(s: State, at: nat, gone: Region): State
    requires |s.blocks| > 0
  {
    s.(blocks := s.blocks[0 := s.blocks[0].(last := at)], home := s.home - {gone})
  }

  // r is the topmost region of the first block.
  ghost predicate Top(s: State, r: Region) {
    |s.blocks| > 0 && r in s.home && r.addr + r.size == s.blocks[0].last
  }

  lemma {:induction false} TopIsFirst(s: State, r: Region)
    requires Blocks(s) && Regions(s) && Top(s, r)
    ensures s.home[r] == 0
    ensures forall t | t in s.home && s.home[t] == 0 && t != r :: t.addr + t.size <= r.addr
  {
    assert RegionAt(s, r) && BlockAt(s, 0) && BlockAt(s, s.home[r]);
    forall t | t in s.home && s.home[t] == 0 && t != r
      ensures t.addr + t.size <= r.addr
    {
      assert RegionAt(s, t);
    }
  }

  // A region that is not the node of a large allocation.
  ghost predicate NoNode(s: State, r: Region) {
    forall i | 0 <= i < |s.large| :: Region(s.large[i].node, LARGE) != r
  }

  lemma {:induction false} CutKeeps(s: State, r: Region)
    requires Inv(s) && Top(s, r) && NoNode(s, r)
    ensures Inv(Cut(s, r.addr, r))
  {
    var t := Cut(s, r.addr, r);
    TopIsFirst(s, r);
    assert RegionAt(s, r);
    forall j | 0 <= j < |t.blocks|
      ensures BlockAt(t, j)
    {
      assert BlockAt(s, j);
    }
    forall q | q in t.home
      ensures RegionAt(t, q)
    {
      assert RegionAt(s, q);
    }
    SameBases(s, t);
  }

  lemma {:induction false} SameBases(s: State, t: State)
    requires Chunks(s) && t.chunks == s.chunks && t.large == s.large && |t.blocks| == |s.blocks|
    requires forall k | 0 <= k < |s.blocks| :: t.blocks[k].addr == s.blocks[k].addr
    requires forall i | 0 <= i < |s.large| :: Region(s.large[i].node, LARGE) in t.home
    ensures Chunks(t)
  {
    forall c
      ensures IsBlock(t.blocks, c) <==> IsBlock(s.blocks, c)
    {
      if IsBlock(s.blocks, c) {
        var k :| 0 <= k < |s.blocks| && s.blocks[k].addr == c;
        assert t.blocks[k].addr == c;
      }
      if IsBlock(t.blocks, c) {
        var k :| 0 <= k < |t.blocks| && t.blocks[k].addr == c;
        assert s.blocks[k].addr == c;
      }
    }
  }

  // The topmost region of the first block grows by n bytes.
  function Stretched(s: State, r: Region, n: nat): State
    requires |s.blocks| > 0
  {
    s.(blocks := s.blocks[0 := s.blocks[0].(last := s.blocks[0].last + n)],
       home := (s.home - {r})[Region(r.addr, r.size + n) := 0])
  }

  lemma {:induction false} StretchedKeeps(s: State, r: Region, n: nat)
    requires Inv(s) && Top(s, r) && NoNode(s, r) && s.blocks[0].last + n <= s.blocks[0].addr + s.size
    ensures Inv(Stretched(s, r, n)) && NoNode(Stretched(s, r, n), Region(r.addr, r.size + n))
  {
    var t, r' := Stretched(s, r, n), Region(r.addr, r.size + n);
    StretchedRegions(s, r, n);
    forall j | 0 <= j < |t.blocks|
      ensures BlockAt(t, j)
    {
      assert BlockAt(s, j);
    }
    forall i | 0 <= i < |s.large|
      ensures Region(s.large[i].node, LARGE) in t.home && Region(s.large[i].node, LARGE) != r'
    {
      var q := Region(s.large[i].node, LARGE);
      assert q in s.home && q != r;
      assert Apart(q.addr, q.size, r'.addr, r'.size) && RegionAt(s, q);
    }
    hide Regions;
    SameBases(s, t);
  }

  lemma {:induction false} StretchedRegions(s: State, r: Region, n: nat)
    requires Blocks(s) && Regions(s) && Top(s, r) && s.blocks[0].last + n <= s.blocks[0].addr + s.size
    ensures Regions(Stretched(s, r, n))
    ensures forall q | q in s.home && q != r :: Apart(q.addr, q.size, r.addr, r.size + n)
  {
    var t, r' := Stretched(s, r, n), Region(r.addr, r.size + n);
    TopIsFirst(s, r);
    assert RegionAt(s, r);
    forall q | q in s.home && q != r
      ensures Apart(q.addr, q.size, r'.addr, r'.size)
    {
      assert RegionAt(s, q) && BlockAt(s, s.home[q]) && BlockAt(s, 0);
    }
    forall q | q in t.home
      ensures RegionAt(t, q)
    {
      assert q != r' ==> RegionAt(s, q);
    }
  }

  // ngx_reset_pool and ngx_destroy_pool give every large allocation back.
  ghost predicate NoLarge(s: State) {
    forall i | 0 <= i < |s.large| :: s.large[i].alloc == 0
  }

  // Regions stay where they are, and blocks stay in place.
  ghost predicate Kept(s: State, t: State) {
    && (forall r | r in s.home :: r in t.home && t.home[r] == s.home[r])
    && (forall c | c in s.chunks :: c in t.chunks && t.chunks[c] == s.chunks[c])
    && (forall r | r in s.home && NoNode(s, r) :: NoNode(t, r))
    && |s.blocks| <= |t.blocks|
    && (forall i | 0 <= i < |s.blocks| :: t.blocks[i].addr == s.blocks[i].addr)
    && (forall i | |s.blocks| <= i < |t.blocks| :: t.blocks[i].addr !in s.chunks)
  }

  lemma {:induction false} KeptSame(s: State)
    ensures Kept(s, s)
  {
  }

  // A new node with new memory.
  lemma {:induction false} PushedKept(s: State, t: State, node: nat, p: nat, n: nat)
    requires Kept(s, t) && Granted(s, t, node, LARGE) && p !in t.chunks
    ensures Kept(s, Attached(WithNode(t, node), 0, p, n))
  {
    hide Inv;
    var u := Attached(WithNode(t, node), 0, p, n);
    forall r | r in s.home && NoNode(s, r)
      ensures NoNode(u, r)
    {
      assert NoNode(t, r) && r != Region(node, LARGE);
      assert forall i | 0 < i < |u.large| :: u.large[i] == t.large[i - 1];
    }
  }

  lemma {:induction false} KeptSelf(s: State)
    ensures Kept(s, s)
  {
  }

  lemma {:induction false} FreshAligned(s: State, p: nat, n: nat)
    requires Fresh(s, p, n)
    ensures p % 8 == 0
  {
  }

  lemma {:induction false} AnyBlock(s: State, i: nat)
    requires Inv(s)
    ensures s.size >= POOL && s.max <= s.size - POOL && s.current < |s.blocks|
    ensures i < |s.blocks| ==>
              var b := s.blocks[i];
              Floor(b, i) <= b.last <= b.addr + s.size < WORD && Align(b.last) <= b.addr + s.size
  {
    hide Align, Regions, Chunks;
    if i < |s.blocks| {
      assert BlockAt(s, i);
      EndAligned(s.blocks[i].addr, s.size);
      AlignBelow(s.blocks[i].last, s.blocks[i].addr + s.size);
    }
  }

  lemma {:induction false} EndAligned(addr: nat, size: nat)
    requires addr % 16 == 0
    ensures (addr + size) % 8 == size % 8
  {
    var a, b := addr / 16, size / 8;
    assert addr == 16 * a && size == 8 * b + size % 8;
    assert addr + size == 8 * (2 * a + b) + size % 8;
  }

  lemma {:induction false} GrownKeeps(s: State, m: nat, n: nat, failed: seq<Block>, current: nat)
    requires Inv(s) && Fresh(s, m, s.size) && DATA + n <= s.size && SameBlocks(s.blocks, failed) && current < |s.blocks|
    ensures Align(m + DATA) == m + DATA
    ensures var t := Grown(s, m, n, failed, current);
            Inv(t) && Granted(s, t, m + DATA, n) && Kept(s, t)
  {
    GrownRegions(s, m, n, failed, current);
    GrownBlocks(s, m, n, failed, current);
    GrownChunks(s, m, n, failed, current);
    hide Inv, Blocks, Regions, Chunks, Align;
  }

  class Pool {
    const size: nat
    const max: nat
    var blocks: seq<Block>
    var current: nat
    var large: seq<Large>
    var mem: map<nat, int>             // the bytes that were written

    ghost var home: map<Region, nat>
    ghost var chunks: map<nat, nat>

    ghost function S(): State
      reads this
    {
      State(size, max, blocks, current, large, home, chunks)
    }

    // ngx_create_pool; page is ngx_pagesize, m the address from ngx_memalign.
    constructor (size: nat, page: nat, m: nat)
      requires size >= POOL && size % 8 == 0 && page > 0 && m > 0 && m % 16 == 0 && m + size < WORD
      ensures Inv(S()) && home == map[] && chunks == map[m := size] && large == []
      ensures this.size == size && max == if size - POOL < page - 1 then size - POOL else page - 1
    {
      this.size := size;
      max := if size - POOL < page - 1 then size - POOL else page - 1;
      blocks, current, large, mem := [Block(m, m + POOL, 0)], 0, [], map[];
      home, chunks := map[], map[m := size];
      new;
      assert BlockAt(S(), 0) && blocks[0].addr == m;
    }

    // ngx_free
    ghost method Free(c: nat)
      requires c in chunks
      modifies `chunks
      ensures chunks == old(chunks) - {c}
    {
      chunks := chunks - {c};
    }

    // The loop of ngx_palloc_block over the failure counts.
    method CountFailures()
      requires Inv(S())
      modifies `blocks, `current
      ensures SameBlocks(old(blocks), blocks) && old(current) <= current < |blocks|
    {
      var i := current;
      while i + 1 < |blocks|
        invariant SameBlocks(old(blocks), blocks) && old(current) <= i < |blocks| && old(current) <= current <= i
      {
        var failed := blocks[i].failed;
        blocks := blocks[i := blocks[i].(failed := failed + 1)];
        if failed > 4 {
          current := i + 1;
        }
        i := i + 1;
      }
    }

    // ngx_palloc_block; m is the answer of ngx_memalign.
    method AllocBlock(n: nat, m: nat) returns (p: nat)
      requires Inv(S()) && DATA + n <= size && (m != 0 ==> Fresh(S(), m, size))
      modifies `blocks, `current, `home, `chunks
      ensures Inv(S()) && (p == 0 <==> m == 0)
      ensures p == 0 ==> S() == old(S())
      ensures p != 0 ==> Granted(old(S()), S(), p, n) && p % 8 == 0 && chunks == old(chunks)[m := size]
      ensures Kept(old(S()), S())
    {
      if m == 0 {
        return 0;
      }
      hide Inv, Fresh, Granted, Kept;
      p := Align(m + DATA);
      CountFailures();
      GrownKeeps(old(S()), m, n, blocks, current);
      home := if n > 0 then home[Region(p, n) := |blocks|] else home;
      chunks := chunks[m := size];
      blocks := blocks + [Block(m, p + n, 0)];
    }

    // ngx_palloc_small
    method AllocSmall(n: nat, align: bool, m: nat) returns (p: nat)
      requires Inv(S()) && DATA + n <= size && (m != 0 ==> Fresh(S(), m, size))
      modifies `blocks, `current, `home, `chunks
      ensures Inv(S())
      ensures p == 0 ==> m == 0 && S() == old(S())
      ensures p != 0 ==> Granted(old(S()), S(), p, n) && (align ==> p % 8 == 0)
      ensures (chunks == old(chunks) || (m != 0 && chunks == old(chunks)[m := size])) && Kept(old(S()), S())
    {
      hide Inv, Regions, Chunks;
      var i := current;
      assert current < |blocks| by {
        AnyBlock(S(), 0);
      }
      while i < |blocks|
        invariant S() == old(S()) && i <= |blocks|
      {
        AnyBlock(S(), i);
        var at := blocks[i].last;
        if align {
          at := Align(at);
        }
        if Minus(blocks[i].addr + size, at) >= n {
          TakenKeeps(S(), i, at, n);
          blocks := blocks[i := blocks[i].(last := at + n)];
          home := if n > 0 then home[Region(at, n) := i] else home;
          return at;
        }
        i := i + 1;
      }
      p := AllocBlock(n, m);
    }

    // Memory for a list node: an empty node among the first five, or a new one.
    // m is the answer of ngx_memalign if a block is needed.
    method AllocLarge(n: nat, p: nat, m: nat) returns (r: nat)
      requires Inv(S()) && p > 0 && Fresh(S(), p, n)
               && (m != 0 ==> Fresh(S(), m, size) && m != p && Apart(p, n, m, size))
      modifies `blocks, `current, `home, `chunks, `large
      ensures Inv(S()) && (r == 0 || r == p)
      ensures r == 0 ==> m == 0 && S() == old(S())
      ensures r == p ==> p in chunks && chunks[p] == n && IsLarge(large, p)
      ensures Kept(old(S()), S())
    {
      hide Inv, Granted, Regions;
      var k := 0;
      while k < |large|
        invariant S() == old(S()) && k <= 4 && k <= |large|
      {
        if large[k].alloc == 0 {
          AttachedKeeps(S(), k, p, n);
          large := large[k := large[k].(alloc := p)];
          chunks := chunks[p := n];
          assert large[k].alloc == p;
          return p;
        }
        if k > 3 {
          break;
        }
        k := k + 1;
      }
      r := PushLarge(n, p, m);
    }

    // A new list node in front.
    method PushLarge(n: nat, p: nat, m: nat) returns (r: nat)
      requires Inv(S()) && p > 0 && Fresh(S(), p, n)
               && (m != 0 ==> Fresh(S(), m, size) && m != p && Apart(p, n, m, size))
      modifies `blocks, `current, `home, `chunks, `large
      ensures Inv(S()) && (r == 0 || r == p)
      ensures r == 0 ==> m == 0 && S() == old(S())
      ensures r == p ==> p in chunks && chunks[p] == n && IsLarge(large, p)
      ensures Kept(old(S()), S())
    {
      hide Inv, Regions, Kept;
      AnyBlock(S(), 0);
      var node := AllocSmall(LARGE, true, m);
      if node == 0 {
        KeptSame(S());
        return 0;
      }
      assert Fresh(S(), p, n);
      PushedKept(old(S()), S(), node, p, n);
      NodeKeeps(S(), node);
      AttachedKeeps(WithNode(S(), node), 0, p, n);
      large := [Large(node, p)] + large;
      chunks := chunks[p := n];
      assert large[0].alloc == p && large == WithNode(old(S()), node).large[0 := Large(node, p)];
      r := p;
    }

    // ngx_palloc; p is the answer of ngx_alloc, m that of ngx_memalign.
    method Palloc(n: nat, p: nat, m: nat) returns (r: nat)
      requires Inv(S()) && (p != 0 ==> Fresh(S(), p, n))
      requires m != 0 ==> Fresh(S(), m, size) && (p != 0 ==> m != p && Apart(p, n, m, size))
      modifies `blocks, `current, `home, `chunks, `large
      ensures Inv(S()) && Kept(old(S()), S()) && r % 8 == 0
      ensures r == 0 ==> (p == 0 || m == 0) && S() == old(S())
      ensures r != 0 && n <= max ==> Granted(old(S()), S(), r, n) && large == old(large)
      ensures r != 0 && n > max ==> r == p && p in chunks && chunks[p] == n && IsLarge(large, p)
    {
      hide Inv, Fresh, Kept, Granted, IsLarge, Apart;
      if p != 0 {
        FreshAligned(S(), p, n);
      }
      AnyBlock(S(), 0);
      if n <= max {
        r := AllocSmall(n, true, m);
        return;
      }
      if p == 0 {
        KeptSelf(S());
        return 0;
      }
      r := AllocLarge(n, p, m);
    }

    // ngx_pnalloc
    method Pnalloc(n: nat, p: nat, m: nat) returns (r: nat)
      requires Inv(S()) && (p != 0 ==> Fresh(S(), p, n))
      requires m != 0 ==> Fresh(S(), m, size) && (p != 0 ==> m != p && Apart(p, n, m, size))
      modifies `blocks, `current, `home, `chunks, `large
      ensures Inv(S()) && Kept(old(S()), S())
      ensures r == 0 ==> (p == 0 || m == 0) && S() == old(S())
      ensures r != 0 && n <= max ==> Granted(old(S()), S(), r, n) && large == old(large)
      ensures r != 0 && n > max ==> r == p && p in chunks && chunks[p] == n && IsLarge(large, p)
    {
      hide Inv, Fresh, Kept, Granted, IsLarge, Apart;
      AnyBlock(S(), 0);
      if n <= max {
        r := AllocSmall(n, false, m);
        return;
      }
      if p == 0 {
        KeptSelf(S());
        return 0;
      }
      r := AllocLarge(n, p, m);
    }

    // ngx_pmemalign
    method Pmemalign(n: nat, p: nat, m: nat) returns (r: nat)
      requires Inv(S()) && (p != 0 ==> Fresh(S(), p, n))
      requires m != 0 ==> Fresh(S(), m, size) && (p != 0 ==> m != p && Apart(p, n, m, size))
      modifies `blocks, `current, `home, `chunks, `large
      ensures Inv(S()) && Kept(old(S()), S())
      ensures r == 0 ==> (p == 0 || m == 0) && S() == old(S())
      ensures r != 0 ==> r == p && p in chunks && chunks[p] == n && IsLarge(large, p)
    {
      if p == 0 {
        return 0;
      }
      r := PushLarge(n, p, m);
    }

    // ngx_pfree
    method Pfree(p: nat) returns (ok: bool)
      requires Inv(S()) && p != 0
      modifies `large, `chunks
      ensures Inv(S()) && (ok <==> IsLarge(old(large), p))
      ensures if ok then p in old(chunks) && chunks == old(chunks) - {p} else S() == old(S())
    {
      for i := 0 to |large|
        invariant forall k | 0 <= k < i :: large[k].alloc != p
        invariant S() == old(S())
      {
        if large[i].alloc == p {
          FreedKeeps(S(), i);
          Free(large[i].alloc);
          large := large[i := large[i].(alloc := 0)];
          assert old(large)[i].alloc == p;
          return true;
        }
      }
      return false;
    }

    // The first loop of ngx_reset_pool and ngx_destroy_pool.
    method FreeLarge()
      requires Inv(S())
      modifies `large, `chunks
      ensures Inv(S()) && NoLarge(S())
      ensures forall c | c in chunks :: c in old(chunks) && chunks[c] == old(chunks)[c]
    {
      for i := 0 to |large|
        invariant Inv(S()) && |large| == |old(large)| && forall k | 0 <= k < i :: large[k].alloc == 0
        invariant forall c | c in chunks :: c in old(chunks) && chunks[c] == old(chunks)[c]
      {
        if large[i].alloc != 0 {
          FreedKeeps(S(), i);
          Free(large[i].alloc);
          large := large[i := large[i].(alloc := 0)];
        }
      }
    }

    // ngx_reset_pool
    method Reset()
      requires Inv(S())
      modifies this
      ensures Inv(S()) && home == map[] && large == [] && current == 0 && |blocks| == |old(blocks)| && mem == old(mem)
      ensures forall c | c in chunks :: c in old(chunks) && IsBlock(blocks, c)
      ensures forall i | 0 <= i < |blocks| :: blocks[i] == Block(old(blocks)[i].addr, old(blocks)[i].addr + POOL, 0)
    {
      FreeLarge();
      ghost var s := S();
      var i := 0;
      while i < |blocks|
        invariant i <= |blocks| == |old(blocks)| && mem == old(mem) && S() == s.(blocks := blocks)
        invariant forall j | 0 <= j < i :: blocks[j] == Block(old(blocks)[j].addr, old(blocks)[j].addr + POOL, 0)
        invariant forall j | i <= j < |blocks| :: blocks[j] == old(blocks)[j]
      {
        blocks := blocks[i := Block(blocks[i].addr, blocks[i].addr + POOL, 0)];
        i := i + 1;
      }
      home := map[];
      current := 0;
      large := [];
      ResetKeeps(s, S());
    }

    // ngx_destroy_pool, after the cleanup handlers
    method Destroy()
      requires Inv(S())
      modifies `large, `chunks
      ensures chunks == map[]
    {
      hide Inv, NoLarge;
      FreeLarge();
      ghost var s := S();
      OnlyBlocks(s);
      for i := 0 to |blocks|
        invariant forall c | c in chunks :: c in s.chunks
        invariant forall k | 0 <= k < i :: blocks[k].addr !in chunks
        invariant forall k | i <= k < |blocks| :: blocks[k].addr in chunks
      {
        BlocksDiffer(s, i);
        Free(blocks[i].addr);
      }
      assert chunks.Keys == {};
    }
  }

  lemma {:induction false} OnlyBlocks(s: State)
    requires Inv(s) && NoLarge(s)
    ensures forall c | c in s.chunks :: exists k | 0 <= k < |s.blocks| :: s.blocks[k].addr == c
    ensures forall k | 0 <= k < |s.blocks| :: s.blocks[k].addr in s.chunks
  {
    BlocksAreChunks(s);
  }

  lemma {:induction false} BlocksDiffer(s: State, i: nat)
    requires Inv(s) && i < |s.blocks|
    ensures forall k | i < k < |s.blocks| :: s.blocks[k].addr != s.blocks[i].addr
  {
  }

  lemma {:induction false} ResetKeeps(s: State, t: State)
    requires Inv(s) && NoLarge(s) && t == s.(blocks := t.blocks, home := map[], current := 0, large := [])
    requires |t.blocks| == |s.blocks| && forall i | 0 <= i < |s.blocks| ::
               t.blocks[i] == Block(s.blocks[i].addr, s.blocks[i].addr + POOL, 0)
    ensures Inv(t) && forall c | c in t.chunks :: IsBlock(t.blocks, c)
  {
    forall j | 0 <= j < |t.blocks|
      ensures BlockAt(t, j)
    {
      assert BlockAt(s, j);
    }
    forall c | c in t.chunks
      ensures IsBlock(t.blocks, c)
    {
      assert IsBlock(s.blocks, c);
      var k :| 0 <= k < |s.blocks| && s.blocks[k].addr == c;
      assert t.blocks[k].addr == c;
    }
  }
}
