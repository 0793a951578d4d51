// ngx_open_file_cache: reference-counted cache of open descriptors with an LRU queue.
// Vnode events are off. The kernel's answers are parameters.

module OpenFileCache {
  // NGX_INVALID_FILE
  const INVALID: int := -1

  datatype Meta = Meta(mtime: int, size: nat, isFile: bool, isLink: bool, isExec: bool, isDirectio: bool)
  datatype Stat = Stat(uniq: nat, isDir: bool, meta: Meta)
  datatype Answer<T> = Fails(err: nat) | Gives(value: T)

  // What the kernel answers to stat, open and fstat during one call.
  datatype Kernel = Kernel(stat: Answer<Stat>, open: Answer<nat>, fstat: Answer<Stat>)

  // ngx_open_file_info_t
  datatype Info = Info(fd: int, uniq: nat, meta: Meta, isDir: bool, err: nat, valid: int, minUses: nat,
                       symlinks: nat, testDir: bool, errors: bool)

  class CachedFile {
    const name: string
    var created: int
    var accessed: int
    var fd: int
    var uniq: nat
    var meta: Meta
    var err: nat
    var uses: nat
    var symlinks: nat
    var count: nat
    var close: bool
    var isDir: bool

    // Only what the source sets when it allocates; the other fields start arbitrary.
    constructor (name: string)
      ensures this.name == name && uses == 1 && count == 0
    {
      this.name, uses, count := name, 1, 0;
    }
  }

  function Without<T(==)>(q: seq<T>, x: T): seq<T> {
    if q == [] then [] else if q[0] == x then q[1..] else [q[0]] + Without(q[1..], x)
  }

  ghost predicate Distinct<T>(q: seq<T>) {
    forall i, j | 0 <= i < j < |q| :: q[i] != q[j]
  }

  lemma {:induction false} WithoutIs<T>(q: seq<T>, x: T)
    requires Distinct(q)
    ensures Distinct(Without(q, x)) && x !in Without(q, x)
    ensures forall y | y != x :: y in Without(q, x) <==> y in q
    ensures |Without(q, x)| == |q| - if x in q then 1 else 0
  {
    if q != [] {
      WithoutIs(q[1..], x);
      assert q == [q[0]] + q[1..];
      assert q[0] !in q[1..];
    }
  }

  lemma {:induction false} InitIs<T>(q: seq<T>)
    requires Distinct(q) && q != []
    ensures var init, last := q[..|q| - 1], q[|q| - 1];
            && Distinct(init) && last !in init && last in q && forall y | y != last :: y in init <==> y in q
  {
    assert q == q[..|q| - 1] + [q[|q| - 1]];
  }

  // The kernel's answers about a name whose open file has this uniq are consistent: a
  // directory does not share it, and a file that stat saw replaced is not back when it
  // is opened.
  predicate Calm(uniq: nat, k: Kernel) {
    k.stat.Gives? ==>
      if k.stat.value.uniq == uniq then !k.stat.value.isDir
      else k.open.Gives? && k.fstat.Gives? && !k.fstat.value.isDir ==> k.fstat.value.uniq != uniq
  }

  // The second case: stat says that the file was replaced, and the open one is back when
  // it is opened.
  predicate Back(uniq: nat, k: Kernel) {
    && k.stat.Gives? && k.stat.value.uniq != uniq
    && k.open.Gives? && k.fstat.Gives? && !k.fstat.value.isDir && k.fstat.value.uniq == uniq
  }

  // ngx_open_and_stat_file keeps the descriptor it was given.
  predicate Kept(of: Info, k: Kernel) {
    of.fd != INVALID && k.stat.Gives? && k.stat.value.uniq == of.uniq
  }

  function Filled(of: Info, s: Stat): Info {
    of.(uniq := s.uniq, isDir := s.isDir, meta := s.meta.(isDirectio := of.meta.isDirectio))
  }

  // The result of ngx_open_and_stat_file that an entry can take over: errors and
  // directories come without a descriptor, files with one.
  predicate Shaped(of: Info) {
    of.fd == INVALID <==> of.err != 0 || of.isDir
  }

  // Whether the kernel serves the request, and what is then known about the name.
  function Look(of: Info, k: Kernel, directio: bool): (bool, Info) {
    if (of.fd != INVALID || of.testDir) && k.stat.Fails? then (false, of.(fd := INVALID, err := k.stat.err))
    else if Kept(of, k) || (of.fd == INVALID && of.testDir && k.stat.value.isDir) then (true, Filled(of, k.stat.value))
    else if k.open.Fails? then (false, of.(fd := INVALID, err := k.open.err))
    else if k.fstat.Fails? then (false, of.(fd := INVALID))
    else if k.fstat.value.isDir then (true, Filled(of.(fd := INVALID), k.fstat.value))
    else
      (true, Filled(of.(fd := k.open.value, meta := of.meta.(isDirectio := directio || of.meta.isDirectio)),
            k.fstat.value))
  }

  // The reply to a request, and whether it stays in the cache: errors do only if the
  // request allows it.
  datatype Reply = Reply(ok: bool, of: Info, kept: bool)

  function Asked(of: Info, k: Kernel, directio: bool): Reply {
    var (ok, r) := Look(of, k, directio);
    Reply(ok, r, ok || (r.err != 0 && r.errors))
  }

  // Only lack of memory for a new entry can make a request fail that the kernel serves.
  predicate Follows(ok: bool, of: Info, r: Reply, noMemory: bool) {
    of == r.of && (ok ==> r.ok) && (r.ok && !noMemory ==> ok)
  }

  // What ngx_open_and_stat_file promises: before and after are the open descriptors.
  ghost predicate Answered(of: Info, k: Kernel, ok: bool, r: Info, before: set<int>, after: set<int>) {
    && r.errors == of.errors && (Kept(of, k) || (k.stat.Gives? && k.open.Gives? && k.fstat.Gives?) ==> ok)
    && if !ok then r.fd == INVALID && after == before && r.isDir == of.isDir
       else
         && r.err == of.err
         && (Kept(of, k) ==> r.fd == of.fd && r.uniq == of.uniq && r.isDir == k.stat.value.isDir && after == before)
         && (!Kept(of, k) && r.isDir ==> r.fd == INVALID && after == before)
         && (!Kept(of, k) && !r.isDir ==>
               && k.open.Gives? && k.fstat.Gives? && r.fd == k.open.value && after == before + {r.fd}
               && r.uniq == k.fstat.value.uniq && (of.fd != INVALID ==> k.stat.Gives?))
         && (!Kept(of, k) && of.fd != INVALID ==> k.fstat.Gives? && r.isDir == k.fstat.value.isDir)
  }

  // What was found for an entry with descriptor fd: that descriptor again, or a new one
  // that is pending, or none.
  ghost predicate Renewal(fd: int, uniq: nat, of: Info, pending: int) {
    if of.fd == fd != INVALID then pending == INVALID && of.err == 0 && of.uniq == uniq
    else pending == of.fd && Shaped(of)
  }

  // The two answers that the code mixes up: a directory with the uniq of the open
  // file, and a second descriptor of the open file.
  ghost predicate Mixed(fd: int, uniq: nat, of: Info) {
    fd != INVALID && of.err == 0 && of.uniq == uniq && if of.fd == fd then of.isDir else !of.isDir
  }

  lemma {:induction false} MetaOnly(fd: int, uniq: nat, of: Info, of': Info, pending: int)
    requires of' == of.(meta := of'.meta)
    ensures Mixed(fd, uniq, of') == Mixed(fd, uniq, of)
    ensures Renewal(fd, uniq, of', pending) == Renewal(fd, uniq, of, pending)
  {
  }

  // Those two answers come exactly when the kernel is not calm.
  lemma {:induction false} MixedIffNotCalm(of: Info, k: Kernel, ok: bool, r: Info, before: set<int>, after: set<int>)
    requires Answered(of, k, ok, r, before, after) && of.err == 0 && (of.fd != INVALID ==> of.fd in before)
    requires k.open.Gives? ==> k.open.value !in before
    ensures r.errors == of.errors && (ok ==> r.err == 0) && (of.fd != INVALID && !Calm(of.uniq, k) ==> ok)
    ensures !ok ==> r.fd == INVALID && after == before
    ensures of.fd != INVALID && Back(of.uniq, k) ==> ok && !r.isDir && Mixed(of.fd, of.uniq, r)
    ensures ok || r.err != 0 ==>
              var pending := if r.fd == of.fd then INVALID else r.fd;
              && (pending == INVALID || pending !in before)
              && after == before + (if pending == INVALID then {} else {pending})
              && Renewal(of.fd, of.uniq, r, pending)
              && (Mixed(of.fd, of.uniq, r) <==> of.fd != INVALID && !Calm(of.uniq, k))
  {
  }

  class OpenFileCache {
    var tree: map<string, CachedFile>
    var queue: seq<CachedFile>
    var current: nat
    const max: nat
    const inactive: int

    ghost var live: set<CachedFile>       // allocated and not freed
    ghost var fds: set<int>            // descriptors opened and not closed
    ghost var owner: map<int, CachedFile> // the entry that will close a descriptor
    ghost var refs: multiset<CachedFile>  // cleanup handlers not yet run

    // Tree, queue and current agree; out is in the tree but not in the queue.
    ghost predicate Index(out: CachedFile?)
      reads `tree, `queue, `current, `live
    {
      Indexed(tree, queue, current, live, out)
    }

    static ghost predicate Indexed(tree: map<string, CachedFile>, queue: seq<CachedFile>, current: nat,
        live: set<CachedFile>, out: CachedFile?)
    {
      && Distinct(queue)
      && (forall f | f in queue :: f in live && f != out && f.name in tree && tree[f.name] == f)
      && (forall n | n in tree :: tree[n].name == n && (tree[n] in queue || tree[n] == out))
      && (out != null ==> out in live && out.name in tree && tree[out.name] == out)
      && current == |queue| + if out == null then 0 else 1
    }

    ghost predicate Entry(f: CachedFile)
      reads this, f`count, f`err, f`isDir, f`fd, f`close
    {
      && f.count == refs[f]
      && (f.err != 0 || f.isDir ==> f.fd == INVALID && f.count == 0)
      && (f.count > 0 ==> f.fd != INVALID)
      && (f.fd != INVALID ==> f.fd in owner && owner[f.fd] == f)
      && (if f in queue then f.err == 0 && !f.isDir ==> !f.close else f.close && f.count > 0)
    }

    // The open descriptors are those of the live entries and the pending one.
    ghost predicate Descriptors(pending: int)
      reads `live, `fds, `owner, live`fd
    {
      && (forall d | d in owner :: d != INVALID && d != pending && owner[d] in live && owner[d].fd == d)
      && (forall d :: d in fds <==> d in owner || (d == pending && d != INVALID))
    }

    ghost predicate Inv(out: CachedFile?, pending: int)
      reads this, live`count, live`err, live`isDir, live`fd, live`close
    {
      && Index(out) && Descriptors(pending)
      && (forall f {:trigger Entry(f)} | f in live && f != out :: Entry(f))
      && (out != null ==> out.count == refs[out])
      && (forall f | f in refs :: f in live)
    }

    ghost predicate Valid()
      reads this, live`count, live`err, live`isDir, live`fd, live`close
    {
      Inv(null, INVALID) && current <= max
    }

    // Every open descriptor belongs to exactly one live entry.
    ghost predicate Accounted()
      reads this, live`fd
    {
      && (forall d | d in fds :: exists f :: f in live && f.fd == d)
      && (forall f | f in live && f.fd != INVALID :: f.fd in fds)
      && (forall f, g | f in live && g in live && f.fd == g.fd != INVALID :: f == g)
    }

    // The descriptor is open and no entry knows it.
    ghost predicate Astray(d: int)
      reads this, live`fd
    {
      d in fds && forall f | f in live :: f.fd != d
    }

    // f holds what the request was told.
    predicate Holds(f: CachedFile, of: Info)
      reads f
    {
      f.fd == of.fd && f.err == of.err && (of.err == 0 ==>
          f.uniq == of.uniq && f.isDir == of.isDir && f.meta == of.meta)
    }

    // The answer is in the cache, as the most recently used entry, before rest.
    ghost predicate Cached(name: string, of: Info, now: int, rest: seq<CachedFile>)
      reads this, queue
    {
      queue != [] && queue[0].name == name && Holds(queue[0], of) && queue[0].accessed == now && queue[1..] <= rest
    }

    // The caller got the reply r, and the cache holds it as the most recently used entry, or
    // nothing for the name: if it was not to be kept, or if there was no memory.
    ghost predicate Served(name: string, ok: bool, of: Info, now: int, rest: seq<CachedFile>, r: Reply, noMemory: bool)
      reads this, queue
    {
      && Follows(ok, of, r, noMemory) && (ok ==> of.err == 0) && (!r.kept ==> name !in tree)
      && (Cached(name, of, now, rest) || (!ok && name !in tree && (noMemory || !r.kept)))
    }

    lemma {:induction false} ValidAccounted()
      requires Valid()
      ensures Accounted()
    {
      assert forall f | f in live :: Entry(f);
    }

    // ngx_open_file_cache_init
    constructor (max: nat, inactive: int)
      ensures Valid() && queue == [] && live == {} && fds == {} && refs == multiset{}
      ensures this.max == max && this.inactive == inactive
    {
      tree, queue, current := map[], [], 0;
      this.max, this.inactive := max, inactive;
      live, fds, owner, refs := {}, {}, map[], multiset{};
    }

    // ngx_close_file
    method CloseFile(fd: int)
      requires fd in fds
      modifies `fds
      ensures fds == old(fds) - {fd}
    {
      fds := fds - {fd};
    }

    // ngx_free
    ghost method Free(file: CachedFile)
      requires file in live
      modifies `live
      ensures live == old(live) - {file}
    {
      live := live - {file};
    }

    // An entry outside tree and queue whose last reference is gone: the descriptor is
    // closed if there is one, and the memory freed.
    method Drop(file: CachedFile, ghost pending: int)
      requires Gone(file, pending) && file.count == 0
      modifies `fds, `owner, `live
      ensures Inv(null, pending) && live == old(live) - {file} && fds == old(fds) - {file.fd}
    {
      assert forall f | f in live && f != file :: Entry(f);
      if file.fd != INVALID {
        CloseFile(file.fd);
        owner := owner - {file.fd};
      }
      Free(file);
    }

    // file has left tree and queue; everything else is in order.
    ghost predicate Gone(file: CachedFile, pending: int)
      reads this, live`count, live`err, live`isDir, live`fd, live`close
    {
      && Index(null) && Descriptors(pending) && file in live && file !in queue
      && (forall f {:trigger Entry(f)} | f in live && f != file :: Entry(f))
      && file.count == refs[file] && (forall f | f in refs :: f in live)
      && (file.fd != INVALID ==> file.fd in owner && owner[file.fd] == file)
      && (file.err != 0 || file.isDir ==> file.fd == INVALID && file.count == 0)
      && (file.count > 0 ==> file.fd != INVALID)
    }

    // An entry whose descriptor is no longer wanted stays in the cache without it.
    method Shut(file: CachedFile, ghost pending: int)
      requires Inv(null, pending) && file in queue && file.count == 0
      modifies `fds, `owner, file`fd
      ensures Inv(null, pending) && file.fd == INVALID && fds == old(fds) - {old(file.fd)}
    {
      hide Index;
      QueueLives(pending);
      assert Entry(file) && forall f | f in live :: Entry(f);
      if file.fd != INVALID {
        CloseFile(file.fd);
        owner := owner - {file.fd};
        file.fd := INVALID;
      }
    }

    // Queue removal and insertion at the head.
    method Touch(file: CachedFile, ghost pending: int)
      requires Inv(null, pending) && file in queue
      modifies `queue
      ensures Inv(null, pending) && queue == [file] + Without(old(queue), file)
    {
      hide Descriptors;
      assert forall f | f in live :: Entry(f);
      WithoutIs(queue, file);
      queue := Without(queue, file);
      queue := [file] + queue;
    }

    lemma {:induction false} Counted(file: CachedFile, pending: int)
      requires if file.close then Gone(file, pending) else Inv(null, pending) && file in queue
      ensures file.count > 0 <==> file in refs
    {
      assert !file.close ==> Entry(file);
    }

    lemma {:induction false} GoneHeld(file: CachedFile, pending: int)
      requires Gone(file, pending) && file.close && file.count > 0
      ensures Inv(null, pending)
    {
      assert Entry(file);
    }

    // ngx_close_cached_file
    method CloseCached(file: CachedFile, minUses: nat, now: int, ghost pending: int)
      requires if file.close then Gone(file, pending) else Inv(null, pending) && file in queue
      modifies `queue, `fds, `owner, `live, file`accessed, file`fd
      ensures Inv(null, pending)
      ensures file.close ==> queue == old(queue) && unchanged(file)
                             && live == old(live) - (if file in refs then {} else {file})
                             && fds == old(fds) - (if file in refs then {} else {old(file.fd)})
      ensures !file.close ==> queue == [file] + Without(old(queue), file) && live == old(live) && file.accessed == now
                              && (if file.uses >= minUses || file in refs
                                  then fds == old(fds) && file.fd == old(file.fd)
                                  else fds == old(fds) - {old(file.fd)} && file.fd == INVALID)
    {
      hide Inv, Index, Entry, Descriptors, Gone;
      Counted(file, pending);
      if !file.close {
        file.accessed := now;
        Touch(file, pending);
        if file.uses >= minUses || file.count != 0 {
          return;
        }
      }
      if file.count != 0 {
        GoneHeld(file, pending);
        return;
      }
      if !file.close {
        Shut(file, pending);
        return;
      }
      Drop(file, pending);
    }

    static lemma {:induction false} LastIndexed(tree: map<string, CachedFile>, queue: seq<CachedFile>, current: nat,
        live: set<CachedFile>, file: CachedFile)
      requires Indexed(tree, queue, current, live, null) && queue != [] && file == queue[|queue| - 1]
      ensures current > 0 && Indexed(tree - {file.name}, queue[..|queue| - 1], current - 1, live, null)
      ensures file in live && file !in queue[..|queue| - 1]
      ensures forall f | f != file :: f in queue <==> f in queue[..|queue| - 1]
    {
      hide Distinct;
      InitIs(queue);
    }

    // ngx_queue_remove and ngx_rbtree_delete on the last entry of the queue
    method TakeLast(file: CachedFile, ghost pending: int)
      requires Inv(null, pending) && queue != [] && file == queue[|queue| - 1]
      modifies `queue, `tree, `current
      ensures queue == old(queue)[..|old(queue)| - 1] && Gone(file, pending) && tree == old(tree) - {file.name}
    {
      hide Descriptors, Indexed;
      assert forall f | f in live :: Entry(f);
      LastIndexed(tree, queue, current, live, file);
      queue := queue[..|queue| - 1];
      tree := tree - {file.name};
      current := current - 1;
    }

    lemma {:induction false} QueueLives(pending: int)
      requires Inv(null, pending)
      ensures current == |queue| && Distinct(queue) && forall f | f in queue :: f in live
    {
    }

    // The last entry of the queue leaves the cache; it lives on while it has references.
    method Evict(file: CachedFile, now: int, ghost pending: int)
      requires Inv(null, pending) && queue != [] && file == queue[|queue| - 1]
      modifies `tree, `queue, `current, `fds, `owner, `live, file`close, file`accessed, file`fd
      ensures Inv(null, pending) && queue == old(queue)[..|old(queue)| - 1]
      ensures live == old(live) - if file in refs then {} else {file}
      ensures file.fd == old(file.fd) && file.accessed == old(file.accessed) && fds <= old(fds)
      ensures tree.Keys <= old(tree).Keys
    {
      TakeLast(file, pending);
      if file.err == 0 && !file.isDir {
        file.close := true;
        CloseCached(file, 0, now, pending);
      } else {
        Drop(file, pending);
      }
    }

    // ngx_expire_old_cached_files: the oldest entries go, the first by force when n is 0.
    method Expire(start: nat, now: int, ghost pending: int)
      requires Inv(null, pending) && start <= 1
      modifies `tree, `queue, `current, `fds, `owner, `live, live`close, live`accessed, live`fd
      ensures Inv(null, pending) && |queue| <= |old(queue)| && queue == old(queue)[..|queue|]
      ensures live <= old(live) && fds <= old(fds) && tree.Keys <= old(tree).Keys
      ensures start == 0 && old(queue) != [] ==> |queue| < |old(queue)|
      ensures |old(queue)| - |queue| <= 3 - start
      ensures forall i | |queue| <= i < |old(queue)| - (1 - start) :: now - old(queue[i].accessed) > inactive
      ensures forall f | f in live :: f.fd == old(f.fd) && f.accessed == old(f.accessed)
      ensures forall f | f in queue :: f.close == old(f.close)
    {
      hide Inv, Index, Entry, Descriptors;
      var n := start;
      while n < 3
        invariant Inv(null, pending) && start <= n && |queue| <= |old(queue)| && queue == old(queue)[..|queue|]
        invariant live <= old(live) && fds <= old(fds) && tree.Keys <= old(tree).Keys
                  && |old(queue)| - |queue| == n - start
        invariant forall i | |queue| <= i < |old(queue)| - (1 - start) :: now - old(queue[i].accessed) > inactive
        invariant forall f | f in live :: f.fd == old(f.fd) && f.accessed == old(f.accessed)
        invariant forall f | f in queue :: f.close == old(f.close)
      {
        if queue == [] {
          return;
        }
        var file := queue[|queue| - 1];
        n := n + 1;
        if n != 1 && now - file.accessed <= inactive {
          return;
        }
        QueueLives(pending);
        Evict(file, now, pending);
      }
    }

    // ngx_open_file_cleanup: a request gives back its descriptor.
    method Release(file: CachedFile, minUses: nat, now: int)
      requires Valid() && file in refs
      modifies this, live
      ensures Valid() && refs == old(refs) - multiset{file} && fds <= old(fds)
      ensures forall f | f in refs :: f in live && f.fd == old(f.fd) && f.fd in fds
      ensures old(file.close) && file !in refs ==> file !in live && old(file.fd) !in fds
    {
      hide Inv, Index, Entry, Descriptors;
      HeldOpen(INVALID);
      GiveBack(file, minUses, now);
      QueueLives(INVALID);
      Expire(1, now, INVALID);
      QueueLives(INVALID);
      HeldOpen(INVALID);
    }

    // The reference goes, and with the last one what nobody needs any more.
    method GiveBack(file: CachedFile, minUses: nat, now: int)
      requires Valid() && file in refs
      modifies `queue, `fds, `owner, `live, `refs, file`accessed, file`fd, file`count
      ensures Valid() && refs == old(refs) - multiset{file} && fds <= old(fds) && live <= old(live)
      ensures forall f | f in refs :: f in live && f.fd == old(f.fd)
      ensures old(file.close) && file !in refs ==> file !in live && old(file.fd) !in fds
    {
      hide Inv, Index, Entry, Descriptors;
      HeldOpen(INVALID);
      LetGo(file);
      CloseCached(file, minUses, now, INVALID);
      QueueLives(INVALID);
      HeldOpen(INVALID);
    }

    method LetGo(file: CachedFile)
      requires Valid() && file in refs
      modifies file`count, `refs
      ensures refs == old(refs) - multiset{file} && current <= max
      ensures if file.close then Gone(file, INVALID) else Inv(null, INVALID) && file in queue
    {
      hide Inv, Index, Entry, Descriptors, Gone;
      HeldCount(file);
      file.count := file.count - 1;
      refs := refs - multiset{file};
      OneLess(file);
    }

    lemma {:induction false} HeldCount(file: CachedFile)
      requires Valid() && file in refs
      ensures file in live && file.count == refs[file]
    {
      assert Entry(file);
    }

    twostate lemma {:induction false} OneLess(file: CachedFile)
      requires old(Valid()) && file in old(refs) && file in live && refs == old(refs) - multiset{file}
      requires file.count == old(file.count) - 1 && unchanged(file`fd, file`err, file`isDir, file`close)
      requires unchanged(`tree) && unchanged(`queue) && unchanged(`current) && unchanged(`live) && unchanged(`fds)
               && unchanged(`owner)
      requires forall f | f in live && f != file :: unchanged(f)
      ensures if file.close then Gone(file, INVALID) else Inv(null, INVALID) && file in queue
    {
      hide Descriptors;
      hide Index;
      assert old(Entry(file)) && forall f | f in live && f != file :: old(Entry(f)) ==> Entry(f);
      assert Index(null) && Descriptors(INVALID);
      assert !file.close ==> Entry(file);
    }

    // What a request holds is open.
    lemma {:induction false} HeldOpen(pending: int)
      requires Inv(null, pending)
      ensures forall f | f in refs :: f in live && f.fd != INVALID && f.fd in fds && f.fd in owner
    {
      assert forall f | f in live :: Entry(f);
    }

    // ngx_open_and_stat_file
    method OpenAndStat(of: Info, k: Kernel, directio: bool) returns (ok: bool, r: Info)
      requires k.open.Gives? ==> k.open.value !in fds
      modifies `fds
      ensures Answered(of, k, ok, r, old(fds), fds) && (ok, r) == Look(of, k, directio)
    {
      if of.fd != INVALID {
        if k.stat.Fails? {
          return false, of.(fd := INVALID, err := k.stat.err);
        }
        if of.uniq == k.stat.value.uniq {
          return true, Filled(of, k.stat.value);
        }
      } else if of.testDir {
        if k.stat.Fails? {
          return false, of.(fd := INVALID, err := k.stat.err);
        }
        if k.stat.value.isDir {
          return true, Filled(of, k.stat.value);
        }
      }
      if k.open.Fails? {
        return false, of.(fd := INVALID, err := k.open.err);
      }
      var fd := k.open.value;
      fds := fds + {fd};
      if k.fstat.Fails? {
        CloseFile(fd);
        return false, of.(fd := INVALID);
      }
      if k.fstat.value.isDir {
        CloseFile(fd);
        return true, Filled(of.(fd := INVALID), k.fstat.value);
      }
      return true, Filled(of.(fd := fd, meta := of.meta.(isDirectio := directio || of.meta.isDirectio)), k.fstat.value);
    }

    // Everything about an entry but its place in the queue.
    ghost predicate Ready(file: CachedFile, pending: int)
      reads this, live`count, live`err, live`isDir, live`fd, live`close
    {
      && Inv(file, pending) && file in live
      && (file.err != 0 || file.isDir ==> file.fd == INVALID && file.count == 0)
      && (file.count > 0 ==> file.fd != INVALID)
      && (file.fd != INVALID ==> file.fd in owner && owner[file.fd] == file)
      && (file.err == 0 && !file.isDir ==> !file.close)
    }

    // found: the entry goes to the head of the queue.
    method Found(file: CachedFile, now: int)
      requires file !in queue
      modifies `queue, file`accessed
      ensures queue == [file] + old(queue) && file.accessed == now
      ensures old(Ready(file, INVALID)) ==> Inv(null, INVALID)
    {
      ghost var ready := Ready(file, INVALID);
      assert ready ==> forall f | f in live && f != file :: Entry(f);
      file.accessed := now;
      queue := [file] + queue;
      assert ready ==> Entry(file);
    }

    // update: the fields of the entry.
    method Write(file: CachedFile, of: Info, now: int)
      modifies file`fd, file`err, file`symlinks, file`uniq, file`meta, file`close, file`isDir, file`count, file`created
      ensures file.fd == of.fd && file.err == of.err && file.symlinks == of.symlinks && file.created == now
      ensures if of.err == 0 then file.uniq == of.uniq && file.meta == of.meta && !file.close && file.isDir == of.isDir
              else unchanged(file`uniq, file`meta, file`close, file`isDir)
      ensures file.count == old(file.count) + if of.err == 0 && !of.isDir then 1 else 0
    {
      file.fd := of.fd;
      file.err := of.err;
      file.symlinks := of.symlinks;
      if of.err == 0 {
        file.uniq := of.uniq;
        file.meta := of.meta;
        file.close := false;
        file.isDir := of.isDir;
        if !of.isDir {
          file.count := file.count + 1;
        }
      }
      file.created := now;
    }

    // update: the entry takes over what was found. The descriptor is the pending one of
    // an entry that has none, or the entry's own.
    method Update(file: CachedFile, of: Info, now: int, ghost pending: int)
      requires file in live
      modifies `owner, `refs, file
      ensures Holds(file, of) && file.uses == old(file.uses)
      ensures refs == old(refs) + if of.err == 0 && !of.isDir then multiset{file} else multiset{}
      ensures old(Inv(file, pending)) && Shaped(of) && old(Takes(file, of.fd, pending)) ==> Ready(file, INVALID)
    {
      hide Inv, Ready, Index, Entry, Descriptors;
      ghost var known := Inv(file, pending) && Shaped(of) && Takes(file, of.fd, pending);
      Write(file, of, now);
      if of.err == 0 && !of.isDir {
        refs := refs + multiset{file};
      }
      if pending != INVALID {
        owner := owner[pending := file];
      }
      if known {
        UpdateReady(file, of, pending);
      }
    }

    twostate lemma {:induction false} UpdateReady(file: CachedFile, new of: Info, new pending: int)
      requires file in live && old(Inv(file, pending)) && Shaped(of) && old(Takes(file, of.fd, pending))
      requires unchanged(`tree) && unchanged(`queue) && unchanged(`current) && unchanged(`live) && unchanged(`fds)
      requires forall f | f in live && f != file :: unchanged(f)
      requires file.fd == of.fd && file.err == of.err
      requires if of.err == 0 then !file.close && file.isDir == of.isDir else file.isDir == old(file.isDir)
      requires owner == if pending != INVALID then old(owner)[pending := file] else old(owner)
      requires if of.err == 0 && !of.isDir then file.count == old(file.count) + 1 && refs == old(refs) + multiset{file}
               else file.count == old(file.count) && refs == old(refs)
      ensures Ready(file, INVALID)
    {
      assert Index(file) && Descriptors(INVALID);
      assert forall f | f in live && f != file :: old(Entry(f)) ==> Entry(f);
    }

    ghost predicate Takes(file: CachedFile, fd: int, pending: int)
      reads `owner, file
    {
      if fd == pending then file.count == 0 && forall d | d in owner :: owner[d] != file
      else pending == INVALID && fd == file.fd && fd in owner && owner[fd] == file
    }

    // failed: the entry leaves the cache.
    method FailEntry(file: CachedFile)
      requires Ready(file, INVALID)
      modifies `tree, `current, `fds, `owner, `live, file`close
      ensures Inv(null, INVALID) && current == old(current) - 1
      ensures live == old(live) - if file in refs then {} else {file}
      ensures tree == old(tree) - {file.name}
      ensures fds == old(fds) - if file in refs then {} else {file.fd}
    {
      hide Inv, Index, Entry, Descriptors, Gone, Ready;
      Unlist(file);
      if file.count == 0 {
        Drop(file, INVALID);
      } else {
        MarkClosed(file, INVALID);
      }
    }

    method Unlist(file: CachedFile)
      requires Ready(file, INVALID)
      modifies `tree, `current
      ensures Gone(file, INVALID) && tree == old(tree) - {file.name} && current == old(current) - 1
      ensures file in live && file.count == refs[file]
    {
      hide Descriptors;
      assert forall f | f in live && f != file :: Entry(f);
      tree := tree - {file.name};
      current := current - 1;
    }

    // An entry that is held and not in the cache any more is closed when it is released.
    method MarkClosed(file: CachedFile, ghost pending: int)
      requires Gone(file, pending) && file.count > 0
      modifies file`close
      ensures Inv(null, pending)
    {
      hide Descriptors;
      assert forall f | f in live && f != file :: Entry(f);
      file.close := true;
      assert Entry(file);
    }

    // failed: the descriptor that no entry took.
    method CloseUnused(fd: int, ghost pending: int)
      requires Inv(null, pending) && fd != INVALID && (fd == pending || fd in owner)
      modifies `fds
      ensures fds == old(fds) - {fd} && (fd == pending ==> Inv(null, INVALID))
    {
      assert forall f | f in live :: Entry(f);
      CloseFile(fd);
    }

    static lemma {:induction false} NewIndexed(tree: map<string, CachedFile>, queue: seq<CachedFile>, current: nat,
        live: set<CachedFile>, file: CachedFile)
      requires Indexed(tree, queue, current, live, null) && file !in live && file.name !in tree
      ensures Indexed(tree[file.name := file], queue, current + 1, live + {file}, file) && file !in queue
    {
    }

    // create: a new entry of the tree, not in the queue yet.
    method AddEntry(name: string, ghost pending: int) returns (file: CachedFile)
      requires Inv(null, pending) && name !in tree
      modifies `tree, `current, `live
      ensures fresh(file) && live == old(live) + {file} && Inv(file, pending) && file.name == name
              && current == old(current) + 1
      ensures file !in refs && file.count == 0 && tree == old(tree)[name := file]
      ensures forall d | d in owner :: owner[d] != file
    {
      hide Indexed;
      assert forall f | f in live :: Entry(f);
      file := new CachedFile(name);
      NewIndexed(tree, queue, current, live, file);
      tree := tree[name := file];
      current := current + 1;
      live := live + {file};
    }

    // create: room for one more entry.
    method MakeRoom(now: int, ghost pending: int)
      requires Inv(null, pending) && current <= max && max >= 1
      modifies `tree, `queue, `current, `fds, `owner, `live, live`close, live`accessed, live`fd
      ensures Inv(null, pending) && current < max && queue <= old(queue) && live <= old(live)
              && tree.Keys <= old(tree).Keys
      ensures forall f | f in refs :: f in live && f.fd == old(f.fd) && f.fd != INVALID && f.fd in owner
    {
      hide Inv, Index, Entry, Descriptors;
      QueueLives(pending);
      HeldOpen(pending);
      if current >= max {
        Expire(0, now, pending);
        QueueLives(pending);
        HeldOpen(pending);
      }
    }

    // create and the labels after it. A descriptor that an entry g owns already is
    // mishandled.
    method Create(name: string, of: Info, now: int, noMemory: bool, ghost pending: int, ghost g: CachedFile?)
      returns (ok: bool)
      requires Inv(null, pending) && name !in tree && current <= max && max >= 1
      requires if g == null then Shaped(of) && of.fd == pending else g in refs && g.fd == of.fd && pending == INVALID
      modifies this, live
      ensures ok <==> of.err == 0 && !noMemory
      ensures Cached(name, of, now, old(queue)) || (noMemory && name !in tree)
      ensures refs == old(refs) + if ok && !of.isDir then multiset{queue[0]} else multiset{}
      ensures forall f | f in old(refs) :: f in live && f.fd == old(f.fd)
      ensures if g == null then Valid() else !Accounted()
      ensures forall f | f in live :: f in old(live) || fresh(f)
    {
      hide Inv, Index, Entry, Descriptors, Ready, Accounted;
      MakeRoom(now, pending);
      if noMemory {
        if of.fd != INVALID {
          CloseUnused(of.fd, pending);
        }
        if g != null {
          NotAccounted(g, g);
        }
        return false;
      }
      var file := Fill(name, of, now, pending);
      if g != null {
        NotAccounted(file, g);
      }
      ok := of.err == 0;
    }

    // create, add_event, update and found for a new entry.
    method Fill(name: string, of: Info, now: int, ghost pending: int) returns (file: CachedFile)
      requires Inv(null, pending) && name !in tree && current < max
      modifies `tree, `queue, `current, `live, `owner, `refs
      ensures fresh(file) && live == old(live) + {file} && file.name == name && Holds(file, of)
              && file.accessed == now && queue == [file] + old(queue)
      ensures refs == old(refs) + if of.err == 0 && !of.isDir then multiset{file} else multiset{}
      ensures Shaped(of) && of.fd == pending ==> Valid()
      ensures forall f | f in live :: f in old(live) || fresh(f)
    {
      hide Inv, Index, Entry, Descriptors, Ready;
      file := AddEntry(name, pending);
      QueueWithout(file, pending);
      Update(file, of, now, pending);
      Found(file, now);
    }

    // A closed descriptor, or one of two entries.
    lemma {:induction false} NotAccounted(f: CachedFile, g: CachedFile)
      requires f in live && g in live && f.fd == g.fd != INVALID && (f == g ==> f.fd !in fds)
      ensures !Accounted()
    {
    }

    lemma {:induction false} QueueWithout(file: CachedFile, pending: int)
      requires Inv(file, pending)
      ensures file !in queue
    {
    }

    // Taken out of the queue for the time of the call.
    method TakeOut(file: CachedFile)
      requires Valid() && file in queue
      modifies `queue
      ensures Ready(file, INVALID) && queue == Without(old(queue), file) && file !in queue && current <= max
    {
      hide Descriptors;
      assert Entry(file) && forall f | f in live :: Entry(f);
      WithoutIs(queue, file);
      queue := Without(queue, file);
    }

    // What an entry tells without asking the kernel.
    static function Told(file: CachedFile, ask: Info): Info
      reads file`err, file`fd, file`uniq, file`isDir, file`meta
    {
      if file.err != 0 then ask.(err := file.err)
      else ask.(fd := file.fd, uniq := file.uniq, isDir := file.isDir, meta := file.meta)
    }

    // What the kernel is asked about an entry that is too old.
    static function Recheck(file: CachedFile, ask: Info): Info
      reads file`fd, file`uniq, file`isDir
    {
      ask.(testDir := ask.testDir || file.isDir, fd := file.fd, uniq := file.uniq)
    }

    // The same file keeps its direct I/O setting.
    static function Confirmed(file: CachedFile, of: Info): Info
      reads file`err, file`uniq, file`isDir, file`meta
    {
      if of.err == 0 && !of.isDir && !file.isDir && file.err == 0 && of.uniq == file.uniq then
        of.(meta := of.meta.(isDirectio := file.meta.isDirectio))
      else of
    }

    static function AskedAgain(file: CachedFile, ask: Info, k: Kernel, directio: bool): Reply
      reads file`fd, file`err, file`uniq, file`isDir, file`meta
    {
      var r := Asked(Recheck(file, ask), k, directio);
      r.(of := if r.kept then Confirmed(file, r.of) else r.of)
    }

    // The reply for a known name.
    function Remembered(file: CachedFile, ask: Info, now: int, k: Kernel, directio: bool): Reply
      reads file`fd, file`err, file`isDir, file`uniq, file`meta, file`created, file`symlinks
    {
      if file.fd == INVALID && file.err == 0 && !file.isDir then Asked(ask, k, directio)
      else if Fresh(file, ask, now) then Reply(file.err == 0, Told(file, ask), true)
      else AskedAgain(file, ask, k, directio)
    }

    function Expected(name: string, ask: Info, now: int, k: Kernel, directio: bool): Reply
      reads this, tree.Values
    {
      var of := ask.(fd := INVALID, err := 0);
      if name in tree then Remembered(tree[name], of, now, k, directio) else Asked(of, k, directio)
    }

    predicate Fresh(file: CachedFile, of: Info, now: int)
      reads file`uniq, file`created, file`symlinks
    {
      (of.uniq == 0 || of.uniq == file.uniq) && now - file.created < of.valid && of.symlinks == file.symlinks
    }

    // The kernel's answers matter only for an open file that is checked again.
    predicate Steady(name: string, of: Info, now: int, k: Kernel)
      reads this, tree.Values
    {
      name in tree && tree[name].fd != INVALID && !Fresh(tree[name], of, now) ==> Calm(tree[name].uniq, k)
    }

    predicate Strays(name: string, of: Info, now: int, k: Kernel)
      reads this, tree.Values
    {
      name in tree && tree[name].fd != INVALID && !Fresh(tree[name], of, now) && Back(tree[name].uniq, k)
    }

    // A file that changed and that nobody holds gives up its descriptor.
    method CloseStale(file: CachedFile, ghost pending: int)
      requires Ready(file, pending) && file.count == 0 && file.fd != INVALID
      modifies `fds, `owner
      ensures Inv(file, pending) && fds == old(fds) - {file.fd} && forall d | d in owner :: owner[d] != file
    {
      assert forall f | f in live && f != file :: Entry(f);
      CloseFile(file.fd);
      owner := owner - {file.fd};
    }

    // A file that changed and that somebody holds leaves the cache.
    method Orphan(file: CachedFile, ghost pending: int)
      requires Ready(file, pending) && file.count > 0
      modifies `tree, `current, file`close
      ensures Inv(null, pending) && file.name !in tree && current == old(current) - 1
    {
      hide Descriptors;
      assert forall f | f in live && f != file :: Entry(f);
      tree := tree - {file.name};
      current := current - 1;
      file.close := true;
      assert Entry(file);
    }

    // add_event, update and found.
    method Store(file: CachedFile, of: Info, now: int, ghost pending: int) returns (ok: bool)
      requires file in live && file !in queue
      modifies `owner, `refs, `queue, file
      ensures ok <==> of.err == 0
      ensures Holds(file, of) && file.accessed == now && queue == [file] + old(queue)
      ensures refs == old(refs) + if of.err == 0 && !of.isDir then multiset{file} else multiset{}
      ensures old(Inv(file, pending)) && Shaped(of) && old(Takes(file, of.fd, pending)) ==> Inv(null, INVALID)
    {
      hide Inv, Index, Entry, Descriptors, Ready, Takes, Shaped;
      Update(file, of, now, pending);
      Found(file, now);
      ok := of.err == 0;
    }

    lemma {:induction false} OwnsNothing(file: CachedFile, pending: int)
      requires Ready(file, pending)
      ensures Inv(file, pending) && file in live && file.count == refs[file]
              && (file.count > 0 ==> file in refs && file.fd != INVALID)
      ensures file.fd == INVALID ==> file.count == 0 && forall d | d in owner :: owner[d] != file
      ensures file.fd != INVALID ==>
                file.fd in owner && owner[file.fd] == file && file.fd in fds && file.err == 0 && !file.isDir
      ensures file.fd != INVALID ==> forall f | f in live && f != file :: f.fd != file.fd
      ensures forall f | f in refs :: f in live && f.fd in fds
    {
      assert forall f | f in live && f != file :: Entry(f);
    }

    lemma {:induction false} Leaked(d: int)
      requires Astray(d)
      ensures !Accounted()
    {
    }

    twostate lemma {:induction false} Pend(out: CachedFile?, new fd: int)
      requires old(Inv(out, INVALID)) && fd != INVALID && fd !in old(fds) && fds == old(fds) + {fd}
      requires unchanged(`tree) && unchanged(`queue) && unchanged(`current) && unchanged(`live) && unchanged(`owner)
               && unchanged(`refs)
      requires forall f | f in live :: unchanged(f)
      ensures Inv(out, fd)
    {
      forall d | d in owner
        ensures d != INVALID && d != fd && owner[d] in live && owner[d].fd == d
      {
        assert old(d in fds && owner[d] in live && owner[d].fd == d);
      }
      assert forall f | f in live :: old(Entry(f)) ==> Entry(f);
    }

    // The entry was checked again: update keeps it, otherwise its file changed.
    method Renew(file: CachedFile, of: Info, now: int, noMemory: bool, ghost pending: int) returns (ok: bool)
      requires Ready(file, pending) && file !in queue && current <= max && max >= 1
      requires (file.fd == INVALID <==> file.err != 0 || file.isDir) && Renewal(file.fd, file.uniq, of, pending)
      modifies this, live
      ensures (ok ==> of.err == 0) && (of.err == 0 && !noMemory ==> ok)
      ensures Cached(file.name, of, now, old(queue)) || (!ok && noMemory && file.name !in tree)
      ensures refs == old(refs) + if ok && !of.isDir then multiset{queue[0]} else multiset{}
      ensures if Mixed(old(file.fd), old(file.uniq), of) then !Accounted() else Valid()
      ensures Mixed(old(file.fd), old(file.uniq), of) && !of.isDir ==> Astray(old(file.fd))
      ensures !Mixed(old(file.fd), old(file.uniq), of) ==> forall f | f in old(refs) :: f in live && f.fd == old(f.fd)
      ensures forall f | f in live :: f in old(live) || fresh(f)
    {
      hide Inv, Index, Entry, Descriptors, Ready, Accounted;
      OwnsNothing(file, pending);
      var update := file.isDir || file.err != 0 || (!of.isDir && of.err == 0 && of.uniq == file.uniq);
      if update {
        ok := Store(file, of, now, pending);
        if Mixed(old(file.fd), old(file.uniq), of) {
          Leaked(old(file.fd));
        }
      } else if file.count == 0 {
        CloseStale(file, pending);
        ok := Store(file, of, now, pending);
        if Mixed(old(file.fd), old(file.uniq), of) {
          NotAccounted(file, file);
        }
      } else {
        Orphan(file, pending);
        ok := Create(file.name, of, now, noMemory, pending, if of.fd == file.fd then file else null);
      }
    }

    // The branches for an entry whose state is too old.
    method Retest(file: CachedFile, ask: Info, now: int, k: Kernel, directio: bool, noMemory: bool)
      returns (ok: bool, of: Info)
      requires Ready(file, INVALID) && file !in queue && current <= max && max >= 1 && ask.fd == INVALID && ask.err == 0
      requires file.fd == INVALID <==> file.err != 0 || file.isDir
      requires k.open.Gives? ==> k.open.value !in fds
      modifies this, live
      ensures Served(file.name, ok, of, now, old(queue), old(AskedAgain(file, ask, k, directio)), noMemory)
      ensures refs == old(refs) + if ok && !of.isDir then multiset{queue[0]} else multiset{}
      ensures if old(file.fd) != INVALID && !Calm(old(file.uniq), k) then !Accounted()
              else Valid() && forall f | f in old(refs) :: f in live && f.fd == old(f.fd)
      ensures old(file.fd) != INVALID && Back(old(file.uniq), k) ==> Astray(old(file.fd))
      ensures forall f | f in live :: f in old(live) || fresh(f)
    {
      hide Inv, Index, Entry, Descriptors, Ready, Accounted, Answered, Calm, Served, Mixed, Renewal, Look, Confirmed,
        Back, Astray;
      OwnsNothing(file, INVALID);
      of := Recheck(file, ask);
      ghost var asked, r := of, AskedAgain(file, ask, k, directio);
      var rc;
      rc, of := OpenAndStat(of, k, directio);
      MixedIffNotCalm(asked, k, rc, of, old(fds), fds);
      if !rc && (of.err == 0 || !of.errors) {
        GiveUp(file, of, now, r, noMemory);
        return false, of;
      }
      ghost var pending := if of.fd == file.fd then INVALID else of.fd;
      StillReady(file, pending);
      ok, of := Confirm(file, of, now, noMemory, pending, r);
    }

    // Nothing is known about the name any more.
    method GiveUp(file: CachedFile, of: Info, ghost now: int, ghost r: Reply, ghost noMemory: bool)
      requires Ready(file, INVALID) && file !in queue && current <= max && of == r.of && !r.ok && !r.kept
      modifies `tree, `current, `fds, `owner, `live, file`close
      ensures Valid() && refs == old(refs) && live <= old(live)
      ensures forall f | f in old(refs) :: f in live && f.fd == old(f.fd)
      ensures Served(file.name, false, of, now, old(queue), r, noMemory)
    {
      hide Inv, Index, Entry, Descriptors, Ready, Cached;
      FailEntry(file);
      QueueLives(INVALID);
      HeldOpen(INVALID);
    }

    // The same file keeps its direct I/O setting.
    method Confirm(file: CachedFile, found: Info, now: int, noMemory: bool, ghost pending: int, ghost r: Reply)
      returns (ok: bool, of: Info)
      requires Ready(file, pending) && file !in queue && current <= max && max >= 1
      requires (file.fd == INVALID <==> file.err != 0 || file.isDir) && Renewal(file.fd, file.uniq, found, pending)
      requires r.kept && r.of == Confirmed(file, found) && (r.ok <==> found.err == 0)
      modifies this, live
      ensures Served(file.name, ok, of, now, old(queue), r, noMemory)
      ensures refs == old(refs) + if ok && !of.isDir then multiset{queue[0]} else multiset{}
      ensures if Mixed(old(file.fd), old(file.uniq), found) then !Accounted()
              else Valid() && forall f | f in old(refs) :: f in live && f.fd == old(f.fd)
      ensures Mixed(old(file.fd), old(file.uniq), found) && !found.isDir ==> Astray(old(file.fd))
      ensures forall f | f in live :: f in old(live) || fresh(f)
    {
      hide Inv, Index, Entry, Descriptors, Ready, Accounted, Cached, Mixed, Renewal, Astray;
      of := Confirmed(file, found);
      MetaOnly(file.fd, file.uniq, found, of, pending);
      ok := Renew(file, of, now, noMemory, pending);
    }

    twostate lemma {:induction false} StillReady(file: CachedFile, new pending: int)
      requires old(Ready(file, INVALID)) && fds == old(fds) + (if pending == INVALID then {} else {pending})
      requires pending == INVALID || pending !in old(fds)
      requires unchanged(`tree) && unchanged(`queue) && unchanged(`current) && unchanged(`live) && unchanged(`owner)
               && unchanged(`refs)
      requires forall f | f in live :: unchanged(f)
      ensures Ready(file, pending)
    {
      if pending != INVALID {
        Pend(file, pending);
      } else {
        assert fds == old(fds);
        assert forall f | f in live :: old(Entry(f)) ==> Entry(f);
      }
    }

    // The branches for a known name.
    method Revisit(file: CachedFile, ask: Info, now: int, k: Kernel, directio: bool, noMemory: bool)
      returns (ok: bool, of: Info)
      requires Valid() && file in queue && max >= 1 && ask.fd == INVALID && ask.err == 0
      requires k.open.Gives? ==> k.open.value !in fds
      modifies this, live
      ensures Served(file.name, ok, of, now, Without(old(queue), file),
                     old(Remembered(file, ask, now, k, directio)), noMemory)
      ensures refs == old(refs) + if ok && !of.isDir then multiset{queue[0]} else multiset{}
      ensures if old(file.fd != INVALID && !Fresh(file, ask, now)) && !Calm(old(file.uniq), k) then !Accounted()
              else Valid() && forall f | f in old(refs) :: f in live && f.fd == old(f.fd)
      ensures old(file.fd != INVALID && !Fresh(file, ask, now)) && Back(old(file.uniq), k) ==> Astray(old(file.fd))
      ensures forall f | f in live :: f in old(live) || fresh(f)
    {
      hide Inv, Index, Entry, Descriptors, Ready, Accounted, Served, Remembered, Fresh, Calm, Without, Back, Astray;
      ghost var again := file.fd != INVALID && !Fresh(file, ask, now);
      QueueLives(INVALID);
      HeldOpen(INVALID);
      file.uses := file.uses + 1;
      TakeOut(file);
      assert again == (file.fd != INVALID && !Fresh(file, ask, now));
      ok, of := Consult(file, ask, now, k, directio, noMemory);
    }

    method Consult(file: CachedFile, ask: Info, now: int, k: Kernel, directio: bool, noMemory: bool)
      returns (ok: bool, of: Info)
      requires Ready(file, INVALID) && file !in queue && current <= max && max >= 1 && ask.fd == INVALID && ask.err == 0
      requires k.open.Gives? ==> k.open.value !in fds
      modifies this, live
      ensures Served(file.name, ok, of, now, old(queue), old(Remembered(file, ask, now, k, directio)), noMemory)
      ensures refs == old(refs) + if ok && !of.isDir then multiset{queue[0]} else multiset{}
      ensures if old(file.fd != INVALID && !Fresh(file, ask, now)) && !Calm(old(file.uniq), k) then !Accounted()
              else Valid() && forall f | f in old(refs) :: f in live && f.fd == old(f.fd)
      ensures old(file.fd != INVALID && !Fresh(file, ask, now)) && Back(old(file.uniq), k) ==> Astray(old(file.fd))
      ensures forall f | f in live :: f in old(live) || fresh(f)
    {
      hide Inv, Index, Entry, Descriptors, Ready, Accounted, Served, Asked, AskedAgain, Told, Fresh, Calm, Back, Astray;
      OwnsNothing(file, INVALID);
      ghost var r := Remembered(file, ask, now, k, directio);
      if file.fd == INVALID && file.err == 0 && !file.isDir {
        assert r == Asked(ask, k, directio);
        ok, of := Reopen(file, ask, now, k, directio, noMemory);
      } else if Fresh(file, ask, now) {
        assert r == Reply(file.err == 0, Told(file, ask), true);
        ok, of := Reuse(file, ask, now, noMemory);
      } else {
        assert r == AskedAgain(file, ask, k, directio);
        ok, of := Retest(file, ask, now, k, directio, noMemory);
      }
    }

    // The entry is recent enough to answer the request.
    method Reuse(file: CachedFile, ask: Info, now: int, ghost noMemory: bool) returns (ok: bool, of: Info)
      requires Ready(file, INVALID) && file !in queue && current <= max && ask.fd == INVALID && ask.err == 0
      requires file.fd == INVALID <==> file.err != 0 || file.isDir
      modifies `queue, `refs, file`count, file`accessed
      ensures Valid()
      ensures Served(file.name, ok, of, now, old(queue), Reply(file.err == 0, Told(file, ask), true), noMemory)
      ensures refs == old(refs) + if ok && !of.isDir then multiset{queue[0]} else multiset{}
    {
      hide Inv, Index, Entry, Descriptors, Ready;
      of := ask;
      if file.err == 0 {
        of := of.(fd := file.fd, uniq := file.uniq, isDir := file.isDir, meta := file.meta);
        if !file.isDir {
          Hold(file);
        }
      } else {
        of := of.(err := file.err);
      }
      Found(file, now);
      ok := of.err == 0;
    }

    // One more request uses the descriptor.
    method Hold(file: CachedFile)
      requires Ready(file, INVALID) && file.err == 0 && !file.isDir && file.fd != INVALID
      modifies file`count, `refs
      ensures Ready(file, INVALID) && refs == old(refs) + multiset{file}
    {
      assert forall f | f in live && f != file :: Entry(f);
      file.count := file.count + 1;
      refs := refs + multiset{file};
    }

    // The entry has no descriptor: it was not used often enough to keep one.
    method Reopen(file: CachedFile, ask: Info, now: int, k: Kernel, directio: bool, ghost noMemory: bool)
      returns (ok: bool, of: Info)
      requires Ready(file, INVALID) && file !in queue && current <= max && file.fd == INVALID && ask.fd == INVALID
               && ask.err == 0
      requires k.open.Gives? ==> k.open.value !in fds
      modifies this, file
      ensures Valid() && forall f | f in old(refs) :: f in live && f.fd == old(f.fd)
      ensures Served(file.name, ok, of, now, old(queue), Asked(ask, k, directio), noMemory)
      ensures refs == old(refs) + if ok && !of.isDir then multiset{queue[0]} else multiset{}
      ensures forall f | f in live :: f in old(live) || fresh(f)
    {
      hide Inv, Index, Entry, Descriptors, Ready, Accounted;
      OwnsNothing(file, INVALID);
      var rc;
      rc, of := OpenAndStat(ask, k, directio);
      if !rc && (of.err == 0 || !of.errors) {
        GiveUp(file, of, now, Asked(ask, k, directio), noMemory);
        return false, of;
      }
      if of.fd != INVALID {
        Pend(file, of.fd);
      }
      ok := Store(file, of, now, of.fd);
    }

    // ngx_open_cached_file
    method OpenCached(name: string, ask: Info, now: int, k: Kernel, directio: bool, noMemory: bool)
      returns (ok: bool, of: Info)
      requires Valid() && max >= 1
      requires k.open.Gives? ==> k.open.value !in fds
      modifies this, live
      ensures Accounted() <==> old(Steady(name, ask, now, k))
      ensures old(Steady(name, ask, now, k)) ==> Valid() && forall f | f in old(refs) :: f in live && f.fd == old(f.fd)
      ensures old(Strays(name, ask, now, k)) ==> Astray(old(tree[name].fd))
      ensures Served(name, ok, of, now, if name in old(tree) then Without(old(queue), old(tree)[name]) else old(queue),
                     old(Expected(name, ask, now, k, directio)), noMemory)
      ensures refs == old(refs) + if ok && !of.isDir then multiset{queue[0]} else multiset{}
      ensures forall f | f in live :: f in old(live) || fresh(f)
    {
      hide Inv, Index, Entry, Descriptors, Ready, Accounted, Back, Astray;
      of := ask.(fd := INVALID, err := 0);
      QueueLives(INVALID);
      HeldOpen(INVALID);
      if name in tree {
        InQueue(name);
        ok, of := Revisit(tree[name], of, now, k, directio, noMemory);
      } else {
        ok, of := OpenNew(name, of, now, k, directio, noMemory);
      }
      if old(Steady(name, ask, now, k)) {
        ValidAccounted();
      }
    }

    lemma {:induction false} InQueue(name: string)
      requires Valid() && name in tree
      ensures tree[name] in queue && tree[name].name == name
    {
    }

    // The branch for an unknown name.
    method OpenNew(name: string, ask: Info, now: int, k: Kernel, directio: bool, noMemory: bool)
      returns (ok: bool, of: Info)
      requires Valid() && max >= 1 && name !in tree && ask.fd == INVALID && ask.err == 0
      requires k.open.Gives? ==> k.open.value !in fds
      modifies this, live
      ensures Valid() && forall f | f in old(refs) :: f in live && f.fd == old(f.fd)
      ensures Served(name, ok, of, now, old(queue), Asked(ask, k, directio), noMemory)
      ensures refs == old(refs) + if ok && !of.isDir then multiset{queue[0]} else multiset{}
      ensures forall f | f in live :: f in old(live) || fresh(f)
    {
      hide Inv, Index, Entry, Descriptors, Ready, Accounted, Look, Cached;
      HeldOpen(INVALID);
      var rc;
      rc, of := OpenAndStat(ask, k, directio);
      if !rc && (of.err == 0 || !of.errors) {
        return false, of;
      }
      if of.fd != INVALID {
        Pend(null, of.fd);
      }
      ok := Create(name, of, now, noMemory, of.fd, null);
    }

    // ngx_open_file_cache_cleanup, when the pool of the cache is destroyed: requests that
    // still hold entries of the queue are not served any more.
    method Destroy(now: int)
      requires Valid()
      modifies this, live
      ensures Valid() && queue == [] && tree == map[] && current == 0 && live <= old(live)
      ensures forall f | f in live :: f in old(live) && f !in old(queue) && f.fd == old(f.fd)
    {
      hide Inv, Index, Entry, Descriptors;
      while queue != []
        invariant Inv(null, INVALID) && live <= old(live) && |queue| <= |old(queue)| && queue == old(queue)[..|queue|]
        invariant forall i | |queue| <= i < |old(queue)| :: old(queue)[i] !in live
        invariant forall f | f in live :: f.fd == old(f.fd)
        decreases |queue|
      {
        var file := queue[|queue| - 1];
        QueueLives(INVALID);
        TakeLast(file, INVALID);
        if file.err == 0 && !file.isDir {
          Forsake(file);
          CloseCached(file, 0, now, INVALID);
        } else {
          GoneEmpty(file);
          Drop(file, INVALID);
        }
      }
      QueueLives(INVALID);
      NoNames();
    }

    method Forsake(file: CachedFile)
      requires Gone(file, INVALID)
      modifies file`close, file`count, `refs
      ensures Gone(file, INVALID) && file !in refs && file.close && file.count == 0
    {
      hide Descriptors, Index;
      assert forall f | f in live && f != file :: Entry(f);
      file.close := true;
      file.count := 0;
      refs := refs[file := 0];
    }

    lemma {:induction false} GoneEmpty(file: CachedFile)
      requires Gone(file, INVALID) && (file.err != 0 || file.isDir)
      ensures file.count == 0
    {
    }

    lemma {:induction false} NoNames()
      requires Inv(null, INVALID) && queue == []
      ensures tree == map[]
    {
    }

    // Once the cache is empty and every request has given back its descriptor, nothing
    // is left: every descriptor was closed and every entry freed.
    lemma {:induction false} NothingLeft()
      requires Valid() && queue == [] && refs == multiset{}
      ensures live == {} && fds == {}
    {
      assert forall d | d in fds :: d in owner && owner[d] in live;
      assert forall f | f in live :: Entry(f);
    }

    // A cache with one entry, which the only request holds.
    lemma {:induction false} OnlyEntry(f: CachedFile)
      requires Valid() && queue == [f] && refs == multiset{f}
      ensures f.name in tree && tree[f.name] == f && live == {f} && forall d | d in fds :: d == f.fd
    {
      assert forall g | g in live :: Entry(g);
      assert forall d | d in fds :: d in owner && owner[d] in live;
    }
  }

  const META := Meta(0, 0, true, false, false, false)
  const ASK := Info(INVALID, 0, META, false, 0, 0, 1, 0, false, false)
  const FILE := Stat(7, false, META)

  // A cache whose only entry is the open file with inode 7.
  method OneFile() returns (c: OpenFileCache, f: CachedFile)
    ensures fresh(c) && fresh(f) && c.Valid() && c.max == 1 && c.live == {f} && "f" in c.tree && c.tree["f"] == f
    ensures f.fd == 3 && f.uniq == 7 && c.fds <= {3}
  {
    c := new OpenFileCache(1, 60);
    var k := Kernel(Gives(FILE), Gives(3), Gives(FILE));
    ghost var r := c.Expected("f", ASK, 0, k, false);
    assert r.ok && r.kept && r.of.fd == 3 && r.of.uniq == 7 && !r.of.isDir && r.of.err == 0;
    var ok, of := c.OpenCached("f", ASK, 0, k, false, false);
    assert ok && of == r.of && c.queue == [c.queue[0]];
    f := c.queue[0];
    c.OnlyEntry(f);
    assert forall d | d in c.fds :: d in {3};
  }

  // On the next request stat says that the file was replaced, and what is opened is the old
  // file again: its first descriptor is lost.
  method LosesDescriptor() returns (c: OpenFileCache)
    ensures !c.Accounted() && 3 in c.fds && forall f | f in c.live :: f.fd != 3
  {
    var f;
    c, f := OneFile();
    var k := Kernel(Gives(Stat(8, false, META)), Gives(4), Gives(FILE));
    var ok, of := c.OpenCached("f", ASK, f.created + 1, k, false, false);
  }
}
