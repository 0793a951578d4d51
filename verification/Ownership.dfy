// The probe ownership protocol: worker processes share a table of peers and
// claim, probe and release each peer through its shared record.  A handler is
// split at every access to shared memory, so that workers interleave there.

module Ownership {
  import opened Hysteresis

  type Pid = nat
  type PeerId = nat

  datatype Option<T> = None | Some(value: T)

  // Shared memory of one peer.  owner None is NGX_INVALID_PID.
  datatype Shm = Shm(owner: Option<Pid>, lock: Option<Pid>, accessTime: nat, rec: Record)

  // discard: the handlers were switched to dummy/discard after a finished probe.
  datatype Conn = Conn(error: bool, requests: nat, discard: bool)

  // What one worker keeps for one peer.  probes counts the probes it has begun
  // and neither released nor abandoned.
  datatype Local = Local(conn: Option<Conn>, timer: bool, probes: nat)

  datatype Config = Config(interval: nat, thresholds: Thresholds, needKeepalive: bool, keepaliveRequests: nat)

  // Shared accesses of status_update, in the order of the success branch.
  datatype Phase = Load | Store(tmp: nat) | Zero | TestDown | TestCount | Flip | Stamp

  datatype Pc =
    | Idle
    | AtOwner(p: PeerId)                      // begin_handler: early unlocked read
    | AtTime(p: PeerId)                       // unlocked read of access_time
    | AtLock(p: PeerId, elapsed: nat)
    | AtTest(p: PeerId, elapsed: nat)         // lock held
    | AtWrite(p: PeerId, takeover: bool)      // lock held
    | AtTouch(p: PeerId)                      // lock held
    | AtUnlock(p: PeerId)                     // lock held
    | AtReread(p: PeerId)                     // unlocked re-read
    | AtConnect(p: PeerId)
    | AtUpdate(p: PeerId, ok: bool, phase: Phase)
    | AtClean(p: PeerId, probe: bool)

  // now: the clock of each process, ngx_current_msec.
  datatype State = State(
    now: map<Pid, nat>,
    conf: map<PeerId, Config>,
    shm: map<PeerId, Shm>,
    alive: set<Pid>,
    exiting: set<Pid>,
    pc: map<Pid, Pc>,
    local: map<(Pid, PeerId), Local>,
    hist: map<PeerId, seq<bool>>)

  datatype ConnectResult = Refused | InProgress

  datatype Io = Wait | Sent | Finish(ok: bool, error: bool)

  datatype Step =
    | Tick(w: Pid, d: nat)
    | Spawn(w: Pid)
    | Signal(w: Pid)
    | Die(w: Pid)
    | FireCheck(w: Pid, p: PeerId)
    | FireIo(w: Pid, p: PeerId, io: Io)
    | FireTimeout(w: Pid, p: PeerId)
    | FireDiscard(w: Pid, p: PeerId, closed: bool)
    | ReadOwner(w: Pid)
    | ReadTime(w: Pid)
    | Lock(w: Pid, sameGeneration: bool)
    | TestOwner(w: Pid)
    | WriteOwner(w: Pid)
    | TouchTime(w: Pid)
    | Unlock(w: Pid)
    | RereadOwner(w: Pid)
    | Connect(w: Pid, peekOk: bool, rc: ConnectResult)
    | UpdateAccess(w: Pid)
    | CleanEvent(w: Pid)

  const MSEC_RANGE: nat := 0x1_0000_0000_0000_0000

  function Clock(s: State, w: Pid): nat {
    if w in s.now then s.now[w] else 0
  }

  // ngx_current_msec - access_time in unsigned arithmetic.
  function Elapsed(now: nat, accessTime: nat): nat {
    (now - accessTime) % MSEC_RANGE
  }

  // check_interval << 4 in unsigned arithmetic.
  function TakeoverAfter(c: Config): nat {
    (c.interval * 16) % MSEC_RANGE
  }

  predicate InCritical(pc: Pc, p: PeerId) {
    match pc
    case AtTest(q, _) => q == p
    case AtWrite(q, _) => q == p
    case AtTouch(q) => q == p
    case AtUnlock(q) => q == p
    case _ => false
  }

  predicate Probing(pc: Pc, p: PeerId) {
    match pc
    case AtConnect(q) => q == p
    case AtUpdate(q, _, _) => q == p
    case AtClean(q, probe) => q == p && probe
    case _ => false
  }

  predicate PcPeerKnown(pc: Pc, peers: set<PeerId>) {
    pc == Idle || pc.p in peers
  }

  ghost predicate WellTyped(s: State) {
    && s.conf.Keys == s.shm.Keys == s.hist.Keys
    && s.alive <= s.pc.Keys
    && s.exiting <= s.pc.Keys
    && (forall w, p | w in s.pc && p in s.shm :: (w, p) in s.local)
    && (forall w | w in s.pc :: PcPeerKnown(s.pc[w], s.shm.Keys))
  }

  // w has a probe of p in flight.
  ghost predicate InFlight(s: State, w: Pid, p: PeerId)
    requires WellTyped(s)
  {
    w in s.alive && p in s.shm && (s.local[(w, p)].timer || Probing(s.pc[w], p))
  }

  // A step of w on p: new program counter, new local data, new shared record.
  function Put(s: State, w: Pid, p: PeerId, pc: Pc, l: Local, m: Shm): State {
    s.(pc := s.pc[w := pc], local := s.local[(w, p) := l], shm := s.shm[p := m])
  }

  function Goto(s: State, w: Pid, p: PeerId, pc: Pc): State
    requires (w, p) in s.local && p in s.shm
  {
    Put(s, w, p, pc, s.local[(w, p)], s.shm[p])
  }

  // need_exit: an exiting worker drops its timers and connections, and leaves
  // the shared record as it is.
  function ClearAll(s: State, w: Pid): State {
    s.(pc := s.pc[w := Idle],
       local := map k | k in s.local :: if k.0 == w then Local(None, false, 0) else s.local[k])
  }

  function FirstPhase(ok: bool): Phase {
    if ok then Load else Zero
  }

  // The result of a probe is known: status_update is about to run.
  function BeginUpdate(s: State, w: Pid, p: PeerId, l: Local, ok: bool): State
    requires p in s.hist && p in s.shm
  {
    Put(s, w, p, AtUpdate(p, ok, FirstPhase(ok)), l, s.shm[p]).(hist := s.hist[p := s.hist[p] + [ok]])
  }

  function SetError(c: Option<Conn>, error: bool): Option<Conn> {
    if c.Some? then Some(c.value.(error := c.value.error || error)) else None
  }

  // One shared access of status_update.
  function UpdateStep(t: Thresholds, r: Record, ok: bool, phase: Phase): (Record, Phase)
    requires phase != Stamp
  {
    match phase
    case Load => (r, Store(if ok then r.rise else r.fall))
    case Store(tmp) => if ok then (r.(rise := tmp + 1), Zero) else (r.(fall := tmp + 1), TestDown)
    case Zero => if ok then (r.(fall := 0), TestDown) else (r.(rise := 0), Load)
    case TestDown => (r, if r.down == ok then TestCount else Stamp)
    case TestCount => (r, if (if ok then r.rise >= t.rise else r.fall >= t.fall) then Flip else Stamp)
    case Flip => (r.(down := !ok), Stamp)
  }

  // clean_event on the worker's own data.
  function Cleaned(c: Config, l: Local, probe: bool): Local {
    var keep := l.conn.Some? && !l.conn.value.error && c.needKeepalive && l.conn.value.requests < c.keepaliveRequests;
    Local(if keep then Some(l.conn.value.(discard := true)) else None, false,
          if probe && l.probes > 0 then l.probes - 1 else l.probes)
  }

  predicate Environment(st: Step) {
    st.Tick? || st.Spawn? || st.Signal? || st.Die?
  }

  ghost predicate Enabled(s: State, st: Step)
    requires WellTyped(s)
  {
    match st
    case Tick(_, _) => true
    case Spawn(w) => w !in s.pc
    case Signal(w) => w in s.alive
    case Die(w) => w in s.alive
    case FireCheck(w, p) => w in s.alive && s.pc[w].Idle? && p in s.shm
    case FireIo(w, p, _) =>
      w in s.alive && s.pc[w].Idle? && p in s.shm && s.local[(w, p)].conn.Some? && !s.local[(w, p)].conn.value.discard
    case FireTimeout(w, p) => w in s.alive && s.pc[w].Idle? && p in s.shm && s.local[(w, p)].timer
    case FireDiscard(w, p, _) =>
      w in s.alive && s.pc[w].Idle? && p in s.shm && s.local[(w, p)].conn.Some? && s.local[(w, p)].conn.value.discard
    case ReadOwner(w) => w in s.alive && s.pc[w].AtOwner?
    case ReadTime(w) => w in s.alive && s.pc[w].AtTime?
    case Lock(w, _) => w in s.alive && s.pc[w].AtLock? && s.shm[s.pc[w].p].lock.None?
    case TestOwner(w) => w in s.alive && s.pc[w].AtTest?
    case WriteOwner(w) => w in s.alive && s.pc[w].AtWrite?
    case TouchTime(w) => w in s.alive && s.pc[w].AtTouch?
    case Unlock(w) => w in s.alive && s.pc[w].AtUnlock?
    case RereadOwner(w) => w in s.alive && s.pc[w].AtReread?
    case Connect(w, _, _) => w in s.alive && s.pc[w].AtConnect?
    case UpdateAccess(w) => w in s.alive && s.pc[w].AtUpdate?
    case CleanEvent(w) => w in s.alive && s.pc[w].AtClean?
  }

  ghost function ApplyEnvironment(s: State, st: Step): State
    requires WellTyped(s) && Enabled(s, st) && Environment(st)
  {
    match st
    case Tick(w, d) => s.(now := s.now[w := Clock(s, w) + d])
    case Spawn(w) =>
      s.(alive := s.alive + {w}, exiting := s.exiting - {w}, pc := s.pc[w := Idle],
         local := map k | k in s.local.Keys + (set p | p in s.shm :: (w, p)) ::
           if k.0 == w then Local(None, false, 0) else s.local[k])
    case Signal(w) => s.(exiting := s.exiting + {w})
    case Die(w) => s.(alive := s.alive - {w})
  }

  // Entry of a handler that the event loop calls in a worker that is not exiting.
  ghost function ApplyFire(s: State, st: Step): State
    requires WellTyped(s) && Enabled(s, st) && (st.FireCheck? || st.FireIo? || st.FireTimeout? || st.FireDiscard?)
  {
    var l := s.local[(st.w, st.p)];
    match st
    case FireCheck(w, p) => Goto(s, w, p, AtOwner(p))
    case FireIo(w, p, Wait) => s
    case FireIo(w, p, Sent) =>
      Put(s, w, p, Idle, l.(conn := Some(l.conn.value.(requests := l.conn.value.requests + 1))), s.shm[p])
    case FireIo(w, p, Finish(ok, error)) => BeginUpdate(s, w, p, l.(conn := SetError(l.conn, error)), ok)
    case FireTimeout(w, p) => BeginUpdate(s, w, p, l.(timer := false, conn := SetError(l.conn, true)), false)
    case FireDiscard(w, p, closed) =>
      if closed then Put(s, w, p, AtClean(p, false), l.(conn := SetError(l.conn, true)), s.shm[p]) else s
  }

  // begin_handler, one shared access at a time.
  function ClaimEffect(w: Pid, p: PeerId, c: Config, now: nat, sameGeneration: bool, pc: Pc, l: Local, m: Shm)
    : (Pc, Local, Shm)
    requires pc.AtOwner? || pc.AtTime? || pc.AtLock? || InCritical(pc, p) || pc.AtReread?
  {
    match pc
    case AtOwner(_) => (if m.owner == Some(w) || l.timer then Idle else AtTime(p), l, m)
    case AtTime(_) => (AtLock(p, Elapsed(now, m.accessTime)), l, m)
    case AtLock(_, elapsed) =>
      if sameGeneration then (AtTest(p, elapsed), l, m.(lock := Some(w))) else (Idle, l, m)
    case AtTest(_, elapsed) =>
      (if elapsed >= c.interval && m.owner.None? then AtWrite(p, false)
       else if elapsed >= TakeoverAfter(c) then AtWrite(p, true)
       else AtUnlock(p), l, m)
    case AtWrite(_, takeover) => (if takeover then AtTouch(p) else AtUnlock(p), l, m.(owner := Some(w)))
    case AtTouch(_) => (AtUnlock(p), l, m.(accessTime := now))
    case AtUnlock(_) => (AtReread(p), l, m.(lock := None))
    case AtReread(_) => if m.owner == Some(w) then (AtConnect(p), l.(probes := l.probes + 1), m) else (Idle, l, m)
  }

  ghost function ApplyClaim(s: State, st: Step): State
    requires WellTyped(s) && Enabled(s, st) && Claiming(st)
  {
    var w := st.w;
    var p := s.pc[w].p;
    var (pc, l, m) :=
      ClaimEffect(w, p, s.conf[p], Clock(s, w), st.Lock? && st.sameGeneration, s.pc[w], s.local[(w, p)], s.shm[p]);
    Put(s, w, p, pc, l, m)
  }

  predicate Claiming(st: Step) {
    st.ReadOwner? || st.ReadTime? || st.Lock? || st.TestOwner? || st.WriteOwner? || st.TouchTime? || st.Unlock?
    || st.RereadOwner?
  }

  // connect_handler in a worker that is not exiting, one access of
  // status_update, or clean_event.
  function ProbeEffect(st: Step, p: PeerId, c: Config, now: nat, pc: Pc, l: Local, m: Shm): (Pc, Local, Shm)
    requires st.Connect? || (st.UpdateAccess? && pc.AtUpdate?) || (st.CleanEvent? && pc.AtClean?)
  {
    match st
    case Connect(_, peekOk, rc) =>
      if l.conn.Some? && peekOk then (Idle, l.(conn := Some(l.conn.value.(discard := false)), timer := true), m)
      else if rc.Refused? then (AtUpdate(p, false, FirstPhase(false)), l.(conn := None), m)
      else (Idle, l.(conn := Some(Conn(false, 0, false)), timer := true), m)
    case UpdateAccess(_) =>
      if pc.phase == Stamp then (AtClean(p, true), l, m.(accessTime := now))
      else
        var next := UpdateStep(c.thresholds, m.rec, pc.ok, pc.phase);
        (AtUpdate(p, pc.ok, next.1), l, m.(rec := next.0))
    case CleanEvent(_) => (Idle, Cleaned(c, l, pc.probe), m.(owner := None))
  }

  // The connection attempt failed at once, which is a result of its own.
  predicate Refused(st: Step, l: Local) {
    st.Connect? && !(l.conn.Some? && st.peekOk) && st.rc.Refused?
  }

  predicate Probes(st: Step) {
    st.Connect? || st.UpdateAccess? || st.CleanEvent?
  }

  ghost function ApplyProbe(s: State, st: Step): State
    requires WellTyped(s) && Enabled(s, st) && Probes(st)
  {
    var w := st.w;
    var p := s.pc[w].p;
    var l := s.local[(w, p)];
    var (pc, l', m) := ProbeEffect(st, p, s.conf[p], Clock(s, w), s.pc[w], l, s.shm[p]);
    if Refused(st, l) then BeginUpdate(s, w, p, l', false) else Put(s, w, p, pc, l', m)
  }

  // Handlers that begin with need_exit.
  predicate ChecksExit(st: Step) {
    st.FireCheck? || st.FireIo? || st.FireTimeout? || st.FireDiscard? || st.Connect?
  }

  ghost function Apply(s: State, st: Step): State
    requires WellTyped(s) && Enabled(s, st)
  {
    if Environment(st) then ApplyEnvironment(s, st)
    else if ChecksExit(st) && st.w in s.exiting then ClearAll(s, st.w)
    else if Claiming(st) then ApplyClaim(s, st)
    else if Probes(st) then ApplyProbe(s, st)
    else ApplyFire(s, st)
  }

  // What holds between a worker and a peer, in terms of the worker's program
  // counter, its local data and the shared record.
  ghost predicate PairOk(w: Pid, p: PeerId, pc: Pc, l: Local, m: Shm, alive: bool, exiting: bool) {
    && (m.lock == Some(w) <==> InCritical(pc, p))
    && (m.owner == Some(w) && alive && !exiting ==>
          l.timer || Probing(pc, p) || pc == AtTouch(p) || pc == AtUnlock(p) || pc == AtReread(p))
    && ((pc.AtTime? || pc.AtLock? || pc.AtTest? || pc.AtWrite?) && pc.p == p ==> m.owner != Some(w) && !l.timer)
    && ((pc.AtTouch? || pc.AtUnlock? || pc.AtReread? || pc.AtConnect?) && pc.p == p ==> !l.timer)
    && (pc == AtClean(p, false) ==> !l.timer)
    && (pc == AtWrite(p, false) ==> m.owner.None?)
    && (alive ==>
          && (l.timer ==> l.conn.Some? && !l.conn.value.discard)
          && (l.conn.Some? && !l.conn.value.discard ==> l.timer || Probing(pc, p))
          && l.probes == if l.timer || Probing(pc, p) then 1 else 0)
  }

  ghost predicate PairInv(s: State, w: Pid, p: PeerId)
    requires WellTyped(s) && w in s.pc && p in s.shm
  {
    PairOk(w, p, s.pc[w], s.local[(w, p)], s.shm[p], w in s.alive, w in s.exiting)
  }

  ghost predicate Inv(s: State) {
    && WellTyped(s)
    && (forall p | p in s.shm :: s.shm[p].owner.Some? ==> s.shm[p].owner.value in s.pc)
    && (forall p | p in s.shm :: s.shm[p].lock.Some? ==> s.shm[p].lock.value in s.pc)
    && (forall w, p | w in s.pc && p in s.shm :: PairInv(s, w, p))
  }

  // What a step of w may do to a shared record: only w sets owner or lock to w,
  // owner only under the lock, and only the holder drops the lock.
  predicate Guarantee(m: Shm, m': Shm, w: Pid) {
    && (m'.owner == m.owner || m'.owner.None? || (m'.owner == Some(w) && m.lock == Some(w)))
    && (m'.lock == m.lock || (m.lock.None? && m'.lock == Some(w)) || (m.lock == Some(w) && m'.lock.None?))
  }

  // Another worker's view survives every guaranteed change.
  lemma {:induction false} Stable(w: Pid, v: Pid, p: PeerId, pc: Pc, l: Local, m: Shm, m': Shm, alive: bool,
      exiting: bool)
    requires v != w && Guarantee(m, m', w) && PairOk(v, p, pc, l, m, alive, exiting)
    ensures PairOk(v, p, pc, l, m', alive, exiting)
  {
  }

  predicate OnPeer(pc: Pc, p: PeerId) {
    pc == Idle || pc.p == p
  }

  lemma {:induction false} PutKeeps(s: State, w: Pid, p: PeerId, pc: Pc, l: Local, m: Shm)
    requires Inv(s) && w in s.alive && p in s.shm
    requires OnPeer(s.pc[w], p) && OnPeer(pc, p)
    requires Guarantee(s.shm[p], m, w)
    requires PairOk(w, p, pc, l, m, true, w in s.exiting)
    ensures Inv(Put(s, w, p, pc, l, m))
  {
    hide PairOk, OnPeer;
    var s' := Put(s, w, p, pc, l, m);
    PutWellTyped(s, w, p, pc, l, m);
    forall v, q | v in s'.pc && q in s'.shm
      ensures PairInv(s', v, q)
    {
      assert PairInv(s, v, q);
      if v != w && q == p {
        Stable(w, v, p, s.pc[v], s.local[(v, p)], s.shm[p], m, v in s.alive, v in s.exiting);
      } else if v == w && q != p {
        OffPeer(w, q, p, s.pc[w], pc, s.local[(w, q)], s.shm[q], true, w in s.exiting);
      }
    }
  }

  lemma {:induction false} PutWellTyped(s: State, w: Pid, p: PeerId, pc: Pc, l: Local, m: Shm)
    requires WellTyped(s) && w in s.pc && p in s.shm && OnPeer(pc, p)
    ensures WellTyped(Put(s, w, p, pc, l, m))
  {
  }

  // A worker that is busy with p keeps what holds between it and q.
  lemma {:induction false} OffPeer(w: Pid, q: PeerId, p: PeerId, pc: Pc, pc': Pc, l: Local, m: Shm, alive: bool,
      exiting: bool)
    requires q != p && OnPeer(pc, p) && OnPeer(pc', p) && PairOk(w, q, pc, l, m, alive, exiting)
    ensures PairOk(w, q, pc', l, m, alive, exiting)
  {
  }

  lemma {:induction false} HistKeeps(s: State, p: PeerId, h: seq<bool>)
    requires Inv(s) && p in s.hist
    ensures Inv(s.(hist := s.hist[p := h]))
  {
    var s' := s.(hist := s.hist[p := h]);
    assert WellTyped(s');
    forall v, q | v in s'.pc && q in s'.shm
      ensures PairInv(s', v, q)
    {
      assert PairInv(s, v, q);
    }
  }

  lemma {:induction false} BeginUpdateKeeps(s: State, w: Pid, p: PeerId, l: Local, ok: bool)
    requires Inv(s) && w in s.alive && p in s.shm && OnPeer(s.pc[w], p)
    requires PairOk(w, p, AtUpdate(p, ok, FirstPhase(ok)), l, s.shm[p], true, w in s.exiting)
    ensures Inv(BeginUpdate(s, w, p, l, ok))
  {
    var pc := AtUpdate(p, ok, FirstPhase(ok));
    PutKeeps(s, w, p, pc, l, s.shm[p]);
    HistKeeps(Put(s, w, p, pc, l, s.shm[p]), p, s.hist[p] + [ok]);
  }

  lemma {:induction false} ClearAllKeeps(s: State, w: Pid)
    requires Inv(s) && w in s.alive && w in s.exiting && (s.pc[w].Idle? || s.pc[w].AtConnect?)
    ensures Inv(ClearAll(s, w))
  {
    var s' := ClearAll(s, w);
    assert WellTyped(s');
    forall v, q | v in s'.pc && q in s'.shm
      ensures PairInv(s', v, q)
    {
      assert PairInv(s, v, q);
    }
  }

  lemma {:induction false} EnvironmentKeeps(s: State, st: Step)
    requires Inv(s) && Enabled(s, st) && Environment(st)
    ensures Inv(ApplyEnvironment(s, st))
  {
    hide PairInv, WellTyped;
    EnvironmentTyped(s, st);
    var s' := ApplyEnvironment(s, st);
    forall v, q | v in s'.pc && q in s'.shm
      ensures PairInv(s', v, q)
    {
      assert v in s.pc ==> PairInv(s, v, q);
      EnvironmentPair(s, st, v, q);
    }
  }

  lemma {:induction false} EnvironmentTyped(s: State, st: Step)
    requires WellTyped(s) && Enabled(s, st) && Environment(st)
    ensures WellTyped(ApplyEnvironment(s, st)) && ApplyEnvironment(s, st).shm == s.shm
    ensures s.pc.Keys <= ApplyEnvironment(s, st).pc.Keys
  {
  }

  lemma {:induction false} EnvironmentPair(s: State, st: Step, v: Pid, q: PeerId)
    requires WellTyped(s) && Enabled(s, st) && Environment(st) && WellTyped(ApplyEnvironment(s, st))
    requires v in ApplyEnvironment(s, st).pc && q in s.shm && (v in s.pc ==> PairInv(s, v, q))
    requires s.shm[q].owner.Some? ==> s.shm[q].owner.value in s.pc
    requires s.shm[q].lock.Some? ==> s.shm[q].lock.value in s.pc
    ensures PairInv(ApplyEnvironment(s, st), v, q)
  {
  }

  lemma {:induction false} FireKeeps(s: State, st: Step)
    requires Inv(s) && Enabled(s, st) && (st.FireCheck? || st.FireIo? || st.FireTimeout? || st.FireDiscard?)
    ensures Inv(ApplyFire(s, st))
  {
    hide Inv;
    var w, p := st.w, st.p;
    InvAt(s, w, p);
    var l, m := s.local[(w, p)], s.shm[p];
    match st
    case FireCheck(_, _) => PutKeeps(s, w, p, AtOwner(p), l, m);
    case FireIo(_, _, io) => IoKeeps(s, w, p, io);
    case FireTimeout(_, _) => BeginUpdateKeeps(s, w, p, l.(timer := false, conn := SetError(l.conn, true)), false);
    case FireDiscard(_, _, closed) =>
      if closed {
        PutKeeps(s, w, p, AtClean(p, false), l.(conn := SetError(l.conn, true)), m);
      }
  }

  lemma {:induction false} InvAt(s: State, w: Pid, p: PeerId)
    requires Inv(s)
    ensures WellTyped(s) && (w in s.pc && p in s.shm ==> PairInv(s, w, p))
  {
  }

  lemma {:induction false} IoKeeps(s: State, w: Pid, p: PeerId, io: Io)
    requires Inv(s) && Enabled(s, FireIo(w, p, io))
    ensures Inv(ApplyFire(s, FireIo(w, p, io)))
  {
    hide Inv;
    InvAt(s, w, p);
    var l, m := s.local[(w, p)], s.shm[p];
    match io
    case Wait =>
    case Sent => PutKeeps(s, w, p, Idle, l.(conn := Some(l.conn.value.(requests := l.conn.value.requests + 1))), m);
    case Finish(ok, error) => BeginUpdateKeeps(s, w, p, l.(conn := SetError(l.conn, error)), ok);
  }

  // begin_handler keeps what holds between its worker and its peer.
  lemma {:induction false} ClaimPair(w: Pid, p: PeerId, c: Config, now: nat, same: bool, pc: Pc, l: Local, m: Shm,
      exiting: bool)
    requires pc.AtOwner? || pc.AtTime? || (pc.AtLock? && m.lock.None?) || InCritical(pc, p) || pc.AtReread?
    requires pc.p == p && PairOk(w, p, pc, l, m, true, exiting)
    ensures var e := ClaimEffect(w, p, c, now, same, pc, l, m);
            OnPeer(e.0, p) && PairOk(w, p, e.0, e.1, e.2, true, exiting) && Guarantee(m, e.2, w)
  {
  }

  lemma {:induction false} ClaimKeeps(s: State, st: Step)
    requires Inv(s) && Enabled(s, st) && Claiming(st)
    ensures Inv(ApplyClaim(s, st))
  {
    hide PairOk, Guarantee, ClaimEffect;
    var w := st.w;
    var p := s.pc[w].p;
    var same := st.Lock? && st.sameGeneration;
    assert PairInv(s, w, p);
    ClaimPair(w, p, s.conf[p], Clock(s, w), same, s.pc[w], s.local[(w, p)], s.shm[p], w in s.exiting);
    var e := ClaimEffect(w, p, s.conf[p], Clock(s, w), same, s.pc[w], s.local[(w, p)], s.shm[p]);
    PutKeeps(s, w, p, e.0, e.1, e.2);
  }

  lemma {:induction false} ProbePair(st: Step, w: Pid, p: PeerId, c: Config, now: nat, pc: Pc, l: Local, m: Shm,
      exiting: bool)
    requires (st.Connect? && pc.AtConnect?) || (st.UpdateAccess? && pc.AtUpdate?) || (st.CleanEvent? && pc.AtClean?)
    requires pc.p == p && PairOk(w, p, pc, l, m, true, exiting)
    ensures var e := ProbeEffect(st, p, c, now, pc, l, m);
            && OnPeer(e.0, p) && PairOk(w, p, e.0, e.1, e.2, true, exiting) && Guarantee(m, e.2, w)
            && (Refused(st, l) ==> e.0 == AtUpdate(p, false, FirstPhase(false)) && e.2 == m)
  {
  }

  lemma {:induction false} ProbeKeeps(s: State, st: Step)
    requires Inv(s) && Enabled(s, st) && Probes(st)
    ensures Inv(ApplyProbe(s, st))
  {
    hide PairOk, Guarantee, ProbeEffect, BeginUpdate;
    var w := st.w;
    var p := s.pc[w].p;
    var l := s.local[(w, p)];
    assert PairInv(s, w, p);
    ProbePair(st, w, p, s.conf[p], Clock(s, w), s.pc[w], l, s.shm[p], w in s.exiting);
    var e := ProbeEffect(st, p, s.conf[p], Clock(s, w), s.pc[w], l, s.shm[p]);
    if Refused(st, l) {
      BeginUpdateKeeps(s, w, p, e.1, false);
    } else {
      PutKeeps(s, w, p, e.0, e.1, e.2);
    }
  }

  lemma {:induction false} StepKeeps(s: State, st: Step)
    requires Inv(s) && Enabled(s, st)
    ensures Inv(Apply(s, st))
  {
    if Environment(st) {
      EnvironmentKeeps(s, st);
    } else if ChecksExit(st) && st.w in s.exiting {
      ClearAllKeeps(s, st.w);
    } else if Claiming(st) {
      ClaimKeeps(s, st);
    } else if Probes(st) {
      ProbeKeeps(s, st);
    } else {
      FireKeeps(s, st);
    }
  }

  // A fresh table: nobody owns or locks a peer and no worker has started.
  ghost predicate Init(s: State) {
    && s.conf.Keys == s.shm.Keys == s.hist.Keys
    && s.alive == {} && s.exiting == {} && s.pc == map[] && s.local == map[]
    && (forall p | p in s.shm ::
          s.shm[p].owner.None? && s.shm[p].lock.None? && s.shm[p].rec == Fresh(s.conf[p].thresholds))
    && (forall p | p in s.hist :: s.hist[p] == [])
  }

  // ss is the run that the steps of sts take from ss[0].
  ghost predicate IsRun(ss: seq<State>, sts: seq<Step>) {
    && |ss| == |sts| + 1
    && Init(ss[0])
    && forall i | 0 <= i < |sts| :: WellTyped(ss[i]) && Enabled(ss[i], sts[i]) && ss[i + 1] == Apply(ss[i], sts[i])
  }

  lemma {:induction false} RunKeeps(ss: seq<State>, sts: seq<Step>, i: nat)
    requires IsRun(ss, sts) && i < |ss|
    ensures Inv(ss[i])
  {
    if i > 0 {
      RunKeeps(ss, sts, i - 1);
      StepKeeps(ss[i - 1], sts[i - 1]);
    }
  }

  // In every reachable state: no worker has two probes in flight on one peer,
  // the handler that a timer calls finds a connection, and a live worker that
  // is not exiting owns a peer only while it works on it.
  lemma {:induction false} OwnershipSafety(ss: seq<State>, sts: seq<Step>, i: nat, w: Pid, p: PeerId)
    requires IsRun(ss, sts) && i < |ss|
    requires w in ss[i].alive && p in ss[i].shm
    ensures WellTyped(ss[i])
    ensures ss[i].local[(w, p)].probes == if InFlight(ss[i], w, p) then 1 else 0
    ensures ss[i].local[(w, p)].timer ==> ss[i].local[(w, p)].conn.Some?
    ensures ss[i].shm[p].owner == Some(w) && w !in ss[i].exiting && ss[i].pc[w].Idle? ==> InFlight(ss[i], w, p)
  {
    RunKeeps(ss, sts, i);
    assert PairInv(ss[i], w, p);
  }

  // Only WriteOwner(w) makes w the owner, and only clean_event makes a peer ownerless.
  lemma {:induction false} OwnerWrites(s: State, st: Step, p: PeerId)
    requires WellTyped(s) && Enabled(s, st) && p in s.shm
    ensures p in Apply(s, st).shm
    ensures var owner := Apply(s, st).shm[p].owner;
            || owner == s.shm[p].owner
            || (st.WriteOwner? && s.pc[st.w].p == p && owner == Some(st.w))
            || (st.CleanEvent? && s.pc[st.w].p == p && owner.None?)
  {
    hide ApplyClaim, ApplyProbe, ApplyFire;
    if Environment(st) {
    } else if ChecksExit(st) && st.w in s.exiting {
    } else if Claiming(st) {
      ClaimWrites(s, st, p);
    } else if Probes(st) {
      ProbeWrites(s, st, p);
    } else {
      FireLeavesShm(s, st);
    }
  }

  lemma {:induction false} ClaimWrites(s: State, st: Step, p: PeerId)
    requires WellTyped(s) && Enabled(s, st) && p in s.shm && Claiming(st)
    ensures p in ApplyClaim(s, st).shm
    ensures var owner := ApplyClaim(s, st).shm[p].owner;
            owner == s.shm[p].owner || (st.WriteOwner? && s.pc[st.w].p == p && owner == Some(st.w))
  {
    hide ApplyClaim, Enabled, Claiming;
    var pc, l, m := ClaimShape(s, st);
  }

  lemma {:induction false} ProbeWrites(s: State, st: Step, p: PeerId)
    requires WellTyped(s) && Enabled(s, st) && p in s.shm && Probes(st)
    ensures p in ApplyProbe(s, st).shm
    ensures var owner := ApplyProbe(s, st).shm[p].owner;
            owner == s.shm[p].owner || (st.CleanEvent? && s.pc[st.w].p == p && owner.None?)
  {
    hide Cleaned, UpdateStep;
  }

  lemma {:induction false} FireLeavesShm(s: State, st: Step)
    requires WellTyped(s) && Enabled(s, st) && (st.FireCheck? || st.FireIo? || st.FireTimeout? || st.FireDiscard?)
    ensures ApplyFire(s, st).shm == s.shm
  {
  }

  // A probe starts only when its worker has just read its own pid in owner.
  lemma {:induction false} FlightStarts(s: State, st: Step, v: Pid, q: PeerId)
    requires Inv(s) && Enabled(s, st) && WellTyped(Apply(s, st)) && InFlight(Apply(s, st), v, q)
    ensures InFlight(s, v, q) || (st == RereadOwner(v) && s.pc[v] == AtReread(q) && s.shm[q].owner == Some(v))
  {
    if Environment(st) {
      assert v in s.alive || s.pc.Keys !! {v};
    } else if ChecksExit(st) && st.w in s.exiting {
      assert v != st.w;
    } else if Claiming(st) {
      ClaimFlights(s, st, v, q);
    } else if Probes(st) {
      ProbeFlights(s, st, v, q);
    } else {
      FireFlights(s, st, v, q);
    }
  }

  lemma {:induction false} ClaimFlights(s: State, st: Step, v: Pid, q: PeerId)
    requires Inv(s) && Enabled(s, st) && Claiming(st) && WellTyped(ApplyClaim(s, st))
             && InFlight(ApplyClaim(s, st), v, q)
    ensures InFlight(s, v, q) || (st == RereadOwner(v) && s.pc[v] == AtReread(q) && s.shm[q].owner == Some(v))
  {
    hide ApplyClaim, Enabled, Claiming, Inv;
    InvAt(s, v, q);
    var pc, l, m := ClaimShape(s, st);
    PutFlight(s, st.w, s.pc[st.w].p, pc, l, m, v, q);
  }

  // What a step of begin_handler does to its worker and its peer.
  lemma {:induction false} ClaimShape(s: State, st: Step) returns (pc: Pc, l: Local, m: Shm)
    requires WellTyped(s) && Enabled(s, st) && Claiming(st)
    ensures Claiming(st) && st.w in s.alive && !s.pc[st.w].Idle? && s.pc[st.w].p in s.shm && !s.pc[st.w].AtUpdate?
    ensures ApplyClaim(s, st) == Put(s, st.w, s.pc[st.w].p, pc, l, m)
    ensures var p, l0, m0 := s.pc[st.w].p, s.local[(st.w, s.pc[st.w].p)], s.shm[s.pc[st.w].p];
            && OnPeer(pc, p) && !pc.AtUpdate? && m.rec == m0.rec && l.timer == l0.timer
            && (m.owner == m0.owner || (st.WriteOwner? && m.owner == Some(st.w)))
            && (Probing(pc, p) ==> st.RereadOwner? && s.pc[st.w].AtReread? && m0.owner == Some(st.w))
  {
    hide ClaimEffect, Clock, Put;
    var w := st.w;
    var p := s.pc[w].p;
    var same := st.Lock? && st.sameGeneration;
    ClaimStarts(w, p, s.conf[p], Clock(s, w), same, s.pc[w], s.local[(w, p)], s.shm[p]);
    var e := ClaimEffect(w, p, s.conf[p], Clock(s, w), same, s.pc[w], s.local[(w, p)], s.shm[p]);
    pc, l, m := e.0, e.1, e.2;
  }

  lemma {:induction false} ClaimStarts(w: Pid, p: PeerId, c: Config, now: nat, same: bool, pc: Pc, l: Local, m: Shm)
    requires pc.AtOwner? || pc.AtTime? || pc.AtLock? || InCritical(pc, p) || pc.AtReread?
    ensures var e := ClaimEffect(w, p, c, now, same, pc, l, m);
            && OnPeer(e.0, p) && !e.0.AtUpdate? && e.2.rec == m.rec && e.1.timer == l.timer
            && (e.2.owner == m.owner || (pc.AtWrite? && e.2.owner == Some(w)))
            && (Probing(e.0, p) ==> pc.AtReread? && m.owner == Some(w))
  {
  }

  // A step of w on p leaves all other flights alone.
  lemma {:induction false} PutFlight(s: State, w: Pid, p: PeerId, pc: Pc, l: Local, m: Shm, v: Pid, q: PeerId)
    requires WellTyped(s) && w in s.alive && p in s.shm && OnPeer(s.pc[w], p) && OnPeer(pc, p)
    requires WellTyped(Put(s, w, p, pc, l, m))
    ensures InFlight(Put(s, w, p, pc, l, m), v, q) <==>
            if v == w && q == p then l.timer || Probing(pc, p) else InFlight(s, v, q)
  {
  }

  lemma {:induction false} ProbeFlights(s: State, st: Step, v: Pid, q: PeerId)
    requires Inv(s) && Enabled(s, st) && Probes(st)
    requires WellTyped(ApplyProbe(s, st)) && InFlight(ApplyProbe(s, st), v, q)
    ensures InFlight(s, v, q)
  {
    hide ApplyProbe, Enabled, Probes, Inv;
    InvAt(s, v, q);
    var pc, l, m := ProbeShape(s, st);
    PutWellTyped(s, st.w, s.pc[st.w].p, pc, l, m);
    PutFlight(s, st.w, s.pc[st.w].p, pc, l, m, v, q);
    assert InFlight(Put(s, st.w, s.pc[st.w].p, pc, l, m), v, q);
  }

  lemma {:induction false} ProbeShape(s: State, st: Step) returns (pc: Pc, l: Local, m: Shm)
    requires WellTyped(s) && Enabled(s, st) && Probes(st)
    ensures Probes(st) && st.w in s.alive && !s.pc[st.w].Idle? && s.pc[st.w].p in s.shm
    ensures ApplyProbe(s, st).(hist := s.hist) == Put(s, st.w, s.pc[st.w].p, pc, l, m)
    ensures var p, l0 := s.pc[st.w].p, s.local[(st.w, s.pc[st.w].p)];
            OnPeer(pc, p) && (l.timer || Probing(pc, p) ==> l0.timer || Probing(s.pc[st.w], p))
  {
    hide ProbeEffect, Clock;
    var w := st.w;
    var p := s.pc[w].p;
    var e := ProbeEffect(st, p, s.conf[p], Clock(s, w), s.pc[w], s.local[(w, p)], s.shm[p]);
    ProbeGoesOn(st, w, p, s.conf[p], Clock(s, w), s.pc[w], s.local[(w, p)], s.shm[p]);
    pc, l, m := e.0, e.1, e.2;
  }

  lemma {:induction false} ProbeGoesOn(st: Step, w: Pid, p: PeerId, c: Config, now: nat, pc: Pc, l: Local, m: Shm)
    requires (st.Connect? && pc.AtConnect?) || (st.UpdateAccess? && pc.AtUpdate?) || (st.CleanEvent? && pc.AtClean?)
    requires pc.p == p
    ensures var e := ProbeEffect(st, p, c, now, pc, l, m);
            && OnPeer(e.0, p) && (e.1.timer || Probing(e.0, p) ==> l.timer || Probing(pc, p))
            && (Refused(st, l) ==> e.0 == AtUpdate(p, false, FirstPhase(false)) && e.2 == m)
  {
  }

  lemma {:induction false} FireFlights(s: State, st: Step, v: Pid, q: PeerId)
    requires Inv(s) && Enabled(s, st) && (st.FireCheck? || st.FireIo? || st.FireTimeout? || st.FireDiscard?)
    requires WellTyped(ApplyFire(s, st))
    ensures InFlight(ApplyFire(s, st), v, q) == InFlight(s, v, q)
  {
    hide Inv;
    InvAt(s, st.w, st.p);
    assert Probing(AtUpdate(st.p, false, Zero), st.p);
  }

  // A step of another worker neither starts nor ends a probe of v.
  lemma {:induction false} FlightPersists(s: State, st: Step, v: Pid, q: PeerId)
    requires Inv(s) && Enabled(s, st) && WellTyped(Apply(s, st)) && InFlight(s, v, q)
    requires st.WriteOwner? || st.CleanEvent?
    requires st.w != v
    ensures InFlight(Apply(s, st), v, q)
  {
  }

  // Whenever a probe is in flight, its worker is the recorded owner.
  ghost predicate Exclusive(s: State)
    requires WellTyped(s)
  {
    forall w: Pid, p: PeerId | InFlight(s, w, p) :: s.shm[p].owner == Some(w)
  }

  lemma {:induction false} AtMostOneProbe(s: State, p: PeerId, v: Pid, w: Pid)
    requires WellTyped(s) && Exclusive(s) && InFlight(s, v, p) && InFlight(s, w, p)
    ensures v == w
  {
    assert s.shm[p].owner == Some(v) && s.shm[p].owner == Some(w);
  }

  // The two steps that separate a probe from its ownership: a takeover of a peer
  // that a live worker is still probing, and a close found by the discard
  // handler of one worker while another one is probing.
  ghost predicate Harmful(s: State, st: Step)
    requires WellTyped(s) && Enabled(s, st)
  {
    (st.WriteOwner? || (st.CleanEvent? && !s.pc[st.w].probe)) && exists v :: InFlight(s, v, s.pc[st.w].p)
  }

  lemma {:induction false} HarmBreaks(s: State, st: Step)
    requires Inv(s) && Enabled(s, st) && Harmful(s, st) && WellTyped(Apply(s, st))
    ensures !Exclusive(Apply(s, st))
  {
    var p := s.pc[st.w].p;
    var v :| InFlight(s, v, p);
    assert PairInv(s, st.w, p);
    assert v != st.w;
    FlightPersists(s, st, v, p);
  }

  lemma {:induction false} CleanEnds(s: State, w: Pid)
    requires WellTyped(s) && Enabled(s, CleanEvent(w)) && WellTyped(Apply(s, CleanEvent(w)))
    ensures !InFlight(Apply(s, CleanEvent(w)), w, s.pc[w].p)
  {
  }

  lemma {:induction false} HarmlessKeeps(s: State, st: Step)
    requires Inv(s) && Enabled(s, st) && Exclusive(s) && !Harmful(s, st) && WellTyped(Apply(s, st))
    ensures Exclusive(Apply(s, st))
  {
    hide PairInv, Apply;
    var s' := Apply(s, st);
    if st.CleanEvent? {
      CleanEnds(s, st.w);
    }
    forall v: Pid, q: PeerId | InFlight(s', v, q)
      ensures s'.shm[q].owner == Some(v)
    {
      FlightStarts(s, st, v, q);
      OwnerWrites(s, st, q);
      if st.CleanEvent? && s.pc[st.w].p == q && InFlight(s, v, q) {
        assert InFlight(s, st.w, q);
        AtMostOneProbe(s, q, v, st.w);
      }
    }
  }

  // The exact condition for mutual exclusion of probes over whole runs.
  lemma {:induction false} ExclusiveIffNoHarm(ss: seq<State>, sts: seq<Step>)
    requires IsRun(ss, sts)
    ensures forall i | 0 <= i < |ss| :: WellTyped(ss[i])
    ensures (forall i | 0 <= i < |ss| :: Exclusive(ss[i])) <==> (forall i | 0 <= i < |sts| :: !Harmful(ss[i], sts[i]))
  {
    hide Apply, PairInv, Enabled, Exclusive, Harmful;
    forall i | 0 <= i < |ss|
      ensures Inv(ss[i])
    {
      RunKeeps(ss, sts, i);
    }
    if forall i | 0 <= i < |ss| :: Exclusive(ss[i]) {
      forall i | 0 <= i < |sts|
        ensures !Harmful(ss[i], sts[i])
      {
        assert Inv(ss[i + 1]) && ss[i + 1] == Apply(ss[i], sts[i]);
        if Harmful(ss[i], sts[i]) {
          HarmBreaks(ss[i], sts[i]);
        }
      }
    }
    if forall i | 0 <= i < |sts| :: !Harmful(ss[i], sts[i]) {
      forall i | 0 <= i < |ss|
        ensures Exclusive(ss[i])
      {
        ExclusiveUpTo(ss, sts, i);
      }
    }
  }

  // A step that takes over a peer, or that closes an idle connection of one.
  ghost predicate Risky(s: State, st: Step)
    requires WellTyped(s) && Enabled(s, st)
  {
    (st.WriteOwner? && s.pc[st.w].takeover) || (st.CleanEvent? && !s.pc[st.w].probe)
  }

  lemma {:induction false} OnlyRisksHarm(s: State, st: Step)
    requires Inv(s) && Enabled(s, st) && Exclusive(s) && !Risky(s, st)
    ensures !Harmful(s, st)
  {
    if Harmful(s, st) {
      var p := s.pc[st.w].p;
      var v :| InFlight(s, v, p);
      InvAt(s, st.w, p);
    }
  }

  // Without takeovers and closed idle connections probes exclude each other.
  lemma {:induction false} NoRiskIsExclusive(ss: seq<State>, sts: seq<Step>, i: nat)
    requires IsRun(ss, sts) && i < |ss| && forall j | 0 <= j < i :: !Risky(ss[j], sts[j])
    ensures WellTyped(ss[i]) && Exclusive(ss[i])
  {
    hide Apply, PairInv, Enabled, Exclusive, Harmful, Risky;
    RunKeeps(ss, sts, i);
    if i > 0 {
      RunKeeps(ss, sts, i - 1);
      NoRiskIsExclusive(ss, sts, i - 1);
      OnlyRisksHarm(ss[i - 1], sts[i - 1]);
      HarmlessKeeps(ss[i - 1], sts[i - 1]);
    } else {
      ExclusiveUpTo(ss, sts, 0);
    }
  }

  lemma {:induction false} ExclusiveUpTo(ss: seq<State>, sts: seq<Step>, i: nat)
    requires IsRun(ss, sts) && i < |ss| && Inv(ss[i])
    requires forall j | 0 <= j < i :: !Harmful(ss[j], sts[j])
    ensures Exclusive(ss[i])
  {
    hide Apply, PairInv, Enabled;
    if i > 0 {
      RunKeeps(ss, sts, i - 1);
      ExclusiveUpTo(ss, sts, i - 1);
      HarmlessKeeps(ss[i - 1], sts[i - 1]);
    }
  }

  // The shared record in the middle of status_update, where r0 is what it was before.
  ghost predicate Midway(r0: Record, r: Record, t: Thresholds, ok: bool, phase: Phase) {
    match phase
    case Load => if ok then r == r0 else r == r0.(rise := 0)
    case Store(tmp) => if ok then r == r0 && tmp == r0.rise else r == r0.(rise := 0) && tmp == r0.fall
    case Zero => if ok then r == r0.(rise := r0.rise + 1) else r == r0
    case TestDown => r == Bumped(r0, ok)
    case TestCount => r == Bumped(r0, ok) && r0.down == ok
    case Flip => r == Bumped(r0, ok) && r0.down == ok && (if ok then r.rise >= t.rise else r.fall >= t.fall)
    case Stamp => r == Update(t, r0, ok)
  }

  function Bumped(r0: Record, ok: bool): Record {
    if ok then Record(r0.rise + 1, 0, r0.down) else Record(0, r0.fall + 1, r0.down)
  }

  // The shared accesses of one undisturbed status_update add up to Update.
  lemma {:induction false} MidwayStep(r0: Record, r: Record, t: Thresholds, ok: bool, phase: Phase)
    requires phase != Stamp && Midway(r0, r, t, ok, phase)
    ensures Midway(r0, UpdateStep(t, r, ok, phase).0, t, ok, UpdateStep(t, r, ok, phase).1)
  {
  }

  // w is inside status_update for p.
  ghost predicate Updating(s: State, w: Pid, p: PeerId)
    requires WellTyped(s)
  {
    w in s.alive && s.pc[w].AtUpdate? && s.pc[w].p == p
  }

  // Peer p's record is what the probe results so far make of a fresh record,
  // except for the worker that is inside status_update.
  ghost predicate RecordOk(s: State, p: PeerId)
    requires WellTyped(s) && p in s.shm
  {
    var t, h, r := s.conf[p].thresholds, s.hist[p], s.shm[p].rec;
    && ((forall w: Pid :: !Updating(s, w, p)) ==> r == Fold(t, h))
    && (forall w: Pid | Updating(s, w, p) ::
          h != [] && h[|h| - 1] == s.pc[w].ok && Midway(Fold(t, h[..|h| - 1]), r, t, s.pc[w].ok, s.pc[w].phase))
  }

  // A worker dies inside status_update and leaves the record half written.
  ghost predicate Torn(s: State, st: Step)
    requires WellTyped(s) && Enabled(s, st)
  {
    st.Die? && s.pc[st.w].AtUpdate?
  }

  lemma {:induction false} BeginsWhole(s: State, w: Pid, p: PeerId, l: Local, ok: bool)
    requires WellTyped(s) && w in s.alive && p in s.shm && RecordOk(s, p)
    requires forall v: Pid :: !Updating(s, v, p)
    requires WellTyped(BeginUpdate(s, w, p, l, ok))
    ensures RecordOk(BeginUpdate(s, w, p, l, ok), p)
  {
    var s' := BeginUpdate(s, w, p, l, ok);
    var h := s'.hist[p];
    assert h[..|h| - 1] == s.hist[p];
    assert Updating(s', w, p);
    forall v: Pid | Updating(s', v, p)
      ensures v == w
    {
      assert !Updating(s, v, p);
    }
  }

  // A step that leaves p's record, history and updaters alone.
  lemma {:induction false} RecordUntouched(s: State, s': State, p: PeerId)
    requires WellTyped(s) && WellTyped(s') && p in s.shm && p in s'.shm && RecordOk(s, p)
    requires s'.conf[p] == s.conf[p] && s'.hist[p] == s.hist[p] && s'.shm[p].rec == s.shm[p].rec
    requires forall w: Pid | Updating(s', w, p) :: Updating(s, w, p)
    requires forall w: Pid | Updating(s, w, p) :: Updating(s', w, p) && s'.pc[w] == s.pc[w]
    ensures RecordOk(s', p)
  {
  }

  lemma {:induction false} OnlyUpdater(s: State, w: Pid, p: PeerId)
    requires WellTyped(s) && Exclusive(s) && p in s.shm && Enabled(s, UpdateAccess(w)) && s.pc[w].p == p
    ensures forall v: Pid | Updating(s, v, p) :: v == w
  {
    forall v: Pid | Updating(s, v, p)
      ensures v == w
    {
      AtMostOneProbe(s, p, v, w);
    }
  }

  lemma {:induction false} UpdateAccessKeeps(s: State, w: Pid, p: PeerId)
    requires WellTyped(s) && Enabled(s, UpdateAccess(w)) && s.pc[w].p == p && RecordOk(s, p)
    requires Exclusive(s) && WellTyped(ApplyProbe(s, UpdateAccess(w)))
    ensures RecordOk(ApplyProbe(s, UpdateAccess(w)), p)
  {
    OnlyUpdater(s, w, p);
    var s' := ApplyProbe(s, UpdateAccess(w));
    var ok, phase, h, t := s.pc[w].ok, s.pc[w].phase, s.hist[p], s.conf[p].thresholds;
    assert Updating(s, w, p);
    assert Midway(Fold(t, h[..|h| - 1]), s.shm[p].rec, t, ok, phase);
    assert forall v: Pid | Updating(s', v, p) :: v != w ==> Updating(s, v, p);
    if phase != Stamp {
      MidwayStep(Fold(t, h[..|h| - 1]), s.shm[p].rec, t, ok, phase);
      assert Updating(s', w, p);
    }
  }

  // The probe whose result is known is the only one, so nobody else is updating.
  lemma {:induction false} NobodyElseUpdates(s: State, w: Pid, p: PeerId)
    requires WellTyped(s) && Exclusive(s) && InFlight(s, w, p) && !s.pc[w].AtUpdate?
    ensures forall v: Pid :: !Updating(s, v, p)
  {
    forall v: Pid
      ensures !Updating(s, v, p)
    {
      if Updating(s, v, p) {
        AtMostOneProbe(s, p, v, w);
      }
    }
  }

  lemma {:induction false} BeginUpdateRecord(s: State, w: Pid, p: PeerId, l: Local, ok: bool, q: PeerId)
    requires WellTyped(s) && Exclusive(s) && InFlight(s, w, p) && !s.pc[w].AtUpdate? && q in s.shm && RecordOk(s, q)
    requires WellTyped(BeginUpdate(s, w, p, l, ok))
    ensures RecordOk(BeginUpdate(s, w, p, l, ok), q)
  {
    if q == p {
      NobodyElseUpdates(s, w, p);
      BeginsWhole(s, w, p, l, ok);
    } else {
      RecordUntouched(s, BeginUpdate(s, w, p, l, ok), q);
    }
  }

  lemma {:induction false} FireRecord(s: State, st: Step, q: PeerId)
    requires Inv(s) && Enabled(s, st) && (st.FireCheck? || st.FireIo? || st.FireTimeout? || st.FireDiscard?)
    requires Exclusive(s) && q in s.shm && RecordOk(s, q) && WellTyped(ApplyFire(s, st))
    ensures RecordOk(ApplyFire(s, st), q)
  {
    hide Inv, RecordOk, Exclusive;
    var w, p := st.w, st.p;
    InvAt(s, w, p);
    var l := s.local[(w, p)];
    if st.FireTimeout? {
      BeginUpdateRecord(s, w, p, l.(timer := false, conn := SetError(l.conn, true)), false, q);
    } else if st.FireIo? && st.io.Finish? {
      BeginUpdateRecord(s, w, p, l.(conn := SetError(l.conn, st.io.error)), st.io.ok, q);
    } else {
      QuietFireRecord(s, st, q);
    }
  }

  lemma {:induction false} QuietFireRecord(s: State, st: Step, q: PeerId)
    requires WellTyped(s) && Enabled(s, st) && (st.FireCheck? || (st.FireIo? && !st.io.Finish?) || st.FireDiscard?)
    requires q in s.shm && RecordOk(s, q) && WellTyped(ApplyFire(s, st))
    ensures RecordOk(ApplyFire(s, st), q)
  {
    hide RecordOk;
    RecordUntouched(s, ApplyFire(s, st), q);
  }

  lemma {:induction false} EnvironmentRecord(s: State, st: Step, q: PeerId)
    requires WellTyped(s) && Enabled(s, st) && Environment(st) && !Torn(s, st) && q in s.shm && RecordOk(s, q)
    requires WellTyped(ApplyEnvironment(s, st))
    ensures RecordOk(ApplyEnvironment(s, st), q)
  {
    RecordUntouched(s, ApplyEnvironment(s, st), q);
  }

  lemma {:induction false} ClaimRecord(s: State, st: Step, q: PeerId)
    requires WellTyped(s) && Enabled(s, st) && Claiming(st) && q in s.shm && RecordOk(s, q)
    requires WellTyped(ApplyClaim(s, st))
    ensures RecordOk(ApplyClaim(s, st), q)
  {
    hide RecordOk, ApplyClaim, Enabled, Claiming;
    var pc, l, m := ClaimShape(s, st);
    RecordUntouched(s, ApplyClaim(s, st), q);
  }

  lemma {:induction false} QuietProbeRecord(s: State, st: Step, q: PeerId)
    requires WellTyped(s) && Enabled(s, st) && Probes(st) && !Refused(st, s.local[(st.w, s.pc[st.w].p)])
    requires st.UpdateAccess? ==> q != s.pc[st.w].p
    requires q in s.shm && RecordOk(s, q) && WellTyped(ApplyProbe(s, st))
    ensures RecordOk(ApplyProbe(s, st), q)
  {
    hide RecordOk, UpdateStep, Cleaned;
    RecordUntouched(s, ApplyProbe(s, st), q);
  }

  lemma {:induction false} ProbeRecord(s: State, st: Step, q: PeerId)
    requires Inv(s) && Enabled(s, st) && Probes(st)
    requires Exclusive(s) && q in s.shm && RecordOk(s, q) && WellTyped(ApplyProbe(s, st))
    ensures RecordOk(ApplyProbe(s, st), q)
  {
    hide RecordOk, PairInv, Exclusive, UpdateStep, Cleaned, Put;
    var w := st.w;
    var p := s.pc[w].p;
    if st.UpdateAccess? && p == q {
      UpdateAccessKeeps(s, w, q);
    } else if Refused(st, s.local[(w, p)]) {
      BeginUpdateRecord(s, w, p, s.local[(w, p)].(conn := None), false, q);
    } else {
      QuietProbeRecord(s, st, q);
    }
  }

  lemma {:induction false} StepRecord(s: State, st: Step, q: PeerId)
    requires Inv(s) && Enabled(s, st) && !Torn(s, st) && Exclusive(s) && q in s.shm && RecordOk(s, q)
    requires WellTyped(Apply(s, st))
    ensures q in Apply(s, st).shm && RecordOk(Apply(s, st), q)
  {
    hide RecordOk, PairInv, ApplyEnvironment, ApplyClaim, ApplyProbe, ApplyFire;
    OwnerWrites(s, st, q);
    if Environment(st) {
      EnvironmentRecord(s, st, q);
    } else if ChecksExit(st) && st.w in s.exiting {
      RecordUntouched(s, ClearAll(s, st.w), q);
    } else if Claiming(st) {
      ClaimRecord(s, st, q);
    } else if Probes(st) {
      ProbeRecord(s, st, q);
    } else {
      FireRecord(s, st, q);
    }
  }

  // As long as no step is harmful and no worker dies inside status_update, the
  // unlocked updates of all workers together implement sequential hysteresis.
  lemma {:induction false} SharedRecordIsHysteresis(ss: seq<State>, sts: seq<Step>, i: nat, p: PeerId)
    requires IsRun(ss, sts) && i < |ss|
    requires forall j | 0 <= j < i :: !Harmful(ss[j], sts[j]) && !Torn(ss[j], sts[j])
    requires p in ss[0].shm
    ensures WellTyped(ss[i]) && p in ss[i].shm && RecordOk(ss[i], p)
  {
    hide Apply, PairInv, Enabled, Harmful, RecordOk;
    RunKeeps(ss, sts, i);
    if i > 0 {
      RunKeeps(ss, sts, i - 1);
      SharedRecordIsHysteresis(ss, sts, i - 1, p);
      ExclusiveUpTo(ss, sts, i - 1);
      StepRecord(ss[i - 1], sts[i - 1], p);
    } else {
      InitRecord(ss[0], p);
    }
  }

  lemma {:induction false} InitRecord(s: State, p: PeerId)
    requires Init(s) && WellTyped(s) && p in s.shm
    ensures RecordOk(s, p)
  {
  }

  ghost predicate Path(s: State, sts: seq<Step>, s': State)
    decreases |sts|
  {
    if sts == [] then s == s'
    else WellTyped(s) && Enabled(s, sts[0]) && Path(Apply(s, sts[0]), sts[1..], s')
  }

  lemma {:induction false} PathAppend(s: State, sts: seq<Step>, s': State, more: seq<Step>, s'': State)
    requires Path(s, sts, s') && Path(s', more, s'')
    ensures Path(s, sts + more, s'')
    decreases |sts|
  {
    hide Apply, Enabled, WellTyped;
    if sts == [] {
      assert sts + more == more;
    } else {
      PathAppend(Apply(s, sts[0]), sts[1..], s', more, s'');
      assert (sts + more)[1..] == sts[1..] + more;
    }
  }

  lemma {:induction false} PathIsRun(s: State, sts: seq<Step>, s': State) returns (ss: seq<State>)
    requires Path(s, sts, s')
    ensures |ss| == |sts| + 1 && ss[0] == s && ss[|sts|] == s'
    ensures forall i | 0 <= i < |sts| :: WellTyped(ss[i]) && Enabled(ss[i], sts[i]) && ss[i + 1] == Apply(ss[i], sts[i])
    decreases |sts|
  {
    hide Apply, Enabled, WellTyped;
    if sts == [] {
      ss := [s];
    } else {
      var rest := PathIsRun(Apply(s, sts[0]), sts[1..], s');
      ss := [s] + rest;
    }
  }

  lemma {:induction false} PutPut(s: State, w: Pid, p: PeerId, pc: Pc, l: Local, m: Shm, pc': Pc, l': Local, m': Shm)
    ensures Put(Put(s, w, p, pc, l, m), w, p, pc', l', m') == Put(s, w, p, pc', l', m')
  {
    assert s.pc[w := pc][w := pc'] == s.pc[w := pc'];
    assert s.shm[p := m][p := m'] == s.shm[p := m'];
    assert s.local[(w, p) := l][(w, p) := l'] == s.local[(w, p) := l'];
  }

  // One more access of begin_handler on top of the state Put(s, w, p, pc, l, m).
  // A claiming step is next at this program counter.
  predicate Due(st: Step, pc: Pc, m: Shm) {
    match st
    case ReadOwner(_) => pc.AtOwner?
    case ReadTime(_) => pc.AtTime?
    case Lock(_, _) => pc.AtLock? && m.lock.None?
    case TestOwner(_) => pc.AtTest?
    case WriteOwner(_) => pc.AtWrite?
    case TouchTime(_) => pc.AtTouch?
    case Unlock(_) => pc.AtUnlock?
    case RereadOwner(_) => pc.AtReread?
    case _ => false
  }

  lemma {:induction false} PathClaim(s0: State, sts: seq<Step>, s: State, w: Pid, p: PeerId, pc: Pc, l: Local,
      m: Shm, st: Step)
    requires WellTyped(s) && w in s.alive && p in s.shm && pc != Idle && pc.p == p
    requires Path(s0, sts, Put(s, w, p, pc, l, m))
    requires Due(st, pc, m) && st.w == w
    ensures var e := ClaimEffect(w, p, s.conf[p], Clock(s, w), st.Lock? && st.sameGeneration, pc, l, m);
            Path(s0, sts + [st], Put(s, w, p, e.0, e.1, e.2))
  {
    var s1 := Put(s, w, p, pc, l, m);
    var e := ClaimEffect(w, p, s.conf[p], Clock(s, w), st.Lock? && st.sameGeneration, pc, l, m);
    PutWellTyped(s, w, p, pc, l, m);
    PutPut(s, w, p, pc, l, m, e.0, e.1, e.2);
    assert Apply(s1, st) == ApplyClaim(s1, st);
    PathOne(s1, st, Put(s, w, p, e.0, e.1, e.2));
    PathAppend(s0, sts, s1, [st], Put(s, w, p, e.0, e.1, e.2));
  }

  lemma {:induction false} PathOne(s: State, st: Step, s': State)
    requires WellTyped(s) && Enabled(s, st) && Apply(s, st) == s'
    ensures Path(s, [st], s')
  {
    hide Apply, Enabled, WellTyped;
    assert Path(s', [st][1..], s');
  }

  // w is between events, has never probed p, and reads that p is overdue for a takeover.
  ghost predicate Overdue(s: State, w: Pid, p: PeerId) {
    && WellTyped(s) && w in s.alive && w !in s.exiting && s.pc[w].Idle? && p in s.shm
    && s.local[(w, p)] == Local(None, false, 0)
    && s.shm[p].lock.None? && s.shm[p].owner != Some(w)
    && Elapsed(Clock(s, w), s.shm[p].accessTime) >= s.conf[p].interval
    && Elapsed(Clock(s, w), s.shm[p].accessTime) >= TakeoverAfter(s.conf[p])
  }

  // The record after w has claimed p, or taken it over.
  function Claimed(s: State, w: Pid, p: PeerId): Shm
    requires p in s.shm
  {
    Shm(Some(w), None, if s.shm[p].owner.None? then s.shm[p].accessTime else Clock(s, w), s.shm[p].rec)
  }

  lemma {:induction false} EntersCritical(s: State, w: Pid, p: PeerId) returns (sts: seq<Step>)
    requires Overdue(s, w, p)
    ensures Path(s, sts, Put(s, w, p, AtTest(p, Elapsed(Clock(s, w), s.shm[p].accessTime)), s.local[(w, p)],
                             s.shm[p].(lock := Some(w))))
  {
    hide Path;
    var l, m, e := s.local[(w, p)], s.shm[p], Elapsed(Clock(s, w), s.shm[p].accessTime);
    sts := [FireCheck(w, p)];
    PathOne(s, FireCheck(w, p), Put(s, w, p, AtOwner(p), l, m));
    PathClaim(s, sts, s, w, p, AtOwner(p), l, m, ReadOwner(w));
    PathClaim(s, sts + [ReadOwner(w)], s, w, p, AtTime(p), l, m, ReadTime(w));
    sts := sts + [ReadOwner(w)] + [ReadTime(w)];
    PathClaim(s, sts, s, w, p, AtLock(p, e), l, m, Lock(w, true));
    sts := sts + [Lock(w, true)];
  }

  lemma {:induction false} WritesOwner(s0: State, sts0: seq<Step>, s: State, w: Pid, p: PeerId) returns (sts: seq<Step>)
    requires Overdue(s, w, p)
    requires Path(s0, sts0, Put(s, w, p, AtTest(p, Elapsed(Clock(s, w), s.shm[p].accessTime)), s.local[(w, p)],
                                s.shm[p].(lock := Some(w))))
    ensures Path(s0, sts, Put(s, w, p, AtUnlock(p), s.local[(w, p)], Claimed(s, w, p).(lock := Some(w))))
  {
    hide Path;
    var l, m, e := s.local[(w, p)], s.shm[p].(lock := Some(w)), Elapsed(Clock(s, w), s.shm[p].accessTime);
    var takeover := m.owner.Some?;
    PathClaim(s0, sts0, s, w, p, AtTest(p, e), l, m, TestOwner(w));
    PathClaim(s0, sts0 + [TestOwner(w)], s, w, p, AtWrite(p, takeover), l, m, WriteOwner(w));
    sts := sts0 + [TestOwner(w)] + [WriteOwner(w)];
    m := m.(owner := Some(w));
    if takeover {
      PathClaim(s0, sts, s, w, p, AtTouch(p), l, m, TouchTime(w));
      sts := sts + [TouchTime(w)];
    }
  }

  lemma {:induction false} LeavesCritical(s0: State, sts0: seq<Step>, s: State, w: Pid, p: PeerId)
    returns (sts: seq<Step>)
    requires Overdue(s, w, p)
    requires Path(s0, sts0, Put(s, w, p, AtUnlock(p), s.local[(w, p)], Claimed(s, w, p).(lock := Some(w))))
    ensures Path(s0, sts, Put(s, w, p, AtConnect(p), Local(None, false, 1), Claimed(s, w, p)))
  {
    hide Path;
    var l, m := s.local[(w, p)], Claimed(s, w, p);
    PathClaim(s0, sts0, s, w, p, AtUnlock(p), l, m.(lock := Some(w)), Unlock(w));
    PathClaim(s0, sts0 + [Unlock(w)], s, w, p, AtReread(p), l, m, RereadOwner(w));
    sts := sts0 + [Unlock(w)] + [RereadOwner(w)];
  }

  // An overdue peer can be claimed and probed whether or not it is being probed.
  lemma {:induction false} OverdueProbe(s: State, w: Pid, p: PeerId) returns (sts: seq<Step>)
    requires Overdue(s, w, p)
    ensures Path(s, sts, Put(s, w, p, Idle, Local(Some(Conn(false, 0, false)), true, 1), Claimed(s, w, p)))
  {
    hide Path;
    var m := Claimed(s, w, p);
    sts := EntersCritical(s, w, p);
    sts := WritesOwner(s, sts, s, w, p);
    sts := LeavesCritical(s, sts, s, w, p);
    var s1 := Put(s, w, p, AtConnect(p), Local(None, false, 1), m);
    var st := Connect(w, false, InProgress);
    PutWellTyped(s, w, p, AtConnect(p), Local(None, false, 1), m);
    PutPut(s, w, p, AtConnect(p), Local(None, false, 1), m, Idle, Local(Some(Conn(false, 0, false)), true, 1), m);
    PathOne(s1, st, Put(s, w, p, Idle, Local(Some(Conn(false, 0, false)), true, 1), m));
    PathAppend(s, sts, s1, [st], Put(s, w, p, Idle, Local(Some(Conn(false, 0, false)), true, 1), m));
    sts := sts + [st];
  }

  // A worker whose clock lags behind the last access finds the peer overdue at once, for
  // the difference of the times wraps around.
  lemma {:induction false} LaggingIsOverdue(s: State, w: Pid, p: PeerId)
    requires WellTyped(s) && w in s.alive && w !in s.exiting && s.pc[w].Idle? && p in s.shm
    requires s.local[(w, p)] == Local(None, false, 0) && s.shm[p].lock.None? && s.shm[p].owner != Some(w)
    requires Clock(s, w) < s.shm[p].accessTime <= Clock(s, w) + MSEC_RANGE - s.conf[p].interval
    requires s.shm[p].accessTime <= Clock(s, w) + MSEC_RANGE - TakeoverAfter(s.conf[p])
    ensures Overdue(s, w, p)
  {
    var late := s.shm[p].accessTime - Clock(s, w);
    assert Elapsed(Clock(s, w), s.shm[p].accessTime) == (MSEC_RANGE - late) % MSEC_RANGE;
  }

  // A new worker is between events and has no connection.
  lemma {:induction false} SpawnReady(s: State, w: Pid)
    requires WellTyped(s) && w !in s.pc
    ensures var s' := Apply(s, Spawn(w));
            && WellTyped(s') && s'.now == s.now && s'.conf == s.conf && s'.shm == s.shm
            && s'.pc == s.pc[w := Idle] && s'.alive == s.alive + {w} && s'.exiting == s.exiting - {w}
            && forall v: Pid, p | v in s'.pc && p in s.shm ::
                 s'.local[(v, p)] == if v == w then Local(None, false, 0) else s.local[(v, p)]
  {
  }

  lemma {:induction false} TwoWorkersStart(c: Config) returns (s0: State, s: State)
    requires c.interval * 16 < MSEC_RANGE
    ensures Init(s0) && s0.conf == map[0 := c] && s0.shm[0].accessTime == 0
    ensures Path(s0, [Spawn(0), Spawn(1)], s)
    ensures Overdue(s, 0, 0) && Overdue(s, 1, 0) && s.shm[0].owner.None?
  {
    hide Path, Apply;
    var m := Shm(None, None, 0, Fresh(c.thresholds));
    var now := map[0 := c.interval * 16, 1 := c.interval * 16];
    s0 := State(now, map[0 := c], map[0 := m], {}, {}, map[], map[], map[0 := []]);
    var s1 := Apply(s0, Spawn(0));
    SpawnReady(s0, 0);
    s := Apply(s1, Spawn(1));
    SpawnReady(s1, 1);
    PathOne(s0, Spawn(0), s1);
    PathOne(s1, Spawn(1), s);
    PathAppend(s0, [Spawn(0)], s1, [Spawn(1)], s);
    assert [Spawn(0)] + [Spawn(1)] == [Spawn(0), Spawn(1)];
  }

  lemma {:induction false} StillOverdue(s: State, l: Local)
    requires Overdue(s, 0, 0) && Overdue(s, 1, 0) && s.shm[0].owner.None?
    ensures Overdue(Put(s, 0, 0, Idle, l, Claimed(s, 0, 0)), 1, 0)
  {
  }

  // Mutual exclusion does fail: access_time of a fresh peer is 0, so as soon as
  // the clock has passed 16 check intervals a second worker takes the peer over
  // from the first one, whatever the configuration.
  lemma {:induction false} FreshPeerIsProbedTwice(c: Config) returns (ss: seq<State>, sts: seq<Step>)
    requires c.interval * 16 < MSEC_RANGE
    ensures IsRun(ss, sts) && WellTyped(ss[|sts|])
    ensures InFlight(ss[|sts|], 0, 0) && InFlight(ss[|sts|], 1, 0)
    ensures ss[0].conf == map[0 := c] && ss[0].shm[0].accessTime == 0
  {
    hide Path, Apply, Enabled;
    var s0, s2 := TwoWorkersStart(c);
    var first := OverdueProbe(s2, 0, 0);
    var l := Local(Some(Conn(false, 0, false)), true, 1);
    var s3 := Put(s2, 0, 0, Idle, l, Claimed(s2, 0, 0));
    PathAppend(s0, [Spawn(0), Spawn(1)], s2, first, s3);
    StillOverdue(s2, l);
    var second := OverdueProbe(s3, 1, 0);
    var s4 := Put(s3, 1, 0, Idle, l, Claimed(s3, 1, 0));
    PathAppend(s0, [Spawn(0), Spawn(1)] + first, s3, second, s4);
    PutWellTyped(s3, 1, 0, Idle, l, Claimed(s3, 1, 0));
    sts := [Spawn(0), Spawn(1)] + first + second;
    ss := PathIsRun(s0, sts, s4);
  }
}
