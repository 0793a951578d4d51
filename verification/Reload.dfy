// ngx_stream_upstream_check_init_shm_zone: what a reload carries over from the shared
// table of the running cycle.

module Reload {
  datatype Option<T> = None | Some(value: T)

  datatype Key = Key(sockaddr: seq<nat>, upstream: string)
  datatype Peer = Peer(key: Key, defaultDown: bool)

  // The fields of a peer that survive a reload.
  datatype Status = Status(accessTime: nat, accessCount: nat, fall: nat, rise: nat, busyness: nat, down: bool)
  datatype PeerShm = PeerShm(key: Key, owner: Option<nat>, status: Status)

  // The zone of a cycle: its generation and its table.
  datatype Zone = Zone(generation: nat, peers: seq<PeerShm>)

  function Fresh(p: Peer): Status {
    Status(0, 0, 0, 0, 0, p.defaultDown)
  }

  // The first entry of a pair of address and upstream; the pair may be listed again.
  ghost predicate First(peers: seq<PeerShm>, key: Key, j: int) {
    0 <= j < |peers| && peers[j].key == key && forall k | 0 <= k < j :: peers[k].key != key
  }

  // The table of conf over the old one: known pairs go on, new ones start fresh, and
  // nobody owns a peer.
  ghost predicate Carried(conf: seq<Peer>, old0: seq<PeerShm>, peers: seq<PeerShm>) {
    && |peers| == |conf|
    && forall i | 0 <= i < |conf| ::
         peers[i].key == conf[i].key && peers[i].owner == None && CarriedAt(conf[i], old0, peers[i].status)
  }

  ghost predicate CarriedAt(p: Peer, old0: seq<PeerShm>, status: Status) {
    && (forall j | First(old0, p.key, j) :: status == old0[j].status)
    && ((forall j | 0 <= j < |old0| :: old0[j].key != p.key) ==> status == Fresh(p))
  }

  // ngx_stream_upstream_check_find_shm_peer
  method FindPeer(peers: seq<PeerShm>, key: Key) returns (k: nat)
    ensures k <= |peers| && (k < |peers| ==> peers[k].key == key)
    ensures forall j | 0 <= j < k :: peers[j].key != key
  {
    k := 0;
    while k < |peers|
      invariant k <= |peers| && forall j | 0 <= j < k :: peers[j].key != key
    {
      var found := peers[k].key;
      if |found.sockaddr| == |key.sockaddr| && found.sockaddr == key.sockaddr && found.upstream == key.upstream {
        return;
      }
      k := k + 1;
    }
  }

  // The loop of ngx_stream_upstream_check_init_shm_zone.
  method InitZone(conf: seq<Peer>, old0: seq<PeerShm>) returns (peers: seq<PeerShm>)
    ensures Carried(conf, old0, peers)
  {
    peers := [];
    for i := 0 to |conf|
      invariant |peers| == i
      invariant forall j | 0 <= j < i ::
                  peers[j].key == conf[j].key && peers[j].owner == None && CarriedAt(conf[j], old0, peers[j].status)
    {
      var k := FindPeer(old0, conf[i].key);
      var status := if k < |old0| then old0[k].status else Fresh(conf[i]);
      peers := peers + [PeerShm(conf[i].key, None, status)];
    }
  }

  // The master: the counter of generations and the zone of the running cycle.
  datatype Master = Master(generation: nat, cycle: Option<Zone>)

  ghost predicate Valid(m: Master) {
    m.cycle.Some? ==> 1 <= m.cycle.value.generation <= m.generation
  }

  // The table that a new generation looks for under the name of the one before.
  function Previous(m: Master): seq<PeerShm> {
    if m.generation > 0 && m.cycle.Some? && m.cycle.value.generation == m.generation then m.cycle.value.peers else []
  }

  class Nginx {
    var m: Master

    constructor ()
      ensures m == Master(0, None)
    {
      m := Master(0, None);
    }

    // A reload. The counter moves at the end of the stream block: an error up to there,
    // such as a syntax error, leaves it alone, and an error after it, in another block or
    // in the shared memory, does not take it back.
    method Attempt(conf: seq<Peer>, outcome: Outcome)
      requires Valid(m)
      modifies this
      ensures Valid(m) && Next(old(m), m, Try(conf, outcome))
    {
      if outcome.Early? {
        return;
      }
      var old0 := Previous(m);
      m := m.(generation := m.generation + 1);
      if outcome.Late? {
        return;
      }
      var peers := InitZone(conf, old0);
      m := m.(cycle := Some(Zone(m.generation, peers)));
    }
  }

  datatype Outcome = Early | Late | Done

  // Runs of the master: attempts to reload, a reload of a configuration without a stream
  // block, and anything that workers do to the table.
  datatype Event = Try(conf: seq<Peer>, outcome: Outcome) | Remove | Work(peers: seq<PeerShm>)

  ghost predicate SameKeys(a: seq<PeerShm>, b: seq<PeerShm>) {
    |a| == |b| && forall i | 0 <= i < |a| :: a[i].key == b[i].key
  }

  ghost predicate Next(m: Master, m': Master, e: Event) {
    match e
    case Try(conf, Early) => m' == m
    case Try(conf, Late) => m' == m.(generation := m.generation + 1)
    case Try(conf, Done) =>
      && m'.generation == m.generation + 1 && m'.cycle.Some? && m'.cycle.value.generation == m'.generation
      && Carried(conf, Previous(m), m'.cycle.value.peers)
    case Remove => m' == m.(cycle := None)
    case Work(peers) =>
      m.cycle.Some? && SameKeys(m.cycle.value.peers, peers) && m' == m.(cycle := Some(m.cycle.value.(peers := peers)))
  }

  ghost predicate Run(states: seq<Master>, events: seq<Event>) {
    && |states| == |events| + 1 && states[0] == Master(0, None)
    && forall i {:trigger Next(states[i], states[i + 1], events[i])} | 0 <= i < |events| ::
         Next(states[i], states[i + 1], events[i])
  }

  predicate Succeeds(e: Event) {
    e.Try? && e.outcome.Done?
  }

  predicate Breaks(e: Event) {
    e.Remove? || (e.Try? && e.outcome.Late?)
  }

  // Since an attempt that succeeded none has failed after the counter moved, and the
  // stream block was not removed.
  ghost predicate Unbroken(events: seq<Event>) {
    exists i :: 0 <= i < |events| && Succeeds(events[i]) && forall j | i < j < |events| :: !Breaks(events[j])
  }

  lemma {:induction false} UnbrokenMore(events: seq<Event>)
    requires events != []
    ensures var e := events[|events| - 1];
            Unbroken(events) <==> Succeeds(e) || (!Breaks(e) && Unbroken(events[..|events| - 1]))
  {
    var n := |events| - 1;
    var init := events[..n];
    if Unbroken(events) {
      var i :| 0 <= i < |events| && Succeeds(events[i]) && forall j | i < j < |events| :: !Breaks(events[j]);
      assert i < n ==> Succeeds(init[i]) && !Breaks(events[n]);
    }
    if !Breaks(events[n]) && Unbroken(init) {
      var i :| 0 <= i < |init| && Succeeds(init[i]) && forall j | i < j < |init| :: !Breaks(init[j]);
      assert Succeeds(events[i]);
      forall j | i < j < |events|
        ensures !Breaks(events[j])
      {
        assert j < n ==> events[j] == init[j];
      }
    }
  }

  lemma {:induction false} RunValid(states: seq<Master>, events: seq<Event>)
    requires Run(states, events)
    ensures var m := states[|events|];
            Valid(m) && (Unbroken(events) <==> m.cycle.Some? && m.cycle.value.generation == m.generation)
    decreases |events|
  {
    if events != [] {
      var n := |events| - 1;
      var ss, es := states[..n + 1], events[..n];
      assert forall i | 0 <= i < n :: Next(states[i], states[i + 1], events[i]) ==> Next(ss[i], ss[i + 1], es[i]);
      RunValid(ss, es);
      UnbrokenMore(events);
      assert Next(states[n], states[n + 1], events[n]);
    }
  }

  // After any run, a successful reload clears all owners. It carries every pair of the
  // running table over unchanged when no attempt has failed late since the table was made,
  // and starts every pair anew otherwise.
  lemma {:induction false} Inheritance(states: seq<Master>, events: seq<Event>, m': Master, conf: seq<Peer>)
    requires Run(states, events) && Next(states[|events|], m', Try(conf, Done))
    ensures var m := states[|events|];
            && m'.cycle.Some? && |m'.cycle.value.peers| == |conf|
            && (Unbroken(events) ==> m.cycle.Some? && Carried(conf, m.cycle.value.peers, m'.cycle.value.peers))
            && (!Unbroken(events) ==> Carried(conf, [], m'.cycle.value.peers))
  {
    RunValid(states, events);
    var m := states[|events|];
    assert !Unbroken(events) ==> Previous(m) == [];
  }

  // A pair of both tables keeps its status exactly when no attempt has failed late since
  // the running table was made, or the status is that of a new peer anyway.
  lemma {:induction false} KeptIff(states: seq<Master>, events: seq<Event>, m': Master, conf: seq<Peer>, i: nat, j: nat)
    requires Run(states, events) && Next(states[|events|], m', Try(conf, Done))
    requires i < |conf| && states[|events|].cycle.Some? && First(states[|events|].cycle.value.peers, conf[i].key, j)
    ensures m'.cycle.Some? && i < |m'.cycle.value.peers|
    ensures m'.cycle.value.peers[i].status == states[|events|].cycle.value.peers[j].status <==>
            Unbroken(events) || states[|events|].cycle.value.peers[j].status == Fresh(conf[i])
  {
    Inheritance(states, events, m', conf);
    var peers := m'.cycle.value.peers;
    assert CarriedAt(conf[i], if Unbroken(events) then states[|events|].cycle.value.peers else [], peers[i].status);
  }

  // A peer that went down, a failed attempt and a successful one: after a late failure the
  // peer is up again, after an early one it is still down.
  lemma {:induction false} LateFailureForgets(outcome: Outcome)
    returns (states: seq<Master>, events: seq<Event>, m': Master)
    requires !outcome.Done?
    ensures |states| == 4 && |events| == 3 && Run(states, events)
    ensures states[2].cycle.Some? && states[3].cycle.Some? && m'.cycle.Some?
    ensures var conf := [Peer(Key([1], "u"), false)];
            && events == [Try(conf, Done), Work(states[2].cycle.value.peers), Try(conf, outcome)]
            && Next(states[3], m', Try(conf, Done))
            && |states[3].cycle.value.peers| == 1 == |m'.cycle.value.peers|
            && states[3].cycle.value.peers[0].status.down
            && (m'.cycle.value.peers[0].status.down <==> outcome.Early?)
  {
    var key := Key([1], "u");
    var conf := [Peer(key, false)];
    var unused := PeerShm(key, None, Status(0, 0, 0, 0, 0, false));
    var down := PeerShm(key, None, Status(9, 5, 5, 0, 0, true));
    var m0 := Master(0, None);
    var m1 := Master(1, Some(Zone(1, [unused])));
    var m2 := Master(1, Some(Zone(1, [down])));
    var m3 := Master(if outcome.Early? then 1 else 2, Some(Zone(1, [down])));
    states, events := [m0, m1, m2, m3], [Try(conf, Done), Work([down]), Try(conf, outcome)];
    m' := Master(m3.generation + 1, Some(Zone(m3.generation + 1, [if outcome.Early? then down else unused])));
    assert CarriedAt(conf[0], [], unused.status) && CarriedAt(conf[0], [down], down.status) by {
      assert First([down], key, 0);
    }
    assert Next(m0, m1, events[0]) && Next(m1, m2, events[1]) && Next(m2, m3, events[2]);
  }
}
