// modifyEpBaseOnLbhc: moving endpoint addresses between ready and not ready.

module Endpoints {
  datatype Option<T> = None | Some(value: T)
  datatype Address = Address(ip: string, info: string)
  datatype Subset = Subset(ready: seq<Address>, notReady: seq<Address>)
  datatype Name = Name(service: string, namespace: string)

  // Addresses with this IP, and the others.

  function Pick(list: seq<Address>, ip: string): seq<Address> {
    if list == [] then []
    else Pick(list[..|list| - 1], ip) + if list[|list| - 1].ip == ip then [list[|list| - 1]] else []
  }

  function Keep(list: seq<Address>, ip: string): seq<Address> {
    if list == [] then []
    else Keep(list[..|list| - 1], ip) + if list[|list| - 1].ip == ip then [] else [list[|list| - 1]]
  }

  function Count(list: seq<Address>, a: Address): nat {
    multiset(list)[a]
  }

  lemma {:induction false} CountSplit(list: seq<Address>, ip: string, a: Address)
    ensures Count(Pick(list, ip), a) == if a.ip == ip then Count(list, a) else 0
    ensures Count(Keep(list, ip), a) == if a.ip == ip then 0 else Count(list, a)
  {
    if list != [] {
      var init, last := list[..|list| - 1], list[|list| - 1];
      assert list == init + [last];
      CountSplit(init, ip, a);
    }
  }

  // The target list after a move. Whether it exists is read from the copy that the loop
  // over the subsets made, so if it was empty every address found starts it anew.
  function Onto(to: seq<Address>, picked: seq<Address>): seq<Address> {
    if to == [] && picked != [] then [picked[|picked| - 1]] else to + picked
  }

  // What modifyEpInNotReadyAddressList does to the subsets: the list of remaining
  // addresses is carried on from one subset to the next.
  function Demoted(subs: seq<Subset>, ip: string, left: seq<Address>): seq<Subset> {
    if subs == [] then []
    else if subs[0].ready == [] then [subs[0]] + Demoted(subs[1..], ip, left)
    else
      var more := left + Keep(subs[0].ready, ip);
      [Subset(more, Onto(subs[0].notReady, Pick(subs[0].ready, ip)))] + Demoted(subs[1..], ip, more)
  }

  function Flip(subs: seq<Subset>): (r: seq<Subset>)
    ensures |r| == |subs|
  {
    if subs == [] then [] else [Subset(subs[0].notReady, subs[0].ready)] + Flip(subs[1..])
  }

  // modifyEpInAddressList is the same with the two lists exchanged.
  function Promoted(subs: seq<Subset>, ip: string): seq<Subset> {
    Flip(Demoted(Flip(subs), ip, []))
  }

  // How often an address occurs in all subsets.
  function Total(subs: seq<Subset>, a: Address): nat {
    if subs == [] then 0 else Count(subs[0].ready, a) + Count(subs[0].notReady, a) + Total(subs[1..], a)
  }

  // Nothing is left over when a subset with ready addresses comes after others.
  predicate Clean(subs: seq<Subset>, ip: string, left: seq<Address>) {
    if subs == [] then true
    else if subs[0].ready == [] then Clean(subs[1..], ip, left)
    else left == [] && Clean(subs[1..], ip, left + Keep(subs[0].ready, ip))
  }

  // How often an address is duplicated.
  function Extra(subs: seq<Subset>, ip: string, left: seq<Address>, a: Address): nat {
    if subs == [] then 0
    else if subs[0].ready == [] then Extra(subs[1..], ip, left, a)
    else Count(left, a) + Extra(subs[1..], ip, left + Keep(subs[0].ready, ip), a)
  }

  // The addresses of a subset that are dropped on the way.
  function Dropped(s: Subset, ip: string): seq<Address> {
    var picked := Pick(s.ready, ip);
    if s.notReady == [] && picked != [] then picked[..|picked| - 1] else []
  }

  function Lost(subs: seq<Subset>, ip: string, a: Address): nat {
    if subs == [] then 0 else Count(Dropped(subs[0], ip), a) + Lost(subs[1..], ip, a)
  }

  // No subset without not ready addresses has several ready ones with the IP.
  predicate Kept(subs: seq<Subset>, ip: string) {
    forall i | 0 <= i < |subs| :: subs[i].notReady != [] || |Pick(subs[i].ready, ip)| <= 1
  }

  lemma {:induction false} OntoCount(s: Subset, ip: string, a: Address)
    ensures Count(Onto(s.notReady, Pick(s.ready, ip)), a) + Count(Dropped(s, ip), a) ==
            Count(s.notReady, a) + if a.ip == ip then Count(s.ready, a) else 0
  {
    hide Pick, Keep;
    CountSplit(s.ready, ip, a);
    var p := Pick(s.ready, ip);
    if p != [] {
      assert p == p[..|p| - 1] + [p[|p| - 1]];
    }
  }

  lemma {:induction false} MoveCount(subs: seq<Subset>, ip: string, left: seq<Address>, a: Address)
    ensures Total(Demoted(subs, ip, left), a) + Lost(subs, ip, a) == Total(subs, a) + Extra(subs, ip, left, a)
    decreases |subs|
  {
    hide Onto, Dropped;
    if subs != [] {
      CountSplit(subs[0].ready, ip, a);
      OntoCount(subs[0], ip, a);
      if subs[0].ready == [] {
        NothingDropped(subs[0], ip);
      }
      MoveCount(subs[1..], ip, if subs[0].ready == [] then left else left + Keep(subs[0].ready, ip), a);
    }
  }

  lemma {:induction false} NothingDropped(s: Subset, ip: string)
    requires s.notReady != [] || |Pick(s.ready, ip)| <= 1
    ensures Dropped(s, ip) == []
  {
  }

  lemma {:induction false} CleanIsExact(subs: seq<Subset>, ip: string, left: seq<Address>, a: Address)
    requires Clean(subs, ip, left)
    ensures Extra(subs, ip, left, a) == 0
    decreases |subs|
  {
    if subs != [] {
      CleanIsExact(subs[1..], ip, if subs[0].ready == [] then left else left + Keep(subs[0].ready, ip), a);
    }
  }

  lemma {:induction false} KeptIsExact(subs: seq<Subset>, ip: string, a: Address)
    requires Kept(subs, ip)
    ensures Lost(subs, ip, a) == 0
    decreases |subs|
  {
    if subs != [] {
      NothingDropped(subs[0], ip);
      KeptIsExact(subs[1..], ip, a);
    }
  }

  // Only addresses with the IP are lost, and only others are duplicated.
  lemma {:induction false} LostOrExtra(subs: seq<Subset>, ip: string, left: seq<Address>, a: Address)
    requires a.ip == ip ==> Count(left, a) == 0
    ensures a.ip == ip ==> Extra(subs, ip, left, a) == 0
    ensures a.ip != ip ==> Lost(subs, ip, a) == 0
    decreases |subs|
  {
    if subs != [] {
      CountSplit(subs[0].ready, ip, a);
      OntoCount(subs[0], ip, a);
      LostOrExtra(subs[1..], ip, if subs[0].ready == [] then left else left + Keep(subs[0].ready, ip), a);
    }
  }

  lemma {:induction false} UncleanDuplicates(subs: seq<Subset>, ip: string, left: seq<Address>) returns (a: Address)
    requires !Clean(subs, ip, left)
    ensures Extra(subs, ip, left, a) > 0
    decreases |subs|
  {
    if subs[0].ready != [] && left != [] {
      a := left[0];
    } else {
      a := UncleanDuplicates(subs[1..], ip, if subs[0].ready == [] then left else left + Keep(subs[0].ready, ip));
    }
  }

  lemma {:induction false} UnkeptLoses(subs: seq<Subset>, ip: string) returns (a: Address)
    requires !Kept(subs, ip)
    ensures Lost(subs, ip, a) > 0
    decreases |subs|
  {
    if subs[0].notReady == [] && |Pick(subs[0].ready, ip)| > 1 {
      a := Pick(subs[0].ready, ip)[0];
      assert a in Dropped(subs[0], ip);
    } else {
      assert !Kept(subs[1..], ip) by {
        var i :| 0 <= i < |subs| && !(subs[i].notReady != [] || |Pick(subs[i].ready, ip)| <= 1);
        assert subs[1..][i - 1] == subs[i];
      }
      a := UnkeptLoses(subs[1..], ip);
    }
  }

  // Moving an address keeps the number of every address exactly when nothing is left
  // over, for left-over addresses are duplicated, and no list that was empty receives
  // several addresses, for only the last of them stays.
  lemma {:induction false} ConservedIff(subs: seq<Subset>, ip: string)
    ensures (forall a :: Total(Demoted(subs, ip, []), a) == Total(subs, a)) <==>
            Clean(subs, ip, []) && Kept(subs, ip)
  {
    hide Clean, Kept, Extra, Lost, Demoted, Total;
    forall a
      ensures Total(Demoted(subs, ip, []), a) + Lost(subs, ip, a) == Total(subs, a) + Extra(subs, ip, [], a)
    {
      MoveCount(subs, ip, [], a);
    }
    if !Clean(subs, ip, []) {
      var a := UncleanDuplicates(subs, ip, []);
      LostOrExtra(subs, ip, [], a);
      assert Total(Demoted(subs, ip, []), a) != Total(subs, a);
    } else if !Kept(subs, ip) {
      var a := UnkeptLoses(subs, ip);
      CleanIsExact(subs, ip, [], a);
      assert Total(Demoted(subs, ip, []), a) != Total(subs, a);
    } else {
      forall a
        ensures Extra(subs, ip, [], a) == 0 && Lost(subs, ip, a) == 0
      {
        CleanIsExact(subs, ip, [], a);
        KeptIsExact(subs, ip, a);
      }
    }
  }

  lemma {:induction false} SplitOne(a: Address, ip: string)
    ensures Keep([a], ip) == if a.ip == ip then [] else [a]
    ensures Pick([a], ip) == if a.ip == ip then [a] else []
  {
    assert [a][..0] == [] && [] + [a] == [a];
  }

  // Two subsets with one ready address each: taking 10.0.0.2 out of the second one puts
  // 10.0.0.1 into both.
  lemma {:induction false} TwoSubsets()
    ensures var a, b := Address("10.0.0.1", ""), Address("10.0.0.2", "");
            var r := Demoted([Subset([a], []), Subset([b], [])], "10.0.0.2", []);
            r == [Subset([a], []), Subset([a], [b])] && Total(r, a) == 2
  {
    hide Keep, Pick, Total;
    var a, b, ip := Address("10.0.0.1", ""), Address("10.0.0.2", ""), "10.0.0.2";
    assert a.ip[7] == '1' && ip[7] == '2';
    SplitOne(a, ip);
    SplitOne(b, ip);
    var s0, s1 := Subset([a], []), Subset([b], []);
    assert [s0, s1][1..] == [s1] && [s1][1..] == [] && [] + [a] == [a] && [a] + [] == [a];
    assert Onto([], [b]) == [b] && Onto([], []) == [];
    assert Demoted([s1], ip, [a]) == [Subset([a], [b])];
    TotalTwo(Subset([a], []), Subset([a], [b]), a);
  }

  lemma {:induction false} TotalTwo(s: Subset, t: Subset, a: Address)
    ensures Total([s, t], a) == Count(s.ready, a) + Count(s.notReady, a) + Count(t.ready, a) + Count(t.notReady, a)
  {
    assert [s, t][1..] == [t] && [t][1..] == [];
    assert Total([t], a) == Count(t.ready, a) + Count(t.notReady, a);
  }

  // Two ready addresses with one IP and no not ready ones: taking the IP out drops the
  // first of them.
  lemma {:induction false} SharedIp()
    ensures var a, b := Address("10.0.0.2", "a"), Address("10.0.0.2", "b");
            Clean([Subset([a, b], [])], "10.0.0.2", []) &&
            Demoted([Subset([a, b], [])], "10.0.0.2", []) == [Subset([], [b])]
  {
    var a, b, ip := Address("10.0.0.2", "a"), Address("10.0.0.2", "b"), "10.0.0.2";
    SplitOne(a, ip);
    assert [a, b][..1] == [a] && Keep([a, b], ip) == [] && Pick([a, b], ip) == [a, b];
    assert [Subset([a, b], [])][1..] == [];
  }

  // With one subset, every address with the IP leaves the ready list and arrives unless it
  // is dropped, and nothing else changes.
  lemma {:induction false} OneSubset(s: Subset, ip: string, a: Address)
    ensures Clean([s], ip, []) && |Demoted([s], ip, [])| == 1
    ensures var r := Demoted([s], ip, [])[0];
            && Count(r.ready, a) == (if a.ip == ip then 0 else Count(s.ready, a))
            && Count(r.notReady, a) + Count(Dropped(s, ip), a) ==
               Count(s.notReady, a) + (if a.ip == ip then Count(s.ready, a) else 0)
  {
    assert [s][1..] == [];
    CountSplit(s.ready, ip, a);
    OntoCount(s, ip, a);
  }

  // The cluster: what the API server holds.
  type Cluster = map<Name, seq<Subset>>

  // strings.Split
  function Fields(s: string, c: char): (r: seq<string>)
    ensures r != []
  {
    if s == [] then [""]
    else if s[0] == c then [""] + Fields(s[1..], c)
    else
      var r := Fields(s[1..], c);
      [[s[0]] + r[0]] + r[1..]
  }

  // "service_namespace"
  function NameOf(key: string): Option<Name> {
    var f := Fields(key, '_');
    if |f| == 2 then Some(Name(f[0], f[1])) else None
  }

  // "ip:port"
  function IpOf(key: string): Option<string> {
    var f := Fields(key, ':');
    if |f| == 2 then Some(f[0]) else None
  }

  predicate Has(list: seq<Address>, ip: string) {
    exists i :: 0 <= i < |list| && list[i].ip == ip
  }

  predicate HasReady(subs: seq<Subset>, ip: string) {
    exists i :: 0 <= i < |subs| && Has(subs[i].ready, ip)
  }

  predicate HasNotReady(subs: seq<Subset>, ip: string) {
    exists i :: 0 <= i < |subs| && Has(subs[i].notReady, ip)
  }

  // The two moves, made only when there is something to move.

  function Demotion(c: Cluster, n: Name, ip: string): Cluster {
    if n in c && HasReady(c[n], ip) then c[n := Demoted(c[n], ip, [])] else c
  }

  function Promotion(c: Cluster, n: Name, ip: string): Cluster {
    if n in c && HasNotReady(c[n], ip) then c[n := Promoted(c[n], ip)] else c
  }

  // The moves of a loop, in order.

  function Promotions(c: Cluster, moves: seq<(Name, string)>): Cluster {
    if moves == [] then c
    else
      var last := moves[|moves| - 1];
      Promotion(Promotions(c, moves[..|moves| - 1]), last.0, last.1)
  }

  function Demotions(c: Cluster, moves: seq<(Name, string)>): Cluster {
    if moves == [] then c
    else
      var last := moves[|moves| - 1];
      Demotion(Demotions(c, moves[..|moves| - 1]), last.0, last.1)
  }

  // The same within one subset.

  function Up(s: Subset, ip: string): Subset {
    Subset(Onto(s.ready, Pick(s.notReady, ip)), Keep(s.notReady, ip))
  }

  function Ups(s: Subset, n: Name, moves: seq<(Name, string)>): Subset {
    if moves == [] then s
    else
      var t, last := Ups(s, n, moves[..|moves| - 1]), moves[|moves| - 1];
      if last.0 == n then Up(t, last.1) else t
  }

  function Flipped(s: Subset): Subset {
    Subset(s.notReady, s.ready)
  }

  function Downs(s: Subset, n: Name, moves: seq<(Name, string)>): Subset {
    Flipped(Ups(Flipped(s), n, moves))
  }

  lemma {:induction false} FlipFlip(subs: seq<Subset>)
    ensures Flip(Flip(subs)) == subs
    decreases |subs|
  {
    if subs != [] {
      FlipFlip(subs[1..]);
      assert Flip(subs)[1..] == Flip(subs[1..]);
    }
  }

  lemma {:induction false} DemotedOne(s: Subset, ip: string)
    ensures Demoted([s], ip, []) == [Flipped(Up(Flipped(s), ip))]
  {
    assert [s][1..] == [] && [] + Keep(s.ready, ip) == Keep(s.ready, ip);
    if s.ready == [] {
      assert s.notReady + [] == s.notReady;
    }
  }

  lemma {:induction false} PromotedOne(s: Subset, ip: string)
    ensures Promoted([s], ip) == [Up(s, ip)]
  {
    assert [s][1..] == [] && Flip([s]) == [Flipped(s)];
    DemotedOne(Flipped(s), ip);
    var t := Flipped(Up(s, ip));
    assert [t][1..] == [];
  }

  lemma {:induction false} SplitNone(list: seq<Address>, ip: string)
    requires !Has(list, ip)
    ensures Pick(list, ip) == [] && Keep(list, ip) == list
  {
    if list != [] {
      var init := list[..|list| - 1];
      assert list == init + [list[|list| - 1]] && !Has(init, ip);
      SplitNone(init, ip);
    }
  }

  // Nothing to move, nothing moved.
  lemma {:induction false} UpNone(s: Subset, ip: string)
    requires !Has(s.notReady, ip)
    ensures Up(s, ip) == s
  {
    SplitNone(s.notReady, ip);
  }

  lemma {:induction false} PromotionsAt(c: Cluster, n: Name, moves: seq<(Name, string)>)
    requires n in c && |c[n]| == 1
    ensures n in Promotions(c, moves) && Promotions(c, moves)[n] == [Ups(c[n][0], n, moves)]
    decreases |moves|
  {
    hide Up, Has, Promoted;
    if moves == [] {
      assert c[n] == [c[n][0]];
    } else {
      var init, ip := moves[..|moves| - 1], moves[|moves| - 1].1;
      PromotionsAt(c, n, init);
      var t := Ups(c[n][0], n, init);
      PromotedOne(t, ip);
      assert HasNotReady([t], ip) <==> Has([t][0].notReady, ip);
      if !Has(t.notReady, ip) {
        UpNone(t, ip);
      }
    }
  }

  lemma {:induction false} DemotionsAt(c: Cluster, n: Name, moves: seq<(Name, string)>)
    requires n in c && |c[n]| == 1
    ensures n in Demotions(c, moves) && Demotions(c, moves)[n] == [Downs(c[n][0], n, moves)]
    decreases |moves|
  {
    hide Up, Has, Demoted;
    if moves == [] {
      assert c[n] == [c[n][0]];
    } else {
      var init, ip := moves[..|moves| - 1], moves[|moves| - 1].1;
      DemotionsAt(c, n, init);
      var t := Downs(c[n][0], n, init);
      DemotedOne(t, ip);
      assert HasReady([t], ip) <==> Has([t][0].ready, ip);
      if !Has(t.ready, ip) {
        UpNone(Flipped(t), ip);
      }
    }
  }

  // The down list: for every service, the status of its addresses.
  type List = map<string, map<string, bool>>

  // What the entry of key k of service s asks for, in the loop for the status up.
  function Asks(list: List, s: string, k: string, up: bool): Option<(Name, string)> {
    if s in list && k in list[s] && list[s][k] == up && NameOf(s).Some? && IpOf(k).Some?
    then Some((NameOf(s).value, IpOf(k).value)) else None
  }

  // All moves that a loop has to make.
  ghost function Targets(list: List, up: bool): set<(Name, string)> {
    set s, k | s in list && k in list[s] && Asks(list, s, k, up).Some? :: Asks(list, s, k, up).value
  }

  // An order in which the maps can be read: the services, and the keys of each of them.
  datatype Order = Order(services: seq<string>, keys: map<string, seq<string>>)

  ghost predicate Lists<T(!new)>(q: seq<T>, s: set<T>) {
    (forall x :: x in q <==> x in s) && forall i, j | 0 <= i < j < |q| :: q[i] != q[j]
  }

  ghost predicate OrderOf(o: Order, list: List) {
    && Lists(o.services, list.Keys)
    && forall s | s in list :: s in o.keys && Lists(o.keys[s], list[s].Keys)
  }

  // The moves for the first keys of a service, and for the first services.

  function MovesIn(list: List, s: string, ks: seq<string>, up: bool): seq<(Name, string)> {
    if ks == [] then []
    else
      var a := Asks(list, s, ks[|ks| - 1], up);
      MovesIn(list, s, ks[..|ks| - 1], up) + if a.Some? then [a.value] else []
  }

  function Moves(list: List, services: seq<string>, keys: map<string, seq<string>>, up: bool): seq<(Name, string)> {
    if services == [] then []
    else
      var s := services[|services| - 1];
      Moves(list, services[..|services| - 1], keys, up) + if s in keys then MovesIn(list, s, keys[s], up) else []
  }

  function MovesOf(list: List, o: Order, up: bool): seq<(Name, string)> {
    Moves(list, o.services, o.keys, up)
  }

  class Controller {
    var cluster: Cluster

    // epInReadyAddressList
    method InReady(n: Name, ip: string) returns (found: bool)
      ensures found <==> n in cluster && HasReady(cluster[n], ip)
    {
      if n !in cluster {
        return false;
      }
      var subs := cluster[n];
      for i := 0 to |subs|
        invariant forall k | 0 <= k < i :: !Has(subs[k].ready, ip)
      {
        for j := 0 to |subs[i].ready|
          invariant forall k | 0 <= k < j :: subs[i].ready[k].ip != ip
        {
          if subs[i].ready[j].ip == ip {
            return true;
          }
        }
      }
      return false;
    }

    // epInNoReadyAddressList
    method InNotReady(n: Name, ip: string) returns (found: bool)
      ensures found <==> n in cluster && HasNotReady(cluster[n], ip)
    {
      if n !in cluster {
        return false;
      }
      var subs := cluster[n];
      for i := 0 to |subs|
        invariant forall k | 0 <= k < i :: !Has(subs[k].notReady, ip)
      {
        for j := 0 to |subs[i].notReady|
          invariant forall k | 0 <= k < j :: subs[i].notReady[k].ip != ip
        {
          if subs[i].notReady[j].ip == ip {
            return true;
          }
        }
      }
      return false;
    }

    // The inner loop of both moves: the addresses with the IP are appended to one list,
    // the others to the other. The test of the target list looks at its value before the
    // loop.
    static method Sift(list: seq<Address>, ip: string, left: seq<Address>, to: seq<Address>)
      returns (left': seq<Address>, to': seq<Address>, found: bool)
      ensures left' == left + Keep(list, ip) && to' == Onto(to, Pick(list, ip)) && (found <==> Has(list, ip))
    {
      hide Onto, Pick, Keep;
      left', to', found := left, to, false;
      SplitNone([], ip);
      OntoNone(to);
      for j := 0 to |list|
        invariant left' == left + Keep(list[..j], ip) && to' == Onto(to, Pick(list[..j], ip))
        invariant found <==> exists k :: 0 <= k < j && list[k].ip == ip
      {
        SplitMore(list, j, ip);
        OntoMore(to, Pick(list[..j], ip), list[j]);
        if list[j].ip == ip {
          found := true;
          if |to| == 0 {
            to' := [];
          }
          to' := to' + [list[j]];
        } else {
          left' := left' + [list[j]];
        }
      }
      assert list[..|list|] == list;
    }

    // modifyEpInNotReadyAddressList; ok is false when there are no such endpoints.
    method Demote(n: Name, ip: string) returns (ok: bool)
      modifies this
      ensures ok <==> n in old(cluster)
      ensures cluster == Demotion(old(cluster), n, ip)
    {
      if n !in cluster {
        return false;
      }
      var out, modified := Lower(cluster[n], ip);
      if modified {
        cluster := cluster[n := out];
      }
      return true;
    }

    // The loop over the subsets.
    static method Lower(subs: seq<Subset>, ip: string) returns (out: seq<Subset>, modified: bool)
      ensures out == Demoted(subs, ip, []) && (modified <==> HasReady(subs, ip))
    {
      hide Pick, Keep, Has, Demoted, Onto;
      out, modified := [], false;
      var left := [];
      assert subs[0..] == subs;
      for i := 0 to |subs|
        invariant out + Demoted(subs[i..], ip, left) == Demoted(subs, ip, [])
        invariant modified <==> exists k :: 0 <= k < i && Has(subs[k].ready, ip)
      {
        DemotedStep(subs, i, ip, left);
        var s := subs[i];
        if |s.ready| != 0 {
          var notReady, found;
          left, notReady, found := Sift(s.ready, ip, left, s.notReady);
          modified := modified || found;
          s := Subset(left, notReady);
        } else {
          NoneHere(s.ready, ip);
        }
        out := out + [s];
      }
      DemotedEnd(subs, ip, left);
      assert out + [] == out;
    }

    // modifyEpInAddressList
    method Promote(n: Name, ip: string) returns (ok: bool)
      modifies this
      ensures ok <==> n in old(cluster)
      ensures cluster == Promotion(old(cluster), n, ip)
    {
      if n !in cluster {
        return false;
      }
      var out, modified := Raise(cluster[n], ip);
      if modified {
        cluster := cluster[n := out];
      }
      return true;
    }

    // The same loop with the lists exchanged.
    static method Raise(subs: seq<Subset>, ip: string) returns (out: seq<Subset>, modified: bool)
      ensures out == Promoted(subs, ip) && (modified <==> HasNotReady(subs, ip))
    {
      hide Pick, Keep, Has, Demoted, Flip;
      ghost var flat, flipped: seq<Subset> := Flip(subs), [];
      out, modified := [], false;
      var left := [];
      FlipNone();
      assert flat[0..] == flat;
      for i := 0 to |subs|
        invariant flipped == Flip(out) && flipped + Demoted(flat[i..], ip, left) == Demoted(flat, ip, [])
        invariant modified <==> exists k :: 0 <= k < i && Has(subs[k].notReady, ip)
      {
        FlipAt(subs, i);
        DemotedStep(flat, i, ip, left);
        var s := subs[i];
        if |s.notReady| != 0 {
          var ready, found;
          left, ready, found := Sift(s.notReady, ip, left, s.ready);
          modified := modified || found;
          s := Subset(ready, left);
        } else {
          NoneHere(s.notReady, ip);
        }
        FlipMore(out, s);
        out := out + [s];
        flipped := flipped + [Flipped(s)];
      }
      DemotedEnd(flat, ip, left);
      assert flipped + [] == flipped;
      FlipFlip(out);
    }

    // The first loop of modifyEpBaseOnLbhc, in any order of the map.
    method PromoteAll(list: List) returns (ghost o: Order)
      modifies this
      ensures OrderOf(o, list) && cluster == Promotions(old(cluster), MovesOf(list, o, true))
    {
      hide Promotions, MovesIn, Moves, Lists;
      var names := list.Keys;
      ghost var services, keys: map<string, seq<string>> := [], map[];
      NoneListed(list.Keys - names);
      NoMoves(cluster, list, "", keys, true);
      while names != {}
        invariant names <= list.Keys && Lists(services, list.Keys - names)
        invariant forall s | s in list && s !in names :: s in keys && Lists(keys[s], list[s].Keys)
        invariant cluster == Promotions(old(cluster), Moves(list, services, keys, true))
        decreases |names|
      {
        var s :| s in names;
        ListedMore(services, list.Keys, names, s);
        ghost var ks := PromoteService(list, s);
        MovesMore(list, services, keys, s, ks, true);
        PromotionsJoin(old(cluster), Moves(list, services, keys, true), MovesIn(list, s, ks, true));
        services, keys, names := services + [s], keys[s := ks], names - {s};
      }
      o := Order(services, keys);
      assert list.Keys - {} == list.Keys;
    }

    // The addresses of one service.
    method PromoteService(list: List, s: string) returns (ghost ks: seq<string>)
      requires s in list
      modifies this
      ensures Lists(ks, list[s].Keys) && cluster == Promotions(old(cluster), MovesIn(list, s, ks, true))
    {
      hide NameOf, IpOf, Promotion, Lists, MovesIn, Promotions, HasNotReady;
      NoMoves(cluster, list, s, map[], true);
      if NameOf(s).None? {
        ks := Listing(list[s].Keys);
        NoName(list, s, ks, true);
        return;
      }
      var n, keys := NameOf(s).value, list[s].Keys;
      ks := [];
      NoneListed(list[s].Keys - keys);
      while keys != {}
        invariant keys <= list[s].Keys && Lists(ks, list[s].Keys - keys)
        invariant cluster == Promotions(old(cluster), MovesIn(list, s, ks, true))
        decreases |keys|
      {
        var k :| k in keys;
        ListedMore(ks, list[s].Keys, keys, k);
        MovesInMore(list, s, ks, k, true);
        if list[s][k] && IpOf(k).Some? {
          var ip := IpOf(k).value;
          PromotionsMore(old(cluster), MovesIn(list, s, ks, true), n, ip);
          var there := InNotReady(n, ip);
          if there {
            var ok := Promote(n, ip);
          } else {
            NoPromotion(cluster, n, ip);
          }
        }
        ks, keys := ks + [k], keys - {k};
      }
      assert list[s].Keys - {} == list[s].Keys;
    }

    // The second loop of modifyEpBaseOnLbhc, in any order of the map.
    method DemoteAll(list: List) returns (ghost o: Order)
      modifies this
      ensures OrderOf(o, list) && cluster == Demotions(old(cluster), MovesOf(list, o, false))
    {
      hide Demotions, MovesIn, Moves, Lists;
      var names := list.Keys;
      ghost var services, keys: map<string, seq<string>> := [], map[];
      NoneListed(list.Keys - names);
      NoMoves(cluster, list, "", keys, false);
      while names != {}
        invariant names <= list.Keys && Lists(services, list.Keys - names)
        invariant forall s | s in list && s !in names :: s in keys && Lists(keys[s], list[s].Keys)
        invariant cluster == Demotions(old(cluster), Moves(list, services, keys, false))
        decreases |names|
      {
        var s :| s in names;
        ListedMore(services, list.Keys, names, s);
        ghost var ks := DemoteService(list, s);
        MovesMore(list, services, keys, s, ks, false);
        DemotionsJoin(old(cluster), Moves(list, services, keys, false), MovesIn(list, s, ks, false));
        services, keys, names := services + [s], keys[s := ks], names - {s};
      }
      o := Order(services, keys);
      assert list.Keys - {} == list.Keys;
    }

    // The addresses of one service.
    method DemoteService(list: List, s: string) returns (ghost ks: seq<string>)
      requires s in list
      modifies this
      ensures Lists(ks, list[s].Keys) && cluster == Demotions(old(cluster), MovesIn(list, s, ks, false))
    {
      hide NameOf, IpOf, Demotion, Lists, MovesIn, Demotions, HasReady;
      NoMoves(cluster, list, s, map[], false);
      if NameOf(s).None? {
        ks := Listing(list[s].Keys);
        NoName(list, s, ks, false);
        return;
      }
      var n, keys := NameOf(s).value, list[s].Keys;
      ks := [];
      NoneListed(list[s].Keys - keys);
      while keys != {}
        invariant keys <= list[s].Keys && Lists(ks, list[s].Keys - keys)
        invariant cluster == Demotions(old(cluster), MovesIn(list, s, ks, false))
        decreases |keys|
      {
        var k :| k in keys;
        ListedMore(ks, list[s].Keys, keys, k);
        MovesInMore(list, s, ks, k, false);
        if !list[s][k] && IpOf(k).Some? {
          var ip := IpOf(k).value;
          DemotionsMore(old(cluster), MovesIn(list, s, ks, false), n, ip);
          var there := InReady(n, ip);
          if there {
            var ok := Demote(n, ip);
          } else {
            NoDemotion(cluster, n, ip);
          }
        }
        ks, keys := ks + [k], keys - {k};
      }
      assert list[s].Keys - {} == list[s].Keys;
    }

    // modifyEpBaseOnLbhc: the moves are made in the order of the maps, promotions first.
    // Whatever the order, an address of endpoints with one secure subset ends not ready if
    // any of its ports is down, ready if it has ports and all of them are up, and where it
    // was otherwise; none is lost or duplicated.
    method Reconcile(list: List) returns (ghost o1: Order, ghost o2: Order)
      modifies this
      ensures OrderOf(o1, list) && OrderOf(o2, list)
      ensures cluster == Demotions(Promotions(old(cluster), MovesOf(list, o1, true)), MovesOf(list, o2, false))
      ensures forall n | n in old(cluster) && |old(cluster)[n]| == 1 ::
                && n in cluster && |cluster[n]| == 1
                && (Secure(list, n, old(cluster)[n][0]) ==> Settled(list, n, old(cluster)[n][0], cluster[n][0]))
    {
      hide OrderOf, MovesOf, Promotions, Demotions, Settled, Secure;
      o1 := PromoteAll(list);
      o2 := DemoteAll(list);
      forall n | n in old(cluster) && |old(cluster)[n]| == 1
        ensures n in cluster && |cluster[n]| == 1
        ensures Secure(list, n, old(cluster)[n][0]) ==> Settled(list, n, old(cluster)[n][0], cluster[n][0])
      {
        PromotionsAt(old(cluster), n, MovesOf(list, o1, true));
        DemotionsAt(Promotions(old(cluster), MovesOf(list, o1, true)), n, MovesOf(list, o2, false));
        SettledIffSecure(list, n, old(cluster)[n][0]);
      }
    }
  }

  // Each of these pairs, and no other, is among the moves.
  ghost predicate Enumerates(moves: seq<(Name, string)>, targets: set<(Name, string)>) {
    forall t :: t in moves <==> t in targets
  }

  lemma {:induction false} PromotionsMore(c: Cluster, moves: seq<(Name, string)>, n: Name, ip: string)
    ensures Promotions(c, moves + [(n, ip)]) == Promotion(Promotions(c, moves), n, ip)
  {
    assert (moves + [(n, ip)])[..|moves|] == moves;
  }

  lemma {:induction false} DemotionsMore(c: Cluster, moves: seq<(Name, string)>, n: Name, ip: string)
    ensures Demotions(c, moves + [(n, ip)]) == Demotion(Demotions(c, moves), n, ip)
  {
    assert (moves + [(n, ip)])[..|moves|] == moves;
  }

  lemma {:induction false} PromotionsJoin(c: Cluster, x: seq<(Name, string)>, y: seq<(Name, string)>)
    ensures Promotions(c, x + y) == Promotions(Promotions(c, x), y)
    decreases |y|
  {
    hide Promotion;
    if y == [] {
      assert x + y == x;
    } else {
      assert (x + y)[..|x + y| - 1] == x + y[..|y| - 1];
      PromotionsJoin(c, x, y[..|y| - 1]);
    }
  }

  lemma {:induction false} DemotionsJoin(c: Cluster, x: seq<(Name, string)>, y: seq<(Name, string)>)
    ensures Demotions(c, x + y) == Demotions(Demotions(c, x), y)
    decreases |y|
  {
    hide Demotion;
    if y == [] {
      assert x + y == x;
    } else {
      assert (x + y)[..|x + y| - 1] == x + y[..|y| - 1];
      DemotionsJoin(c, x, y[..|y| - 1]);
    }
  }

  // Reading maps in some order

  lemma {:induction false} NoneListed<T(!new)>(s: set<T>)
    requires s == {}
    ensures Lists([], s)
  {
  }

  lemma {:induction false} ListedMore<T(!new)>(q: seq<T>, s: set<T>, rest: set<T>, x: T)
    requires rest <= s && x in rest && Lists(q, s - rest)
    ensures x !in q && Lists(q + [x], s - (rest - {x}))
  {
  }

  lemma {:induction false} Listing<T(!new)>(s: set<T>) returns (q: seq<T>)
    ensures Lists(q, s)
    decreases |s|
  {
    if s == {} {
      q := [];
    } else {
      var x :| x in s;
      var p := Listing(s - {x});
      q := p + [x];
    }
  }

  // The same with a given first element.
  lemma {:induction false} ListingFrom<T(!new)>(s: set<T>, x: T) returns (q: seq<T>)
    requires x in s
    ensures Lists(q, s) && q != [] && q[0] == x
  {
    var p := Listing(s - {x});
    q := [x] + p;
    forall i, j | 0 <= i < j < |q|
      ensures q[i] != q[j]
    {
      assert q[j] == p[j - 1] && p[j - 1] in p;
    }
  }

  lemma {:induction false} NoMoves(c: Cluster, list: List, s: string, keys: map<string, seq<string>>, up: bool)
    ensures MovesIn(list, s, [], up) == [] && Moves(list, [], keys, up) == []
    ensures Promotions(c, []) == c && Demotions(c, []) == c
  {
  }

  lemma {:induction false} NoName(list: List, s: string, ks: seq<string>, up: bool)
    requires NameOf(s).None?
    ensures MovesIn(list, s, ks, up) == []
  {
    hide NameOf, IpOf;
    if ks != [] {
      NoName(list, s, ks[..|ks| - 1], up);
    }
  }

  lemma {:induction false} MovesInMore(list: List, s: string, ks: seq<string>, k: string, up: bool)
    ensures MovesIn(list, s, ks + [k], up) ==
            MovesIn(list, s, ks, up) + if Asks(list, s, k, up).Some? then [Asks(list, s, k, up).value] else []
    ensures Asks(list, s, k, up).None? ==> MovesIn(list, s, ks + [k], up) == MovesIn(list, s, ks, up)
  {
    hide Asks;
    assert (ks + [k])[..|ks|] == ks;
  }

  // A service that was not read yet comes last.
  lemma {:induction false} MovesMore(list: List, services: seq<string>, keys: map<string, seq<string>>, s: string,
      ks: seq<string>, up: bool)
    requires s !in services
    ensures Moves(list, services + [s], keys[s := ks], up) == Moves(list, services, keys, up) + MovesIn(list, s, ks, up)
  {
    hide MovesIn;
    assert (services + [s])[..|services|] == services;
    OtherKeys(list, services, keys, s, ks, up);
  }

  lemma {:induction false} OtherKeys(list: List, services: seq<string>, keys: map<string, seq<string>>, s: string,
      ks: seq<string>, up: bool)
    requires s !in services
    ensures Moves(list, services, keys[s := ks], up) == Moves(list, services, keys, up)
    decreases |services|
  {
    hide MovesIn;
    if services != [] {
      OtherKeys(list, services[..|services| - 1], keys, s, ks, up);
    }
  }

  lemma {:induction false} InMovesIn(list: List, s: string, ks: seq<string>, up: bool, t: (Name, string))
    ensures t in MovesIn(list, s, ks, up) <==> exists k :: k in ks && Asks(list, s, k, up) == Some(t)
    decreases |ks|
  {
    hide Asks;
    if ks != [] {
      var init, k := ks[..|ks| - 1], ks[|ks| - 1];
      assert ks == init + [k];
      InMovesIn(list, s, init, up, t);
    }
  }

  lemma {:induction false} InMoves(list: List, services: seq<string>, keys: map<string, seq<string>>, up: bool,
      t: (Name, string))
    ensures t in Moves(list, services, keys, up) <==>
            exists s :: s in services && s in keys && t in MovesIn(list, s, keys[s], up)
    decreases |services|
  {
    hide MovesIn;
    if services != [] {
      var init, s := services[..|services| - 1], services[|services| - 1];
      assert services == init + [s];
      InMoves(list, init, keys, up, t);
    }
  }

  // Every order makes exactly the moves that the list asks for.
  lemma {:induction false} MovesEnumerate(list: List, o: Order, up: bool)
    requires OrderOf(o, list)
    ensures Enumerates(MovesOf(list, o, up), Targets(list, up))
  {
    hide Asks, Moves, MovesIn;
    forall t
      ensures t in MovesOf(list, o, up) <==> t in Targets(list, up)
    {
      InMoves(list, o.services, o.keys, up, t);
      if t in MovesOf(list, o, up) {
        var s :| s in o.services && s in o.keys && t in MovesIn(list, s, o.keys[s], up);
        InMovesIn(list, s, o.keys[s], up, t);
        var k :| k in o.keys[s] && Asks(list, s, k, up) == Some(t);
        assert s in list && k in list[s];
      }
      if t in Targets(list, up) {
        var s, k :| s in list && k in list[s] && Asks(list, s, k, up) == Some(t);
        assert k in o.keys[s] && s in o.services;
        InMovesIn(list, s, o.keys[s], up, t);
      }
    }
  }

  lemma {:induction false} SomeKeys(list: List, names: set<string>) returns (keys: map<string, seq<string>>)
    requires names <= list.Keys
    ensures forall s | s in names :: s in keys && Lists(keys[s], list[s].Keys)
    decreases |names|
  {
    if names == {} {
      keys := map[];
    } else {
      var s :| s in names;
      keys := SomeKeys(list, names - {s});
      var ks := Listing(list[s].Keys);
      keys := keys[s := ks];
    }
  }

  lemma {:induction false} SomeOrder(list: List) returns (o: Order)
    ensures OrderOf(o, list)
  {
    var services := Listing(list.Keys);
    var keys := SomeKeys(list, list.Keys);
    o := Order(services, keys);
  }

  // An order that begins with a given move.
  lemma {:induction false} OrderFrom(list: List, up: bool, t: (Name, string)) returns (o: Order)
    requires t in Targets(list, up)
    ensures OrderOf(o, list) && MovesOf(list, o, up) != [] && MovesOf(list, o, up)[0] == t
  {
    hide Asks, Lists;
    var s, k :| s in list && k in list[s] && Asks(list, s, k, up) == Some(t);
    var services := ListingFrom(list.Keys, s);
    var keys := SomeKeys(list, list.Keys);
    var ks := ListingFrom(list[s].Keys, k);
    o := Order(services, keys[s := ks]);
    FirstIn(list, s, ks, up, t);
    FirstOf(list, services, o.keys, up, t);
  }

  lemma {:induction false} FirstIn(list: List, s: string, ks: seq<string>, up: bool, t: (Name, string))
    requires ks != [] && Asks(list, s, ks[0], up) == Some(t)
    ensures MovesIn(list, s, ks, up) != [] && MovesIn(list, s, ks, up)[0] == t
    decreases |ks|
  {
    hide Asks;
    if |ks| > 1 {
      FirstIn(list, s, ks[..|ks| - 1], up, t);
    } else {
      assert ks[..0] == [];
    }
  }

  lemma {:induction false} FirstOf(list: List, services: seq<string>, keys: map<string, seq<string>>, up: bool,
      t: (Name, string))
    requires services != [] && services[0] in keys
    requires var m := MovesIn(list, services[0], keys[services[0]], up); m != [] && m[0] == t
    ensures Moves(list, services, keys, up) != [] && Moves(list, services, keys, up)[0] == t
    decreases |services|
  {
    hide MovesIn;
    if |services| > 1 {
      FirstOf(list, services[..|services| - 1], keys, up, t);
    } else {
      assert services[..0] == [];
    }
  }

  // The subset after both loops.
  function Outcome(s: Subset, n: Name, ups: seq<(Name, string)>, downs: seq<(Name, string)>): Subset {
    Downs(Ups(s, n, ups), n, downs)
  }

  function Both(s: Subset, a: Address): nat {
    Count(s.ready, a) + Count(s.notReady, a)
  }

  ghost predicate Settled(list: List, n: Name, s: Subset, t: Subset) {
    SettledAs(Targets(list, true), Targets(list, false), n, s, t)
  }

  ghost predicate SettledAs(up: set<(Name, string)>, down: set<(Name, string)>, n: Name, s: Subset, t: Subset) {
    forall a ::
      && Count(t.ready, a) ==
         (if (n, a.ip) in down then 0 else if (n, a.ip) in up then Both(s, a) else Count(s.ready, a))
      && Both(t, a) == Both(s, a)
  }

  // In each loop the list that addresses are moved to is not empty when the loop starts,
  // or no two addresses that are moved share an IP.
  ghost predicate Secure(list: List, n: Name, s: Subset) {
    SecureAs(Targets(list, true), Targets(list, false), n, s)
  }

  ghost predicate SecureAs(up: set<(Name, string)>, down: set<(Name, string)>, n: Name, s: Subset) {
    && (s.ready != [] || forall ip | (n, ip) in up :: |Pick(s.notReady, ip)| <= 1)
    && (|| (exists i :: 0 <= i < |s.notReady| && (n, s.notReady[i].ip) !in up)
        || forall ip | (n, ip) in down ::
             |Pick(s.ready, ip)| + (if (n, ip) in up then |Pick(s.notReady, ip)| else 0) <= 1)
  }

  // One loop over one subset.
  ghost predicate SafeUps(s: Subset, n: Name, moves: seq<(Name, string)>) {
    s.ready != [] || forall ip | (n, ip) in moves :: |Pick(s.notReady, ip)| <= 1
  }

  lemma {:induction false} PickJoin(x: seq<Address>, y: seq<Address>, ip: string)
    ensures Pick(x + y, ip) == Pick(x, ip) + Pick(y, ip)
    decreases |y|
  {
    if y == [] {
      assert x + y == x;
    } else {
      var init := y[..|y| - 1];
      assert (x + y)[..|x + y| - 1] == x + init;
      PickJoin(x, init, ip);
    }
  }

  lemma {:induction false} PickPick(list: seq<Address>, x: string, ip: string)
    ensures Pick(Pick(list, x), ip) == if x == ip then Pick(list, ip) else []
    ensures Pick(Keep(list, x), ip) == if x == ip then [] else Pick(list, ip)
  {
    if list != [] {
      var init, last := list[..|list| - 1], list[|list| - 1];
      PickPick(init, x, ip);
      SplitOne(last, ip);
      PickJoin(Pick(init, x), if last.ip == x then [last] else [], ip);
      PickJoin(Keep(init, x), if last.ip == x then [] else [last], ip);
    }
  }

  // What stays not ready does not depend on the order.
  lemma {:induction false} UpsLeft(s: Subset, n: Name, moves: seq<(Name, string)>, ip: string, a: Address)
    ensures Pick(Ups(s, n, moves).notReady, ip) == if (n, ip) in moves then [] else Pick(s.notReady, ip)
    ensures Count(Ups(s, n, moves).notReady, a) == if (n, a.ip) in moves then 0 else Count(s.notReady, a)
    decreases |moves|
  {
    hide Pick, Keep, Count, Onto;
    if moves != [] {
      var init, last := moves[..|moves| - 1], moves[|moves| - 1];
      assert moves == init + [last];
      UpsLeft(s, n, init, ip, a);
      if last.0 == n {
        var t := Ups(s, n, init);
        PickPick(t.notReady, last.1, ip);
        CountSplit(t.notReady, last.1, a);
      }
    }
  }

  lemma {:induction false} SplitMore(list: seq<Address>, j: nat, ip: string)
    requires j < |list|
    ensures Pick(list[..j + 1], ip) == if list[j].ip == ip then Pick(list[..j], ip) + [list[j]] else Pick(list[..j], ip)
    ensures Keep(list[..j + 1], ip) == if list[j].ip == ip then Keep(list[..j], ip) else Keep(list[..j], ip) + [list[j]]
  {
    assert list[..j + 1][..j] == list[..j];
  }

  lemma {:induction false} OntoNone(to: seq<Address>)
    ensures Onto(to, []) == to
  {
  }

  lemma {:induction false} OntoMore(to: seq<Address>, picked: seq<Address>, a: Address)
    ensures Onto(to, picked + [a]) == if to == [] then [a] else Onto(to, picked) + [a]
  {
  }

  lemma {:induction false} OntoAll(to: seq<Address>, picked: seq<Address>)
    requires to != [] || |picked| <= 1
    ensures Onto(to, picked) == to + picked
  {
  }

  // A safe loop moves every address with one of the IPs.
  lemma {:induction false} UpsReady(s: Subset, n: Name, moves: seq<(Name, string)>, ip: string, a: Address)
    requires SafeUps(s, n, moves)
    ensures s.ready != [] ==> Ups(s, n, moves).ready != []
    ensures |Pick(Ups(s, n, moves).ready, ip)| ==
            |Pick(s.ready, ip)| + if (n, ip) in moves then |Pick(s.notReady, ip)| else 0
    ensures Count(Ups(s, n, moves).ready, a) ==
            Count(s.ready, a) + if (n, a.ip) in moves then Count(s.notReady, a) else 0
    decreases |moves|
  {
    hide Pick, Keep, Count, Onto;
    if moves != [] {
      var init, last := moves[..|moves| - 1], moves[|moves| - 1];
      assert moves == init + [last];
      assert SafeUps(s, n, init);
      UpsReady(s, n, init, ip, a);
      if last.0 == n {
        UpsReadyStep(s, n, init, last.1, ip, a);
      }
    }
  }

  lemma {:induction false} UpsReadyStep(s: Subset, n: Name, moves: seq<(Name, string)>, x: string, ip: string,
      a: Address)
    requires s.ready != [] ==> Ups(s, n, moves).ready != []
    requires s.ready != [] || |Pick(s.notReady, x)| <= 1
    ensures var t := Ups(s, n, moves);
            && (s.ready != [] ==> Up(t, x).ready != [])
            && |Pick(Up(t, x).ready, ip)| ==
               |Pick(t.ready, ip)| + (if x == ip && (n, ip) !in moves then |Pick(s.notReady, ip)| else 0)
            && Count(Up(t, x).ready, a) ==
               Count(t.ready, a) + (if x == a.ip && (n, x) !in moves then Count(s.notReady, a) else 0)
  {
    hide Pick, Keep, Onto, Ups;
    var t := Ups(s, n, moves);
    UpsLeft(s, n, moves, x, a);
    UpsLeft(s, n, moves, ip, a);
    OntoAll(t.ready, Pick(t.notReady, x));
    PickJoin(t.ready, Pick(t.notReady, x), ip);
    PickPick(t.notReady, x, ip);
    CountSplit(t.notReady, x, a);
  }

  // No loop makes an address more frequent.
  lemma {:induction false} UpsShrink(s: Subset, n: Name, moves: seq<(Name, string)>, a: Address)
    ensures Both(Ups(s, n, moves), a) <= Both(s, a)
    decreases |moves|
  {
    hide Pick, Keep, Count, Onto;
    if moves != [] {
      var t, last := Ups(s, n, moves[..|moves| - 1]), moves[|moves| - 1];
      UpsShrink(s, n, moves[..|moves| - 1], a);
      OntoCount(Flipped(t), last.1, a);
      CountSplit(t.notReady, last.1, a);
    }
  }

  lemma {:induction false} UpsJoin(s: Subset, n: Name, x: seq<(Name, string)>, y: seq<(Name, string)>)
    ensures Ups(s, n, x + y) == Ups(Ups(s, n, x), n, y)
    decreases |y|
  {
    hide Up;
    if y == [] {
      assert x + y == x;
    } else {
      assert (x + y)[..|x + y| - 1] == x + y[..|y| - 1];
      UpsJoin(s, n, x, y[..|y| - 1]);
    }
  }

  // A loop over an empty list that starts with an IP of several addresses loses one.
  lemma {:induction false} FirstLoses(s: Subset, n: Name, moves: seq<(Name, string)>) returns (a: Address)
    requires s.ready == [] && moves != [] && moves[0].0 == n && |Pick(s.notReady, moves[0].1)| > 1
    ensures Both(Ups(s, n, moves), a) < Both(s, a)
  {
    hide Keep, Onto, Count;
    var ip := moves[0].1;
    var picked := Pick(s.notReady, ip);
    a := picked[0];
    OntoCount(Flipped(s), ip, a);
    CountSplit(s.notReady, ip, a);
    var dropped := Dropped(Flipped(s), ip);
    assert dropped[0] == a;
    CountAt(dropped, 0);
    assert moves[..1][..0] == [] && Ups(s, n, moves[..1]) == Up(s, ip);
    assert moves == moves[..1] + moves[1..];
    UpsJoin(s, n, moves[..1], moves[1..]);
    UpsShrink(Up(s, ip), n, moves[1..], a);
  }

  lemma {:induction false} CountAt(list: seq<Address>, i: nat)
    requires i < |list|
    ensures Count(list, list[i]) > 0
  {
    assert list[i] in list;
  }

  lemma {:induction false} SecureSettles(up: set<(Name, string)>, down: set<(Name, string)>, n: Name, s: Subset,
      ups: seq<(Name, string)>, downs: seq<(Name, string)>)
    requires SecureAs(up, down, n, s) && Enumerates(ups, up) && Enumerates(downs, down)
    ensures SettledAs(up, down, n, s, Outcome(s, n, ups, downs))
  {
    hide Pick, Count, Ups;
    SecondLoop(up, down, n, s, ups, downs);
    var m := Ups(s, n, ups);
    forall a
      ensures var t := Outcome(s, n, ups, downs);
              && Count(t.ready, a) ==
                 (if (n, a.ip) in down then 0 else if (n, a.ip) in up then Both(s, a) else Count(s.ready, a))
              && Both(t, a) == Both(s, a)
    {
      UpsReady(s, n, ups, a.ip, a);
      UpsLeft(s, n, ups, a.ip, a);
      UpsReady(Flipped(m), n, downs, a.ip, a);
      UpsLeft(Flipped(m), n, downs, a.ip, a);
    }
  }

  // After a safe first loop, the second one is safe exactly when the condition says so.
  lemma {:induction false} SecondLoop(up: set<(Name, string)>, down: set<(Name, string)>, n: Name, s: Subset,
      ups: seq<(Name, string)>, downs: seq<(Name, string)>)
    requires Enumerates(ups, up) && Enumerates(downs, down) && SafeUps(s, n, ups)
    ensures SafeUps(Flipped(Ups(s, n, ups)), n, downs) <==> SecureAs(up, down, n, s)
  {
    hide Pick, Ups;
    SomeLeft(s, n, ups);
    var m := Ups(s, n, ups);
    forall ip
      ensures |Pick(m.ready, ip)| == |Pick(s.ready, ip)| + if (n, ip) in up then |Pick(s.notReady, ip)| else 0
    {
      UpsReady(s, n, ups, ip, Address(ip, ""));
    }
  }

  lemma {:induction false} SomeLeft(s: Subset, n: Name, moves: seq<(Name, string)>)
    ensures Ups(s, n, moves).notReady != [] <==>
            exists i :: 0 <= i < |s.notReady| && (n, s.notReady[i].ip) !in moves
  {
    hide Ups, Pick;
    var t := Ups(s, n, moves);
    if t.notReady != [] {
      var a := t.notReady[0];
      CountAt(t.notReady, 0);
      UpsLeft(s, n, moves, a.ip, a);
      assert a in s.notReady;
    }
    forall i | 0 <= i < |s.notReady| && (n, s.notReady[i].ip) !in moves
      ensures t.notReady != []
    {
      var a := s.notReady[i];
      CountAt(s.notReady, i);
      UpsLeft(s, n, moves, a.ip, a);
    }
  }

  // Orders in which an address is lost.
  lemma {:induction false} InsecureLoses(list: List, n: Name, s: Subset) returns (o1: Order, o2: Order, a: Address)
    requires !Secure(list, n, s)
    ensures OrderOf(o1, list) && OrderOf(o2, list)
    ensures Both(Outcome(s, n, MovesOf(list, o1, true), MovesOf(list, o2, false)), a) < Both(s, a)
  {
    hide Pick, Ups, Both, OrderOf, MovesOf, Targets;
    var up, down := Targets(list, true), Targets(list, false);
    if s.ready == [] && exists ip :: (n, ip) in up && |Pick(s.notReady, ip)| > 1 {
      var ip :| (n, ip) in up && |Pick(s.notReady, ip)| > 1;
      o1 := OrderFrom(list, true, (n, ip));
      o2 := SomeOrder(list);
      a := FirstLoses(s, n, MovesOf(list, o1, true));
    } else {
      o1 := SomeOrder(list);
      o2 := SomeOrder(list);
      MovesEnumerate(list, o1, true);
      MovesEnumerate(list, o2, false);
      var ups := MovesOf(list, o1, true);
      assert SafeUps(s, n, ups);
      SecondLoop(up, down, n, s, ups, MovesOf(list, o2, false));
      var m := Flipped(Ups(s, n, ups));
      var ip :| (n, ip) in down && |Pick(m.notReady, ip)| > 1;
      o2 := OrderFrom(list, false, (n, ip));
      a := FirstLoses(m, n, MovesOf(list, o2, false));
      UpsShrink(s, n, ups, a);
    }
    var ups, downs := MovesOf(list, o1, true), MovesOf(list, o2, false);
    BothFlipped(Ups(s, n, ups), a);
    UpsShrink(Flipped(Ups(s, n, ups)), n, downs, a);
    BothFlipped(Ups(Flipped(Ups(s, n, ups)), n, downs), a);
  }

  lemma {:induction false} BothFlipped(s: Subset, a: Address)
    ensures Both(Flipped(s), a) == Both(s, a)
  {
  }

  // The addresses of a subset end where their ports say, in every order of the maps,
  // exactly when the subset is secure.
  lemma {:induction false} SettledIffSecure(list: List, n: Name, s: Subset)
    ensures Secure(list, n, s) <==>
            forall o1, o2 | OrderOf(o1, list) && OrderOf(o2, list) ::
              Settled(list, n, s, Outcome(s, n, MovesOf(list, o1, true), MovesOf(list, o2, false)))
  {
    hide Targets, OrderOf, MovesOf, Enumerates, Outcome, SecureAs;
    if Secure(list, n, s) {
      forall o1, o2 | OrderOf(o1, list) && OrderOf(o2, list)
        ensures Settled(list, n, s, Outcome(s, n, MovesOf(list, o1, true), MovesOf(list, o2, false)))
      {
        MovesEnumerate(list, o1, true);
        MovesEnumerate(list, o2, false);
        SecureSettles(Targets(list, true), Targets(list, false), n, s, MovesOf(list, o1, true),
          MovesOf(list, o2, false));
      }
    } else {
      var o1, o2, a := InsecureLoses(list, n, s);
      assert !Settled(list, n, s, Outcome(s, n, MovesOf(list, o1, true), MovesOf(list, o2, false)));
    }
  }

  // In particular a subset is secure if no two of its addresses share an IP.
  lemma {:induction false} DistinctIsSecure(list: List, n: Name, s: Subset)
    requires forall ip :: |Pick(s.ready, ip)| + |Pick(s.notReady, ip)| <= 1
    ensures Secure(list, n, s)
  {
    hide Pick, Targets;
  }

  lemma {:induction false} NoPromotion(c: Cluster, n: Name, ip: string)
    requires !(n in c && HasNotReady(c[n], ip))
    ensures Promotion(c, n, ip) == c
  {
  }

  lemma {:induction false} NoDemotion(c: Cluster, n: Name, ip: string)
    requires !(n in c && HasReady(c[n], ip))
    ensures Demotion(c, n, ip) == c
  {
  }

  lemma {:induction false} FlipNone()
    ensures Flip([]) == []
  {
  }

  lemma {:induction false} DemotedStep(subs: seq<Subset>, i: nat, ip: string, left: seq<Address>)
    requires i < |subs|
    ensures var s := subs[i];
            var more := left + Keep(s.ready, ip);
            Demoted(subs[i..], ip, left) ==
            if s.ready == [] then [s] + Demoted(subs[i + 1..], ip, left)
            else [Subset(more, Onto(s.notReady, Pick(s.ready, ip)))] + Demoted(subs[i + 1..], ip, more)
  {
    assert subs[i..][1..] == subs[i + 1..];
  }

  lemma {:induction false} DemotedEnd(subs: seq<Subset>, ip: string, left: seq<Address>)
    ensures Demoted(subs[|subs|..], ip, left) == []
  {
  }

  lemma {:induction false} NoneHere(list: seq<Address>, ip: string)
    requires list == []
    ensures !Has(list, ip)
  {
  }

  lemma {:induction false} FlipAt(subs: seq<Subset>, i: nat)
    requires i < |subs|
    ensures Flip(subs)[i] == Flipped(subs[i])
    decreases |subs|
  {
    if i > 0 {
      FlipAt(subs[1..], i - 1);
    }
  }

  lemma {:induction false} FlipMore(subs: seq<Subset>, s: Subset)
    ensures Flip(subs + [s]) == Flip(subs) + [Flipped(s)]
    decreases |subs|
  {
    if subs == [] {
      assert [] + [s] == [s] && [s][1..] == [];
    } else {
      FlipMore(subs[1..], s);
      assert (subs + [s])[1..] == subs[1..] + [s];
    }
  }
}
