// eventOpt: folding one report of nginx into DownEpList.

module DownList {
  datatype Option<T> = None | Some(value: T)
  datatype Record = Record(upstream: string, name: string, rise: int, fall: int)

  type List = map<string, map<string, bool>>

  // Who leads a service, fixed during a round.
  datatype World = World(isLb: set<string>, lease: map<string, string>, host: string, elected: bool)

  // The answer of checkSvcIsValid.
  predicate Leads(w: World, service: string) {
    if service in w.isLb then service in w.lease && w.lease[service] != "" && w.lease[service] == w.host else w.elected
  }

  function At(list: List, s: string, e: string): Option<bool> {
    if s in list && e in list[s] then Some(list[s][e]) else None
  }

  // A record that marks its endpoint down.
  predicate Marks(w: World, r: Record) {
    Leads(w, r.upstream) && r.rise <= 0
  }

  // A record whose endpoint is remembered.
  predicate Remembers(w: World, r: Record) {
    !Leads(w, r.upstream) || r.rise <= 0
  }

  ghost predicate Marked(w: World, records: seq<Record>, s: string, e: string) {
    exists i :: 0 <= i < |records| && Marks(w, records[i]) && records[i].upstream == s && records[i].name == e
  }

  ghost predicate Remembered(w: World, records: seq<Record>, e: string) {
    exists i :: 0 <= i < |records| && Remembers(w, records[i]) && records[i].name == e
  }

  ghost predicate Reported(records: seq<Record>, s: string) {
    exists i :: 0 <= i < |records| && records[i].upstream == s
  }

  // The list after the records: marked endpoints are down, reported services of others
  // are gone, everything else is as before.
  ghost predicate Noted(w: World, old0: List, records: seq<Record>, list: List) {
    && (forall s, e :: At(list, s, e) == if Marked(w, records, s, e) then Some(false)
                                         else if Reported(records, s) && !Leads(w, s) then None
                                         else At(old0, s, e))
    && (forall s | Reported(records, s) && !Leads(w, s) :: s !in list)
  }

  ghost predicate Recorded(w: World, records: seq<Record>, down: set<string>) {
    forall e :: e in down <==> Remembered(w, records, e)
  }

  lemma {:induction false} OneMore(w: World, records: seq<Record>, r: Record, s: string, e: string)
    ensures Marked(w, records + [r], s, e) <==>
              Marked(w, records, s, e) || (Marks(w, r) && r.upstream == s && r.name == e)
    ensures Remembered(w, records + [r], e) <==> Remembered(w, records, e) || (Remembers(w, r) && r.name == e)
    ensures Reported(records + [r], s) <==> Reported(records, s) || r.upstream == s
  {
    var more := records + [r];
    assert more[|records|] == r;
    assert forall i | 0 <= i < |records| :: more[i] == records[i];
  }

  lemma {:induction false} RecordedMore(w: World, records: seq<Record>, r: Record, down: set<string>)
    requires Recorded(w, records, down)
    ensures Recorded(w, records + [r], if Remembers(w, r) then down + {r.name} else down)
  {
    forall e
      ensures Remembered(w, records + [r], e) <==> Remembered(w, records, e) || (Remembers(w, r) && r.name == e)
    {
      OneMore(w, records, r, e, e);
    }
  }

  // One more record, by what it does to the list.
  lemma {:induction false} NotedMore(w: World, old0: List, records: seq<Record>, r: Record, was: List, list: List)
    requires Noted(w, old0, records, was)
    requires !Leads(w, r.upstream) ==> list == was - {r.upstream}
    requires Leads(w, r.upstream) && r.rise > 0 ==> list == was
    requires Leads(w, r.upstream) && r.rise <= 0 ==>
               && (forall s | s in list :: s in was || s == r.upstream)
               && (forall s, e :: At(list, s, e) == if s == r.upstream && e == r.name then Some(false)
                    else At(was, s, e))
    ensures Noted(w, old0, records + [r], list)
  {
    hide Leads, Marked, Reported;
    MarkedLed(w, records);
    forall s
      ensures Reported(records + [r], s) <==> Reported(records, s) || r.upstream == s
    {
      OneMore(w, records, r, s, s);
    }
    forall s, e
      ensures Marked(w, records + [r], s, e) <==>
                Marked(w, records, s, e) || (Marks(w, r) && r.upstream == s && r.name == e)
    {
      OneMore(w, records, r, s, e);
    }
  }

  // After the round: remembered endpoints keep their status, the others are up again.
  ghost predicate Round(w: World, old0: List, records: seq<Record>, list: List) {
    && (forall s, e :: At(list, s, e) ==
          if Marked(w, records, s, e) then Some(false)
          else if (Reported(records, s) && !Leads(w, s)) || At(old0, s, e).None? then None
          else if Remembered(w, records, e) then At(old0, s, e)
          else Some(true))
    && (forall s | Reported(records, s) && !Leads(w, s) :: s !in list)
  }

  class Controller {
    var list: List
    var down: set<string>   // recordEpIpDownDict

    // One record of the payload.
    method Note(w: World, r: Record, ghost old0: List, ghost records: seq<Record>)
      requires Noted(w, old0, records, list) && Recorded(w, records, down)
      modifies this
      ensures Noted(w, old0, records + [r], list) && Recorded(w, records + [r], down)
    {
      hide Leads, Marked, Remembered, Reported, Noted, Recorded;
      ghost var was := list;
      RecordedMore(w, records, r, down);
      if !Leads(w, r.upstream) {
        if r.upstream in list {
          list := list - {r.upstream};
        }
        assert list == was - {r.upstream};
        down := down + {r.name};
        NotedMore(w, old0, records, r, was, list);
        return;
      }
      if r.rise > 0 {
        NotedMore(w, old0, records, r, was, list);
        return;
      }
      down := down + {r.name};
      if r.upstream in list {
        list := list[r.upstream := list[r.upstream][r.name := false]];
      } else {
        list := list[r.upstream := map[r.name := false]];
      }
      NotedMore(w, old0, records, r, was, list);
    }

    // The two loops over the payload.
    method NoteAll(w: World, records: seq<Record>, ghost old0: List, ghost before: seq<Record>)
      requires Noted(w, old0, before, list) && Recorded(w, before, down)
      modifies this
      ensures Noted(w, old0, before + records, list) && Recorded(w, before + records, down)
    {
      assert before + records[..0] == before;
      for i := 0 to |records|
        invariant Noted(w, old0, before + records[..i], list) && Recorded(w, before + records[..i], down)
      {
        Note(w, records[i], old0, before + records[..i]);
        assert before + records[..i] + [records[i]] == before + records[..i + 1];
      }
      assert records[..|records|] == records;
    }

    // The loop that sets the other endpoints up again, in any order of the maps.
    method Recover()
      modifies `list
      ensures forall s :: s in list <==> s in old(list)
      ensures forall s, e :: At(list, s, e) ==
                if At(old(list), s, e).Some? && e !in down then Some(true) else At(old(list), s, e)
    {
      var names := list.Keys;
      while names != {}
        invariant names <= list.Keys && forall s :: s in list <==> s in old(list)
        invariant forall s, e :: At(list, s, e) ==
                    if s !in names && At(old(list), s, e).Some? && e !in down then Some(true) else At(old(list), s, e)
        decreases |names|
      {
        var s :| s in names;
        names := names - {s};
        RecoverOne(s);
      }
    }

    method RecoverOne(s: string)
      requires s in list
      modifies `list
      ensures forall t :: t in list <==> t in old(list)
      ensures forall t, e :: At(list, t, e) ==
                if t == s && At(old(list), t, e).Some? && e !in down then Some(true) else At(old(list), t, e)
    {
      var keys := list[s].Keys;
      while keys != {}
        invariant s in list && keys <= list[s].Keys && forall t :: t in list <==> t in old(list)
        invariant forall t, e :: At(list, t, e) ==
                    if t == s && e !in keys && At(old(list), t, e).Some? && e !in down then Some(true)
                        else At(old(list), t, e)
        decreases |keys|
      {
        var e :| e in keys;
        keys := keys - {e};
        if e !in down && !list[s][e] {
          list := list[s := list[s][e := true]];
        }
      }
    }

    // eventOpt, without the requests to the API server
    method Event(w: World, http: seq<Record>, stream: seq<Record>)
      modifies this
      ensures Round(w, old(list), http + stream, list)
    {
      down := {};
      NoRecords(w, list);
      NoteAll(w, http, list, []);
      NoteAll(w, stream, old(list), [] + http);
      assert [] + http + stream == http + stream;
      ghost var noted := list;
      Recover();
      RoundOf(w, old(list), http + stream, noted, list, down);
    }
  }

  lemma {:induction false} MarkedLed(w: World, records: seq<Record>)
    ensures forall s, e | Marked(w, records, s, e) :: Leads(w, s) && Reported(records, s)
  {
  }

  lemma {:induction false} NoRecords(w: World, list: List)
    ensures Noted(w, list, [], list) && Recorded(w, [], {})
  {
  }

  lemma {:induction false} RoundOf(w: World, old0: List, records: seq<Record>, noted: List, list: List,
      down: set<string>)
    requires Noted(w, old0, records, noted) && Recorded(w, records, down)
    requires forall s :: s in list <==> s in noted
    requires forall s, e :: At(list, s, e) == if At(noted, s, e).Some? && e !in down then Some(true)
               else At(noted, s, e)
    ensures Round(w, old0, records, list)
  {
    forall s, e | Marked(w, records, s, e)
      ensures Remembered(w, records, e)
    {
    }
    hide Marked, Remembered, Reported, Leads;
  }

  // The outcome does not depend on the order of the payload.
  lemma {:induction false} AnyOrder(w: World, old0: List, p: seq<Record>, q: seq<Record>, x: List, y: List)
    requires multiset(p) == multiset(q) && Round(w, old0, p, x) && Round(w, old0, q, y)
    ensures forall s, e :: At(x, s, e) == At(y, s, e)
  {
    forall s, e
      ensures Marked(w, p, s, e) <==> Marked(w, q, s, e)
    {
      SameRecords(w, p, q, s, e);
      SameRecords(w, q, p, s, e);
    }
    forall e
      ensures (Remembered(w, p, e) <==> Remembered(w, q, e)) && (Reported(p, e) <==> Reported(q, e))
    {
      SameRecords(w, p, q, e, e);
      SameRecords(w, q, p, e, e);
    }
    hide Marked, Remembered, Reported, Leads;
  }

  lemma {:induction false} SameRecords(w: World, p: seq<Record>, q: seq<Record>, s: string, e: string)
    requires multiset(p) == multiset(q)
    ensures Marked(w, p, s, e) ==> Marked(w, q, s, e)
    ensures Remembered(w, p, e) ==> Remembered(w, q, e)
    ensures Reported(p, s) ==> Reported(q, s)
  {
    forall i | 0 <= i < |p|
      ensures exists j :: 0 <= j < |q| && q[j] == p[i]
    {
      assert p[i] in multiset(q);
    }
  }
}
