// ngx_hash_wildcard_init and ngx_hash_find_wc_head: the recursive table of head
// wildcards. A level of the table is the list of its labels; FlatHash models how one
// level is packed and searched.

module WildcardHash {
  datatype Option<T> = None | Some(value: T)

  // A name as ngx_hash_add_key stores it: "com.example." for "*.example.com" and
  // "com.example" for ".example.com".
  datatype Key = Key(key: string, value: nat)

  // The two low bits of a stored word: Data is 00 or 01, Sub is 10 or 11; the low bit
  // is set when both is false, and then the bare name itself is not allowed.
  datatype Slot = Data(value: nat, both: bool) | Sub(table: Table, both: bool)
  datatype Entry = Entry(name: string, slot: Slot)
  datatype Table = Table(entries: seq<Entry>, value: Option<nat>)

  // What a stored name means: its labels from the top level down, and whether only
  // longer names match.
  datatype Pattern = Pattern(labels: seq<string>, star: bool)

  function FirstDot(s: string): (d: nat)
    ensures d <= |s| && '.' !in s[..d] && (d < |s| ==> s[d] == '.')
  {
    if s == [] || s[0] == '.' then 0 else 1 + FirstDot(s[1..])
  }

  function Parse(key: string): Pattern
    decreases |key|
  {
    var d := FirstDot(key);
    if d == |key| then Pattern([key], false)
    else if d + 1 == |key| then Pattern([key[..d]], true)
    else var r := Parse(key[d + 1..]); Pattern([key[..d]] + r.labels, r.star)
  }

  predicate Matches(p: Pattern, q: seq<string>) {
    p.labels <= q && (p.star ==> |p.labels| < |q|)
  }

  // v is the value of the most specific key that matches q.
  ghost predicate Best(keys: seq<Key>, q: seq<string>, v: nat) {
    exists k :: k in keys && k.value == v && Matches(Parse(k.key), q)
                && forall k' | k' in keys && Matches(Parse(k'.key), q) ::
                     |Parse(k'.key).labels| <= |Parse(k.key).labels|
  }

  ghost predicate Answers(keys: seq<Key>, q: seq<string>, r: Option<nat>) {
    if r.Some? then Best(keys, q, r.value) else forall k | k in keys :: !Matches(Parse(k.key), q)
  }

  // ngx_hash_find: the first entry with that label.
  function FindEntry(entries: seq<Entry>, name: string): Option<Slot> {
    if entries == [] then None
    else if entries[0].name == name then Some(entries[0].slot)
    else FindEntry(entries[1..], name)
  }

  // The search over the labels of a name, the last label first.
  function Lookup(t: Table, q: seq<string>): Option<nat>
    requires q != []
    decreases |q|, 1
  {
    var found := FindEntry(t.entries, q[0]);
    if found.None? then t.value else Inside(found.value, q)
  }

  function Inside(slot: Slot, q: seq<string>): Option<nat>
    requires q != []
    decreases |q|, 0
  {
    match slot
    case Data(v, both) => if |q| == 1 && !both then None else Some(v)
    case Sub(sub, both) =>
      if |q| == 1 then if both then sub.value else None
      else var r := Lookup(sub, q[1..]); if r.Some? then r else sub.value
  }

  // The labels of a name, the last label first.

  function LastLabel(s: string): (n: nat)
    ensures n <= |s| && '.' !in s[n..] && (n > 0 ==> s[n - 1] == '.')
  {
    if s == [] || s[|s| - 1] == '.' then |s| else LastLabel(s[..|s| - 1])
  }

  function Labels(s: string): seq<string>
    ensures Labels(s) != []
    decreases |s|
  {
    var n := LastLabel(s);
    [s[n..]] + if n == 0 then [] else Labels(s[..n - 1])
  }

  lemma {:induction false} LastLabelIs(s: string, n: nat)
    requires n <= |s| && '.' !in s[n..] && (n > 0 ==> s[n - 1] == '.')
    ensures LastLabel(s) == n
    decreases |s|
  {
    LastIn(s, n);
    if s != [] && s[|s| - 1] != '.' {
      var init := s[..|s| - 1];
      assert forall i | n <= i < |s| :: s[i] == s[n..][i - n];
      assert '.' !in init[n..];
      LastLabelIs(init, n);
    }
  }

  lemma {:induction false} LastIn(s: string, n: nat)
    requires n <= |s|
    ensures n < |s| ==> s[|s| - 1] in s[n..]
  {
    if n < |s| {
      assert s[n..][|s| - 1 - n] == s[|s| - 1];
    }
  }

  // ngx_hash_find_wc_head
  method FindHead(t: Table, name: string) returns (value: Option<nat>)
    ensures value == Lookup(t, Labels(name))
    decreases |name|
  {
    var n := |name|;
    while n != 0 && name[n - 1] != '.'
      invariant 0 <= n <= |name| && '.' !in name[n..]
    {
      assert name[n - 1..] == [name[n - 1]] + name[n..];
      n := n - 1;
    }
    LastLabelIs(name, n);
    assert Labels(name)[0] == name[n..];
    var found := FindEntry(t.entries, name[n..]);
    if found == None {
      return t.value;
    }
    match found.value {
      case Sub(sub, both) =>
        if n == 0 {
          if !both {
            return None;
          }
          return sub.value;
        }
        assert Labels(name)[1..] == Labels(name[..n - 1]);
        value := FindHead(sub, name[..n - 1]);
        if value == None {
          value := sub.value;
        }
      case Data(v, both) =>
        if !both && n == 0 {
          return None;
        }
        return Some(v);
    }
  }

  // The order of ngx_dns_strcmp, where the dot is the lowest character.

  function Rank(c: char): int {
    if c == '.' then ' ' as int else c as int
  }

  predicate Below(a: string, b: string) {
    if b == [] then false
    else if a == [] then true
    else if a[0] == b[0] then Below(a[1..], b[1..])
    else Rank(a[0]) < Rank(b[0])
  }

  predicate Plain(s: string) {
    forall i | 0 <= i < |s| :: s[i] > ' '
  }

  // What ngx_hash_add_key and the sorting by ngx_dns_strcmp establish.
  ghost predicate Proper(names: seq<Key>) {
    && (forall i | 0 <= i < |names| :: Plain(names[i].key))
    && (forall i, j | 0 <= i < j < |names| :: Below(names[i].key, names[j].key))
    && (forall i, j | 0 <= i < j < |names| :: Parse(names[i].key).labels != Parse(names[j].key).labels)
  }

  function First(key: string): string {
    key[..FirstDot(key)]
  }

  lemma {:induction false} FirstDotIs(s: string, d: nat)
    requires d <= |s| && '.' !in s[..d] && (d < |s| ==> s[d] == '.')
    ensures FirstDot(s) == d
    decreases |s|
  {
    FirstIn(s, d);
    if s != [] && s[0] != '.' {
      assert forall i | 0 <= i < d :: s[i] == s[..d][i];
      assert '.' !in s[1..][..d - 1];
      FirstDotIs(s[1..], d - 1);
    }
  }

  lemma {:induction false} FirstIn(s: string, d: nat)
    requires d <= |s|
    ensures d > 0 ==> s[0] in s[..d]
  {
    if d > 0 {
      assert s[..d][0] == s[0];
    }
  }

  // Names that start with the label x, as the comparison in the source sees it.
  predicate StartsWith(s: string, x: string) {
    x <= s && (|s| == |x| || s[|x|] == '.')
  }

  lemma {:induction false} FirstStarts(s: string, x: string)
    requires '.' !in x
    ensures First(s) == x <==> StartsWith(s, x)
  {
    if StartsWith(s, x) {
      assert s[..|x|] == x;
      FirstDotIs(s, |x|);
    }
  }

  // What lies between two names with the same first label has that label too.
  lemma {:induction false} Contiguous(a: string, b: string, c: string, x: string)
    requires Plain(a) && Plain(b) && Plain(c) && '.' !in x && StartsWith(a, x) && StartsWith(c, x) && Below(a, b)
             && Below(b, c)
    ensures StartsWith(b, x)
  {
    if x != [] {
      assert a[0] == x[0] == c[0];
      assert b != [] && b[0] == x[0];
      var a', b', c', x' := a[1..], b[1..], c[1..], x[1..];
      assert x' <= a' && x' <= c';
      Contiguous(a', b', c', x');
      assert x == [x[0]] + x' && b == [b[0]] + b';
    }
  }

  lemma {:induction false} BelowPrefix(x: string, a: string, b: string)
    ensures Below(x + a, x + b) <==> Below(a, b)
  {
    if x == [] {
      assert x + a == a && x + b == b;
    } else {
      assert (x + a)[1..] == x[1..] + a && (x + b)[1..] == x[1..] + b;
      BelowPrefix(x[1..], a, b);
    }
  }

  lemma {:induction false} BelowIrreflexive(a: string)
    ensures !Below(a, a)
  {
    if a != [] {
      BelowIrreflexive(a[1..]);
    }
  }

  // A name of one label, with or without the dot.
  predicate Alone(key: string) {
    FirstDot(key) + 1 >= |key|
  }

  function Rest(key: string): string
    requires !Alone(key)
  {
    key[FirstDot(key) + 1..]
  }

  // The names of the next level.
  function Nexts(group: seq<Key>): seq<Key> {
    if group == [] then []
    else
      var k := group[|group| - 1];
      Nexts(group[..|group| - 1]) + if Alone(k.key) then [] else [Key(Rest(k.key), k.value)]
  }

  function Longest(names: seq<Key>): nat {
    if names == [] then 0
    else
      var l, r := |names[|names| - 1].key|, Longest(names[..|names| - 1]);
      if l > r then l else r
  }

  lemma {:induction false} LongestBounds(names: seq<Key>, b: nat)
    requires forall k | k in names :: |k.key| <= b
    ensures Longest(names) <= b
  {
    if names != [] {
      LongestBounds(names[..|names| - 1], b);
    }
  }

  lemma {:induction false} LongestIs(names: seq<Key>, k: Key)
    requires k in names
    ensures |k.key| <= Longest(names)
  {
    if k != names[|names| - 1] {
      LongestIs(names[..|names| - 1], k);
    }
  }

  lemma {:induction false} NextsFrom(group: seq<Key>, j: nat) returns (i: nat)
    requires j < |Nexts(group)|
    ensures i < |group| && !Alone(group[i].key) && Nexts(group)[j] == Key(Rest(group[i].key), group[i].value)
  {
    var init := group[..|group| - 1];
    if j < |Nexts(init)| {
      i := NextsFrom(init, j);
    } else {
      i := |group| - 1;
    }
  }

  lemma {:induction false} NextsHas(group: seq<Key>, i: nat)
    requires i < |group| && !Alone(group[i].key)
    ensures Key(Rest(group[i].key), group[i].value) in Nexts(group)
  {
    if i < |group| - 1 {
      NextsHas(group[..|group| - 1], i);
    }
  }

  lemma {:induction false} ParseFirst(key: string)
    ensures Alone(key) ==> Parse(key) == Pattern([First(key)], FirstDot(key) < |key|)
    ensures !Alone(key) ==> Parse(key) == Pattern([First(key)] + Parse(Rest(key)).labels, Parse(Rest(key)).star)
  {
    assert key[..|key|] == key;
  }

  lemma {:induction false} RestMatches(key: string, q: seq<string>)
    requires q != [] && First(key) == q[0]
    ensures Alone(key) ==> Parse(key) == Pattern([q[0]], FirstDot(key) < |key|)
    ensures !Alone(key) ==>
              Parse(key).labels == [q[0]] + Parse(Rest(key)).labels && Parse(key).star == Parse(Rest(key)).star
    ensures !Alone(key) ==> (Matches(Parse(key), q) <==> |q| > 1 && Matches(Parse(Rest(key)), q[1..]))
  {
    hide Parse, FirstDot;
    ParseFirst(key);
    if !Alone(key) {
      var l := Parse(Rest(key)).labels;
      LabelsNonempty(Rest(key));
      if Matches(Parse(key), q) {
        assert q[1..][..|l|] == q[..|l| + 1][1..];
      } else if |q| > 1 && l <= q[1..] {
        assert q == [q[0]] + q[1..];
      }
    }
  }

  lemma {:induction false} LabelsNonempty(key: string)
    ensures Parse(key).labels != []
  {
  }

  // A group of names with first label x; only the first name can consist of x alone.
  ghost predicate Group(g: seq<Key>, x: string) {
    g != [] && (forall i | 0 <= i < |g| :: First(g[i].key) == x) && forall i | 0 < i < |g| :: !Alone(g[i].key)
  }

  // The slot that the source makes of a group.
  function SlotOf(k: Key, next: seq<Key>, sub: Table): Slot {
    var dot := FirstDot(k.key) < |k.key|;
    if next != [] then Sub(if Alone(k.key) then sub.(value := Some(k.value)) else sub, !dot)
    else Data(k.value, !dot)
  }

  ghost predicate Serves(t: Table, keys: seq<Key>) {
    forall q {:trigger Lookup(t, q)} | q != [] :: Answers(keys, q, Lookup(t, q))
  }

  // Below the bare label, an answer of the next level wins.
  lemma {:induction false} NextAnswers(g: seq<Key>, x: string, q: seq<string>, v: nat)
    requires Group(g, x) && |q| > 1 && q[0] == x && Best(Nexts(g), q[1..], v)
    ensures Best(g, q, v)
  {
    var next := Nexts(g);
    var n :| n in next && n.value == v && Matches(Parse(n.key), q[1..])
             && forall k' | k' in next && Matches(Parse(k'.key), q[1..]) ::
                  |Parse(k'.key).labels| <= |Parse(n.key).labels|;
    var j :| 0 <= j < |next| && next[j] == n;
    var i := NextsFrom(g, j);
    RestMatches(g[i].key, q);
    forall k' | k' in g && Matches(Parse(k'.key), q)
      ensures |Parse(k'.key).labels| <= |Parse(g[i].key).labels|
    {
      RestMatches(k'.key, q);
      var i' :| 0 <= i' < |g| && g[i'] == k';
      if !Alone(k'.key) {
        NextsHas(g, i');
      } else {
        LabelsNonempty(n.key);
      }
    }
  }

  // No name of more than one label matches.
  lemma {:induction false} NextSilent(g: seq<Key>, x: string, q: seq<string>, k: Key)
    requires Group(g, x) && q != [] && q[0] == x && k in g && !Alone(k.key)
    requires |q| > 1 ==> forall n | n in Nexts(g) :: !Matches(Parse(n.key), q[1..])
    ensures !Matches(Parse(k.key), q)
  {
    RestMatches(k.key, q);
    var i :| 0 <= i < |g| && g[i] == k;
    NextsHas(g, i);
  }

  // When only the bare label is left, the first name of the group decides.
  lemma {:induction false} SelfAnswers(g: seq<Key>, x: string, q: seq<string>)
    requires Group(g, x) && q != [] && q[0] == x
    requires |q| > 1 ==> forall n | n in Nexts(g) :: !Matches(Parse(n.key), q[1..])
    ensures Answers(g, q, if Alone(g[0].key) && (|q| > 1 || FirstDot(g[0].key) == |g[0].key|) then Some(g[0].value)
              else None)
  {
    RestMatches(g[0].key, q);
    forall k | k in g && k != g[0]
      ensures !Matches(Parse(k.key), q)
    {
      var i :| 0 <= i < |g| && g[i] == k;
      NextSilent(g, x, q, k);
    }
    if !Alone(g[0].key) {
      NextSilent(g, x, q, g[0]);
    }
  }

  lemma {:induction false} WithDefault(t: Table, v: Option<nat>, q: seq<string>)
    requires q != [] && t.value == None
    ensures var r, r' := Lookup(t, q), Lookup(t.(value := v), q);
            (r.Some? ==> r' == r) && (r.None? ==> r' == None || r' == v)
  {
  }

  lemma {:induction false} NextsEmpty(g: seq<Key>, x: string)
    requires Group(g, x)
    ensures Nexts(g) == [] ==> |g| == 1 && Alone(g[0].key)
  {
    if |g| > 1 {
      NextsHas(g, 1);
    } else if !Alone(g[0].key) {
      NextsHas(g, 0);
    }
  }

  // A group is answered by its slot.
  lemma {:induction false} GroupAnswers(g: seq<Key>, x: string, sub: Table, q: seq<string>)
    requires Group(g, x) && q != [] && q[0] == x
    requires Nexts(g) != [] ==> Serves(sub, Nexts(g)) && sub.value == None
    ensures Answers(g, q, Inside(SlotOf(g[0], Nexts(g), sub), q))
  {
    var next, k := Nexts(g), g[0];
    NextsEmpty(g, x);
    if next == [] || |q| == 1 {
      SelfAnswers(g, x, q);
    } else {
      var r := Lookup(sub, q[1..]);
      assert Answers(next, q[1..], r);
      WithDefault(sub, Some(k.value), q[1..]);
      if r.Some? {
        NextAnswers(g, x, q, r.value);
      } else {
        SelfAnswers(g, x, q);
      }
    }
  }

  // Only the first name of a group can be its label alone, and with a dot the others
  // go on after that dot.
  lemma {:induction false} GroupFirst(names: seq<Key>, n: nat, j: nat)
    requires Proper(names) && n < j < |names| && First(names[j].key) == First(names[n].key)
    ensures !Alone(names[j].key)
  {
    hide Alone, First, Below, Parse;
    var a, b := names[n].key, names[j].key;
    assert Below(a, b) && Parse(a).labels != Parse(b).labels;
    AloneLast(a, b);
  }

  // Below a name that is only a label, with or without a dot, the label is all there is.
  lemma {:induction false} AloneLast(a: string, b: string)
    requires Below(a, b) && First(b) == First(a)
    ensures Alone(b) ==> Parse(a).labels == Parse(b).labels
  {
    hide Below, FirstDot, Parse;
    ParseFirst(a);
    ParseFirst(b);
    var x := First(a);
    if FirstDot(b) == |b| {
      assert a == x + a[|x|..] && b == x + [];
      BelowPrefix(x, a[|x|..], []);
      NotBelowNothing(a[|x|..]);
    } else if Alone(b) && !Alone(a) {
      assert a == x + "." + Rest(a) && b == x + "." + [];
      BelowPrefix(x + ".", Rest(a), []);
      NotBelowNothing(Rest(a));
    }
  }

  lemma {:induction false} NotBelowNothing(a: string)
    ensures !Below(a, [])
  {
  }

  lemma {:induction false} NextsPair(group: seq<Key>, j: nat, j': nat) returns (i: nat, i': nat)
    requires j < j' < |Nexts(group)|
    ensures i < i' < |group| && !Alone(group[i].key) && !Alone(group[i'].key)
    ensures Nexts(group)[j].key == Rest(group[i].key) && Nexts(group)[j'].key == Rest(group[i'].key)
  {
    var init := group[..|group| - 1];
    if j' < |Nexts(init)| {
      i, i' := NextsPair(init, j, j');
    } else {
      i := NextsFrom(init, j);
      i' := |group| - 1;
    }
  }

  lemma {:induction false} RestPair(a: string, b: string)
    requires First(a) == First(b) && !Alone(a) && !Alone(b) && Below(a, b) && Parse(a).labels != Parse(b).labels
    ensures Below(Rest(a), Rest(b)) && Parse(Rest(a)).labels != Parse(Rest(b)).labels
  {
    hide Parse;
    var x := First(a);
    assert a == x + "." + Rest(a) && b == x + "." + Rest(b);
    BelowPrefix(x + ".", Rest(a), Rest(b));
    ParseFirst(a);
    ParseFirst(b);
  }

  // The next level is again sorted and free of conflicts.
  lemma {:induction false} NextsProper(names: seq<Key>, n: nat, i: nat)
    requires Proper(names) && n < i <= |names| && forall j | n <= j < i :: First(names[j].key) == First(names[n].key)
    ensures Proper(Nexts(names[n..i]))
  {
    hide Parse, FirstDot, Nexts, Below, Rest;
    var g := names[n..i];
    var next := Nexts(g);
    forall j | 0 <= j < |next|
      ensures Plain(next[j].key)
    {
      var k := NextsFrom(g, j);
      assert g[k] == names[n + k];
      RestPlain(g[k].key);
    }
    forall j, j' | 0 <= j < j' < |next|
      ensures Below(next[j].key, next[j'].key) && Parse(next[j].key).labels != Parse(next[j'].key).labels
    {
      var k, k' := NextsPair(g, j, j');
      assert g[k] == names[n + k] && g[k'] == names[n + k'];
      RestPair(g[k].key, g[k'].key);
    }
  }

  lemma {:induction false} RestPlain(key: string)
    requires Plain(key) && !Alone(key)
    ensures Plain(Rest(key)) && |Rest(key)| < |key|
  {
  }

  lemma {:induction false} NextsShorter(g: seq<Key>)
    requires Nexts(g) != []
    ensures Longest(Nexts(g)) < Longest(g)
  {
    var next := Nexts(g);
    assert Longest(g) > 0 by {
      var i := NextsFrom(g, 0);
      LongestIs(g, g[i]);
    }
    forall k | k in next
      ensures |k.key| <= Longest(g) - 1
    {
      var j :| 0 <= j < |next| && next[j] == k;
      var i := NextsFrom(g, j);
      LongestIs(g, g[i]);
    }
    LongestBounds(next, Longest(g) - 1);
  }

  // The rest of the list has other labels.
  lemma {:induction false} GroupEnds(names: seq<Key>, n: nat, i: nat, j: nat)
    requires Proper(names) && n < i <= j < |names| && First(names[i].key) != First(names[n].key)
    ensures First(names[j].key) != First(names[n].key)
  {
    var x := First(names[n].key);
    if i < j && First(names[j].key) == x {
      FirstStarts(names[n].key, x);
      FirstStarts(names[j].key, x);
      Contiguous(names[n].key, names[i].key, names[j].key, x);
      FirstStarts(names[i].key, x);
    }
  }

  // One more group is answered by one more entry.
  lemma {:induction false} FindAppend(entries: seq<Entry>, e: Entry, name: string)
    ensures FindEntry(entries + [e], name) ==
            if FindEntry(entries, name).Some? then FindEntry(entries, name)
            else if e.name == name then Some(e.slot) else None
  {
    if entries == [] {
      assert entries + [e] == [e];
    } else {
      assert (entries + [e])[1..] == entries[1..] + [e];
      FindAppend(entries[1..], e, name);
    }
  }

  lemma {:induction false} FindAbsent(entries: seq<Entry>, name: string)
    requires forall e | e in entries :: e.name != name
    ensures FindEntry(entries, name) == None
  {
    if entries != [] {
      FindAbsent(entries[1..], name);
    }
  }

  lemma {:induction false} AppendGroup(curr: seq<Entry>, done: seq<Key>, g: seq<Key>, x: string, slot: Slot,
      q: seq<string>)
    requires q != [] && Answers(done, q, Lookup(Table(curr, None), q))
    requires Group(g, x) && (forall e | e in curr :: e.name != x) && (forall k | k in done :: First(k.key) != x)
    requires q[0] == x ==> Answers(g, q, Inside(slot, q))
    ensures Answers(done + g, q, Lookup(Table(curr + [Entry(x, slot)], None), q))
  {
    FindAppend(curr, Entry(x, slot), q[0]);
    forall k | (k in done && q[0] == x) || (k in g && q[0] != x)
      ensures !Matches(Parse(k.key), q)
    {
      ParseFirst(k.key);
    }
    if q[0] == x {
      FindAbsent(curr, x);
      AnswersOnly(done, g, q, Inside(slot, q));
    } else {
      AnswersOnly(g, done, q, Lookup(Table(curr, None), q));
    }
  }

  lemma {:induction false} AnswersOnly(silent: seq<Key>, keys: seq<Key>, q: seq<string>, r: Option<nat>)
    requires Answers(keys, q, r) && forall k | k in silent :: !Matches(Parse(k.key), q)
    ensures Answers(silent + keys, q, r) && Answers(keys + silent, q, r)
  {
    if r.Some? {
      var k :| k in keys && k.value == r.value && Matches(Parse(k.key), q)
               && forall k' | k' in keys && Matches(Parse(k'.key), q) ::
                    |Parse(k'.key).labels| <= |Parse(k.key).labels|;
      assert k in silent + keys && k in keys + silent;
    }
  }

  // The length of the first label, and whether a dot follows.
  method ScanLabel(key: string) returns (len: nat, dot: bool)
    ensures len == FirstDot(key) && (dot <==> len < |key|)
  {
    dot := false;
    len := 0;
    while len < |key|
      invariant len <= |key| && '.' !in key[..len] && !dot
    {
      if key[len] == '.' {
        dot := true;
        break;
      }
      len := len + 1;
    }
    FirstDotIs(key, len);
  }

  // The names of a group: the loop over i.
  method Collect(names: seq<Key>, n: nat, size: nat, dot: bool) returns (i: nat, next: seq<Key>)
    requires Proper(names) && n < |names| && size == FirstDot(names[n].key) && (dot <==> size < |names[n].key|)
    ensures n < i <= |names| && next == Nexts(names[n..i])
    ensures forall j | n <= j < i :: First(names[j].key) == First(names[n].key)
    ensures i < |names| ==> First(names[i].key) != First(names[n].key)
  {
    hide Parse, Proper, FirstDot, Nexts;
    var len := if dot then size + 1 else size;
    next := [];
    if |names[n].key| != len {
      next := [Key(names[n].key[len..], names[n].value)];
    }
    NextsOne(names[n]);
    assert names[n..n + 1] == [names[n]];
    i := n + 1;
    while i < |names|
      invariant n < i <= |names| && next == Nexts(names[n..i])
      invariant forall j | n <= j < i :: First(names[j].key) == First(names[n].key)
    {
      if First(names[i].key) == First(names[n].key) {
        GroupFirst(names, n, i);
      }
      SamePrefix(names[n].key, names[i].key);
      if !(names[n].key[..len] <= names[i].key) {
        break;
      }
      if !dot && |names[i].key| > len && names[i].key[len] != '.' {
        break;
      }
      next := next + [Key(names[i].key[size + 1..], names[i].value)];
      NextsMore(names[n..i], names[i]);
      assert names[n..i + 1] == names[n..i] + [names[i]];
      i := i + 1;
    }
  }

  lemma {:induction false} NextsOne(k: Key)
    ensures Nexts([k]) == if Alone(k.key) then [] else [Key(Rest(k.key), k.value)]
  {
    assert [k][..0] == [];
  }

  lemma {:induction false} NextsMore(g: seq<Key>, k: Key)
    requires !Alone(k.key)
    ensures Nexts(g + [k]) == Nexts(g) + [Key(Rest(k.key), k.value)]
  {
    assert (g + [k])[..|g|] == g;
  }

  // The comparison by prefixes finds the names with the same first label.
  lemma {:induction false} SamePrefix(a: string, b: string)
    requires First(b) == First(a) ==> !Alone(b)
    ensures var size, dot := FirstDot(a), FirstDot(a) < |a|;
            var len := if dot then size + 1 else size;
            First(b) == First(a) <==> a[..len] <= b && (dot || |b| <= len || b[len] == '.')
    ensures First(b) == First(a) ==> FirstDot(b) == FirstDot(a)
  {
    hide FirstDot;
    var x := First(a);
    FirstStarts(b, x);
    DotPrefix(x, b);
    if FirstDot(a) < |a| {
      assert a[..FirstDot(a) + 1] == x + ".";
    }
  }

  lemma {:induction false} DotPrefix(x: string, b: string)
    ensures x + "." <= b <==> x <= b && |b| > |x| && b[|x|] == '.'
  {
    if x + "." <= b {
      assert x == (x + ".")[..|x|] && b[|x|] == (x + ".")[|x|];
    }
    if x <= b && |b| > |x| && b[|x|] == '.' {
      assert b[..|x| + 1] == x + ".";
    }
  }

  // ngx_hash_wildcard_init
  method Init(names: seq<Key>) returns (t: Table)
    requires Proper(names)
    ensures t.value == None && Serves(t, names)
    decreases Longest(names)
  {
    hide Nexts, Longest, Lookup, Inside, FirstDot, Parse, Proper;
    var curr := [];
    var n := 0;
    ServesNothing();
    while n < |names|
      invariant n <= |names| && Serves(Table(curr, None), names[..n])
      invariant forall j | n <= j < |names| :: forall e | e in curr :: e.name != First(names[j].key)
      invariant forall j, k | n <= j < |names| && k in names[..n] :: First(k.key) != First(names[j].key)
    {
      var len, dot := ScanLabel(names[n].key);
      var i, next := Collect(names, n, len, dot);
      ghost var g, x := names[n..i], First(names[n].key);
      GroupOf(names, n, i);
      var slot := Data(names[n].value, !dot);
      ghost var sub0 := Table([], None);
      if next != [] {
        NextsProper(names, n, i);
        NextsShorter(g);
        LongestPart(names, n, i);
        var sub := Init(next);
        sub0 := sub;
        if |names[n].key| == (if dot then len + 1 else len) {
          sub := sub.(value := Some(names[n].value));
        }
        slot := Sub(sub, !dot);
      }
      assert slot == SlotOf(names[n], next, sub0);
      LevelStep(curr, names, n, i, slot, sub0);
      curr := curr + [Entry(names[n].key[..len], slot)];
      n := i;
    }
    assert names[..n] == names;
    t := Table(curr, None);
  }

  lemma {:induction false} ServesNothing()
    ensures Serves(Table([], None), [])
  {
  }

  lemma {:induction false} GroupOf(names: seq<Key>, n: nat, i: nat)
    requires Proper(names) && n < i <= |names| && forall j | n <= j < i :: First(names[j].key) == First(names[n].key)
    ensures Group(names[n..i], First(names[n].key))
  {
    hide Proper, FirstDot;
    forall j | n < j < i
      ensures !Alone(names[j].key)
    {
      GroupFirst(names, n, j);
    }
  }

  lemma {:induction false} LongestPart(names: seq<Key>, n: nat, i: nat)
    requires n <= i <= |names|
    ensures Longest(names[n..i]) <= Longest(names)
  {
    forall k | k in names[n..i]
      ensures |k.key| <= Longest(names)
    {
      LongestIs(names, k);
    }
    LongestBounds(names[n..i], Longest(names));
  }

  // One round of the loop over the groups.
  lemma {:induction false} LevelStep(curr: seq<Entry>, names: seq<Key>, n: nat, i: nat, slot: Slot, sub: Table)
    requires Proper(names) && n < i <= |names| && Group(names[n..i], First(names[n].key))
    requires Serves(Table(curr, None), names[..n]) && slot == SlotOf(names[n], Nexts(names[n..i]), sub)
    requires Nexts(names[n..i]) != [] ==> Serves(sub, Nexts(names[n..i])) && sub.value == None
    requires i < |names| ==> First(names[i].key) != First(names[n].key)
    requires forall j | n <= j < |names| :: forall e | e in curr :: e.name != First(names[j].key)
    requires forall j, k | n <= j < |names| && k in names[..n] :: First(k.key) != First(names[j].key)
    ensures Serves(Table(curr + [Entry(First(names[n].key), slot)], None), names[..i])
    ensures forall j | i <= j < |names| :: First(names[j].key) != First(names[n].key)
    ensures forall j, k | i <= j < |names| && k in names[..i] :: First(k.key) != First(names[j].key)
  {
    hide Nexts, Lookup, Inside, FirstDot, Parse, Proper, Group;
    var g, x := names[n..i], First(names[n].key);
    var t' := Table(curr + [Entry(x, slot)], None);
    assert g[0] == names[n] && names[..i] == names[..n] + g;
    forall q | q != []
      ensures Answers(names[..i], q, Lookup(t', q))
    {
      assert Answers(names[..n], q, Lookup(Table(curr, None), q));
      if q[0] == x {
        GroupAnswers(g, x, sub, q);
      }
      AppendGroup(curr, names[..n], g, x, slot, q);
    }
    forall j | i <= j < |names|
      ensures First(names[j].key) != x
    {
      GroupEnds(names, n, i, j);
    }
    GroupLabels(g, x);
  }

  lemma {:induction false} GroupLabels(g: seq<Key>, x: string)
    requires Group(g, x)
    ensures forall k | k in g :: First(k.key) == x
  {
  }
}
