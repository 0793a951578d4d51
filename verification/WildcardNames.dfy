// ngx_hash_add_key for names that may hold a wildcard, and what the head wildcards that
// it collects mean for a lookup.

module WildcardNames {
  import opened WildcardHash

  datatype Result = Ok | Busy | Declined

  // "*." + suffix or "." + suffix
  datatype Wild = Wild(star: bool, suffix: string, value: nat)

  // The wildcard allows the name.
  predicate Covers(w: Wild, name: string) {
    (!w.star && name == w.suffix) || EndsWith(name, "." + w.suffix)
  }

  predicate EndsWith(s: string, e: string) {
    |e| <= |s| && s[|s| - |e|..] == e
  }

  // The labels in reverse order, joined by dots.
  function Reversed(s: string): string
    decreases |s|
  {
    var n := LastLabel(s);
    s[n..] + if n == 0 then "" else "." + Reversed(s[..n - 1])
  }

  function Stored(w: Wild): Key {
    Key(Reversed(w.suffix) + if w.star then "." else "", w.value)
  }

  predicate Suffix(s: string) {
    s != [] && s[0] != '.'
  }

  lemma {:induction false} LabelsAre(s: string)
    ensures var n := LastLabel(s); Labels(s) == [s[n..]] + if n == 0 then [] else Labels(s[..n - 1])
  {
  }

  lemma {:induction false} ReversedIs(s: string)
    ensures var n := LastLabel(s); Reversed(s) == s[n..] + if n == 0 then "" else "." + Reversed(s[..n - 1])
  {
  }

  lemma {:induction false} ParseLabel(x: string, rest: string)
    requires '.' !in x && rest != []
    ensures Parse(x + "." + rest) == Pattern([x] + Parse(rest).labels, Parse(rest).star)
  {
    hide FirstDot;
    var key := x + "." + rest;
    assert key[..|x|] == x && key[|x|] == '.';
    FirstDotIs(key, |x|);
    assert key[|x| + 1..] == rest;
  }

  // Reversing and parsing give the labels back.

  lemma {:induction false} ReversedParse(s: string, tail: string)
    requires Suffix(s) && (tail == "" || tail == ".")
    ensures |Reversed(s)| == |s| && Parse(Reversed(s) + tail) == Pattern(Labels(s), tail != "")
    decreases |s|
  {
    hide LastLabel, FirstDot, Parse, Labels, Reversed;
    LabelsAre(s);
    ReversedIs(s);
    var n := LastLabel(s);
    if n == 0 {
      assert s[n..] == s && s + "" == s;
      ParseOne(s, tail);
    } else {
      var r := s[..n - 1];
      ReversedParse(r, tail);
      assert Reversed(s) + tail == s[n..] + "." + (Reversed(r) + tail);
      ParseLabel(s[n..], Reversed(r) + tail);
    }
  }

  lemma {:induction false} ParseOne(s: string, tail: string)
    requires '.' !in s && (tail == "" || tail == ".")
    ensures Parse(s + tail) == Pattern([s], tail != "")
  {
    hide FirstDot;
    assert (s + tail)[..|s|] == s;
    FirstDotIs(s + tail, |s|);
    assert tail == "" ==> s + tail == s;
  }

  // Suffixes of a name and prefixes of its reversed labels are the same thing.

  lemma {:induction false} LabelsJoin(a: string, s: string)
    ensures Labels(a + "." + s) == Labels(s) + Labels(a)
    decreases |s|
  {
    hide LastLabel, Labels;
    var name, n := a + "." + s, LastLabel(s);
    LabelsAre(s);
    LabelsAre(name);
    var m := |a| + 1 + n;
    assert name[m..] == s[n..];
    assert n > 0 ==> name[m - 1] == s[n - 1];
    LastLabelIs(name, m);
    if n == 0 {
      assert name[..m - 1] == a;
    } else {
      assert name[..m - 1] == a + "." + s[..n - 1];
      LabelsJoin(a, s[..n - 1]);
    }
  }

  lemma {:induction false} PrefixIsSuffix(s: string, name: string)
    requires Labels(s) <= Labels(name)
    ensures name == s || EndsWith(name, "." + s)
    decreases |s|
  {
    hide LastLabel, Labels;
    LabelsAre(s);
    LabelsAre(name);
    var n, m := LastLabel(s), LastLabel(name);
    assert s[n..] == Labels(s)[0] == Labels(name)[0] == name[m..];
    if n == 0 {
      assert s == s[n..] && name == name[..m] + name[m..];
      if m > 0 {
        assert name[m - 1..] == "." + s;
      }
    } else {
      assert |Labels(s)| > 1 && m > 0;
      var s', name' := s[..n - 1], name[..m - 1];
      assert Labels(s') == Labels(s)[1..] && Labels(name') == Labels(name)[1..];
      PrefixIsSuffix(s', name');
      assert s == s' + "." + s[n..] && name == name' + "." + name[m..];
      Glue(s', name', s[n..]);
    }
  }

  lemma {:induction false} CoversIsMatch(w: Wild, name: string)
    requires Suffix(w.suffix)
    ensures Covers(w, name) <==> Matches(Pattern(Labels(w.suffix), w.star), Labels(name))
  {
    var s := w.suffix;
    if EndsWith(name, "." + s) {
      var a := name[..|name| - |s| - 1];
      assert name == a + "." + s;
      LabelsJoin(a, s);
    }
    if Labels(s) <= Labels(name) {
      PrefixIsSuffix(s, name);
    }
  }

  // Among the wildcards that cover a name, more labels means a longer suffix.
  lemma {:induction false} LongerSuffix(s: string, s': string, name: string)
    requires Labels(s) <= Labels(name) && Labels(s') <= Labels(name) && |Labels(s)| <= |Labels(s')|
    ensures |s| <= |s'|
  {
    hide LastLabel, Labels;
    Prefixes(Labels(s), Labels(s'), Labels(name));
    PrefixIsSuffix(s, s');
  }

  lemma {:induction false} Prefixes<T>(a: seq<T>, b: seq<T>, c: seq<T>)
    requires a <= c && b <= c && |a| <= |b|
    ensures a <= b
  {
    assert b == c[..|b|];
    assert a == b[..|a|];
  }

  lemma {:induction false} Glue(s: string, name: string, x: string)
    requires name == s || EndsWith(name, "." + s)
    ensures name + "." + x == s + "." + x || EndsWith(name + "." + x, "." + (s + "." + x))
  {
    if name != s {
      var a := name[..|name| - |s| - 1];
      assert name == a + ("." + s);
      assert name + "." + x == a + ("." + (s + "." + x));
    }
  }

  function Keys(wilds: seq<Wild>): seq<Key> {
    seq(|wilds|, i requires 0 <= i < |wilds| => Stored(wilds[i]))
  }

  // No two wildcards share a suffix.
  ghost predicate Free(wilds: seq<Wild>) {
    && (forall i | 0 <= i < |wilds| :: Suffix(wilds[i].suffix))
    && forall i, j | 0 <= i < j < |wilds| :: wilds[i].suffix != wilds[j].suffix
  }

  // The order that sorting by ngx_dns_strcmp gives.
  ghost predicate SortedKeys(names: seq<Key>) {
    (forall i | 0 <= i < |names| :: Plain(names[i].key)) && forall i, j | 0 <= i < j < |names| ::
        Below(names[i].key, names[j].key)
  }

  lemma {:induction false} FromWild(wilds: seq<Wild>, names: seq<Key>, k: Key) returns (w: Wild)
    requires Free(wilds) && multiset(names) == multiset(Keys(wilds)) && k in names
    ensures w in wilds && Stored(w) == k && Suffix(w.suffix) && Parse(k.key) == Pattern(Labels(w.suffix), w.star)
  {
    assert k in multiset(Keys(wilds));
    var i :| 0 <= i < |wilds| && Keys(wilds)[i] == k;
    w := wilds[i];
    ReversedParse(w.suffix, if w.star then "." else "");
  }

  lemma {:induction false} ToKey(wilds: seq<Wild>, names: seq<Key>, w: Wild)
    requires Free(wilds) && multiset(names) == multiset(Keys(wilds)) && w in wilds
    ensures Stored(w) in names && Parse(Stored(w).key) == Pattern(Labels(w.suffix), w.star)
  {
    var i :| 0 <= i < |wilds| && wilds[i] == w;
    assert Keys(wilds)[i] in multiset(Keys(wilds));
    ReversedParse(w.suffix, if w.star then "." else "");
  }

  // Sorting the collected names gives what ngx_hash_wildcard_init needs.
  lemma {:induction false} SortedIsProper(wilds: seq<Wild>, names: seq<Key>)
    requires Free(wilds) && multiset(names) == multiset(Keys(wilds)) && SortedKeys(names)
    ensures Proper(names)
  {
    hide Parse, Labels, Below, Keys;
    forall i, j | 0 <= i < j < |names|
      ensures Parse(names[i].key).labels != Parse(names[j].key).labels
    {
      var v := FromWild(wilds, names, names[i]);
      var w := FromWild(wilds, names, names[j]);
      assert Below(names[i].key, names[j].key);
      if v.suffix == w.suffix {
        SameSuffix(wilds, v, w);
        BelowIrreflexive(names[i].key);
      } else if Labels(v.suffix) == Labels(w.suffix) {
        LabelsDiffer(v.suffix, w.suffix);
      }
    }
  }

  lemma {:induction false} SameSuffix(wilds: seq<Wild>, v: Wild, w: Wild)
    requires Free(wilds) && v in wilds && w in wilds && v.suffix == w.suffix
    ensures v == w
  {
    var i :| 0 <= i < |wilds| && wilds[i] == v;
    var j :| 0 <= j < |wilds| && wilds[j] == w;
  }

  lemma {:induction false} LabelsDiffer(s: string, s': string)
    requires Labels(s) == Labels(s')
    ensures s == s'
  {
    hide Labels;
    PrefixIsSuffix(s, s');
    PrefixIsSuffix(s', s);
  }

  // r is the value of the wildcard with the longest suffix that covers the name.
  ghost predicate MostSpecific(wilds: seq<Wild>, name: string, r: Option<nat>) {
    if r.None? then forall w | w in wilds :: !Covers(w, name)
    else exists w :: w in wilds && w.value == r.value && Covers(w, name)
                     && forall w' | w' in wilds && Covers(w', name) :: |w'.suffix| <= |w.suffix|
  }

  lemma {:induction false} AnswerIsMostSpecific(wilds: seq<Wild>, names: seq<Key>, name: string, r: Option<nat>)
    requires Free(wilds) && multiset(names) == multiset(Keys(wilds)) && Answers(names, Labels(name), r)
    ensures MostSpecific(wilds, name, r)
  {
    hide Parse, Labels, Keys, Covers;
    var q := Labels(name);
    forall w | w in wilds
      ensures Covers(w, name) <==> Matches(Parse(Stored(w).key), q)
      ensures Stored(w) in names && Parse(Stored(w).key) == Pattern(Labels(w.suffix), w.star)
    {
      ToKey(wilds, names, w);
      CoversIsMatch(w, name);
    }
    if r.Some? {
      var k :| k in names && k.value == r.value && Matches(Parse(k.key), q)
               && forall k' | k' in names && Matches(Parse(k'.key), q) ::
                    |Parse(k'.key).labels| <= |Parse(k.key).labels|;
      var w := FromWild(wilds, names, k);
      forall w' | w' in wilds && Covers(w', name)
        ensures |w'.suffix| <= |w.suffix|
      {
        LongerSuffix(w'.suffix, w.suffix, name);
      }
    }
  }

  // Building the table from the sorted names and searching it.
  method Search(wilds: seq<Wild>, names: seq<Key>, name: string) returns (r: Option<nat>)
    requires Free(wilds) && multiset(names) == multiset(Keys(wilds)) && SortedKeys(names)
    ensures MostSpecific(wilds, name, r)
  {
    SortedIsProper(wilds, names);
    var t := Init(names);
    r := FindHead(t, name);
    assert Answers(names, Labels(name), Lookup(t, Labels(name)));
    AnswerIsMostSpecific(wilds, names, name, r);
  }

  lemma {:induction false} ReversedJoin(a: string, s: string)
    ensures Reversed(a + "." + s) == Reversed(s) + "." + Reversed(a)
    decreases |s|
  {
    hide LastLabel, Reversed;
    var name, n := a + "." + s, LastLabel(s);
    ReversedIs(s);
    ReversedIs(name);
    var m := |a| + 1 + n;
    assert name[m..] == s[n..];
    assert n > 0 ==> name[m - 1] == s[n - 1];
    LastLabelIs(name, m);
    if n == 0 {
      assert name[..m - 1] == a;
    } else {
      assert name[..m - 1] == a + "." + s[..n - 1];
      ReversedJoin(a, s[..n - 1]);
    }
  }

  lemma {:induction false} ReversedLabel(s: string)
    requires '.' !in s
    ensures Reversed(s) == s
  {
    hide LastLabel;
    LastLabelIs(s, 0);
    assert s[0..] == s;
  }

  // "*.example.com" and ".example.com" become "com.example." and "com.example".
  method Convert(data: string) returns (p: string)
    requires data != []
    ensures p == Reversed(data[1..])
  {
    hide LastLabel, Reversed;
    ghost var s := data[1..];
    p := [];
    var len := 0;
    var i := |data| - 1;
    assert s[..|s|] == s;
    while i != 0
      invariant 0 <= i && 0 <= len && i + len <= |s| && '.' !in s[i..i + len]
      invariant Reversed(s) == p + Reversed(s[..i + len])
    {
      if data[i] == '.' {
        ghost var x := data[i + 1..i + 1 + len];
        assert x == s[i..i + len] && s[..i + len] == s[..i - 1] + "." + x;
        ReversedJoin(s[..i - 1], x);
        ReversedLabel(x);
        p := p + data[i + 1..i + 1 + len];
        p := p + ".";
        len := 0;
      } else {
        assert s[i - 1..i + len] == [s[i - 1]] + s[i..i + len];
        len := len + 1;
      }
      i := i - 1;
    }
    ReversedLabel(s[..len]);
    if len != 0 {
      p := p + data[1..1 + len];
    }
  }

  function Lower(s: string): (r: string)
    ensures |r| == |s|
  {
    if s == [] then [] else [if 'A' <= s[0] <= 'Z' then s[0] + (32 as char) else s[0]] + Lower(s[1..])
  }

  lemma {:induction false} LowerAt(s: string, i: nat)
    requires i < |s|
    ensures Lower(s)[i] == if 'A' <= s[i] <= 'Z' then s[i] + (32 as char) else s[i]
  {
    if i > 0 {
      LowerAt(s[1..], i - 1);
    }
  }

  function Stars(s: string): nat {
    if s == [] then 0 else Stars(s[..|s| - 1]) + if s[|s| - 1] == '*' then 1 else 0
  }

  predicate NoGap(s: string) {
    forall i | 0 <= i < |s| :: s[i] != 0 as char && (s[i] == '.' ==> i + 1 == |s| || s[i + 1] != '.')
  }

  // The form of a name: the wildcards that the source supports, a name without one,
  // or neither.
  datatype Form = Exact | Head(star: bool) | Tail | Bad

  function FormOf(key: string): Form {
    if Stars(key) > 1 || !NoGap(key) then Bad
    else if |key| > 1 && key[0] == '.' then Head(false)
    else if |key| > 2 && key[0] == '*' && key[1] == '.' then Head(true)
    else if |key| > 2 && key[|key| - 2] == '.' && key[|key| - 1] == '*' then Tail
    else if Stars(key) > 0 then Bad
    else Exact
  }

  // The checks before the first label of ngx_hash_add_key.
  method Scan(key: string) returns (legal: bool, n: nat)
    ensures legal <==> Stars(key) <= 1 && NoGap(key)
    ensures legal ==> n == Stars(key)
  {
    n := 0;
    for i := 0 to |key|
      invariant n == Stars(key[..i]) <= 1
      invariant forall j | 0 <= j < i :: key[j] != 0 as char && (key[j] == '.' ==> j + 1 == |key| || key[j + 1] != '.')
    {
      assert key[..i + 1][..i] == key[..i];
      if key[i] == '*' {
        n := n + 1;
        if n > 1 {
          StarsGrow(key, i + 1);
          return false, n;
        }
      }
      if key[i] == '.' && i + 1 < |key| && key[i + 1] == '.' {
        return false, n;
      }
      if key[i] == 0 as char {
        return false, n;
      }
    }
    assert key[..|key|] == key;
    legal := true;
  }

  lemma {:induction false} StarsGrow(key: string, i: nat)
    requires i <= |key|
    ensures Stars(key[..i]) <= Stars(key)
    decreases |key|
  {
    if i == |key| {
      assert key[..i] == key;
    } else {
      assert key[..|key| - 1][..i] == key[..i];
      StarsGrow(key[..|key| - 1], i);
    }
  }

  function Suffixes(wilds: seq<Wild>): seq<string> {
    seq(|wilds|, i requires 0 <= i < |wilds| => wilds[i].suffix)
  }

  // ngx_hash_keys_arrays_t; the buckets by hash value are one list each.
  class KeysArrays {
    var exact: seq<string>
    var keys: seq<Key>
    var headNames: seq<string>
    var head: seq<Key>
    var tailNames: seq<string>
    var tail: seq<Key>
    ghost var wilds: seq<Wild>

    ghost predicate Valid()
      reads this
    {
      Free(wilds) && head == Keys(wilds) && headNames == Suffixes(wilds)
    }

    constructor ()
      ensures Valid() && wilds == [] && exact == [] && keys == [] && tail == [] && tailNames == []
    {
      exact, keys, headNames, head, tailNames, tail, wilds := [], [], [], [], [], [], [];
    }

    // The wildcard branch for skip 1 and 2.
    method AddHead(key: string, skip: nat, value: nat) returns (r: Result)
      requires Valid() && FormOf(key) == Head(skip == 2) && 1 <= skip <= 2
      modifies this
      ensures Valid() && keys == old(keys) && tail == old(tail) && tailNames == old(tailNames)
      ensures var s := Lower(key[skip..]);
              && (r == Ok <==> s !in old(headNames) && (skip == 2 || s !in old(exact))) && r != Declined
              && wilds == old(wilds) + (if r == Ok then [Wild(skip == 2, s, value)] else [])
              && exact == old(exact) + if skip == 1 && s !in old(exact) then [s] else []
    {
      hide Reversed;
      var name := Lower(key[skip..]);
      var data := key[..skip] + name;
      LowerAt(key[skip..], 0);
      if skip == 1 {
        if name in exact {
          return Busy;
        }
        exact := exact + [name];
      }
      var p := Convert(data);
      if name in headNames {
        return Busy;
      }
      headNames := headNames + [name];
      head := head + [Key(p, value)];
      ghost var w := Wild(skip == 2, name, value);
      HeadKey(data, w, p);
      MoreKeys(wilds, w);
      wilds := wilds + [w];
      r := Ok;
    }

    // ngx_hash_add_key with NGX_HASH_WILDCARD_KEY
    method AddKey(key: string, value: nat) returns (r: Result)
      requires Valid()
      modifies this
      ensures Valid()
      ensures r == Declined <==> FormOf(key) == Bad
      ensures FormOf(key) == Bad ==> unchanged(this)
      ensures FormOf(key).Head? ==>
                var star := FormOf(key).star;
                var s := Lower(key[if star then 2 else 1..]);
                && (r == Ok <==> s !in Suffixes(old(wilds)) && (star || s !in old(exact)))
                && wilds == old(wilds) + (if r == Ok then [Wild(star, s, value)] else [])
                && exact == old(exact) + (if !star && s !in old(exact) then [s] else [])
                && keys == old(keys) && tail == old(tail)
      ensures FormOf(key) == Exact ==>
                && (r == Ok <==> Lower(key) !in old(exact)) && wilds == old(wilds) && tail == old(tail)
                && exact == old(exact) + (if r == Ok then [Lower(key)] else [])
                && keys == old(keys) + if r == Ok then [Key(Lower(key), value)] else []
      ensures FormOf(key) == Tail ==>
                && wilds == old(wilds) && exact == old(exact) && keys == old(keys)
                && (r == Ok <==> Lower(key[..|key| - 2]) + "." !in old(tailNames))
                && tail == old(tail) + if r == Ok then [Key(Lower(key[..|key| - 2]), value)] else []
    {
      var legal, n := Scan(key);
      if !legal {
        return Declined;
      }
      if |key| > 1 && key[0] == '.' {
        r := AddHead(key, 1, value);
        return;
      }
      if |key| > 2 {
        if key[0] == '*' && key[1] == '.' {
          r := AddHead(key, 2, value);
          return;
        }
        if key[|key| - 2] == '.' && key[|key| - 1] == '*' {
          var name := Lower(key[..|key| - 2]);
          if name + "." in tailNames {
            return Busy;
          }
          tailNames := tailNames + [name + "."];
          tail := tail + [Key(name, value)];
          return Ok;
        }
      }
      if n != 0 {
        return Declined;
      }
      var low := Lower(key);
      if low in exact {
        return Busy;
      }
      exact := exact + [low];
      keys := keys + [Key(low, value)];
      return Ok;
    }
  }

  lemma {:induction false} HeadKey(data: string, w: Wild, p: string)
    requires data != [] && p == Reversed(data[1..])
    requires data == (if w.star then "*." else ".") + w.suffix
    ensures Key(p, w.value) == Stored(w)
  {
    hide Reversed;
    if w.star {
      assert data[1..] == "" + "." + w.suffix;
      ReversedJoin("", w.suffix);
      ReversedLabel("");
      assert Reversed(w.suffix) + "." + "" == Reversed(w.suffix) + ".";
    } else {
      assert data[1..] == w.suffix;
      assert Reversed(w.suffix) + "" == Reversed(w.suffix);
    }
  }

  lemma {:induction false} MoreKeys(wilds: seq<Wild>, w: Wild)
    ensures Keys(wilds + [w]) == Keys(wilds) + [Stored(w)] && Suffixes(wilds + [w]) == Suffixes(wilds) + [w.suffix]
    ensures forall i | 0 <= i < |wilds| :: wilds[i].suffix in Suffixes(wilds)
  {
    forall i | 0 <= i < |wilds|
      ensures wilds[i].suffix in Suffixes(wilds)
    {
      assert Suffixes(wilds)[i] == wilds[i].suffix;
    }
  }
}
