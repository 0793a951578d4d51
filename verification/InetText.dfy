// ngx_inet6_ntop, and how it fits together with ngx_inet6_addr.

module InetText {
  import opened Inet

  function HexDigit(d: nat): char
    requires d < 16
  {
    if d < 10 then '0' + d as char else 'a' + (d - 10) as char
  }

  // "%xd"
  function Hex(w: nat): (s: string)
    ensures s != [] && s[0] != ':'
  {
    if w < 16 then [HexDigit(w)] else Hex(w / 16) + [HexDigit(w % 16)]
  }

  // "%ud"
  function Dec(w: nat): (s: string)
    ensures s != [] && s[0] != ':'
  {
    if w < 10 then [HexDigit(w)] else Dec(w / 10) + [HexDigit(w % 10)]
  }

  predicate Address(p: seq<nat>) {
    |p| == 16 && Octets(p)
  }

  function Words(p: seq<nat>): (w: seq<nat>)
    requires Address(p)
    ensures |w| == 8
  {
    seq(8, i requires 0 <= i < 8 => p[2 * i] * 256 + p[2 * i + 1])
  }

  // The search for the longest run of zero words, after k words.
  datatype Runs = Runs(zero: int, last: int, max: nat, n: nat)

  function After(w: seq<nat>, k: nat): Runs
    requires k <= |w|
  {
    if k == 0 then Runs(-1, -1, 1, 0)
    else
      var r := After(w, k - 1);
      if w[k - 1] != 0 then Closed(r).(n := 0)
      else r.(last := if r.n == 0 then k - 1 else r.last, n := r.n + 1)
  }

  function Closed(r: Runs): Runs {
    if r.max < r.n then r.(zero := r.last, max := r.n) else r
  }

  function Longest(w: seq<nat>): Runs {
    Closed(After(w, |w|))
  }

  predicate Zeros(w: seq<nat>, i: int, j: int) {
    0 <= i <= j <= |w| && forall k | i <= k < j :: w[k] == 0
  }

  // What the search knows after k words.
  ghost predicate Known(w: seq<nat>, k: nat, r: Runs) {
    && r.n <= k <= |w| && Zeros(w, k - r.n, k) && (r.n < k ==> w[k - r.n - 1] != 0) && (r.n > 0 ==> r.last == k - r.n)
    && r.max >= 1 && (if r.zero == -1 then r.max == 1
         else Zeros(w, r.zero, r.zero + r.max) && r.zero + r.max < k && r.max >= 2)
    && (forall i, j | Zeros(w, i, j) && i < j < k && w[j] != 0 :: j - i <= r.max)
  }

  lemma {:induction false} AfterKnown(w: seq<nat>, k: nat)
    requires k <= |w|
    ensures Known(w, k, After(w, k))
  {
    if k > 0 {
      AfterKnown(w, k - 1);
      var r, r' := After(w, k - 1), After(w, k);
      if w[k - 1] != 0 {
        forall i, j | Zeros(w, i, j) && i < j < k && w[j] != 0
          ensures j - i <= r'.max
        {
          assert r.n < k - 1 ==> w[k - 1 - r.n - 1] != 0;
        }
      }
    }
  }

  // The run is made of zeros and no run of two or more is longer.
  lemma {:induction false} LongestRun(w: seq<nat>, i: int, j: int)
    requires Zeros(w, i, j) && j - i >= 2
    ensures var r := Longest(w); r.zero >= 0 && j - i <= r.max
  {
    AfterKnown(w, |w|);
    var r := After(w, |w|);
    var e := RunEnd(w, j);
    assert Zeros(w, i, e);
    assert r.n < |w| ==> w[|w| - r.n - 1] != 0;
  }

  lemma {:induction false} RunEnd(w: seq<nat>, j: nat) returns (e: nat)
    requires j <= |w|
    ensures j <= e <= |w| && Zeros(w, j, e) && (e < |w| ==> w[e] != 0)
    decreases |w| - j
  {
    e := j;
    if j < |w| && w[j] == 0 {
      e := RunEnd(w, j + 1);
    }
  }

  lemma {:induction false} RunIsZero(w: seq<nat>)
    ensures var r := Longest(w); r.zero >= 0 ==> Zeros(w, r.zero, r.zero + r.max) && r.max >= 2
    ensures Longest(w).zero >= -1
  {
    AfterKnown(w, |w|);
  }

  // The form with a dotted tail.
  predicate Mixed(p: seq<nat>)
    requires Address(p)
  {
    var r := Longest(Words(p));
    && r.zero == 0
    && ((r.max == 5 && p[10] == 255 && p[11] == 255) || r.max == 6 || (r.max == 7 && p[14] != 0 && p[15] != 1))
  }

  // The second loop of ngx_inet6_ntop from word i on, for n words.
  function Groups(w: seq<nat>, r: Runs, n: nat, i: nat): string
    requires n <= |w| == 8 && (r.zero >= 0 ==> r.max > 0)
    decreases 8 - i
  {
    if i >= n then ""
    else if i == r.zero then ":" + Groups(w, r, n, i + r.max)
    else Hex(w[i]) + (if i < 7 then ":" else "") + Groups(w, r, n, i + 1)
  }

  function Quad(p: seq<nat>): string
    requires |p| == 4
  {
    Dec(p[0]) + "." + Dec(p[1]) + "." + Dec(p[2]) + "." + Dec(p[3])
  }

  function Print(p: seq<nat>): string
    requires Address(p)
  {
    var w := Words(p);
    var r := Longest(w);
    RunIsZero(w);
    (if r.zero == 0 then ":" else "") + Groups(w, r, if Mixed(p) then 6 else 8, 0)
          + if Mixed(p) then Quad(p[12..]) else ""
  }

  // The first loop of ngx_inet6_ntop; positions count words.
  method FindRun(p: seq<nat>) returns (zero: int, max: nat)
    requires Address(p)
    ensures zero == Longest(Words(p)).zero && max == Longest(Words(p)).max
  {
    ghost var w := Words(p);
    zero, max := -1, 1;
    var last, n := -1, 0;
    for i := 0 to 8
      invariant Runs(zero, last, max, n) == After(w, i)
    {
      if p[2 * i] != 0 || p[2 * i + 1] != 0 {
        if max < n {
          zero := last;
          max := n;
        }
        n := 0;
        continue;
      }
      if n == 0 {
        last := i;
      }
      n := n + 1;
    }
    if max < n {
      zero := last;
      max := n;
    }
  }

  // NGX_INET6_ADDRSTRLEN
  const ADDRSTRLEN := 45

  // ngx_inet6_ntop; size is the room in the buffer.
  method Ntop(p: seq<nat>, size: nat) returns (text: Option<string>)
    requires Address(p)
    ensures text == if size < ADDRSTRLEN then None else Some(Print(p))
  {
    hide Longest, Groups;
    if size < ADDRSTRLEN {
      return None;
    }
    var zero, max := FindRun(p);
    ghost var w := Words(p);
    ghost var r := Longest(w);
    RunIsZero(w);
    var dst := "";
    var n := 8;
    if zero == 0 {
      if (max == 5 && p[10] == 0xff && p[11] == 0xff) || max == 6 || (max == 7 && p[14] != 0 && p[15] != 1) {
        n := 6;
      }
      dst := dst + ":";
    }
    assert n == if Mixed(p) then 6 else 8;
    var groups := PrintGroups(p, zero, max, n, r);
    dst := dst + groups;
    if n == 6 {
      assert p[12..] == [p[12], p[13], p[14], p[15]];
      dst := dst + (Dec(p[12]) + "." + Dec(p[13]) + "." + Dec(p[14]) + "." + Dec(p[15]));
    }
    assert dst == (if r.zero == 0 then ":" else "") + Groups(w, r, n, 0) + if n == 6 then Quad(p[12..]) else "";
    text := Some(dst);
  }

  // The second loop of ngx_inet6_ntop.
  method PrintGroups(p: seq<nat>, zero: int, max: nat, n: nat, ghost r: Runs) returns (dst: string)
    requires Address(p) && n <= 8 && zero == r.zero && max == r.max && (zero >= 0 ==> max > 0)
    ensures dst == Groups(Words(p), r, n, 0)
  {
    hide Groups, Hex, Words;
    ghost var w := Words(p);
    dst := "";
    var i: nat := 0;
    while i < n
      invariant Groups(w, r, n, 0) == dst + Groups(w, r, n, i)
      decreases if i < n then n - i else 0
    {
      GroupsStep(w, r, n, i);
      if i == zero {
        dst := dst + ":";
        i := i + (max - 1);
        i := i + 1;
        continue;
      }
      WordAt(p, i);
      dst := dst + Hex(p[2 * i] * 256 + p[2 * i + 1]);
      if i < 7 {
        dst := dst + ":";
      }
      i := i + 1;
    }
    GroupsEnd(w, r, n, i);
    assert dst + "" == dst;
  }

  lemma {:induction false} WordAt(p: seq<nat>, i: nat)
    requires Address(p) && i < 8
    ensures Words(p)[i] == p[2 * i] * 256 + p[2 * i + 1]
  {
  }

  lemma {:induction false} GroupsStep(w: seq<nat>, r: Runs, n: nat, i: nat)
    requires i < n <= |w| == 8 && (r.zero >= 0 ==> r.max > 0)
    ensures Groups(w, r, n, i) ==
            if i == r.zero then ":" + Groups(w, r, n, i + r.max)
            else Hex(w[i]) + (if i < 7 then ":" else "") + Groups(w, r, n, i + 1)
  {
  }

  lemma {:induction false} GroupsEnd(w: seq<nat>, r: Runs, n: nat, i: nat)
    requires n <= |w| == 8 && n <= i && (r.zero >= 0 ==> r.max > 0)
    ensures Groups(w, r, n, i) == ""
  {
  }

  lemma {:induction false} GroupsFit(w: seq<nat>, r: Runs, n: nat, i: nat)
    requires n <= |w| == 8 && (r.zero >= 0 ==> r.max > 0) && forall k | 0 <= k < 8 :: w[k] < 0x1_0000
    ensures |Groups(w, r, n, i)| <= if i >= n then 0 else if n == 8 then 5 * (n - i) - 1 else 5 * (n - i)
    decreases 8 - i
  {
    hide Hex;
    if i < n {
      if i == r.zero {
        GroupsFit(w, r, n, i + r.max);
      } else {
        HexLength(w[i], 4);
        GroupsFit(w, r, n, i + 1);
      }
    }
  }

  // Every address fits into the buffer, with six characters to spare.
  lemma {:induction false} PrintFits(p: seq<nat>)
    requires Address(p)
    ensures |Print(p)| <= 39 < ADDRSTRLEN
  {
    hide Groups, Longest, Hex, Dec;
    var w := Words(p);
    var r := Longest(w);
    RunIsZero(w);
    WordsBounded(p);
    var n := if Mixed(p) then 6 else 8;
    if r.zero == 0 {
      GroupsStep(w, r, n, 0);
      GroupsFit(w, r, n, r.max);
    } else {
      GroupsFit(w, r, n, 0);
    }
    if Mixed(p) {
      DecLength(p[12]);
      DecLength(p[13]);
      DecLength(p[14]);
      DecLength(p[15]);
    }
  }

  // Reading back what was printed

  lemma {:induction false} DigitBack(d: nat)
    requires d < 16
    ensures Nibble(HexDigit(d)) == Some(d) && HexDigit(d) != ':' && HexDigit(d) != '.'
    ensures d < 10 ==> '0' <= HexDigit(d) <= '9' && Digit(HexDigit(d)) == d
  {
  }

  // t stands in text at position i.
  predicate Stands(text: string, i: nat, t: string) {
    i + |t| <= |text| && text[i..i + |t|] == t
  }

  lemma {:induction false} StandsParts(text: string, i: nat, a: string, b: string)
    requires Stands(text, i, a + b)
    ensures Stands(text, i, a) && Stands(text, i + |a|, b)
  {
    assert text[i..i + |a|] == (a + b)[..|a|] == a;
    assert text[i + |a|..i + |a| + |b|] == (a + b)[|a|..] == b;
  }

  lemma {:induction false} HexLength(w: nat, k: nat)
    requires k > 0 && w < Power16(k)
    ensures |Hex(w)| <= k
  {
    if w >= 16 {
      HexLength(w / 16, k - 1);
    }
  }

  function Power16(k: nat): nat {
    if k == 0 then 1 else 16 * Power16(k - 1)
  }

  // The digits of a word.
  lemma {:induction false} HexScan(text: string, i: nat, s: State, w: nat)
    requires Going(text, i, s) && s.nibbles == 0 && s.word == 0 && Stands(text, i, Hex(w)) && |Hex(w)| <= 4
    ensures var k := |Hex(w)|; var s' := s.(nibbles := k, word := w);
            Going(text, i + k, s') && Scan(text, i, s) == Scan(text, i + k, s')
  {
    hide Scan;
    if w < 16 {
      DigitBack(w);
      assert text[i] == HexDigit(w);
      ScanStep(text, i, s);
    } else {
      var h, d := Hex(w / 16), HexDigit(w % 16);
      StandsParts(text, i, h, [d]);
      HexScan(text, i, s, w / 16);
      var k := |h|;
      DigitBack(w % 16);
      assert text[i + k] == d;
      ScanStep(text, i + k, s.(nibbles := k, word := w / 16));
    }
  }

  // A word and its colon.
  lemma {:induction false} GroupScan(text: string, i: nat, s: State, w: nat, next: seq<nat>)
    requires next == s.words + [w] && Going(text, i, s) && s.nibbles == 0 && s.word == 0 && w < 0x1_0000
             && |s.words| < 7
    requires Stands(text, i, Hex(w) + ":")
    ensures var j := i + |Hex(w)| + 1; var s' := State(next, s.zero, 0, 0, Some(j));
            Going(text, j, s') && Scan(text, i, s) == Scan(text, j, s')
  {
    assert Power16(4) == 0x1_0000;
    HexLength(w, 4);
    StandsParts(text, i, Hex(w), ":");
    HexScan(text, i, s, w);
    var k := i + |Hex(w)|;
    assert text[k] == ':';
    ScanStep(text, k, s.(nibbles := |Hex(w)|, word := w));
  }

  // The words after the zero run, or all of them, up to the end of the text.
  lemma {:induction false} TailScan(text: string, i: nat, s: State, w: seq<nat>, r: Runs, k: nat)
    requires |w| == 8 && forall j | 0 <= j < 8 :: w[j] < 0x1_0000
    requires k < 8 && r.zero < k && (r.zero >= 0 ==> r.max > 0)
    requires Going(text, i, s) && s.nibbles == 0 && s.word == 0 && |s.words| <= k
    requires Stands(text, i, Groups(w, r, 8, k)) && i + |Groups(w, r, 8, k)| == |text|
    ensures |s.words| + 8 - k <= 8 && Scan(text, i, s) == Fill(s.words + w[k..], s.zero)
    decreases 8 - k
  {
    hide Scan, Groups, Hex, Fill;
    GroupsStep(w, r, 8, k);
    if k == 7 {
      GroupsEnd(w, r, 8, 8);
      assert Hex(w[7]) + "" + "" == Hex(w[7]);
      assert Power16(4) == 0x1_0000;
      HexLength(w[7], 4);
      HexScan(text, i, s, w[7]);
      ScanEnd(text, s.(nibbles := |Hex(w[7])|, word := w[7]));
      assert w[7..] == [w[7]];
    } else {
      assert Hex(w[k]) + ":" + Groups(w, r, 8, k + 1) == (Hex(w[k]) + ":") + Groups(w, r, 8, k + 1);
      StandsParts(text, i, Hex(w[k]) + ":", Groups(w, r, 8, k + 1));
      GroupScan(text, i, s, w[k], s.words + [w[k]]);
      var j := i + |Hex(w[k])| + 1;
      var s' := State(s.words + [w[k]], s.zero, 0, 0, Some(j));
      TailScan(text, j, s', w, r, k + 1);
      assert s'.words + w[k + 1..] == s.words + w[k..];
    }
  }

  // The words before the zero run, and the run itself.
  lemma {:induction false} HeadScan(text: string, i: nat, s: State, w: seq<nat>, r: Runs, n: nat, k: nat)
    returns (j: nat)
    requires n <= |w| == 8 && (forall j | 0 <= j < 8 :: w[j] < 0x1_0000) && k <= r.zero < n && r.zero < 7 && r.max > 0
    requires Going(text, i, s) && s == State(w[..k], None, 0, 0, s.digit) && Stands(text, i, Groups(w, r, n, k))
    ensures var s' := State(w[..r.zero], Some(r.zero), 0, 0, Some(j));
            Going(text, j, s') && Scan(text, i, s) == Scan(text, j, s')
    ensures Stands(text, j, Groups(w, r, n, r.zero + r.max))
    ensures j + |Groups(w, r, n, r.zero + r.max)| == i + |Groups(w, r, n, k)|
    decreases r.zero - k
  {
    hide Scan, Groups, Hex;
    GroupsStep(w, r, n, k);
    if k == r.zero {
      StandsParts(text, i, ":", Groups(w, r, n, k + r.max));
      assert text[i] == ':';
      ScanStep(text, i, s);
      j := i + 1;
    } else {
      assert Hex(w[k]) + ":" + Groups(w, r, n, k + 1) == (Hex(w[k]) + ":") + Groups(w, r, n, k + 1);
      StandsParts(text, i, Hex(w[k]) + ":", Groups(w, r, n, k + 1));
      assert w[..k] + [w[k]] == w[..k + 1];
      GroupScan(text, i, s, w[k], w[..k + 1]);
      var m := i + |Hex(w[k])| + 1;
      j := HeadScan(text, m, State(w[..k + 1], None, 0, 0, Some(m)), w, r, n, k + 1);
    }
  }

  // Putting the zeros back.
  lemma {:induction false} FillBack(w: seq<nat>, z: nat, max: nat)
    requires |w| == 8 && max >= 2 && Zeros(w, z, z + max)
    ensures Fill(w[..z] + w[z + max..], Some(z)) == Some(w)
    ensures z + max == 8 ==> Fill(w[..z] + [0], Some(z)) == Some(w)
  {
    var v := w[..z] + w[z + max..];
    assert v[..z] + seq(8 - |v|, i => 0) + v[z..] == w;
    if z + max == 8 {
      var u := w[..z] + [0];
      assert u[..z] + seq(8 - |u|, i => 0) + u[z..] == w;
    }
  }

  lemma {:induction false} WordsBounded(p: seq<nat>)
    requires Address(p)
    ensures forall j | 0 <= j < 8 :: Words(p)[j] < 0x1_0000
  {
  }

  lemma {:induction false} StandsAll(front: string, t: string)
    ensures Stands(front + t, |front|, t)
  {
    assert (front + t)[|front|..|front| + |t|] == t;
  }

  lemma {:induction false} PlainText(p: seq<nat>)
    requires Address(p) && !Mixed(p)
    ensures var w, r := Words(p), Longest(Words(p));
            && r.zero >= -1 && (r.zero >= 0 ==> r.max > 0) && Print(p) != [] && (Print(p)[0] == ':' <==> r.zero == 0)
            && Print(p) == (if r.zero == 0 then ":" else "") + Groups(w, r, 8, 0)
  {
    hide Groups, Longest;
    var w := Words(p);
    RunIsZero(w);
    GroupsStep(w, Longest(w), 8, 0);
  }

  // Addresses in the plain form.
  lemma {:induction false} PlainBack(p: seq<nat>)
    requires Address(p) && !Mixed(p)
    ensures Parse(Print(p)) == Some(Words(p))
  {
    hide Scan, Groups, Longest, Fill, Words, Mixed, Print;
    var w, text := Words(p), Print(p);
    var r := Longest(w);
    RunIsZero(w);
    WordsBounded(p);
    PlainText(p);
    var front := if r.zero == 0 then ":" else "";
    StandsAll(front, Groups(w, r, 8, 0));
    assert w[..0] == [];
    if r.zero == -1 {
      TailScan(text, 0, Start(), w, r, 0);
      assert [] + w[0..] == w;
      FillAll(w);
    } else {
      var j := HeadScan(text, |front|, Start(), w, r, 8, 0);
      var k := r.zero + r.max;
      var s := State(w[..r.zero], Some(r.zero), 0, 0, Some(j));
      FillBack(w, r.zero, r.max);
      if k == 8 {
        GroupsEnd(w, r, 8, 8);
        ScanEnd(text, s);
      } else {
        TailScan(text, j, s, w, r, k);
      }
    }
  }

  lemma {:induction false} FillAll(w: seq<nat>)
    requires |w| == 8
    ensures Fill(w, None) == Some(w)
  {
  }

  // The dotted tail

  function Quadruple(o: seq<nat>): nat
    requires |o| == 4
  {
    ((o[0] * 256 + o[1]) * 256 + o[2]) * 256 + o[3]
  }

  // An octet in decimal.
  lemma {:induction false} DecDotted(o: nat, rest: string, addr: nat, n: nat)
    requires o <= 255
    ensures Dotted(Dec(o) + rest, addr, 0, n) == Dotted(rest, addr, o, n)
  {
    DigitBack(o % 10);
    if o < 10 {
      assert ([HexDigit(o)] + rest)[1..] == rest;
    } else {
      var d := [HexDigit(o % 10)];
      assert Dec(o) + rest == Dec(o / 10) + (d + rest);
      DecDotted(o / 10, d + rest, addr, n);
      assert (d + rest)[1..] == rest;
    }
  }

  lemma {:induction false} QuadDotted(o: seq<nat>)
    requires |o| == 4 && Octets(o)
    ensures Dotted(Quad(o), 0, 0, 0) == Quadruple(o)
  {
    hide Dec, Dotted;
    var r2 := Dec(o[2]) + ("." + Dec(o[3]));
    var r1 := Dec(o[1]) + ("." + r2);
    assert Quad(o) == Dec(o[0]) + ("." + r1);
    DecDotted(o[0], "." + r1, 0, 0);
    DotDotted(r1, 0, o[0], 0);
    DecDotted(o[1], "." + r2, o[0], 1);
    DotDotted(r2, o[0], o[1], 1);
    DecDotted(o[2], "." + Dec(o[3]), o[0] * 256 + o[1], 2);
    DotDotted(Dec(o[3]), o[0] * 256 + o[1], o[2], 2);
    assert Dec(o[3]) == Dec(o[3]) + "";
    DecDotted(o[3], "", (o[0] * 256 + o[1]) * 256 + o[2], 3);
    EndDotted((o[0] * 256 + o[1]) * 256 + o[2], o[3]);
  }

  lemma {:induction false} EndDotted(addr: nat, o: nat)
    requires addr < 0x100_0000 && o < 256
    ensures Dotted("", addr, o, 3) == addr * 256 + o
  {
  }

  lemma {:induction false} DotDotted(rest: string, addr: nat, o: nat, n: nat)
    requires addr < 0x100_0000 && o < 256
    ensures Dotted("." + rest, addr, o, n) == Dotted(rest, addr * 256 + o, 0, n + 1)
  {
    assert ("." + rest)[1..] == rest;
  }

  lemma {:induction false} QuadParts(o: seq<nat>)
    requires |o| == 4 && Octets(o)
    ensures Quadruple(o) / 0x1_0000 == o[0] * 256 + o[1] && Quadruple(o) % 0x1_0000 == o[2] * 256 + o[3]
    ensures Quadruple(o) == NONE <==> o == [255, 255, 255, 255]
  {
  }

  // The digits of the first octet are read as hexadecimal digits at first.
  lemma {:induction false} DecScan(text: string, i: nat, s: State, o: nat) returns (word: nat)
    requires Going(text, i, s) && s.nibbles == 0 && Stands(text, i, Dec(o)) && |Dec(o)| <= 4
    ensures var s' := s.(nibbles := |Dec(o)|, word := word);
            Going(text, i + |Dec(o)|, s') && Scan(text, i, s) == Scan(text, i + |Dec(o)|, s')
  {
    hide Scan;
    DigitBack(o % 10);
    if o < 10 {
      assert text[i] == HexDigit(o);
      ScanStep(text, i, s);
      word := s.word * 16 + o;
    } else {
      var h, d := Dec(o / 10), HexDigit(o % 10);
      StandsParts(text, i, h, [d]);
      word := DecScan(text, i, s, o / 10);
      assert text[i + |h|] == d;
      ScanStep(text, i + |h|, s.(nibbles := |h|, word := word));
      word := word * 16 + o % 10;
    }
  }

  // Four octets are the two words h and l.
  predicate Spells(o: seq<nat>, h: nat, l: nat) {
    |o| == 4 && Octets(o) && h == o[0] * 256 + o[1] && l == o[2] * 256 + o[3]
  }

  lemma {:induction false} QuadScan(text: string, i: nat, s: State, o: seq<nat>, h: nat, l: nat)
    requires |o| == 4 && Spells(o, h, l) && Going(text, i, s) && s.nibbles == 0 && |s.words| <= 6 && s.digit == Some(i)
    requires Stands(text, i, Quad(o)) && i + |Quad(o)| == |text|
    ensures Scan(text, i, s) ==
            if o == [255, 255, 255, 255] then None
            else Fill(s.words + [h, l], s.zero)
  {
    hide Scan, Fill, Dec;
    var rest := "." + Dec(o[1]) + "." + Dec(o[2]) + "." + Dec(o[3]);
    assert Quad(o) == Dec(o[0]) + rest;
    StandsParts(text, i, Dec(o[0]), rest);
    DecLength(o[0]);
    var word := DecScan(text, i, s, o[0]);
    var j := i + |Dec(o[0])|;
    assert text[j] == rest[0] == '.';
    ScanStep(text, j, s.(nibbles := |Dec(o[0])|, word := word));
    assert text[i..] == Quad(o);
    QuadDotted(o);
    QuadParts(o);
  }

  lemma {:induction false} DecLength(o: nat)
    requires o < 256
    ensures 1 <= |Dec(o)| <= 3
  {
    if o >= 10 {
      assert |Dec(o)| == |Dec(o / 10)| + 1;
      if o / 10 >= 10 {
        assert |Dec(o / 10)| == |Dec(o / 10 / 10)| + 1;
        assert o / 10 / 10 < 10;
      }
    }
  }

  // What follows "::" in the mixed form.
  lemma {:induction false} MixedRest(text: string, j: nat, w: seq<nat>, r: Runs, o: seq<nat>)
    requires |w| == 8 && forall j | 0 <= j < 8 :: w[j] < 0x1_0000
    requires r.zero == 0 && 5 <= r.max <= 7 && Zeros(w, 0, r.max)
    requires |o| == 4 && Spells(o, w[6], w[7])
    requires Stands(text, j, Groups(w, r, 6, r.max) + Quad(o)) && j + |Groups(w, r, 6, r.max) + Quad(o)| == |text|
    ensures Going(text, j, State([], Some(0), 0, 0, Some(j)))
    ensures Scan(text, j, State([], Some(0), 0, 0, Some(j))) == if o == [255, 255, 255, 255] then None else Some(w)
  {
    hide Scan, Groups, Fill, Quad, Hex, Spells, Zeros, Stands;
    MixedFill(w, r.max);
    StandsParts(text, j, Groups(w, r, 6, r.max), Quad(o));
    if r.max == 5 {
      GroupsStep(w, r, 6, 5);
      GroupsEnd(w, r, 6, 6);
      assert Hex(w[5]) + ":" + "" == Hex(w[5]) + ":";
      WordAndQuad(text, j, w[5], w[6], w[7], o);
    } else {
      GroupsEnd(w, r, 6, r.max);
      InRange(text, j, Quad(o));
      QuadScan(text, j, State([], Some(0), 0, 0, Some(j)), o, w[6], w[7]);
    }
  }

  lemma {:induction false} InRange(text: string, i: nat, t: string)
    requires Stands(text, i, t)
    ensures i + |t| <= |text|
  {
  }

  lemma {:induction false} WordAndQuad(text: string, j: nat, w: nat, h: nat, l: nat, o: seq<nat>)
    requires w < 0x1_0000 && |o| == 4 && Spells(o, h, l)
    requires Stands(text, j, Hex(w) + ":") && Stands(text, j + |Hex(w) + ":"|, Quad(o))
             && j + |Hex(w) + ":"| + |Quad(o)| == |text|
    ensures Going(text, j, State([], Some(0), 0, 0, Some(j)))
    ensures Scan(text, j, State([], Some(0), 0, 0, Some(j))) == if o == [255, 255, 255, 255] then None
              else Fill([w] + [h, l], Some(0))
  {
    hide Scan, Fill, Quad, Hex, Spells;
    assert [] + [w] == [w];
    GroupScan(text, j, State([], Some(0), 0, 0, Some(j)), w, [w]);
    hide Stands;
    var i := j + |Hex(w)| + 1;
    QuadScan(text, i, State([w], Some(0), 0, 0, Some(i)), o, h, l);
  }

  lemma {:induction false} MixedText(p: seq<nat>)
    requires Address(p) && Mixed(p)
    ensures var w, r, o := Words(p), Longest(Words(p)), p[12..];
            && r.zero == 0 && 5 <= r.max <= 7 && Spells(o, w[6], w[7])
            && Print(p) == ":" + (Groups(w, r, 6, 0) + Quad(o))
  {
    hide Groups, Quad, Longest;
  }

  // Addresses in the mixed form.
  lemma {:induction false} MixedBack(p: seq<nat>)
    requires Address(p) && Mixed(p)
    ensures Parse(Print(p)) == if p[12..] == [255, 255, 255, 255] then None else Some(Words(p))
  {
    hide Scan, Groups, Longest, Fill, Words, Quad, Mixed, Print;
    var w, text, o := Words(p), Print(p), p[12..];
    var r := Longest(w);
    MixedText(p);
    RunIsZero(w);
    WordsBounded(p);
    var t := Groups(w, r, 6, 0);
    StandsAll(":", t + Quad(o));
    StandsParts(text, 1, t, Quad(o));
    assert w[..0] == [];
    var j := HeadScan(text, 1, Start(), w, r, 6, 0);
    Stitch(text, j, Groups(w, r, 6, r.max), 1 + |t|, Quad(o));
    MixedRest(text, j, w, r, o);
  }

  lemma {:induction false} Stitch(text: string, i: nat, a: string, j: nat, b: string)
    requires Stands(text, i, a) && Stands(text, j, b) && j == i + |a|
    ensures Stands(text, i, a + b)
  {
    assert text[i..i + |a + b|] == text[i..i + |a|] + text[j..j + |b|];
  }

  lemma {:induction false} MixedFill(w: seq<nat>, max: nat)
    requires |w| == 8 && 5 <= max <= 7 && Zeros(w, 0, max)
    ensures max == 5 ==> Fill([w[5]] + [w[6], w[7]], Some(0)) == Some(w)
    ensures max > 5 ==> Fill([] + [w[6], w[7]], Some(0)) == Some(w)
  {
    var v := (if max == 5 then [w[5]] else []) + [w[6], w[7]];
    assert v[..0] + seq(8 - |v|, i => 0) + v[0..] == w;
  }

  // The addresses ::255.255.255.255 and ::ffff:255.255.255.255.
  predicate Broadcast(p: seq<nat>)
    requires Address(p)
  {
    && (forall i | 0 <= i < 10 :: p[i] == 0)
    && (p[10] == p[11] == 0 || p[10] == p[11] == 255)
    && p[12] == p[13] == p[14] == p[15] == 255
  }

  lemma {:induction false} BroadcastIff(p: seq<nat>)
    requires Address(p)
    ensures Broadcast(p) <==> Mixed(p) && p[12..] == [255, 255, 255, 255]
  {
    hide Longest;
    var w := Words(p);
    var r := Longest(w);
    RunIsZero(w);
    if Broadcast(p) {
      assert p[12..] == [255, 255, 255, 255];
      assert w[6] == w[7] == 65535 && w[5] == if p[10] == 0 then 0 else 65535;
      LongestRun(w, 0, if p[10] == 0 then 6 else 5);
    }
    if Mixed(p) && p[12..] == [255, 255, 255, 255] {
      assert p[12] == p[12..][0] && p[13] == p[12..][1] && p[14] == p[12..][2] && p[15] == p[12..][3];
      assert w[6] == 65535 && Zeros(w, 0, r.max);
      assert r.max < 7;
      TenZeros(p);
    }
  }

  lemma {:induction false} TenZeros(p: seq<nat>)
    requires Address(p) && Zeros(Words(p), 0, 5)
    ensures forall i | 0 <= i < 10 :: p[i] == 0
    ensures Words(p)[5] == 0 ==> p[10] == p[11] == 0
  {
    forall i | 0 <= i < 10
      ensures p[i] == 0
    {
      assert Words(p)[i / 2] == p[2 * (i / 2)] * 256 + p[2 * (i / 2) + 1];
    }
  }

  // Every address comes back, except the two whose dotted tail has the value that
  // ngx_inet_addr uses for errors.
  lemma {:induction false} RoundTrip(p: seq<nat>)
    requires Address(p)
    ensures Parse(Print(p)) == if Broadcast(p) then None else Some(Words(p))
    ensures Bytes(Words(p)) == p
  {
    BroadcastIff(p);
    if Mixed(p) {
      MixedBack(p);
    } else {
      PlainBack(p);
    }
    BytesBack(p, 8);
    assert Words(p)[..8] == Words(p) && p[..16] == p;
  }

  lemma {:induction false} BytesBack(p: seq<nat>, k: nat)
    requires Address(p) && k <= 8
    ensures Bytes(Words(p)[..k]) == p[..2 * k]
  {
    if k > 0 {
      BytesBack(p, k - 1);
      var w := Words(p);
      assert w[k - 1] == p[2 * k - 2] * 256 + p[2 * k - 1];
      hide Words, Bytes;
      assert w[..k] == w[..k - 1] + [w[k - 1]];
      BytesMore(w[..k - 1], w[k - 1]);
      assert Pair(w[k - 1]) == [p[2 * k - 2], p[2 * k - 1]];
    }
  }

  // The address ::ffff:255.255.255.255 is printed and then refused.
  lemma {:induction false} BroadcastIsRefused()
    ensures var p := [0, 0, 0, 0, 0, 0, 0, 0, 0, 0, 255, 255, 255, 255, 255, 255];
            Address(p) && Mixed(p) && Parse(Print(p)) == None
  {
    hide Parse, Print, Mixed;
    var p := [0, 0, 0, 0, 0, 0, 0, 0, 0, 0, 255, 255, 255, 255, 255, 255];
    assert Broadcast(p);
    BroadcastIff(p);
    RoundTrip(p);
  }

  // Printing an address and reading it back, with the two functions of the source.
  method Copy(p: seq<nat>, addr: array<nat>) returns (ok: bool)
    requires Address(p) && addr.Length == 16
    modifies addr
    ensures ok <==> !Broadcast(p)
    ensures ok ==> addr[..] == p
  {
    var text := Ntop(p, ADDRSTRLEN);
    RoundTrip(p);
    ok := Inet6Addr(text.value, addr);
  }
}
