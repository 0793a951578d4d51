// ngx_http_upstream_check_create_fastcgi_request: the request of a FastCGI probe, and
// how sections 3.3 and 3.4 of the FastCGI 1.0 specification read it.

module FastCgi {
  type Byte = x: nat | x < 256
  type Text = seq<Byte>

  datatype Option<T> = None | Some(value: T)
  datatype Param = Param(key: Text, value: Text)

  // sizeof(ngx_http_fastcgi_header_t) and sizeof(ngx_http_fastcgi_begin_request_t)
  const HEADER := 8
  const BEGIN := 8

  // The length that the first loop adds for a parameter: a key always counts one byte
  // for its length.
  function Counted(p: Param): nat {
    1 + |p.key| + (if |p.value| > 127 then 4 else 1) + |p.value|
  }

  function Total(params: seq<Param>): nat {
    if params == [] then 0 else Total(params[..|params| - 1]) + Counted(params[|params| - 1])
  }

  // The bytes of a length.
  function Size(n: nat): (b: Text)
    ensures |b| == if n > 127 then 4 else 1
  {
    if n > 127 then [Digits(n, 4)[0] % 128 + 128] + Digits(n, 4)[1..] else [n]
  }

  // The last k bytes of a number, the highest first.
  function Digits(n: nat, k: nat): (d: Text)
    ensures |d| == k
    decreases k
  {
    if k == 0 then [] else Digits(n / 256, k - 1) + [n % 256]
  }

  function Encoded(p: Param): Text {
    Size(|p.key|) + Size(|p.value|) + p.key + p.value
  }

  function Content(params: seq<Param>): Text {
    if params == [] then [] else Content(params[..|params| - 1]) + Encoded(params[|params| - 1])
  }

  // The number of keys longer than 127 bytes.
  function LongKeys(params: seq<Param>): nat {
    if params == [] then 0
    else LongKeys(params[..|params| - 1]) + if |params[|params| - 1].key| > 127 then 1 else 0
  }

  // The content is three bytes longer than computed for every long key.
  lemma {:induction false} ContentSize(params: seq<Param>)
    ensures |Content(params)| == Total(params) + 3 * LongKeys(params)
  {
    if params != [] {
      ContentSize(params[..|params| - 1]);
    }
  }

  lemma {:induction false} NoLongKeys(params: seq<Param>)
    ensures LongKeys(params) == 0 <==> forall i | 0 <= i < |params| :: |params[i].key| <= 127
  {
    if params != [] {
      var init := params[..|params| - 1];
      NoLongKeys(init);
      assert forall i | 0 <= i < |init| :: init[i] == params[i];
    }
  }

  function Padding(len: nat): (p: nat)
    ensures p < 8 && (len + p) % 8 == 0
  {
    var p := 8 - len % 8;
    if p == 8 then 0 else p
  }

  function Zeros(n: nat): (z: Text)
    ensures |z| == n
  {
    seq(n, i => 0)
  }

  // ngx_http_fastcgi_request_start: the begin record and the first half of the header of
  // the parameters.
  const START: Text := [1, 1, 0, 1, 0, 8, 0, 0] + [0, 1, 0, 0, 0, 0, 0, 0] + [1, 4, 0, 1]

  // The request; last stands for the final header, which the source does not write.
  function Request(params: seq<Param>, last: Text): Text {
    var len := Total(params);
    START + [len / 256 % 256, len % 256, Padding(len), 0] + Content(params) + Zeros(Padding(len))
          + [1, 4, 0, 1, 0, 0, 0, 0] + last
  }

  // size is the size of the buffer.
  method CreateRequest(params: seq<Param>, last: Text) returns (b: Text, size: nat)
    requires |last| == HEADER
    ensures b == Request(params, last)
    ensures size == HEADER + BEGIN + HEADER + Total(params) + Padding(Total(params)) + HEADER + HEADER
  {
    hide Content, Total, Size;
    var len := 0;
    NothingYet();
    for i := 0 to |params|
      invariant len == Total(params[..i])
    {
      OneMore(params, i);
      len := len + 1 + |params[i].key| + (if |params[i].value| > 127 then 4 else 1) + |params[i].value|;
    }
    assert params[..|params|] == params;
    var padding := 8 - len % 8;
    padding := if padding == 8 then 0 else padding;
    size := HEADER + BEGIN + HEADER + len + padding + HEADER + HEADER;
    b := START;
    b := b + [len / 256 % 256, len % 256, padding, 0];
    ghost var front := b;
    for i := 0 to |params|
      invariant b == front + Content(params[..i])
    {
      OneMore(params, i);
      b := b + Size(|params[i].key|) + Size(|params[i].value|);
      b := b + params[i].key;
      b := b + params[i].value;
      assert b == front + (Content(params[..i]) + Encoded(params[i]));
    }
    assert params[..|params|] == params;
    if padding != 0 {
      b := b + Zeros(padding);
    } else {
      assert b + Zeros(0) == b;
    }
    b := b + [1, 4, 0, 1, 0, 0, 0, 0];
    b := b + last;
  }

  lemma {:induction false} NothingYet()
    ensures Total([]) == 0 && Content([]) == []
  {
  }

  lemma {:induction false} OneMore(params: seq<Param>, i: nat)
    requires i < |params|
    ensures params[..0] == [] && Total(params[..i + 1]) == Total(params[..i]) + Counted(params[i])
    ensures Content(params[..i + 1]) == Content(params[..i]) + Encoded(params[i])
  {
    assert params[..i + 1][..i] == params[..i];
  }

  // The request fills its buffer exactly if and only if no key is longer than 127 bytes;
  // every longer key makes it run over by three bytes.
  lemma {:induction false} FillsBuffer(params: seq<Param>, last: Text, size: nat)
    requires |last| == HEADER
    requires size == HEADER + BEGIN + HEADER + Total(params) + Padding(Total(params)) + HEADER + HEADER
    ensures |Request(params, last)| == size + 3 * LongKeys(params)
    ensures |Request(params, last)| == size <==> forall i | 0 <= i < |params| :: |params[i].key| <= 127
  {
    ContentSize(params);
    NoLongKeys(params);
  }

  // Reading a request

  // A record by section 3.3: type, content, and the rest of the stream.
  datatype Record = Record(kind: Byte, id: nat, content: Text, rest: Text)

  function Two(h: nat, l: nat): nat {
    h * 256 + l
  }

  function ReadRecord(b: Text): Option<Record> {
    if |b| < 8 || b[0] != 1 then None
    else
      var n: nat, p: nat := Two(b[4], b[5]), b[6];
      if |b| < 8 + n + p then None else Some(Record(b[1], Two(b[2], b[3]), b[8..8 + n], b[8 + n + p..]))
  }

  // A length by section 3.4, with the bytes after it.
  function ReadSize(b: Text): Option<(nat, Text)> {
    if b == [] then None
    else if b[0] < 128 then Some((b[0], b[1..]))
    else if |b| < 4 then None
    else Some((Number([b[0] - 128] + b[1..4]), b[4..]))
  }

  function Number(d: Text): nat {
    if d == [] then 0 else 256 * Number(d[..|d| - 1]) + d[|d| - 1]
  }

  function ReadParam(b: Text): Option<(Param, Text)> {
    var k := ReadSize(b);
    if k.None? then None
    else
      var v := ReadSize(k.value.1);
      if v.None? then None
      else
        var n, m, d := k.value.0, v.value.0, v.value.1;
        if |d| < n + m then None else Some((Param(d[..n], d[n..n + m]), d[n + m..]))
  }

  lemma {:induction false} ReadParamShorter(b: Text)
    ensures ReadParam(b).Some? ==> |ReadParam(b).value.1| < |b|
  {
  }

  function ReadParams(b: Text): Option<seq<Param>>
    decreases |b|
  {
    if b == [] then Some([])
    else
      var r := ReadParam(b);
      ReadParamShorter(b);
      if r.None? then None
      else
        var more := ReadParams(r.value.1);
        if more.None? then None else Some([r.value.0] + more.value)
  }

  function Power(k: nat): nat {
    if k == 0 then 1 else 256 * Power(k - 1)
  }

  lemma {:induction false} NumberBack(n: nat, k: nat)
    requires n < Power(k)
    ensures Number(Digits(n, k)) == n
    decreases k
  {
    if k > 0 {
      NumberBack(n / 256, k - 1);
      assert Digits(n, k)[..k - 1] == Digits(n / 256, k - 1);
    }
  }

  // Below 2^31 the first of four bytes leaves room for the flag.
  lemma {:induction false} TopByte(n: nat)
    requires n < 0x8000_0000
    ensures n < Power(4) && Digits(n, 4)[0] < 128
  {
    var a, b := n / 256, n / 256 / 256;
    assert Digits(n, 4)[0] == Digits(a, 3)[0] == Digits(b, 2)[0] == Digits(b / 256, 1)[0];
    assert Digits(b / 256, 1) == [] + [b / 256 % 256] && b / 256 < 128;
    assert Power(4) == 256 * (256 * (256 * (256 * Power(0))));
  }

  lemma {:induction false} SizeBack(n: nat, rest: Text)
    requires n < 0x8000_0000
    ensures ReadSize(Size(n) + rest) == Some((n, rest))
  {
    var b := Size(n) + rest;
    if n > 127 {
      TopByte(n);
      NumberBack(n, 4);
      hide Digits, Number, Power;
      var d := Digits(n, 4);
      assert b[4..] == rest && b[1..4] == d[1..] && [b[0] - 128] + b[1..4] == d;
    } else {
      assert b[1..] == rest;
    }
  }

  lemma {:induction false} ParamBack(p: Param, rest: Text)
    requires |p.key| < 0x8000_0000 && |p.value| < 0x8000_0000
    ensures ReadParam(Encoded(p) + rest) == Some((p, rest))
  {
    hide Size, ReadSize;
    var d := p.key + p.value + rest;
    var b := Encoded(p) + rest;
    assert b == Size(|p.key|) + (Size(|p.value|) + d);
    SizeBack(|p.key|, Size(|p.value|) + d);
    SizeBack(|p.value|, d);
    assert d[..|p.key|] == p.key && d[|p.key|..|p.key| + |p.value|] == p.value && d[|p.key| + |p.value|..] == rest;
  }

  lemma {:induction false} ContentLast(params: seq<Param>)
    requires params != []
    ensures Content(params) == Content(params[..|params| - 1]) + Encoded(params[|params| - 1])
  {
  }

  // The content is read back as the list, from both ends.
  lemma {:induction false} ContentFront(params: seq<Param>)
    requires params != []
    ensures Content(params) == Encoded(params[0]) + Content(params[1..])
  {
    hide Encoded, Content;
    var n := |params| - 1;
    var init, last := params[..n], params[n];
    ContentLast(params);
    if n == 0 {
      assert params[1..] == [] && init == [];
      NothingYet();
      assert [] + Encoded(params[0]) == Encoded(params[0]) + [];
    } else {
      ContentFront(init);
      ContentLast(params[1..]);
      assert init[1..] == params[1..][..n - 1] && params[1..][n - 1] == last;
    }
  }

  lemma {:induction false} ContentBack(params: seq<Param>)
    requires forall i | 0 <= i < |params| :: |params[i].key| < 0x8000_0000 && |params[i].value| < 0x8000_0000
    ensures ReadParams(Content(params)) == Some(params)
    decreases |params|
  {
    hide ReadParam, Encoded, Content;
    if params == [] {
      NothingYet();
    } else {
      ContentFront(params);
      ParamBack(params[0], Content(params[1..]));
      ContentBack(params[1..]);
      Something(params[0]);
      assert [params[0]] + params[1..] == params;
    }
  }

  lemma {:induction false} Something(p: Param)
    ensures Encoded(p) != []
  {
  }

  // Every request with short keys and at most 65535 bytes of parameters is read back: the
  // parameters, then the empty record that ends them.
  lemma {:induction false} RequestBack(params: seq<Param>, last: Text)
    requires |last| == HEADER && Total(params) <= 65535 && forall i | 0 <= i < |params| :: |params[i].key| <= 127
    ensures var r0 := ReadRecord(Request(params, last));
            && r0.Some? && r0.value.kind == 1 && r0.value.id == 1 && r0.value.content == [0, 1, 0, 0, 0, 0, 0, 0]
            && var r1 := ReadRecord(r0.value.rest);
            && r1.Some? && r1.value.kind == 4 && r1.value.id == 1 && ReadParams(r1.value.content) == Some(params)
            && (|r1.value.content| + Padding(Total(params))) % 8 == 0
            && ReadRecord(r1.value.rest) == Some(Record(4, 1, [], last))
  {
    hide ReadParams, Content, Total, ReadRecord, Padding;
    var len := Total(params);
    ContentSize(params);
    NoLongKeys(params);
    ShortValues(params);
    ContentBack(params);
    var tail := [1, 4, 0, 1, 0, 0, 0, 0] + last;
    var rest := [1, 4, 0, 1] + [len / 256 % 256, len % 256, Padding(len), 0] + Content(params)
          + Zeros(Padding(len)) + tail;
    assert Request(params, last) == [1, 1, 0, 1, 0, 8, 0, 0] + [0, 1, 0, 0, 0, 0, 0, 0] + [] + rest;
    assert len / 256 % 256 * 256 + len % 256 == len;
    RecordBack(1, 0, 8, 0, [0, 1, 0, 0, 0, 0, 0, 0], [], rest);
    assert rest == [1, 4, 0, 1, len / 256 % 256, len % 256, Padding(len), 0] + Content(params)
               + Zeros(Padding(len)) + tail;
    RecordBack(4, len / 256 % 256, len % 256, Padding(len), Content(params), Zeros(Padding(len)), tail);
    assert tail == [1, 4, 0, 1, 0, 0, 0, 0] + [] + [] + last;
    RecordBack(4, 0, 0, 0, [], [], last);
  }

  lemma {:induction false} RecordBack(kind: Byte, h: Byte, l: Byte, p: Byte, content: Text, padding: Text, rest: Text)
    requires |content| == Two(h, l) && |padding| == p
    ensures ReadRecord([1, kind, 0, 1, h, l, p, 0] + content + padding + rest) == Some(Record(kind, 1, content, rest))
  {
    var b := [1, kind, 0, 1, h, l, p, 0] + content + padding + rest;
    assert b[8..8 + |content|] == content && b[8 + |content| + |padding|..] == rest;
  }

  lemma {:induction false} ShortValues(params: seq<Param>)
    ensures forall i | 0 <= i < |params| :: |params[i].value| <= Total(params)
  {
    if params != [] {
      var init := params[..|params| - 1];
      ShortValues(init);
      assert forall i | 0 <= i < |init| :: init[i] == params[i];
    }
  }

  // A key of 128 bytes: the request runs three bytes over its buffer.
  lemma {:induction false} LongKeyRunsOver(last: Text)
    requires |last| == HEADER
    ensures var params := [Param(seq(128, i => 65), [])];
            |Request(params, last)| == HEADER + BEGIN + HEADER + Total(params) + Padding(Total(params)) + HEADER
                  + HEADER + 3
  {
    var params := [Param(seq(128, i => 65), [])];
    assert params[..0] == [] && LongKeys(params[..0]) == 0;
    FillsBuffer(params, last, HEADER + BEGIN + HEADER + Total(params) + Padding(Total(params)) + HEADER + HEADER);
  }
}
