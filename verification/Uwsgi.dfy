/** The request packet sent to a uwsgi server (src/module_uwsgi.c): its length is computed first,
    then a buffer of that size is filled. */
module Uwsgi {
  import opened CText
  import opened Options
  import D = Digits
  import H = HttpHeader

  // The packet ----------------------------------------------------------------------------------

  datatype Var = Var(name: string, value: string)

  /** Two bytes, the low one first. */
  function LittleEndian(n: nat): (s: string)
    requires n < 65536
    ensures |s| == 2
  {
    [(n % 256) as char, (n / 256) as char]
  }

  /** Name and value, each with its length in front. */
  predicate VarOk(v: Var) { |v.name| < 65536 && |v.value| < 65536 }

  function Size(v: Var): nat { |v.name| + |v.value| + 4 }

  function Total(vs: seq<Var>): nat { if vs == [] then 0 else Total(vs[..|vs| - 1]) + Size(vs[|vs| - 1]) }

  function EncodeVar(v: Var): (s: string)
    ensures VarOk(v) ==> |s| == Size(v)
  {
    if VarOk(v) then LittleEndian(|v.name|) + v.name + LittleEndian(|v.value|) + v.value else []
  }

  function Encode(vs: seq<Var>): string {
    if vs == [] then [] else Encode(vs[..|vs| - 1]) + EncodeVar(vs[|vs| - 1])
  }

  /** The bytes of a variable: each length has its low byte first. */
  lemma VarLayout(v: Var)
    requires VarOk(v)
    ensures var s, n, m := EncodeVar(v), |v.name|, |v.value|;
            && |s| == n + m + 4
            && s[0] as int == n % 256 && s[1] as int == n / 256 && s[2..2 + n] == v.name
            && s[2 + n] as int == m % 256 && s[3 + n] as int == m / 256 && s[4 + n..] == v.value
  {
  }

  /** The number at the start of `s`. */
  function Number(s: string): nat
    requires |s| >= 2
  {
    s[0] as int + 256 * s[1] as int
  }

  /** The receiving side: cut a block of variables up again. */
  function Decode(s: string): Option<seq<Var>>
    decreases |s|
  {
    if s == [] then Some([])
    else if |s| < 2 || |s| < 2 + Number(s) + 2 then None
    else
      var n := Number(s);
      var t := s[2 + n..];
      var m := Number(t);
      if |t| < 2 + m then None
      else
        var rest := Decode(t[2 + m..]);
        if rest == None then None else Some([Var(s[2..2 + n], t[2..2 + m])] + rest.value)
  }

  lemma NumberOf(n: nat, s: string)
    requires n < 65536
    ensures Number(LittleEndian(n) + s) == n
  {
  }

  lemma {:induction false} DecodeStep(s: string, n: nat, t: string, m: nat, rest: string)
    requires |s| >= n + 4 && Number(s) == n && t == s[2 + n..] && |t| >= m + 2 && Number(t) == m && rest == t[2 + m..]
    ensures var r := Decode(rest);
      Decode(s) == if r == None then None else Some([Var(s[2..2 + n], t[2..2 + m])] + r.value)
  {
    hide Number;
    assert s != [];
    var r := Decode(rest);
    assert Decode(s) == (
      var n' := Number(s);
      var t' := s[2 + n'..];
      var m' := Number(t');
      var r' := Decode(t'[2 + m'..]);
      if r' == None then None else Some([Var(s[2..2 + n'], t'[2..2 + m'])] + r'.value));
  }

  lemma {:induction false} DecodeFirst(v: Var, s: string)
    requires VarOk(v)
    ensures var r := Decode(s);
      Decode(EncodeVar(v) + s) == if r == None then None else Some([v] + r.value)
  {
    hide LittleEndian, Number, Decode;
    var a, b := LittleEndian(|v.name|), LittleEndian(|v.value|);
    var t := b + (v.value + s);
    var all := a + (v.name + t);
    Regroup(a, v.name, b, v.value, s);
    NumberOf(|v.name|, v.name + t);
    Cut(a, v.name, t);
    NumberOf(|v.value|, v.value + s);
    Cut(b, v.value, s);
    DecodeStep(all, |v.name|, t, |v.value|, s);
  }

  lemma Regroup(a: string, x: string, b: string, y: string, s: string)
    ensures a + x + b + y + s == a + (x + (b + (y + s)))
  {
  }

  lemma Cut(a: string, x: string, y: string)
    requires |a| == 2
    ensures (a + (x + y))[2..2 + |x|] == x && (a + (x + y))[2 + |x|..] == y
  {
  }

  lemma {:induction false} DecodeMore(vs: seq<Var>, s: string)
    requires forall i :: 0 <= i < |vs| ==> VarOk(vs[i])
    ensures var r := Decode(s);
      Decode(Encode(vs) + s) == if r == None then None else Some(vs + r.value)
  {
    hide Decode, EncodeVar;
    if vs == [] {
      assert Encode(vs) + s == s && (Decode(s).Some? ==> vs + Decode(s).value == Decode(s).value);
    } else {
      var n := |vs| - 1;
      var v := vs[n];
      DecodeFirst(v, s);
      DecodeMore(vs[..n], EncodeVar(v) + s);
      assert Encode(vs) + s == Encode(vs[..n]) + (EncodeVar(v) + s);
      assert Decode(s).Some? ==> vs[..n] + ([v] + Decode(s).value) == vs + Decode(s).value;
    }
  }

  /** Decoding undoes encoding, in order. */
  lemma {:induction false} RoundTrip(vs: seq<Var>)
    requires forall i :: 0 <= i < |vs| ==> VarOk(vs[i])
    ensures Decode(Encode(vs)) == Some(vs)
  {
    hide Encode;
    DecodeMore(vs, []);
    assert Decode([]) == Some([]) && vs + [] == vs;
    assert Encode(vs) + [] == Encode(vs);
  }

  lemma {:induction false} EncodeLength(vs: seq<Var>)
    requires forall i :: 0 <= i < |vs| ==> VarOk(vs[i])
    ensures |Encode(vs)| == Total(vs)
  {
    hide EncodeVar;
    if vs != [] {
      EncodeLength(vs[..|vs| - 1]);
    }
  }

  lemma {:induction false} TotalPrefix(vs: seq<Var>, i: nat)
    requires i <= |vs|
    ensures Total(vs[..i]) <= Total(vs)
    ensures i < |vs| ==> Total(vs[..i + 1]) == Total(vs[..i]) + Size(vs[i])
  {
    if i < |vs| {
      assert vs[..i + 1][..i] == vs[..i];
    }
    if i == |vs| {
      assert vs[..i] == vs;
    } else {
      var n := |vs| - 1;
      TotalPrefix(vs[..n], i);
      assert vs[..n][..i] == vs[..i];
    }
  }

  /** A total below 65536 leaves no room for a variable that is too long. */
  lemma SmallVars(vs: seq<Var>)
    requires Total(vs) < 65536
    ensures forall i :: 0 <= i < |vs| ==> VarOk(vs[i])
  {
    forall i | 0 <= i < |vs| ensures VarOk(vs[i]) {
      TotalPrefix(vs, i);
      TotalPrefix(vs, i + 1);
    }
  }

  // The variables of a request --------------------------------------------------------------------

  datatype Request = Request(query: string, httpMethod: string, contentType: Option<string>, contentLen: Option<string>,
                             path: string, unparsedUrl: string, root: string, version: string, remoteIp: string,
                             serverIp: string, port: int, serverName: string, headers: seq<H.Header>)

  /** `sprintf` with "%d". */
  function Decimal(n: int): string { if n < 0 then "-" + D.Numeral(-n, 10) else D.Numeral(n, 10) }

  function OrEmpty(s: Option<string>): string { if s.Some? then s.value else "" }

  /** The CGI variables, in the order in which they are sent. REQUEST_URI is the path and PATH_INFO
      the URL as it came. */
  function CgiVars(r: Request): (vs: seq<Var>)
    ensures |vs| == 13
  {
    [Var("QUERY_STRING", r.query), Var("REQUEST_METHOD", r.httpMethod), Var("CONTENT_TYPE", OrEmpty(r.contentType)),
     Var("CONTENT_LENGTH", OrEmpty(r.contentLen)), Var("REQUEST_URI", r.path), Var("PATH_INFO", r.unparsedUrl),
     Var("DOCUMENT_ROOT", r.root), Var("SERVER_PROTOCOL", r.version), Var("SERVER_SOFTWARE", "xwp server 0.1"),
     Var("REMOTE_ADDR", r.remoteIp), Var("SERVER_ADDR", r.serverIp), Var("SERVER_PORT", Decimal(r.port)),
     Var("SERVER_NAME", r.serverName)]
  }

  /** What the variables that are easily mixed up stand for. */
  lemma CgiMeans(r: Request)
    ensures var vs := CgiVars(r);
            && vs[4] == Var("REQUEST_URI", r.path) && vs[5] == Var("PATH_INFO", r.unparsedUrl)
            && vs[6] == Var("DOCUMENT_ROOT", r.root)
            && vs[9] == Var("REMOTE_ADDR", r.remoteIp) && vs[10] == Var("SERVER_ADDR", r.serverIp)
            && (r.contentLen == None ==> vs[3] == Var("CONTENT_LENGTH", ""))
            && (r.port >= 0 ==> vs[11].name == "SERVER_PORT" && D.Value(vs[11].value, 10) == r.port)
  {
    if r.port >= 0 {
      D.NumeralValue(r.port, 10);
    }
  }

  function Lower(c: char): char { if 'A' <= c <= 'Z' then c - 'A' + 'a' else c }

  /** `strncasecmp` of a name with the start of another finds no difference. */
  predicate StartsLike(name: string, start: string) {
    |name| >= |start| && forall i :: 0 <= i < |start| ==> Lower(name[i]) == Lower(start[i])
  }

  /** Content-Type and Content-Length are sent as CGI variables; both are recognised by their first
      twelve characters. */
  predicate Skipped(name: string) { StartsLike(name, "Content-Type") || StartsLike(name, "Content-Leng") }

  lemma SkippedIs(name: string)
    ensures Skipped(name)
            <==> |name| >= 12
                 && ((forall i :: 0 <= i < 12 ==> name[i] == "content-type"[i] || name[i] == "CONTENT-TYPE"[i])
                     || (forall i :: 0 <= i < 12 ==> name[i] == "content-leng"[i] || name[i] == "CONTENT-LENG"[i]))
  {
    LikeIs(name, "Content-Type", "content-type", "CONTENT-TYPE");
    LikeIs(name, "Content-Leng", "content-leng", "CONTENT-LENG");
  }

  lemma LikeIs(name: string, start: string, low: string, high: string)
    requires |start| == |low| == |high|
    requires forall i :: 0 <= i < |start| ==>
               forall c: char :: Lower(c) == Lower(start[i]) <==> c == low[i] || c == high[i]
    ensures StartsLike(name, start)
            <==> |name| >= |start| && forall i :: 0 <= i < |start| ==> name[i] == low[i] || name[i] == high[i]
  {
    hide Lower;
  }

  function UpChar(c: char): char { if c == '-' then '_' else if 'a' <= c <= 'z' then c - 'a' + 'A' else c }

  function Up(s: string): (r: string)
    ensures |r| == |s| && forall i :: 0 <= i < |s| ==> r[i] == UpChar(s[i])
  {
    seq(|s|, i requires 0 <= i < |s| => UpChar(s[i]))
  }

  /** The other headers, renamed, in order. */
  function HeaderVars(hs: seq<H.Header>): seq<Var> {
    if hs == [] then []
    else
      var h := hs[|hs| - 1];
      HeaderVars(hs[..|hs| - 1]) + if Skipped(h.name) then [] else [Var("HTTP_" + Up(h.name), h.value)]
  }

  /** A header is left out exactly if its name begins with "Content-Type" or "Content-Leng" in small or
      capital letters. Any other is sent behind "HTTP_" in capitals, with '_' for '-'. */
  lemma {:induction false} HeaderVarsIs(hs: seq<H.Header>, more: seq<H.Header>, h: H.Header)
    ensures HeaderVars(hs + more) == HeaderVars(hs) + HeaderVars(more)
    ensures HeaderVars([h]) == []
            <==> |h.name| >= 12
                 && ((forall i :: 0 <= i < 12 ==> h.name[i] == "content-type"[i] || h.name[i] == "CONTENT-TYPE"[i])
                     || (forall i :: 0 <= i < 12 ==> h.name[i] == "content-leng"[i] || h.name[i] == "CONTENT-LENG"[i]))
    ensures HeaderVars([h]) != [] ==>
              && |HeaderVars([h])| == 1 && HeaderVars([h])[0].value == h.value
              && var name := HeaderVars([h])[0].name;
                 && |name| == 5 + |h.name| && name[..5] == "HTTP_"
                 && forall i :: 0 <= i < |h.name| ==>
                      name[5 + i] == if h.name[i] == '-' then '_'
                                     else if 'a' <= h.name[i] <= 'z' then h.name[i] - 'a' + 'A' else h.name[i]
    decreases more
  {
    assert [h][..0] == [] && HeaderVars([]) == [];
    SkippedIs(h.name);
    hide Skipped;
    if more == [] {
      assert hs + more == hs;
    } else {
      var n := |more| - 1;
      HeaderVarsIs(hs, more[..n], h);
      assert (hs + more)[..|hs + more| - 1] == hs + more[..n];
    }
  }

  function Vars(r: Request): seq<Var> { CgiVars(r) + HeaderVars(r.headers) }

  // The length ------------------------------------------------------------------------------------

  /** The length computation takes the lengths of two values in the other order. */
  function CalcVars(r: Request): (vs: seq<Var>)
    ensures |vs| == 13
  {
    CgiVars(r)[4 := Var("REQUEST_URI", r.unparsedUrl)][5 := Var("PATH_INFO", r.path)]
  }

  lemma {:induction false} TotalSwap(a: seq<Var>, b: seq<Var>, i: nat)
    requires |a| == |b| > i + 1 && Size(a[i]) + Size(a[i + 1]) == Size(b[i]) + Size(b[i + 1])
    requires forall j :: 0 <= j < |a| && j != i && j != i + 1 ==> a[j] == b[j]
    ensures Total(a) == Total(b)
  {
    var n := |a| - 1;
    if n > i + 1 {
      TotalSwap(a[..n], b[..n], i);
    } else {
      assert a[..n][..n - 1] == a[..n - 1] && b[..n][..n - 1] == b[..n - 1];
      assert a[..n - 1] == b[..n - 1];
      assert Total(a[..n]) == Total(a[..n - 1]) + Size(a[i]);
      assert Total(b[..n]) == Total(b[..n - 1]) + Size(b[i]);
    }
  }

  lemma {:induction false} TotalAppend(a: seq<Var>, b: seq<Var>)
    ensures Total(a + b) == Total(a) + Total(b)
  {
    if b == [] {
      assert a + b == a;
    } else {
      var n := |b| - 1;
      TotalAppend(a, b[..n]);
      assert (a + b)[..|a + b| - 1] == a + b[..n];
    }
  }

  lemma WrapAdd(x: nat, y: nat)
    ensures (x % 65536 + y) % 65536 == (x + y) % 65536
  {
  }

  /** One addition to the 16-bit `datasize`. */
  method Count(datasize: nat, name: string, value: nat, ghost vs: seq<Var>, ghost i: nat) returns (r: nat)
    requires i < |vs| && datasize == Total(vs[..i]) % 65536 && name == vs[i].name && value == |vs[i].value|
    ensures r == Total(vs[..i + 1]) % 65536
  {
    r := (datasize + (|name| + value + 4)) % 65536;
    WrapAdd(Total(vs[..i]), Size(vs[i]));
    TotalPrefix(vs, i);
  }

  function Len(s: Option<string>): nat { if s.Some? && |s.value| > 0 then |s.value| else 0 }

  /** `upstream_uwsgi_calc_packet_len`: the length of the variables, modulo 65536. */
  method CalcPacketLen(r: Request) returns (datasize: nat)
    ensures datasize == Total(Vars(r)) % 65536
    ensures datasize == Total(Vars(r)) <==> Total(Vars(r)) < 65536
  {
    hide CgiVars, CalcVars, Total, Skipped, Up;
    datasize := CalcCgiLen(r);
    ghost var cgi := CgiVars(r);
    CalcTotal(r);
    assert cgi + [] == cgi;
    for i := 0 to |r.headers|
      invariant datasize == Total(cgi + HeaderVars(r.headers[..i])) % 65536
    {
      var h := r.headers[i];
      assert r.headers[..i + 1][..i] == r.headers[..i];
      if !Skipped(h.name) {
        CountHeader(cgi, r.headers[..i], h);
        datasize := (datasize + (5 + |h.name| + |h.value| + 4)) % 65536;
      } else {
        assert HeaderVars(r.headers[..i + 1]) == HeaderVars(r.headers[..i]);
      }
    }
    assert r.headers[..|r.headers|] == r.headers;
  }

  lemma CalcTotal(r: Request)
    ensures Total(CalcVars(r)) == Total(CgiVars(r))
  {
    hide Total;
    TotalSwap(CalcVars(r), CgiVars(r), 4);
  }

  lemma {:induction false} CountHeader(cgi: seq<Var>, hs: seq<H.Header>, h: H.Header)
    requires !Skipped(h.name)
    ensures HeaderVars(hs + [h]) == HeaderVars(hs) + [Var("HTTP_" + Up(h.name), h.value)]
    ensures (Total(cgi + HeaderVars(hs)) % 65536 + (5 + |h.name| + |h.value| + 4)) % 65536
            == Total(cgi + HeaderVars(hs + [h])) % 65536
  {
    var v, vs := Var("HTTP_" + Up(h.name), h.value), HeaderVars(hs);
    assert (hs + [h])[..|hs|] == hs;
    assert HeaderVars(hs + [h]) == vs + [v];
    var x, y := Total(cgi + vs), 5 + |h.name| + |h.value| + 4;
    assert Total(cgi + (vs + [v])) == x + y by {
      hide HeaderVars, Skipped;
      assert (cgi + (vs + [v]))[..|cgi + vs|] == cgi + vs;
    }
    hide *;
    WrapAdd(x, y);
  }

  method CalcCgiLen(r: Request) returns (datasize: nat)
    ensures datasize == Total(CalcVars(r)) % 65536
  {
    hide Total;
    ghost var vs := CalcVars(r);
    TotalNone(vs);
    datasize := Count(0, "QUERY_STRING", |r.query|, vs, 0);
    datasize := Count(datasize, "REQUEST_METHOD", |r.httpMethod|, vs, 1);
    datasize := Count(datasize, "CONTENT_TYPE", Len(r.contentType), vs, 2);
    datasize := Count(datasize, "CONTENT_LENGTH", Len(r.contentLen), vs, 3);
    datasize := Count(datasize, "REQUEST_URI", |r.unparsedUrl|, vs, 4);
    datasize := Count(datasize, "PATH_INFO", |r.path|, vs, 5);
    datasize := CalcCgiRest(r, datasize);
  }

  lemma LastVars(r: Request)
    ensures CalcVars(r)[6..] == CgiVars(r)[6..] == [
              Var("DOCUMENT_ROOT", r.root), Var("SERVER_PROTOCOL", r.version), Var("SERVER_SOFTWARE", "xwp server 0.1"),
              Var("REMOTE_ADDR", r.remoteIp), Var("SERVER_ADDR", r.serverIp), Var("SERVER_PORT", Decimal(r.port)),
              Var("SERVER_NAME", r.serverName)]
    ensures forall i :: 6 <= i < 13 ==> CalcVars(r)[i] == CalcVars(r)[6..][i - 6]
  {
  }

  method CalcCgiRest(r: Request, datasize0: nat) returns (datasize: nat)
    requires datasize0 == Total(CalcVars(r)[..6]) % 65536
    ensures datasize == Total(CalcVars(r)) % 65536
  {
    ghost var vs := CalcVars(r);
    LastVars(r);
    hide Total, CalcVars, CgiVars, Decimal;
    datasize := Count(datasize0, "DOCUMENT_ROOT", |r.root|, vs, 6);
    datasize := Count(datasize, "SERVER_PROTOCOL", |r.version|, vs, 7);
    datasize := Count(datasize, "SERVER_SOFTWARE", |"xwp server 0.1"|, vs, 8);
    datasize := Count(datasize, "REMOTE_ADDR", |r.remoteIp|, vs, 9);
    datasize := Count(datasize, "SERVER_ADDR", |r.serverIp|, vs, 10);
    datasize := Count(datasize, "SERVER_PORT", |Decimal(r.port)|, vs, 11);
    datasize := Count(datasize, "SERVER_NAME", |r.serverName|, vs, 12);
    assert vs[..13] == vs;
  }

  lemma TotalNone(vs: seq<Var>)
    ensures Total(vs[..0]) % 65536 == 0
  {
  }

  // Writing ---------------------------------------------------------------------------------------

  /** A C string: its length matches its contents. */
  predicate Plain(s: string) { NUL !in s }

  predicate HeaderOk(h: H.Header) { Plain(h.name) && Plain(h.value) }

  predicate RequestOk(r: Request) {
    && Plain(r.query) && Plain(r.httpMethod) && Plain(OrEmpty(r.contentType)) && Plain(OrEmpty(r.contentLen))
    && Plain(r.path) && Plain(r.unparsedUrl) && Plain(r.root) && Plain(r.version) && Plain(r.remoteIp)
    && Plain(r.serverIp) && Plain(r.serverName)
    && forall i :: 0 <= i < |r.headers| ==> HeaderOk(r.headers[i])
  }

  lemma {:induction false} NumeralPlain(n: nat)
    ensures Plain(D.Numeral(n, 10))
  {
    if n >= 10 {
      NumeralPlain(n / 10);
    }
  }

  lemma DecimalPlain(n: int)
    ensures Plain(Decimal(n))
  {
    NumeralPlain(if n < 0 then -n else n);
  }

  lemma FirstNamesPlain()
    ensures Plain("QUERY_STRING") && Plain("REQUEST_METHOD") && Plain("CONTENT_TYPE") && Plain("CONTENT_LENGTH")
    ensures Plain("REQUEST_URI") && Plain("PATH_INFO")
  {
  }

  lemma LastNamesPlain()
    ensures Plain("DOCUMENT_ROOT") && Plain("SERVER_PROTOCOL") && Plain("SERVER_SOFTWARE") && Plain("xwp server 0.1")
    ensures Plain("REMOTE_ADDR") && Plain("SERVER_ADDR") && Plain("SERVER_PORT") && Plain("SERVER_NAME")
  {
  }

  /** `uint16_little_endian`. */
  method PutNumber(buf: array<char>, pos: nat, n: nat)
    requires pos + 2 <= buf.Length && n < 65536
    modifies buf
    ensures buf[..pos + 2] == old(buf[..pos]) + LittleEndian(n)
  {
    buf[pos] := (n % 256) as char;
    buf[pos + 1] := (n / 256) as char;
    assert buf[..pos + 2] == buf[..pos] + [buf[pos], buf[pos + 1]];
  }

  /** `sprintf` of a string, with its final NUL. A string that has a NUL inside would end there. */
  method PutString(buf: array<char>, pos: nat, s: string)
    requires pos + |s| < buf.Length && Plain(s)
    modifies buf
    ensures buf[..pos + |s|] == old(buf[..pos]) + s && buf[pos + |s|] == NUL
  {
    for i := 0 to |s|
      invariant buf[..pos + i] == old(buf[..pos]) + s[..i]
    {
      ghost var was := buf[..pos + i];
      buf[pos + i] := s[i];
      assert buf[..pos + i] == was && buf[..pos + i + 1] == was + [s[i]];
    }
    ghost var was := buf[..pos + |s|];
    buf[pos + |s|] := NUL;
    assert buf[..pos + |s|] == was;
  }

  /** A value with its length in front. */
  method PutValue(buf: array<char>, pos: nat, value: string) returns (next: nat)
    requires pos + 2 + |value| < buf.Length && |value| < 65536 && Plain(value)
    modifies buf
    ensures next == pos + 2 + |value| && buf[..next] == old(buf[..pos]) + LittleEndian(|value|) + value
  {
    hide LittleEndian;
    next := pos;
    if |value| > 0 {
      PutNumber(buf, next, |value|);
      next := next + 2;
      PutString(buf, next, value);
      next := next + |value|;
    } else {
      PutNumber(buf, next, 0);
      next := next + 2;
    }
  }

  /** Everything before `pos` is `head` and the first `i` variables. */
  ghost predicate Wrote(buf: array<char>, pos: nat, head: string, vs: seq<Var>, i: nat)
    reads buf
  {
    && i <= |vs| && pos == |head| + Total(vs[..i]) <= buf.Length && buf.Length == |head| + Total(vs) + 1
    && buf[..pos] == head + Encode(vs[..i])
  }

  lemma {:induction false} RoomFor(vs: seq<Var>, i: nat)
    requires i < |vs| && Total(vs) < 65536
    ensures VarOk(vs[i]) && Total(vs[..i]) + Size(vs[i]) == Total(vs[..i + 1]) <= Total(vs)
  {
    TotalPrefix(vs, i);
    TotalPrefix(vs, i + 1);
  }

  lemma {:induction false} EncodeNext(vs: seq<Var>, i: nat)
    requires i < |vs|
    ensures Encode(vs[..i + 1]) == Encode(vs[..i]) + EncodeVar(vs[i])
  {
    assert vs[..i + 1][..i] == vs[..i];
  }

  lemma NextWritten(head: string, vs: seq<Var>, i: nat, b: string)
    requires i < |vs| && b == head + Encode(vs[..i])
    ensures b + EncodeVar(vs[i]) == head + Encode(vs[..i + 1])
  {
    hide Encode, EncodeVar;
    EncodeNext(vs, i);
    assert b + EncodeVar(vs[i]) == head + (Encode(vs[..i]) + EncodeVar(vs[i]));
  }

  /** `upstream_uwsgi_add_param` at `pos`. */
  method PutParam(buf: array<char>, pos: nat, name: string, value: string) returns (next: nat)
    requires VarOk(Var(name, value)) && Plain(name) && Plain(value) && pos + Size(Var(name, value)) < buf.Length
    modifies buf
    ensures next == pos + Size(Var(name, value)) && buf[..next] == old(buf[..pos]) + EncodeVar(Var(name, value))
  {
    hide LittleEndian, Plain;
    PutNumber(buf, pos, |name|);
    PutString(buf, pos + 2, name);
    next := PutValue(buf, pos + 2 + |name|, value);
    VarBytes(old(buf[..pos]), LittleEndian(|name|), name, LittleEndian(|value|), value);
  }

  lemma VarBytes(b: string, n: string, name: string, m: string, value: string)
    ensures b + n + name + (m + value) == b + (n + name + m + value)
    ensures b + n + name + m + value == b + (n + name + m + value)
  {
  }

  /** The next of the variables `vs`. */
  method AddParam(buf: array<char>, pos: nat, name: string, value: string, ghost head: string, ghost vs: seq<Var>,
                  ghost i: nat)
      returns (next: nat)
    requires i < |vs| && vs[i] == Var(name, value) && Plain(name) && Plain(value)
    requires Total(vs) < 65536 && Wrote(buf, pos, head, vs, i)
    modifies buf
    ensures Wrote(buf, next, head, vs, i + 1)
  {
    hide EncodeVar, Encode, Total, Plain;
    RoomFor(vs, i);
    NextWritten(head, vs, i, buf[..pos]);
    next := PutParam(buf, pos, name, value);
  }

  /** One header at `pos`: its name is copied and then changed in place up to its NUL. */
  method PutHeader(buf: array<char>, pos: nat, h: H.Header) returns (next: nat)
    requires VarOk(Var("HTTP_" + Up(h.name), h.value)) && HeaderOk(h) && pos + |h.name| + |h.value| + 9 < buf.Length
    modifies buf
    ensures next == pos + |h.name| + |h.value| + 9
    ensures buf[..next] == old(buf[..pos]) + EncodeVar(Var("HTTP_" + Up(h.name), h.value))
  {
    hide LittleEndian, Plain, Up;
    ghost var b, n := buf[..pos], LittleEndian(|h.name| + 5);
    PrefixPlain(h.name);
    PutNumber(buf, pos, |h.name| + 5);
    PutString(buf, pos + 2, "HTTP_" + h.name);
    HeaderBytes(b + n, h.name);
    UpInPlace(buf, pos + 7, h.name, b + n + "HTTP_");
    HeaderBytes(b + n, Up(h.name));
    next := PutValue(buf, pos + 7 + |h.name|, h.value);
    VarBytes(b, n, "HTTP_" + Up(h.name), LittleEndian(|h.value|), h.value);
  }

  lemma PrefixPlain(name: string)
    requires Plain(name)
    ensures Plain("HTTP_" + name)
  {
  }

  lemma HeaderBytes(b: string, name: string)
    ensures b + ("HTTP_" + name) == b + "HTTP_" + name
  {
  }

  /** The next of the variables `vs`, from a header. */
  method AddHeader(buf: array<char>, pos: nat, h: H.Header, ghost head: string, ghost vs: seq<Var>, ghost i: nat)
      returns (next: nat)
    requires i < |vs| && vs[i] == Var("HTTP_" + Up(h.name), h.value) && HeaderOk(h)
    requires Total(vs) < 65536 && Wrote(buf, pos, head, vs, i)
    modifies buf
    ensures Wrote(buf, next, head, vs, i + 1)
  {
    hide EncodeVar, Encode, Total, Up, HeaderOk;
    RoomFor(vs, i);
    NextWritten(head, vs, i, buf[..pos]);
    next := PutHeader(buf, pos, h);
  }

  /** Upper case and underscores, until the NUL. */
  method UpInPlace(buf: array<char>, p: nat, s: string, ghost front: string)
    requires p + |s| < buf.Length && buf[p + |s|] == NUL && Plain(s)
    requires |front| == p && buf[..p + |s|] == front + s
    modifies buf
    ensures buf[..p + |s|] == front + Up(s)
  {
    InPlace(buf[..], p, s, front);
    hide Plain, Up, UpChar;
    var i := 0;
    while buf[p + i] != NUL
      invariant 0 <= i <= |s| && buf[p + |s|] == NUL
      invariant forall j :: 0 <= j < |s| ==> s[j] != NUL
      invariant forall j :: p <= j < p + |s| ==> buf[j] == if j - p < i then UpChar(s[j - p]) else s[j - p]
      invariant forall j :: 0 <= j < p ==> buf[j] == front[j]
      decreases |s| - i
    {
      ghost var c := buf[p + i];
      if buf[p + i] == '-' {
        buf[p + i] := '_';
      } else if 'a' <= buf[p + i] <= 'z' {
        buf[p + i] := buf[p + i] - 'a' + 'A';
      }
      UpCharIs(c);
      i := i + 1;
    }
    assert i == |s|;
  }

  lemma UpCharIs(c: char)
    ensures UpChar(c) == if c == '-' then '_' else if 'a' <= c <= 'z' then c - 'a' + 'A' else c
  {
  }

  lemma InPlace(b: seq<char>, p: nat, s: string, front: string)
    requires p + |s| < |b| && |front| == p && b[..p + |s|] == front + s && Plain(s)
    ensures forall j :: 0 <= j < p ==> b[j] == front[j]
    ensures forall j :: p <= j < p + |s| ==> b[j] == s[j - p]
    ensures forall j :: 0 <= j < |s| ==> s[j] != NUL
  {
    assert forall j :: 0 <= j < p + |s| ==> b[j] == b[..p + |s|][j];
  }

  lemma FirstVars(r: Request)
    ensures CgiVars(r)[..6] == [
              Var("QUERY_STRING", r.query), Var("REQUEST_METHOD", r.httpMethod),
              Var("CONTENT_TYPE", OrEmpty(r.contentType)), Var("CONTENT_LENGTH", OrEmpty(r.contentLen)),
              Var("REQUEST_URI", r.path), Var("PATH_INFO", r.unparsedUrl)]
    ensures |Vars(r)| >= 13
    ensures forall i :: 0 <= i < 6 ==> Vars(r)[i] == CgiVars(r)[..6][i]
    ensures forall i :: 6 <= i < 13 ==> Vars(r)[i] == CgiVars(r)[6..][i - 6]
  {
  }

  /** The calls that add the CGI variables. */
  method AddCgi(buf: array<char>, pos0: nat, r: Request, ghost head: string) returns (pos: nat)
    requires RequestOk(r) && Total(Vars(r)) < 65536 && Wrote(buf, pos0, head, Vars(r), 0)
    modifies buf
    ensures Wrote(buf, pos, head, Vars(r), 13)
  {
    FirstVars(r);
    FirstNamesPlain();
    hide Plain, CgiVars, Vars, Total, Wrote, OrEmpty;
    ghost var vs := Vars(r);
    pos := AddParam(buf, pos0, "QUERY_STRING", r.query, head, vs, 0);
    pos := AddParam(buf, pos, "REQUEST_METHOD", r.httpMethod, head, vs, 1);
    pos := AddParam(buf, pos, "CONTENT_TYPE", OrEmpty(r.contentType), head, vs, 2);
    pos := AddParam(buf, pos, "CONTENT_LENGTH", OrEmpty(r.contentLen), head, vs, 3);
    pos := AddParam(buf, pos, "REQUEST_URI", r.path, head, vs, 4);
    pos := AddParam(buf, pos, "PATH_INFO", r.unparsedUrl, head, vs, 5);
    pos := AddCgiRest(buf, pos, r, head);
  }

  method AddCgiRest(buf: array<char>, pos0: nat, r: Request, ghost head: string) returns (pos: nat)
    requires RequestOk(r) && Total(Vars(r)) < 65536 && Wrote(buf, pos0, head, Vars(r), 6)
    modifies buf
    ensures Wrote(buf, pos, head, Vars(r), 13)
  {
    FirstVars(r);
    LastVars(r);
    LastNamesPlain();
    DecimalPlain(r.port);
    hide Plain, CgiVars, CalcVars, Vars, Total, Wrote, Decimal;
    ghost var vs := Vars(r);
    pos := AddParam(buf, pos0, "DOCUMENT_ROOT", r.root, head, vs, 6);
    pos := AddParam(buf, pos, "SERVER_PROTOCOL", r.version, head, vs, 7);
    pos := AddParam(buf, pos, "SERVER_SOFTWARE", "xwp server 0.1", head, vs, 8);
    pos := AddParam(buf, pos, "REMOTE_ADDR", r.remoteIp, head, vs, 9);
    pos := AddParam(buf, pos, "SERVER_ADDR", r.serverIp, head, vs, 10);
    pos := AddParam(buf, pos, "SERVER_PORT", Decimal(r.port), head, vs, 11);
    pos := AddParam(buf, pos, "SERVER_NAME", r.serverName, head, vs, 12);
  }

  lemma {:induction false} HeaderVarsPrefix(hs: seq<H.Header>, k: nat)
    requires k <= |hs|
    ensures HeaderVars(hs[..k]) <= HeaderVars(hs)
  {
    hide Skipped, Up;
    if k == |hs| {
      assert hs[..k] == hs;
    } else {
      var n := |hs| - 1;
      HeaderVarsPrefix(hs[..n], k);
      assert hs[..n][..k] == hs[..k];
    }
  }

  /** Header `k`, unless skipped, is the next variable after those of the headers before it. */
  lemma NextHeader(r: Request, k: nat)
    requires k < |r.headers|
    ensures var h, i := r.headers[k], 13 + |HeaderVars(r.headers[..k])|;
      if Skipped(h.name) then HeaderVars(r.headers[..k + 1]) == HeaderVars(r.headers[..k])
      else
        && i < |Vars(r)| && Vars(r)[i] == Var("HTTP_" + Up(h.name), h.value)
        && |HeaderVars(r.headers[..k + 1])| == |HeaderVars(r.headers[..k])| + 1
  {
    hide Skipped, Up, CgiVars;
    var hs := r.headers;
    assert hs[..k + 1][..k] == hs[..k];
    HeaderVarsPrefix(hs, k + 1);
  }

  /** The encoding part of `upstream_uwsgi_process`, for variables of less than 65536 bytes: the
      buffer of the precomputed length is filled exactly, and the receiver gets the variables
      back. */
  method WritePacket(r: Request, modifier1: char, modifier2: char) returns (buf: array<char>, pos: nat)
    requires RequestOk(r) && Total(Vars(r)) < 65536
    ensures fresh(buf) && buf.Length == pos + 1 && pos == 4 + Total(Vars(r))
    ensures buf[..pos] == [modifier1] + LittleEndian(pos - 4) + [modifier2] + Encode(Vars(r))
    ensures Decode(buf[4..pos]) == Some(Vars(r))
  {
    hide Vars, Skipped, Up, HeaderVars, Total, Encode, Decode, LittleEndian;
    var datasize := CalcPacketLen(r);
    buf := new char[datasize + 4 + 1](_ => NUL);
    ghost var vs := Vars(r);
    ghost var head := [modifier1] + LittleEndian(datasize) + [modifier2];
    buf[0] := modifier1;
    PutNumber(buf, 1, datasize);
    buf[3] := modifier2;
    assert buf[..4] == head;
    NothingYet(vs);
    pos := AddCgi(buf, 4, r, head);
    pos := AddHeaders(buf, pos, r, head);
    SmallVars(vs);
    RoundTrip(vs);
    assert vs[..|vs|] == vs;
    assert pos == datasize + 4;
    BehindHead(buf[..pos], head, Encode(vs));
    assert buf[4..pos] == buf[..pos][4..];
  }

  lemma BehindHead(s: string, head: string, block: string)
    requires s == head + block && |head| == 4
    ensures s[4..] == block
  {
  }

  lemma NothingYet(vs: seq<Var>)
    ensures Total(vs[..0]) == 0 && Encode(vs[..0]) == []
  {
  }

  method AddHeaders(buf: array<char>, pos0: nat, r: Request, ghost head: string) returns (pos: nat)
    requires RequestOk(r) && Total(Vars(r)) < 65536 && Wrote(buf, pos0, head, Vars(r), 13)
    modifies buf
    ensures Wrote(buf, pos, head, Vars(r), |Vars(r)|)
  {
    hide Skipped, Up, Total, Wrote, CgiVars;
    pos := pos0;
    for k := 0 to |r.headers|
      invariant Wrote(buf, pos, head, Vars(r), 13 + |HeaderVars(r.headers[..k])|)
    {
      NextHeader(r, k);
      var h := r.headers[k];
      if !Skipped(h.name) {
        pos := AddHeader(buf, pos, h, head, Vars(r), 13 + |HeaderVars(r.headers[..k])|);
      }
    }
    assert r.headers[..|r.headers|] == r.headers;
  }

  /** A request whose precomputed length is wrong: its document root alone has 65536 characters. */
  method WrappedLength() returns (r: Request, datasize: nat)
    ensures RequestOk(r) && datasize < 65536 <= Total(Vars(r))
  {
    hide Total;
    var root := seq(65536, _ => '/');
    r := Request("", "GET", None, None, "/", "/", root, "HTTP/1.1", "", "", 80, "", []);
    LongRoot(r);
    datasize := CalcPacketLen(r);
  }

  lemma LongRoot(r: Request)
    requires |r.root| >= 65536
    ensures Total(Vars(r)) >= 65536
  {
    FirstVars(r);
    LastVars(r);
    hide Vars, CgiVars, CalcVars, Decimal, Total;
    assert Vars(r)[6] == CgiVars(r)[6..][0];
    TotalPrefix(Vars(r), 6);
    TotalPrefix(Vars(r), 7);
  }
}
