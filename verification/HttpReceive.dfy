/** The header buffer of a request and the loop that fills and parses it (src/http_request.c,
    src/utils.c, src/http.c). */
module HttpReceive {
  import opened CText
  import opened HttpHeader
  import opened Sockets

  /** A stored header: where its name and its value lie in the buffer. */
  datatype Ref = Ref(nameAt: nat, nameLen: nat, valueAt: nat, valueLen: nat)

  /** Buffer `b` has header `h` at `r`, below `limit`, and its name ends in a NUL. */
  ghost predicate RefOk(b: seq<char>, r: Ref, h: Header, limit: nat) {
    && At(b, r.nameAt, h.name) && r.nameLen == |h.name| && NUL !in h.name
    && r.nameAt + r.nameLen < limit <= |b| && b[r.nameAt + r.nameLen] == NUL
    && At(b, r.valueAt, h.value) && r.valueLen == |h.value| && r.valueAt + r.valueLen <= limit
  }

  ghost predicate RefsOk(b: seq<char>, refs: seq<Ref>, hs: seq<Header>, limit: nat) {
    |refs| == |hs| && forall k :: 0 <= k < |refs| ==> RefOk(b, refs[k], hs[k], limit)
  }

  lemma AtBelow(b: seq<char>, b': seq<char>, limit: nat, p: nat, s: string)
    requires limit <= |b| == |b'| && b[..limit] == b'[..limit] && At(b, p, s) && p + |s| <= limit
    ensures At(b', p, s)
  {
    assert b[p..p + |s|] == b[..limit][p..p + |s|];
    assert b'[p..p + |s|] == b'[..limit][p..p + |s|];
  }

  /** Writing at or above the limit leaves the headers alone. */
  lemma RefsBelow(b: seq<char>, b': seq<char>, refs: seq<Ref>, hs: seq<Header>, limit: nat)
    requires limit <= |b| == |b'| && b[..limit] == b'[..limit] && RefsOk(b, refs, hs, limit)
    ensures RefsOk(b', refs, hs, limit)
  {
    forall k | 0 <= k < |refs| ensures RefOk(b', refs[k], hs[k], limit) {
      assert RefOk(b, refs[k], hs[k], limit);
      AtBelow(b, b', limit, refs[k].nameAt, hs[k].name);
      AtBelow(b, b', limit, refs[k].valueAt, hs[k].value);
      assert b[..limit][refs[k].nameAt + refs[k].nameLen] == b'[..limit][refs[k].nameAt + refs[k].nameLen];
    }
  }

  predicate IsNul(c: char) { c == NUL }

  /** The C string at `p`: everything up to the next NUL. */
  ghost function CString(b: seq<char>, p: nat): (s: string)
    requires p < |b| && b[|b| - 1] == NUL
    ensures p + |s| < |b| && At(b, p, s) && NUL !in s && b[p + |s|] == NUL
  {
    b[p..ScanUntil(b, p, IsNul)]
  }

  /** A well-formed line that starts with its name is cut at its first colon. */
  lemma TokenOf(t: string, s: string)
    requires t <= s && t != [] && t[0] != ':' && ':' in t
    ensures ScanWhile(s, 0, IsColon) == 0
    ensures ScanUntil(s, 1, IsColon) == ScanUntil(t, 0, IsColon) < |t|
  {
    assert s[0] == t[0];
    var c := ScanUntil(t, 0, IsColon);
    assert t[c] == ':' by {
      var i :| 0 <= i < |t| && t[i] == ':';
    }
    assert forall i :: 0 <= i < |t| ==> s[i] == t[i];
  }

  lemma PrefixOfCString(b: seq<char>, p: nat, t: string)
    requires p < |b| && b[|b| - 1] == NUL && At(b, p, t) && NUL !in t
    ensures t <= CString(b, p)
  {
    var s := CString(b, p);
    assert forall i :: 0 <= i < |t| ==> b[p + i] == b[p..p + |t|][i] == t[i];
    assert |t| <= |s|;
    assert forall i :: 0 <= i < |t| ==> s[i] == b[p..p + |s|][i] == b[p + i];
  }

  lemma CutAt(b: seq<char>, q: nat, t: string, c: nat)
    requires At(b, q, t) && c < |t|
    ensures At(b[q + c := NUL], q, t[..c])
  {
    assert b[q..q + |t|][..c] == b[q..q + c];
  }

  /** Cutting a name off at its colon and again after its last character. */
  lemma CutName(b: seq<char>, q: nat, t: string, c: nat, m: nat)
    requires At(b, q, t) && m <= c < |t| && q + |t| < |b|
    ensures var b' := b[q + c := NUL][q + m := NUL];
      && At(b', q, t[..m]) && b'[q + m] == NUL && At(b', q + c + 1, t[c + 1..])
      && b'[..q] == b[..q] && b'[q + c + 1..] == b[q + c + 1..]
  {
    var b' := b[q + c := NUL][q + m := NUL];
    assert b'[q..q + m] == b[q..q + |t|][..m];
    assert b'[q + c + 1..q + |t|] == b[q..q + |t|][c + 1..];
  }

  lemma TrimLeftNoNul(s: string)
    requires NUL !in s
    ensures NUL !in TrimLeft(s)
  {
  }

  /** The trimmed length is the place in front of the trailing space. */
  lemma {:induction false} TrimEnd(s: string)
    ensures |TrimRight(s)| <= |s|
    ensures |TrimRight(s)| > 0 ==> !IsSpace(s[|TrimRight(s)| - 1])
    ensures forall i :: |TrimRight(s)| <= i < |s| ==> IsSpace(s[i])
  {
  }

  lemma NameNoNul(t: string, c: nat)
    requires NUL !in t && c <= |t|
    ensures NUL !in TrimRight(t[..c])
  {
  }

  lemma KeepBelow(b: seq<char>, b1: seq<char>, b2: seq<char>, p: nat, q: nat, next: nat, eol: nat)
    requires p <= q < next <= eol < |b| == |b1| == |b2|
    requires b1[..q] == b[..q] && b1[next..] == b[next..] && b2[..next] == b1[..next] && b2[eol + 1..] == b1[eol + 1..]
    ensures b2[..p] == b[..p] && b2[eol + 1..] == b[eol + 1..]
  {
    assert b2[..p] == b2[..next][..p] && b1[..p] == b1[..q][..p] && b[..p] == b[..q][..p] && b1[..p] == b1[..next][..p];
    assert b1[eol + 1..] == b1[next..][eol + 1 - next..] && b[eol + 1..] == b[next..][eol + 1 - next..];
  }

  lemma RefsRaise(b: seq<char>, refs: seq<Ref>, hs: seq<Header>, limit: nat, limit': nat)
    requires limit <= limit' <= |b| && RefsOk(b, refs, hs, limit)
    ensures RefsOk(b, refs, hs, limit')
  {
    forall k | 0 <= k < |refs| ensures RefOk(b, refs[k], hs[k], limit') {
      assert RefOk(b, refs[k], hs[k], limit);
    }
  }

  lemma {:induction false} SetFound(hs: seq<Header>, name: string, value: string, i: nat)
    requires i < |hs| && name <= hs[i].name && forall k :: 0 <= k < i ==> !(name <= hs[k].name)
    ensures HeaderSet(hs, name, value) == hs[i := hs[i].(value := value)]
  {
    if i > 0 {
      SetFound(hs[1..], name, value, i - 1);
    }
  }

  lemma {:induction false} SetNew(hs: seq<Header>, name: string, value: string)
    requires forall k :: 0 <= k < |hs| ==> !(name <= hs[k].name)
    ensures HeaderSet(hs, name, value) == hs + [Header(name, value)]
  {
    if hs != [] {
      SetNew(hs[1..], name, value);
    }
  }

  /** `strncmp` of the `n` characters at `p` with the string at `q`, asked only for equality. */
  method SameStart(data: array<char>, p: nat, q: nat, n: nat, ghost name: string, ghost stored: string)
        returns (same: bool)
    requires At(data[..], p, name) && |name| == n && NUL !in name
    requires At(data[..], q, stored) && NUL !in stored && q + |stored| < data.Length && data[q + |stored|] == NUL
    ensures same <==> name <= stored
  {
    assert forall i :: 0 <= i < n ==> data[p + i] == data[..][p..p + n][i] == name[i];
    assert forall i :: 0 <= i < |stored| ==> data[q + i] == data[..][q..q + |stored|][i] == stored[i];
    var i := 0;
    while i < n
      invariant 0 <= i <= n && i <= |stored| && name[..i] == stored[..i]
    {
      if data[p + i] != data[q + i] {
        if i < |stored| {
          assert name[i] != stored[i];
        }
        return false;
      }
      i := i + 1;
    }
    same := true;
  }

  class HeaderBuf {
    const data: array<char>
    var pos: nat
    var last: nat
    const end: nat
    var refs: seq<Ref>

    /** A zeroed buffer of `size` bytes and one more. */
    constructor (size: nat)
      ensures Valid() && fresh(data) && pos == 0 && last == 0 && end == size && refs == []
    {
      data := new char[size + 1](_ => NUL);
      pos, last, end, refs := 0, 0, size, [];
    }

    ghost predicate Valid()
      reads this, data
    {
      && data.Length == end + 1 && pos <= last <= end
      && forall i :: last <= i <= end ==> data[i] == NUL
    }

    /** `http_header_set` on references into the buffer. */
    method SetHeader(r: Ref, ghost h: Header, ghost hs: seq<Header>, ghost limit: nat)
      requires RefsOk(data[..], refs, hs, limit) && RefOk(data[..], r, h, limit)
      modifies this`refs
      ensures RefsOk(data[..], refs, HeaderSet(hs, h.name, h.value), limit)
    {
      hide HeaderSet, At;
      var i := 0;
      while i < |refs|
        invariant 0 <= i <= |refs| && refs == old(refs)
        invariant forall k :: 0 <= k < i ==> !(h.name <= hs[k].name)
      {
        assert RefOk(data[..], refs[i], hs[i], limit);
        var same := SameStart(data, r.nameAt, refs[i].nameAt, r.nameLen, h.name, hs[i].name);
        if same {
          SetFound(hs, h.name, h.value, i);
          refs := refs[i := refs[i].(valueAt := r.valueAt, valueLen := r.valueLen)];
          return;
        }
        i := i + 1;
      }
      SetNew(hs, h.name, h.value);
      refs := refs + [r];
    }

    /** `find_next_eol`: the place of the end of the line that starts at `p`, or -1. `t` is the
        text there, which is followed by a NUL or has an end of line. */
    method FindEol(p: nat, ghost t: string) returns (e: int)
      requires At(data[..], p, t) && p + |t| < data.Length
      requires if Eol(t) < |t| then NUL !in t[..Eol(t)] else NUL !in t && data[p + |t|] == NUL
      ensures e == if Eol(t) < |t| then p + Eol(t) else -1
    {
      assert forall i :: 0 <= i < |t| ==> data[p + i] == data[..][p..p + |t|][i] == t[i];
      assert forall i :: 0 <= i < Eol(t) ==> t[i] == t[..Eol(t)][i];
      var q := p;
      while data[q] != '\n' && data[q] != NUL
        invariant p <= q <= p + Eol(t)
        decreases data.Length - q
      {
        q := q + 1;
      }
      e := if data[q] == NUL then -1 else q;
    }

    /** The loops that pass over space, but not beyond the end of the line. */
    method SkipSpaces(p: nat, eol: nat, ghost t: string) returns (q: nat)
      requires At(data[..], p, t) && p + |t| == eol < data.Length && NUL !in t
      ensures p <= q <= eol && At(data[..], q, TrimLeft(t)) && q + |TrimLeft(t)| == eol
    {
      q := p;
      ghost var rest := t;
      while IsSpace(data[q]) && data[q] != NUL && q < eol
        invariant p <= q <= eol && At(data[..], q, rest) && q + |rest| == eol && TrimLeft(rest) == TrimLeft(t)
        decreases eol - q
      {
        assert data[q] == data[..][q..q + |rest|][0] == rest[0];
        assert data[..][q + 1..q + |rest|] == data[..][q..q + |rest|][1..];
        rest := rest[1..];
        q := q + 1;
      }
      if rest != [] {
        assert data[q] == data[..][q..q + |rest|][0] == rest[0];
      }
    }

    /** `get_token` on the string `s` at `p`: pass over delimiters, take everything up to the next
        one, and put a NUL there. */
    method GetToken(p: nat, delim: char -> bool, ghost s: string) returns (ok: bool, start: nat, n: nat, next: nat)
      requires At(data[..], p, s) && NUL !in s && p + |s| < data.Length && data[p + |s|] == NUL
      modifies data
      ensures ok <==> ScanWhile(s, 0, delim) < |s|
      ensures !ok ==> data[..] == old(data[..])
      ensures ok ==>
                var k := ScanWhile(s, 0, delim);
                var e := ScanUntil(s, k + 1, delim);
                start == p + k && n == e - k && next == p + e + 1 && data[..] == old(data[..])[p + e := NUL]
    {
      assert forall i :: 0 <= i < |s| ==> data[p + i] == data[..][p..p + |s|][i] == s[i];
      ghost var k := ScanWhile(s, 0, delim);
      var q := p;
      while data[q] != NUL && delim(data[q])
        invariant p <= q <= p + k
        decreases data.Length - q
      {
        assert data[q] == s[q - p];
        q := q + 1;
      }
      start, n, next := p, 0, p;
      if data[q] == NUL {
        return false, start, n, next;
      }
      assert q == p + k;
      start := q;
      q := q + 1;
      ghost var e := ScanUntil(s, k + 1, delim);
      while data[q] != NUL && !delim(data[q])
        invariant p + k < q <= p + e
        decreases data.Length - q
      {
        assert data[q] == s[q - p];
        q := q + 1;
      }
      assert q == p + e;
      n := q - start;
      data[q] := NUL;
      next := q + 1;
      ok := true;
    }

    /** Cut trailing space off the `n` characters at `p`. */
    method TrimName(p: nat, n: nat, ghost s: string) returns (m: nat)
      requires At(data[..], p, s) && |s| == n && p + n < data.Length
      modifies data
      ensures m == |TrimRight(s)| && data[..] == old(data[..])[p + m := NUL]
    {
      assert forall i :: 0 <= i < n ==> data[p + i] == data[..][p..p + n][i] == s[i];
      ghost var k := |TrimRight(s)|;
      TrimEnd(s);
      hide TrimRight, At;
      m := n;
      while m > 0 && IsSpace(data[p + m - 1])
        invariant k <= m <= n
      {
        assert data[p + (m - 1)] == s[m - 1];
        m := m - 1;
      }
      assert m > 0 ==> data[p + (m - 1)] == s[m - 1];
      data[p + m] := NUL;
    }

    /** The name at the start of the text `t`, up to its colon. */
    method TakeName(q: nat, ghost t: string) returns (m: nat, next: nat)
      requires data.Length > 0 && data[data.Length - 1] == NUL
      requires At(data[..], q, t) && q + |t| < data.Length && NUL !in t && t != [] && t[0] != ':' && ':' in t
      modifies data
      ensures var c := ScanUntil(t, 0, IsColon);
                && c < |t| && next == q + c + 1
                && m == |TrimRight(t[..c])| <= c && At(data[..], q, TrimRight(t[..c])) && data[q + m] == NUL
                && At(data[..], next, t[c + 1..])
      ensures data[..][..q] == old(data[..])[..q] && data[..][next..] == old(data[..])[next..]
    {
      hide At, ScanUntil, ScanWhile, CString, TrimRight;
      ghost var b, s, c := data[..], CString(data[..], q), ScanUntil(t, 0, IsColon);
      PrefixOfCString(b, q, t);
      TokenOf(t, s);
      var ok, start, n;
      ok, start, n, next := GetToken(q, IsColon, s);
      assert start == q && n == c;
      CutAt(b, q, t, c);
      m := TrimName(q, n, t[..c]);
      assert TrimRight(t[..c]) == t[..c][..m] == t[..m];
      CutName(b, q, t, c, m);
    }

    /** The value in the rest `u` of the line; an empty one is a NULL pointer. */
    method TakeValue(next: nat, eol: nat, ghost u: string) returns (v: nat, n: nat)
      requires At(data[..], next, u) && next + |u| == eol < data.Length && NUL !in u
      modifies data
      ensures At(data[..], v, DropReturn(TrimLeft(u))) && n == |DropReturn(TrimLeft(u))| && v + n <= eol
      ensures data[..][..next] == old(data[..])[..next] && data[..][eol + 1..] == old(data[..])[eol + 1..]
    {
      hide TrimLeft;
      v := SkipSpaces(next, eol, u);
      if v == eol {
        return 0, 0;
      }
      ghost var b, val := data[..], TrimLeft(u);
      assert data[eol - 1] == b[v..v + |val|][|val| - 1];
      if data[eol - 1] == '\r' {
        data[eol - 1] := NUL;
        n := eol - 1 - v;
        assert data[..][v..v + n] == b[v..v + |val|][..n];
      } else {
        data[eol] := NUL;
        n := eol - v;
        assert data[..][v..v + n] == b[v..v + n];
      }
    }

    /** One complete line that is not the blank one. */
    method Line(p: nat, eol: nat, ghost line: string, ghost hs: seq<Header>)
      requires data.Length > 0 && data[data.Length - 1] == NUL
      requires At(data[..], p, line) && p + |line| == eol < data.Length && LineOk(line)
      requires RefsOk(data[..], refs, hs, p)
      modifies data, this`refs
      ensures RefsOk(data[..], refs, AddLine(hs, line), eol + 1)
      ensures data[..][eol + 1..] == old(data[..])[eol + 1..]
    {
      hide At, RefsOk, TrimLeft, ScanUntil, TrimRight, HeaderSet, DropReturn;
      ghost var t, b := TrimLeft(line), data[..];
      TrimLeftNoNul(line);
      var q := SkipSpaces(p, eol, line);
      if q == eol {
        RefsRaise(b, refs, hs, p, eol + 1);
        return;
      }
      ghost var c := ScanUntil(t, 0, IsColon);
      var m, next := TakeName(q, t);
      ghost var b1 := data[..];
      var v, n := TakeValue(next, eol, t[c + 1..]);
      ghost var b2 := data[..];
      KeepBelow(b, b1, b2, p, q, next, eol);
      RefsBelow(b, b2, refs, hs, p);
      RefsRaise(b2, refs, hs, p, eol + 1);
      AtBelow(b1, b2, next, q, TrimRight(t[..c]));
      assert b2[..next][q + m] == b1[..next][q + m];
      ghost var h := Header(NameOf(line), ValueOf(line));
      var r := Ref(q, m, v, n);
      NameNoNul(t, c);
      assert RefOk(b2, r, h, eol + 1);
      SetHeader(r, h, hs, eol + 1);
    }

    /** The unread part of the buffer is `t`, and the headers read so far are `hs`. */
    ghost predicate Shows(hs: seq<Header>, t: string)
      reads this, data
    {
      Valid() && data[..][pos..last] == t && RefsOk(data[..], refs, hs, pos)
    }

    /** One round of `http_parse_header_line`: -1 at an unfinished line, 1 after the blank line, 0
        after any other line. */
    method Round(ghost hs: seq<Header>, ghost t: string) returns (st: int)
      requires Shows(hs, t) && BlockOk(t) && pos < last
      modifies this`pos, this`refs, data
      ensures var e := Eol(t);
                if e == |t| then st == -1 && pos == old(pos) && Shows(hs, t)
                else
                  && pos == old(pos) + e + 1
                  && if Blank(t[..e]) then st == 1 && Shows(hs, t[e + 1..])
                     else st == 0 && Shows(AddLine(hs, t[..e]), t[e + 1..])
      ensures last == old(last)
    {
      hide RefsOk, Blank, LineOk, Eol, AddLine, BlockOk, Parse;
      EolFacts(hs, t);
      ghost var e, b := Eol(t), data[..];
      assert At(b, pos, t);
      var eol := FindEol(pos, t);
      if eol == -1 {
        return -1;
      }
      BlankLine(b, pos, last, t, e);
      if eol == pos || (eol == pos + 1 && data[pos] == '\r' && data[eol] == '\n') {
        RefsRaise(b, refs, hs, pos, eol + 1);
        st := 1;
      } else {
        Line(pos, eol, t[..e], hs);
        st := 0;
      }
      RestOf(b, data[..], pos, eol, last, t);
      pos := eol + 1;
    }

    /** `http_parse_header_line`: 1 when the blank line has been read, -1 when more text is needed. */
    method ParseHeaderLine(ghost hs: seq<Header>, ghost t: string) returns (ret: int)
      requires Shows(hs, t) && BlockOk(t)
      modifies this`pos, this`refs, data
      ensures var r := Parse(hs, t);
                ret == (if r.done then 1 else -1) && pos == old(pos) + r.consumed && Shows(r.headers, t[r.consumed..])
      ensures last == old(last)
    {
      hide Shows, Blank, LineOk, Eol, AddLine, BlockOk, Parse;
      ghost var cur, u := hs, t;
      ret := -1;
      while pos < last
        invariant Shows(cur, u) && BlockOk(u) && last == old(last)
        invariant old(pos) <= pos <= old(pos) + |t| && u == t[pos - old(pos)..]
        invariant Shift(Parse(cur, u), pos - old(pos)) == Parse(hs, t)
        decreases last - pos
      {
        EolFacts(cur, u);
        ghost var e := Eol(u);
        ret := Round(cur, u);
        if ret != 0 {
          assert u[0..] == u;
          return;
        }
        cur, u := AddLine(cur, u[..e]), u[e + 1..];
        ret := -1;
      }
      NothingUnread(cur, u);
      EolFacts(cur, u);
    }

    /** One `recv` behind the text that is already there. */
    method Fill(sock: Socket, ghost hs: seq<Header>, ghost t: string) returns (count: int)
      requires Shows(hs, t) && last < end
      modifies this`last, data, sock
      ensures count <= |old(sock.stream)| && (old(sock.Willing()) && old(sock.stream) != [] ==> count > 0)
      ensures count > 0 ==>
                && sock.stream == old(sock.stream)[count..] && Shows(hs, t + old(sock.stream)[..count])
                && last == old(last) + count && (old(sock.Willing()) ==> sock.Willing())
    {
      hide RefsOk;
      ghost var b, stream := data[..], sock.stream;
      count := sock.Recv(data, last, end - last);
      if count > 0 {
        FilledBuffer(b, data[..], pos, last, t, stream[..count]);
        RefsBelow(b, data[..], refs, hs, pos);
        last := last + count;
      }
    }

    /** The receive loop of `http_process_header_line`, for a header block that fits the buffer:
        for every way the text is split by `recv`, the headers and the final position are those of
        one parse of the whole text, and nothing behind the block is lost. Returns 0 when the
        connection ends first. */
    method ProcessHeaders(sock: Socket, ghost hs: seq<Header>, ghost t: string) returns (rc: int)
      requires Shows(hs, t) && BlockOk(t + sock.stream)
      requires var r := Parse(hs, t + sock.stream);
                 pos + (if r.done then r.consumed else |t + sock.stream| + 1) <= end
      modifies this, data, sock
      ensures rc == 1 ==>
                var r := Parse(hs, t + old(sock.stream));
                && r.done && pos == old(pos) + r.consumed && pos <= last <= end
                && Shows(r.headers, data[..][pos..last])
                && data[..][pos..last] + sock.stream == (t + old(sock.stream))[r.consumed..]
      ensures rc == 0 || rc == 1
      ensures rc == 0 ==> !(Parse(hs, t + old(sock.stream)).done && old(sock.Willing()))
    {
      hide Shows, BlockOk, Parse, HeaderBuf.Valid;
      ghost var all := t + sock.stream;
      ghost var cur, u := hs, t;
      assert all[0..] == all;
      while true
        invariant old(pos) <= pos && Shows(cur, u) && BlockOk(u + sock.stream)
        invariant pos - old(pos) <= |all| && u + sock.stream == all[pos - old(pos)..]
        invariant Shift(Parse(cur, u + sock.stream), pos - old(pos)) == Parse(hs, all)
        invariant old(sock.Willing()) ==> sock.Willing()
        decreases |sock.stream|
      {
        OkAppend(cur, u, sock.stream);
        ParseAppend(cur, u, sock.stream);
        ghost var p := Parse(cur, u);
        var ret := ParseHeaderLine(cur, u);
        assert u[p.consumed..] + sock.stream == (u + sock.stream)[p.consumed..];
        if ret == 1 {
          ShownText(p.headers, u[p.consumed..]);
          return 1;
        }
        cur, u := p.headers, u[p.consumed..];
        RoomLeft(cur, u, sock.stream);
        UnreadLength(cur, u);
        ghost var stream := sock.stream;
        var count := Fill(sock, cur, u);
        if count <= 0 {
          if Parse(hs, all).done {
            assert stream != [];
          }
          return 0;
        }
        assert u + stream[..count] + stream[count..] == u + stream;
        u := u + stream[..count];
      }
    }

    lemma ShownText(hs: seq<Header>, t: string)
      requires Shows(hs, t)
      ensures pos <= last <= end && end < data.Length && data[..][pos..last] == t
    {
    }

    lemma UnreadLength(hs: seq<Header>, t: string)
      requires Shows(hs, t)
      ensures last == pos + |t| <= end
    {
    }

    lemma NothingUnread(hs: seq<Header>, t: string)
      requires Shows(hs, t) && pos >= last
      ensures t == []
    {
    }
  }

  /** The block is not finished, so more than the unread text belongs to it. */
  lemma RoomLeft(hs: seq<Header>, u: string, stream: string)
    requires Eol(u) == |u|
    ensures Parse(hs, u + stream).done ==> Parse(hs, u + stream).consumed > |u|
  {
    NoEolAppend(u, stream);
  }

  lemma FilledBuffer(b: seq<char>, b': seq<char>, pos: nat, last: nat, t: string, chunk: string)
    requires pos <= last && last + |chunk| < |b| && b[pos..last] == t
    requires b' == b[..last] + chunk + b[last + |chunk|..]
    ensures |b'| == |b| && b'[..pos] == b[..pos] && b'[pos..last + |chunk|] == t + chunk
    ensures forall i :: last + |chunk| <= i < |b| ==> b'[i] == b[i]
  {
  }

  /** One step of `Parse`, and what it asks of the line. */
  lemma EolFacts(hs: seq<Header>, t: string)
    requires BlockOk(t)
    ensures var e := Eol(t);
      if e == |t| then NUL !in t && Parse(hs, t) == Progress(hs, 0, false)
      else
        && t[e] == '\n' && NUL !in t[..e]
        && if Blank(t[..e]) then Parse(hs, t) == Progress(hs, e + 1, true)
           else LineOk(t[..e]) && BlockOk(t[e + 1..])
                && Parse(hs, t) == Shift(Parse(AddLine(hs, t[..e]), t[e + 1..]), e + 1)
    ensures t == [] ==> Eol(t) == |t|
  {
  }

  lemma BlankLine(b: seq<char>, pos: nat, last: nat, u: string, e: nat)
    requires pos <= last <= |b| && b[pos..last] == u && e < |u|
    ensures At(b, pos, u) && At(b, pos, u[..e]) && b[pos + e] == u[e]
    ensures Blank(u[..e]) <==> e == 0 || (e == 1 && b[pos] == '\r')
  {
    assert b[pos..pos + e] == u[..e];
    assert e > 0 ==> b[pos] == u[0];
  }

  lemma RestOf(b: seq<char>, b': seq<char>, pos: nat, eol: nat, last: nat, u: string)
    requires pos <= eol < last < |b| == |b'| && b[pos..last] == u && b'[eol + 1..] == b[eol + 1..]
    ensures b'[eol + 1..last] == u[eol + 1 - pos..]
    ensures forall i :: last <= i < |b| ==> b'[i] == b[i]
  {
    assert b'[eol + 1..last] == b'[eol + 1..][..last - eol - 1];
    assert b[eol + 1..last] == b[eol + 1..][..last - eol - 1];
    forall i | last <= i < |b| ensures b'[i] == b[i] {
      assert b'[i] == b'[eol + 1..][i - eol - 1];
    }
  }
}
