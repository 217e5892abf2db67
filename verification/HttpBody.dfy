/** The content body of a message (src/http_request.c): behind the header block in the header
    buffer, in a buffer of its own, or in a growing buffer until the peer closes. */
module HttpBody {
  import opened Options
  import opened Sockets

  /** A `buf_t`: text between `pos` and `last`, room up to `end`. Two of them may share memory. */
  class Buf {
    const data: array<char>
    const pos: nat
    var last: nat
    const end: nat

    ghost predicate Valid()
      reads this
    {
      pos <= last <= end <= data.Length
    }

    ghost function Text(): string
      requires Valid()
      reads this, data
    {
      data[..][pos..last]
    }

    /** `buf_create`. */
    constructor (size: nat)
      ensures Valid() && fresh(data) && Text() == [] && end - pos == size
    {
      data := new char[size](_ => '\0');
      pos, last, end := 0, 0, size;
    }

    /** The rest of another buffer, in the same memory. */
    constructor Rest(b: Buf)
      requires b.Valid()
      ensures Valid() && data == b.data && pos == b.pos && last == b.last && end == b.end
    {
      data, pos, last, end := b.data, b.pos, b.last, b.end;
    }

    /** `memcpy` of a text that fits. */
    method Append(text: string)
      requires Valid() && last + |text| <= end
      modifies this, data
      ensures Valid() && Text() == old(Text()) + text
    {
      ghost var was := data[..];
      Copy(data, last, text);
      Behind(was, pos, last, text);
      last := last + |text|;
    }

    /** `recv` into the room that is left. */
    method Fill(sock: Socket) returns (count: int)
      requires Valid()
      modifies this, data, sock
      ensures Valid() && count <= |old(sock.stream)|
      ensures count <= 0 ==> sock.stream == old(sock.stream) && Text() == old(Text())
      ensures count > 0 ==>
                Text() == old(Text()) + old(sock.stream)[..count] && sock.stream == old(sock.stream)[count..]
      ensures count == 0 ==> old(last) == end || sock.stream == []
      ensures old(sock.Willing()) ==> count >= 0 && (count > 0 ==> sock.Willing())
    {
      ghost var was, stream := data[..], sock.stream;
      count := sock.Recv(data, last, end - last);
      if count > 0 {
        Behind(was, pos, last, stream[..count]);
        last := last + count;
      }
    }
  }

  lemma Behind(b: seq<char>, pos: nat, last: nat, text: string)
    requires pos <= last && last + |text| <= |b|
    ensures (b[..last] + text + b[last + |text|..])[pos..last + |text|] == b[pos..last] + text
  {
  }

  datatype Status = Unset | BadRequest | Close

  /** A buffer with room for `n` bytes that starts with what the header buffer has left over: a new
      one, or the rest of the header buffer. */
  method FixedBuffer(header: Buf, n: int) returns (b: Buf)
    requires header.Valid() && n > 0
    ensures b.Valid() && fresh(b) && (fresh(b.data) || b.data == header.data)
    ensures b.Text() == header.Text() && n <= b.end - b.pos
  {
    if n > header.end - header.pos {
      b := new Buf(n);
      b.Append(header.data[..][header.pos..header.last]);
    } else {
      b := new Buf.Rest(header);
    }
  }

  /** A body whose length is known: the first `n` bytes of what is in the header buffer and what
      still comes, however it is split. */
  method ReceiveFixed(header: Buf, sock: Socket, n: int, max: int) returns (rc: int, status: Status, body: Option<Buf>)
    requires header.Valid() && n > 0
    modifies header, header.data, sock
    ensures var all := old(header.Text()) + old(sock.stream);
              && (rc == 1 <==> body.Some?)
              && (body.Some? ==>
                    && n <= max && n <= |all| && body.value.Valid() && n <= |body.value.Text()|
                    && body.value.Text()[..n] == all[..n] && body.value.Text() + sock.stream == all)
              && (rc != 1 ==> rc == 0 && status == if n > max then BadRequest else Close)
              && (n <= max && n <= |all| && old(sock.Willing()) ==> rc == 1)
  {
    hide Sockets.Socket.Willing;
    ghost var all := header.Text() + sock.stream;
    if n > max {
      return 0, BadRequest, None;
    }
    var b := FixedBuffer(header, n);
    var got := b.last - b.pos;
    while true
      invariant b.Valid() && got == |b.Text()| && n <= b.end - b.pos
      invariant fresh(b) && (fresh(b.data) || b.data == header.data)
      invariant b.Text() + sock.stream == all
      invariant old(sock.Willing()) ==> sock.Willing()
      decreases |sock.stream|
    {
      if got >= n {
        assert b.Text()[..n] == all[..n];
        return 1, Unset, Some(b);
      }
      ghost var stream := sock.stream;
      var count := b.Fill(sock);
      if count <= 0 {
        return 0, Close, None;
      }
      assert stream[..count] + stream[count..] == stream;
      got := got + count;
      // The capacity assertion of the source.
      assert !(got < n && b.end == b.last);
    }
  }

  /** The size of the buffer that replaces a full one of `len` bytes. */
  function NextSize(len: nat, bufSize: int): (n: nat)
    ensures n >= len
  {
    if len < bufSize then bufSize else len + len / 2
  }

  function Max(a: int, b: int): int { if a > b then a else b }

  /** How large a body can get that is read until the peer closes. */
  function Bound(room: nat, bufSize: int, max: int): int { Max(room, Max(bufSize, max + max / 2)) }

  /** A full buffer is always replaced by a larger one, or never full too early. */
  predicate Roomy(room: nat, bufSize: int, total: nat) {
    room >= 2 || bufSize >= 2 || total <= Max(room, bufSize)
  }

  /** How many bytes of `total` are read. */
  function Complete(room: nat, bufSize: int, total: nat): int {
    if Roomy(room, bufSize, total) then total else Max(room, bufSize)
  }

  /** The first capacity above `max` that is reached from `cap`, if the buffers ever grow that far:
      a body that fills it is refused. */
  function Limit(cap: nat, bufSize: int, max: int): (r: Option<nat>)
    ensures r.Some? ==> r.value >= cap && r.value > max
    decreases max - cap
  {
    if cap > max then Some(cap)
    else if NextSize(cap, bufSize) == cap then None
    else Limit(NextSize(cap, bufSize), bufSize, max)
  }

  /** The capacities grow from a full one to `bufSize`, or else by half of themselves, and stop growing
      below two bytes. */
  lemma LimitIs(cap: nat, bufSize: int, max: int)
    ensures Limit(cap, bufSize, max)
         == if cap > max then Some(cap)
            else if cap < bufSize then Limit(bufSize, bufSize, max)
            else if cap < 2 then None
            else Limit(cap + cap / 2, bufSize, max)
  {
  }

  /** The body is too long for the capacities that the buffers go through. */
  predicate Refused(room: nat, bufSize: int, max: int, total: nat) {
    Limit(room, bufSize, max).Some? && total >= Limit(room, bufSize, max).value
  }

  /** How the capacity `cap` of the current buffer has come about. */
  ghost predicate CapOk(room: nat, bufSize: int, max: int, cap: nat) {
    && room <= cap <= Bound(room, bufSize, max) && (room < 2 && bufSize < 2 ==> cap <= Max(room, bufSize))
    && Limit(cap, bufSize, max) == Limit(room, bufSize, max)
  }

  lemma Grow(room: nat, bufSize: int, max: int, cap: nat)
    requires CapOk(room, bufSize, max, cap) && cap <= max
    ensures CapOk(room, bufSize, max, NextSize(cap, bufSize)) && NextSize(cap, bufSize) >= bufSize
    ensures NextSize(cap, bufSize) == cap ==> Stuck(room, bufSize, cap) && Limit(room, bufSize, max) == None
  {
  }

  lemma Full(room: nat, bufSize: int, max: int, cap: nat)
    requires CapOk(room, bufSize, max, cap) && cap > max
    ensures Refused(room, bufSize, max, cap)
  {
  }

  /** The buffer cannot grow. */
  predicate Stuck(room: nat, bufSize: int, cap: nat) {
    room < 2 && bufSize < 2 && cap >= Max(room, bufSize)
  }

  /** Replace a full buffer, unless the body is too large already. */
  method MakeRoom(cur: Buf, bufSize: int, max: int, ghost room: nat) returns (ok: bool, next: Buf)
    requires cur.Valid() && CapOk(room, bufSize, max, cur.end - cur.pos)
    ensures !ok ==> |cur.Text()| > max && Refused(room, bufSize, max, |cur.Text()|) && next == cur
    ensures ok ==>
              && next.Valid() && next.Text() == cur.Text() && CapOk(room, bufSize, max, next.end - next.pos)
              && (next.last == next.end ==>
                    Stuck(room, bufSize, next.end - next.pos) && Limit(room, bufSize, max) == None)
    ensures next == cur || (fresh(next) && fresh(next.data))
  {
    hide CapOk, Limit, Refused;
    if cur.last != cur.end {
      return true, cur;
    }
    var len := cur.last - cur.pos;
    if len > max {
      Full(room, bufSize, max, len);
      return false, cur;
    }
    Grow(room, bufSize, max, len);
    next := new Buf(NextSize(len, bufSize));
    next.Append(cur.data[..][cur.pos..cur.last]);
    ok := true;
  }

  datatype Got = TooLong | Failed | AtEnd | More

  /** One round of the receive loop: make room, receive into it. */
  method ReceiveOnce(cur: Buf, sock: Socket, bufSize: int, max: int, ghost room: nat, ghost all: string)
      returns (got: Got, next: Buf)
    requires cur.Valid() && cur.Text() + sock.stream == all && CapOk(room, bufSize, max, cur.end - cur.pos)
    modifies cur, cur.data, sock
    ensures next.Valid() && (next == cur || (fresh(next) && fresh(next.data)))
    ensures next.Text() + sock.stream == all && CapOk(room, bufSize, max, next.end - next.pos)
    ensures got == TooLong ==> Refused(room, bufSize, max, |all|)
    ensures got == Failed ==> !old(sock.Willing())
    ensures got == AtEnd ==>
              && !Refused(room, bufSize, max, |all|) && |next.Text()| == Complete(room, bufSize, |all|)
              && (|next.Text()| == |all| <==> Roomy(room, bufSize, |all|)) && |next.Text()| <= Bound(room, bufSize, max)
    ensures got == More ==> |sock.stream| < |old(sock.stream)| && (old(sock.Willing()) ==> sock.Willing())
  {
    hide Refused, Limit, CapOk, Bound, Stuck, Roomy, Complete, Sockets.Socket.Willing;
    var ok;
    ok, next := MakeRoom(cur, bufSize, max, room);
    if !ok {
      MoreRefused(room, bufSize, max, |next.Text()|, |all|);
      return TooLong, next;
    }
    ghost var stream, cap := sock.stream, next.end - next.pos;
    var count := next.Fill(sock);
    if count < 0 {
      return Failed, next;
    }
    if count == 0 {
      Ended(room, bufSize, max, cap, |next.Text()|, |all|);
      return AtEnd, next;
    }
    assert stream[..count] + stream[count..] == stream;
    got := More;
  }

  /** A body that ends when the peer closes. It is the whole stream exactly when the buffers are
      roomy: one of at most one byte never grows and looks like the end of the stream. */
  method ReceiveAll(header: Buf, sock: Socket, bufSize: int, max: int)
      returns (rc: int, status: Status, body: Option<Buf>)
    requires header.Valid()
    modifies header, header.data, sock
    ensures var all, room := old(header.Text()) + old(sock.stream), header.end - header.pos;
              && (rc == 1 <==> body.Some?)
              && (body.Some? ==>
                    && body.value.Valid() && body.value.Text() + sock.stream == all
                    && |body.value.Text()| == Complete(room, bufSize, |all|)
                    && (body.value.Text() == all <==> Roomy(room, bufSize, |all|))
                    && |body.value.Text()| <= Bound(room, bufSize, max))
              && (rc == 1 ==> !Refused(room, bufSize, max, |all|))
              && (rc != 1 ==> rc == 0 && status in {Close, BadRequest})
              && (status == BadRequest ==> Refused(room, bufSize, max, |all|))
              && (old(sock.Willing()) ==> (rc == 1 <==> !Refused(room, bufSize, max, |all|)))
  {
    hide Refused, Limit, CapOk, Bound, Stuck, Roomy, Complete, Sockets.Socket.Willing;
    ghost var all, room := header.Text() + sock.stream, header.end - header.pos;
    StartCap(room, bufSize, max);
    var cur := header;
    while true
      invariant cur.Valid() && (cur == header || (fresh(cur) && fresh(cur.data)))
      invariant cur.Text() + sock.stream == all && CapOk(room, bufSize, max, cur.end - cur.pos)
      invariant old(sock.Willing()) ==> sock.Willing()
      decreases |sock.stream|
    {
      var got;
      got, cur := ReceiveOnce(cur, sock, bufSize, max, room, all);
      match got {
        case TooLong => return 0, BadRequest, None;
        case Failed => return 0, Close, None;
        case AtEnd => return 1, Unset, Some(cur);
        case More =>
      }
    }
  }

  lemma MoreRefused(room: nat, bufSize: int, max: int, len: nat, total: nat)
    requires Refused(room, bufSize, max, len) && len <= total
    ensures Refused(room, bufSize, max, total)
  {
  }

  lemma StartCap(room: nat, bufSize: int, max: int)
    ensures CapOk(room, bufSize, max, room)
  {
  }

  /** The body has `len` bytes in a buffer of `cap`, out of `total`. */
  lemma Ended(room: nat, bufSize: int, max: int, cap: nat, len: nat, total: nat)
    requires CapOk(room, bufSize, max, cap) && len <= cap && len <= total
    requires || (len == total && len < cap)
             || (len == cap && Stuck(room, bufSize, cap) && Limit(room, bufSize, max) == None)
    ensures !Refused(room, bufSize, max, total)
    ensures len == Complete(room, bufSize, total) && (len == total <==> Roomy(room, bufSize, total))
    ensures len <= Bound(room, bufSize, max)
  {
  }

  /** Two bytes, for which header buffer and body buffer have room for one each: the second is
      never read. */
  method SecondByteLost() returns (text: string)
    ensures text == "a"
  {
    var header := new Buf(1);
    var sock := new Socket("ab", [1, 1, 1]);
    var rc, status, body := ReceiveAll(header, sock, 1, 10);
    var b := body.value;
    text := b.data[..][b.pos..b.last];
    assert text + sock.stream == [] + "ab" == "ab" && text != "ab";
    assert text == (text + sock.stream)[..|text|];
  }

  /** `http_process_content_body`: nothing is read for HEAD and for an empty body. */
  method ProcessBody(header: Buf, sock: Socket, head: bool, n: int, bufSize: int, max: int)
      returns (rc: int, status: Status, body: Option<Buf>)
    requires header.Valid()
    modifies header, header.data, sock
    ensures head || n == 0 ==> rc == 1 && body == None && sock.stream == old(sock.stream)
    ensures !head && n != 0 ==>
              var all, room := old(header.Text()) + old(sock.stream), header.end - header.pos;
              && (rc == 1 <==> body.Some?)
              && (body.Some? ==> body.value.Valid() && body.value.Text() + sock.stream == all)
              && (body.Some? && n > 0 ==> n <= |body.value.Text()|)
              && (body.Some? && n < 0 ==> |body.value.Text()| == Complete(room, bufSize, |all|))
              && (n > 0 && rc == 0 ==> status == if n > max then BadRequest else Close)
              && (n < 0 && rc == 0 ==> status in {Close, BadRequest})
              && (n < 0 && status == BadRequest ==> Refused(room, bufSize, max, |all|))
              && (old(sock.Willing()) ==>
                    (rc == 1 <==> if n > 0 then n <= max && n <= |all| else !Refused(room, bufSize, max, |all|)))
  {
    hide Refused, Limit, Roomy, Complete, Bound;
    if head {
      return 1, Unset, None;
    }
    if n < 0 {
      rc, status, body := ReceiveAll(header, sock, bufSize, max);
    } else if n == 0 {
      rc, status, body := 1, Unset, None;
    } else {
      rc, status, body := ReceiveFixed(header, sock, n, max);
    }
  }
}
