/** `recv`, seen from the receiver. */
module Sockets {

  /** `stream` is what the peer will still send, and `sizes` how much of it the following calls
      deliver at most. A size of 0, or none at all, is a call that fails. */
  class Socket {
    var stream: string
    var sizes: seq<nat>

    constructor (stream: string, sizes: seq<nat>)
      ensures this.stream == stream && this.sizes == sizes
    {
      this.stream, this.sizes := stream, sizes;
    }

    /** At most `n` bytes to buf[at..]: -1 on failure, 0 at the end of the stream or when `n` is 0. */
    method Recv(buf: array<char>, at: nat, n: nat) returns (count: int)
      requires at + n <= buf.Length
      modifies this, buf
      ensures -1 <= count <= n && count <= |old(stream)|
      ensures count <= 0 ==> stream == old(stream) && buf[..] == old(buf[..])
      ensures count > 0 ==>
                && stream == old(stream)[count..]
                && buf[..] == old(buf[..])[..at] + old(stream)[..count] + old(buf[..])[at + count..]
      ensures count == 0 ==> n == 0 || stream == []
      ensures old(Willing()) ==> count >= 0 && (count > 0 ==> Willing())
    {
      if sizes == [] || sizes[0] == 0 {
        return -1;
      }
      count := Min(sizes[0], Min(n, |stream|));
      sizes := sizes[1..];
      if count > 0 {
        Copy(buf, at, stream[..count]);
        stream := stream[count..];
      }
    }

    /** The peer will deliver everything, however slowly, and then end the stream. */
    ghost predicate Willing()
      reads this
    {
      |sizes| > |stream| && forall i :: 0 <= i < |sizes| ==> sizes[i] > 0
    }
  }

  method Copy(buf: array<char>, at: nat, chunk: string)
    requires at + |chunk| <= buf.Length
    modifies buf
    ensures buf[..] == old(buf[..])[..at] + chunk + old(buf[..])[at + |chunk|..]
  {
    for i := 0 to |chunk|
      invariant forall j :: 0 <= j < buf.Length ==> buf[j] == if at <= j < at + i then chunk[j - at] else old(buf[j])
    {
      buf[at + i] := chunk[i];
    }
  }

  function Min(a: nat, b: nat): nat { if a < b then a else b }
}
