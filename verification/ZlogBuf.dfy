/** The growing, size-limited message buffer of src/zlog/src/buf.c. All its writers refine one
    bounded append. */
module ZlogBuf {
  import opened Digits

  // The bounded append ----------------------------------------------------------------------

  /** `c` with its end overwritten by the truncation mark `t` (by its beginning, if `c` is shorter). */
  function Marked(c: string, t: string): (r: string)
    ensures |r| == |c|
  {
    var n := if |t| <= |c| then |t| else |c|;
    c[..|c| - n] + t[..n]
  }

  /** What a buffer limited to `max` bytes (0: unlimited) shows of `all` that was written to it. */
  function Bounded(max: nat, t: string, all: string): string {
    if max == 0 || |all| < max then all else Marked(all[..max - 1], t)
  }

  /** One write. */
  function BoundedAppend(max: nat, t: string, c: string, piece: string): string {
    Bounded(max, t, c + piece)
  }

  lemma MarkTwice(c: string, t: string)
    ensures Marked(Marked(c, t), t) == Marked(c, t)
  {
  }

  /** Appending piece by piece shows what appending everything at once shows; once the limit is
      hit, nothing changes any more. */
  lemma AppendBounded(max: nat, t: string, all: string, piece: string)
    ensures BoundedAppend(max, t, Bounded(max, t, all), piece) == Bounded(max, t, all + piece)
  {
    if max != 0 && |all| >= max {
      var c := Marked(all[..max - 1], t);
      assert (all + piece)[..max - 1] == all[..max - 1];
      assert (c + piece)[..max - 1] == c;
      MarkTwice(all[..max - 1], t);
      assert piece == [] ==> c + piece == c;
    }
  }

  /** Stopping at the write that hits the limit shows what going on would show. */
  lemma CutIsFinal(max: nat, t: string, c: string, part: string, whole: string)
    requires max != 0 && |c| + |part| >= max && part <= whole
    ensures BoundedAppend(max, t, c, part) == BoundedAppend(max, t, c, whole)
  {
    assert (c + part)[..max - 1] == (c + whole)[..max - 1];
  }

  /** What the limit leaves: everything below `max` characters; else the first `max - 1`, whose end is
      overwritten by the mark, or all of them by the beginning of a mark that is longer. */
  lemma CutShape(max: nat, t: string, all: string)
    ensures var b := Bounded(max, t, all);
            if max == 0 || |all| < max then b == all
            else if |t| < max then
              |b| == max - 1 && b[..max - 1 - |t|] == all[..max - 1 - |t|] && b[max - 1 - |t|..] == t
            else b == t[..max - 1]
  {
  }

  // The pieces ------------------------------------------------------------------------------

  function Spaces(n: nat): (s: string)
    ensures |s| == n && forall i :: 0 <= i < n ==> s[i] == ' '
  {
    seq(n, _ => ' ')
  }

  /** `str` cut to `outWidth` characters and padded to `inWidth` (0: no limit). */
  function Adjusted(str: string, leftAdjust: bool, inWidth: nat, outWidth: nat): string {
    var s := if outWidth != 0 && |str| > outWidth then str[..outWidth] else str;
    if |s| >= inWidth then s
    else if leftAdjust then s + Spaces(inWidth - |s|)
    else Spaces(inWidth - |s|) + s
  }

  /** Character by character: the text up to `outWidth`, at the left or the right end of at least
      `inWidth` characters, and spaces. */
  lemma AdjustedShape(str: string, leftAdjust: bool, inWidth: nat, outWidth: nat)
    ensures var n := if 0 < outWidth < |str| then outWidth else |str|;
            var r := Adjusted(str, leftAdjust, inWidth, outWidth);
            var start := if leftAdjust || n >= inWidth then 0 else inWidth - n;
            && |r| == (if n < inWidth then inWidth else n)
            && forall i :: 0 <= i < |r| ==> r[i] == if start <= i < start + n then str[i - start] else ' '
  {
  }

  /** A formatted write: what the format produces, or an encoding error. */
  datatype Formatted = Output(text: string) | EncodingError

  datatype Write =
    | WAppend(str: string)
    | WAdjust(str: string, leftAdjust: bool, inWidth: nat, outWidth: nat)
    | WDec32(n: nat, width: int)
    | WDec64(n: nat, width: int)
    | WHex(n: nat, width: int)
    | WFormat(out: Formatted)

  /** The argument has the C type's range. */
  predicate Typed(w: Write) {
    match w
    case WDec32(n, _) => n < 0x1_0000_0000
    case WDec64(n, _) => n < 0x1_0000_0000_0000_0000
    case WHex(n, _) => n < 0x1_0000_0000
    case _ => true
  }

  function Piece(w: Write): string {
    match w
    case WAppend(str) => str
    case WAdjust(str, leftAdjust, inWidth, outWidth) => Adjusted(str, leftAdjust, inWidth, outWidth)
    case WDec32(n, width) => ZeroPadded(Numeral(n, 10), width)
    case WDec64(n, width) => ZeroPadded(Numeral(n, 10), width)
    case WHex(n, width) => ZeroPadded(Numeral(n, 16), width)
    case WFormat(Output(text)) => text
    case WFormat(EncodingError) => []
  }

  function Pieces(ws: seq<Write>): string {
    if ws == [] then [] else Pieces(ws[..|ws| - 1]) + Piece(ws[|ws| - 1])
  }

  /** The two cases of a write: it fits below the limit, or it is cut and marked. */
  lemma AppendCases(max: nat, t: string, c: string, piece: string)
    ensures max == 0 || |c| + |piece| < max ==> BoundedAppend(max, t, c, piece) == c + piece
    ensures max != 0 && |c| + |piece| >= max ==> BoundedAppend(max, t, c, piece) == Marked((c + piece)[..max - 1], t)
  {
  }

  lemma AdjustedIs(str: string, leftAdjust: bool, inWidth: nat, outWidth: nat, sourceLen: nat, spaceLen: nat)
    requires sourceLen == if outWidth == 0 || |str| < outWidth then |str| else outWidth
    requires spaceLen == if inWidth == 0 || sourceLen >= inWidth then 0 else inWidth - sourceLen
    ensures Adjusted(str, leftAdjust, inWidth, outWidth)
         == if leftAdjust then str[..sourceLen] + Spaces(spaceLen) else Spaces(spaceLen) + str[..sourceLen]
    ensures |Adjusted(str, leftAdjust, inWidth, outWidth)| == sourceLen + spaceLen
  {
    var s := str[..sourceLen];
    assert s == if outWidth != 0 && |str| > outWidth then str[..outWidth] else str;
    assert Spaces(0) == [] && s + [] == s && [] + s == s;
  }

  /** One round of the digit loop. */
  method NumeralStep(rest: nat, base: nat, ghost done: string) returns (digit: char, quotient: nat)
    requires base == 10 || base == 16
    ensures quotient < rest || quotient == 0
    ensures Numeral(rest, base) + done == (if quotient == 0 then [] else Numeral(quotient, base)) + ([digit] + done)
  {
    digit, quotient := DigitChar(rest % base), rest / base;
  }

  // The buffer ------------------------------------------------------------------------------

  const MAXLEN_PATH: nat := 1024

  class ZlogBuf {
    var data: array<char>
    var tail: nat
    const sizeMin: nat
    const sizeMax: nat
    var sizeReal: nat
    const truncateStr: string

    /** `end` is the last byte, kept free for a terminator. */
    ghost predicate Valid()
      reads this
    {
      && data.Length == sizeReal && tail < sizeReal
      && (sizeMax == 0 || sizeReal <= sizeMax)
    }

    ghost function Contents(): string
      requires Valid()
      reads this, data
    {
      data[..tail]
    }

    constructor (min: nat, max: nat, mark: string)
      requires 0 < min && (max == 0 || min <= max)
      ensures Valid() && fresh(data) && Contents() == []
      ensures sizeMin == min && sizeMax == max && truncateStr == mark
    {
      sizeMin, sizeMax, truncateStr := min, max, mark;
      sizeReal, tail := min, 0;
      data := new char[min];
    }

    /** `zlog_buf_new`: null for a size or a mark it does not accept. */
    static method New(min: nat, max: nat, mark: string) returns (r: ZlogBuf?)
      ensures r == null <==> min == 0 || (max != 0 && max < min) || |mark| > MAXLEN_PATH
      ensures r != null ==> r.Valid() && fresh(r) && fresh(r.data) && r.Contents() == []
                            && r.sizeMax == max && r.truncateStr == mark
    {
      if min == 0 || (max != 0 && max < min) || |mark| > MAXLEN_PATH {
        return null;
      }
      r := new ZlogBuf(min, max, mark);
    }

    /** `memcpy` of `s` to offset `at`. */
    method Put(at: nat, s: string)
      requires at + |s| <= data.Length
      modifies data
      ensures data[..at] == old(data[..at]) && data[at..at + |s|] == s
      ensures data[at + |s|..] == old(data[at + |s|..])
    {
      for i := 0 to |s|
        invariant data[..at] == old(data[..at]) && data[at + i..] == old(data[at + i..])
        invariant forall j :: at <= j < at + i ==> data[j] == s[j - at]
      {
        data[at + i] := s[i];
      }
    }

    /** `zlog_buf_truncate`: overwrite the end with the mark. */
    method Truncate()
      requires Valid()
      modifies data
      ensures Contents() == Marked(old(Contents()), truncateStr)
    {
      if truncateStr == [] {
        return;
      }
      var p := if tail < |truncateStr| then 0 else tail - |truncateStr|;
      Put(p, truncateStr[..tail - p]);
      assert data[..tail] == data[..p] + data[p..p + (tail - p)];
    }

    /** `zlog_buf_resize`: 0 if the buffer grew enough, 1 if the limit stopped it. */
    method Resize(increment: nat) returns (rc: int)
      requires Valid() && increment > 0
      modifies this`data, this`sizeReal
      ensures Valid() && (data == old(data) || fresh(data)) && Contents() == old(Contents())
      ensures rc == if sizeMax != 0 && old(sizeReal) + increment > sizeMax then 1 else 0
      ensures rc == 0 ==> sizeReal >= old(sizeReal) + increment
      ensures rc == 1 ==> sizeReal == sizeMax
    {
      if sizeMax != 0 && sizeReal >= sizeMax {
        return 1;
      }
      rc := 0;
      var newSize;
      if sizeMax == 0 {
        newSize := sizeReal + 3 * increment / 2;
      } else if sizeReal + increment <= sizeMax {
        newSize := sizeReal + increment;
      } else {
        newSize := sizeMax;
        rc := 1;
      }
      var p := new char[newSize];
      for i := 0 to sizeReal
        modifies p
        invariant forall j :: 0 <= j < i ==> p[j] == data[j]
      {
        p[i] := data[i];
      }
      data, sizeReal := p, newSize;
    }

    /** Make room for `len` bytes. If the limit forbids it, the room left is all there is. */
    method Reserve(len: nat) returns (rc: int)
      requires Valid()
      modifies this`data, this`sizeReal
      ensures Valid() && (data == old(data) || fresh(data)) && Contents() == old(Contents())
      ensures rc == if sizeMax != 0 && tail + len >= sizeMax then 1 else 0
      ensures rc == 0 ==> tail + len < sizeReal
      ensures rc == 1 ==> sizeReal == sizeMax
    {
      rc := 0;
      if tail + len > sizeReal - 1 {
        rc := Resize(len - (sizeReal - 1 - tail));
      }
    }

    /** `first` and then `second` behind the tail. */
    method PutForward(first: string, second: string)
      requires Valid() && tail + |first| + |second| < sizeReal
      modifies data, this`tail
      ensures Valid() && Contents() == old(Contents()) + first + second
    {
      ghost var before := Contents();
      Put(tail, first);
      assert data[..tail + |first|] == before + first by {
        assert data[..tail + |first|] == data[..tail] + data[tail..tail + |first|];
      }
      Put(tail + |first|, second);
      tail := tail + |first| + |second|;
      ghost var k := |before| + |first|;
      assert data[..tail] == data[..k] + data[k..k + |second|];
    }

    /** `second` to its place and then `first` in front of it. */
    method PutBackward(first: string, second: string)
      requires Valid() && tail + |first| + |second| < sizeReal
      modifies data, this`tail
      ensures Valid() && Contents() == old(Contents()) + first + second
    {
      ghost var b := data[..];
      Put(tail + |first|, second);
      ghost var b' := data[..];
      Put(tail, first);
      SecondThenFirst(b, b', data[..], tail, first, second);
      tail := tail + |first| + |second|;
    }

    /** The limit was hit and the room left is filled with the beginning of `piece`. */
    method MarkCut(ghost before: string, ghost piece: string)
      requires Valid() && sizeReal == sizeMax && |before| + |piece| >= sizeMax
      requires Contents() == (before + piece)[..sizeMax - 1]
      modifies data
      ensures Contents() == BoundedAppend(sizeMax, truncateStr, before, piece)
    {
      Truncate();
    }

    method Append(str: string) returns (rc: int)
      requires Valid()
      modifies this`data, this`sizeReal, this`tail, data
      ensures Valid() && (data == old(data) || fresh(data))
      ensures Contents() == BoundedAppend(sizeMax, truncateStr, old(Contents()), str)
      ensures rc == if sizeMax != 0 && |old(Contents())| + |str| >= sizeMax then 1 else 0
    {
      ghost var before := Contents();
      rc := Reserve(|str|);
      AppendCases(sizeMax, truncateStr, before, str);
      hide BoundedAppend;
      if rc > 0 {
        var lenLeft := sizeReal - 1 - tail;
        assert (before + str)[..sizeMax - 1] == before + str[..lenLeft] + [];
        PutForward(str[..lenLeft], []);
        MarkCut(before, str);
      } else {
        PutForward(str, []);
      }
    }

    method AdjustAppend(str: string, leftAdjust: bool, inWidth: nat, outWidth: nat) returns (rc: int)
      requires Valid()
      modifies this`data, this`sizeReal, this`tail, data
      ensures Valid() && (data == old(data) || fresh(data))
      ensures var piece := Adjusted(str, leftAdjust, inWidth, outWidth);
              && Contents() == BoundedAppend(sizeMax, truncateStr, old(Contents()), piece)
              && rc == if sizeMax != 0 && |old(Contents())| + |piece| >= sizeMax then 1 else 0
    {
      ghost var before, piece := Contents(), Adjusted(str, leftAdjust, inWidth, outWidth);
      var sourceLen := if outWidth == 0 || |str| < outWidth then |str| else outWidth;
      var spaceLen := if inWidth == 0 || sourceLen >= inWidth then 0 else inWidth - sourceLen;
      AdjustedIs(str, leftAdjust, inWidth, outWidth, sourceLen, spaceLen);
      rc := Reserve(sourceLen + spaceLen);
      AppendCases(sizeMax, truncateStr, before, piece);
      hide Adjusted, BoundedAppend;
      if rc > 0 {
        CutAdjusted(str, leftAdjust, sourceLen, spaceLen, piece);
        MarkCut(before, piece);
      } else if leftAdjust {
        PutBackward(str[..sourceLen], Spaces(spaceLen));
        Regroup(before, str[..sourceLen], Spaces(spaceLen));
      } else {
        PutForward(Spaces(spaceLen), str[..sourceLen]);
        Regroup(before, Spaces(spaceLen), str[..sourceLen]);
      }
    }

    /** What `zlog_buf_adjust_append` still writes when the limit is hit: each side of the padding
        has its own way to share out the room left. */
    method CutAdjusted(str: string, leftAdjust: bool, sourceLen0: nat, spaceLen0: nat, ghost piece: string)
      requires Valid() && sourceLen0 <= |str| && sizeReal == sizeMax && tail + sourceLen0 + spaceLen0 >= sizeMax
      requires leftAdjust ==> piece == str[..sourceLen0] + Spaces(spaceLen0)
      requires !leftAdjust ==> piece == Spaces(spaceLen0) + str[..sourceLen0]
      modifies data, this`tail
      ensures Valid() && Contents() == (old(Contents()) + piece)[..sizeMax - 1]
    {
      ghost var before := Contents();
      var sourceLen, spaceLen := sourceLen0, spaceLen0;
      var appendLen := sizeReal - 1 - tail;
      if leftAdjust {
        if sourceLen < appendLen {
          spaceLen := appendLen - sourceLen;
        } else {
          sourceLen, spaceLen := appendLen, 0;
        }
        CutLeft(before, str, sourceLen0, spaceLen0, sourceLen, spaceLen);
        PutBackward(str[..sourceLen], Spaces(spaceLen));
      } else {
        if spaceLen < appendLen {
          sourceLen := appendLen - spaceLen;
        } else {
          spaceLen, sourceLen := appendLen, 0;
        }
        CutRight(before, str, sourceLen0, spaceLen0, sourceLen, spaceLen);
        PutForward(Spaces(spaceLen), str[..sourceLen]);
      }
    }

    /** Zero padding and output of the digits `tmp[p..]`. */
    method PadNumber(tmp: array<char>, p: nat, width: int) returns (rc: int)
      requires Valid() && p <= tmp.Length && tmp != data
      modifies this`data, this`sizeReal, this`tail, data
      ensures Valid() && (data == old(data) || fresh(data))
      ensures var piece := ZeroPadded(tmp[p..], width);
              && Contents() == BoundedAppend(sizeMax, truncateStr, old(Contents()), piece)
              && rc == if sizeMax != 0 && |old(Contents())| + |piece| >= sizeMax then 1 else 0
    {
      ghost var before, piece := Contents(), ZeroPadded(tmp[p..], width);
      var digits := tmp[p..];
      var numLen := tmp.Length - p;
      var zeroLen := if width > numLen then width - numLen else 0;
      assert piece == Zeros(zeroLen) + digits;
      rc := Reserve(zeroLen + numLen);
      AppendCases(sizeMax, truncateStr, before, piece);
      hide ZeroPadded, BoundedAppend;
      Regroup(before, Zeros(zeroLen), digits);
      if rc > 0 {
        var lenLeft := sizeReal - 1 - tail;
        ghost var zeros := Zeros(zeroLen);
        if lenLeft <= zeroLen {
          zeroLen, numLen := lenLeft, 0;
        } else {
          numLen := lenLeft - zeroLen;
        }
        CutBoth(before, zeros, digits, zeroLen, numLen);
        assert zeros[..zeroLen] == Zeros(zeroLen);
        PutForward(Zeros(zeroLen), digits[..numLen]);
        MarkCut(before, piece);
      } else {
        PutForward(Zeros(zeroLen), digits);
      }
    }

    /** The digit loop: the numeral of `n` ends up right-aligned in a scratch array. */
    method Digitize(n: nat, base: nat, size: nat) returns (tmp: array<char>, p: nat)
      requires (base == 10 || base == 16) && |Numeral(n, base)| <= size
      ensures fresh(tmp) && p <= tmp.Length && tmp[p..] == Numeral(n, base)
    {
      hide Numeral, DigitChar;
      tmp := new char[size];
      p := size;
      var rest: nat := n;
      ghost var done: string := [];
      while true
        invariant p <= tmp.Length == size && tmp[p..] == done
        invariant Numeral(n, base) == Numeral(rest, base) + done
        decreases rest
      {
        var digit, quotient := NumeralStep(rest, base, done);
        p := p - 1;
        tmp[p] := digit;
        assert tmp[p..] == [digit] + done;
        done := [digit] + done;
        rest := quotient;
        if rest == 0 {
          break;
        }
      }
    }

    method PrintfDec32(ui32: nat, width: int) returns (rc: int)
      requires Valid() && ui32 < 0x1_0000_0000
      modifies this`data, this`sizeReal, this`tail, data
      ensures Valid() && (data == old(data) || fresh(data))
      ensures var piece := Piece(WDec32(ui32, width));
              && Contents() == BoundedAppend(sizeMax, truncateStr, old(Contents()), piece)
              && rc == if sizeMax != 0 && |old(Contents())| + |piece| >= sizeMax then 1 else 0
    {
      WordLengths(ui32);
      var tmp, p := Digitize(ui32, 10, 11);
      rc := PadNumber(tmp, p, width);
    }

    method PrintfDec64(ui64: nat, width: int) returns (rc: int)
      requires Valid() && ui64 < 0x1_0000_0000_0000_0000
      modifies this`data, this`sizeReal, this`tail, data
      ensures Valid() && (data == old(data) || fresh(data))
      ensures var piece := Piece(WDec64(ui64, width));
              && Contents() == BoundedAppend(sizeMax, truncateStr, old(Contents()), piece)
              && rc == if sizeMax != 0 && |old(Contents())| + |piece| >= sizeMax then 1 else 0
    {
      WordLengths(ui64);
      var tmp, p := Digitize(ui64, 10, 20);
      rc := PadNumber(tmp, p, width);
    }

    method PrintfHex(ui32: nat, width: int) returns (rc: int)
      requires Valid() && ui32 < 0x1_0000_0000
      modifies this`data, this`sizeReal, this`tail, data
      ensures Valid() && (data == old(data) || fresh(data))
      ensures var piece := Piece(WHex(ui32, width));
              && Contents() == BoundedAppend(sizeMax, truncateStr, old(Contents()), piece)
              && rc == if sizeMax != 0 && |old(Contents())| + |piece| >= sizeMax then 1 else 0
    {
      WordLengths(ui32);
      var tmp, p := Digitize(ui32, 16, 11);
      rc := PadNumber(tmp, p, width);
    }

    /** `vsnprintf` to the tail (C99, section 7.19.6.5): at most `size - 1` characters and a
        terminator are written, and the full length is returned. */
    method Vsnprintf(size: nat, out: Formatted) returns (nwrite: int)
      requires Valid() && 0 < size && tail + size <= sizeReal
      modifies data
      ensures Contents() == old(Contents())
      ensures nwrite == if out.Output? then |out.text| else -1
      ensures out.Output? ==> var n := if |out.text| < size then |out.text| else size - 1;
                              data[tail..tail + n] == out.text[..n]
    {
      if out.EncodingError? {
        return -1;
      }
      var n := if |out.text| < size then |out.text| else size - 1;
      Put(tail, out.text[..n] + ['\0']);
      assert data[tail..tail + n] == data[tail..tail + (n + 1)][..n];
      nwrite := |out.text|;
    }

    method Vprintf(out: Formatted) returns (rc: int)
      requires Valid()
      modifies this`data, this`sizeReal, this`tail, data
      ensures Valid() && (data == old(data) || fresh(data))
      ensures var piece := Piece(WFormat(out));
              && Contents() == BoundedAppend(sizeMax, truncateStr, old(Contents()), piece)
              && rc == (if out.EncodingError? then -1
                        else if sizeMax != 0 && |old(Contents())| + |piece| >= sizeMax then 1 else 0)
    {
      ghost var before := Contents();
      AppendCases(sizeMax, truncateStr, before, Piece(WFormat(out)));
      hide BoundedAppend, Marked;
      var sizeLeft := sizeReal - tail;
      var nwrite := Vsnprintf(sizeLeft, out);
      if nwrite < 0 {
        assert before + [] == before;
        return -1;
      }
      if nwrite < sizeLeft {
        Advance(nwrite, before, out.text);
        return 0;
      }
      rc := Resize(nwrite - sizeLeft + 1);
      FormatAgain(out, rc);
    }

    /** Format into the resized buffer. */
    method FormatAgain(out: Formatted, rc: int)
      requires Valid() && out.Output? && rc == (if sizeMax != 0 && tail + |out.text| >= sizeMax then 1 else 0)
      requires if rc == 0 then tail + |out.text| < sizeReal else sizeReal == sizeMax
      modifies this`tail, data
      ensures Valid() && Contents() == BoundedAppend(sizeMax, truncateStr, old(Contents()), out.text)
    {
      ghost var before := Contents();
      AppendCases(sizeMax, truncateStr, before, out.text);
      hide BoundedAppend, Marked;
      var sizeLeft := sizeReal - tail;
      var nwrite := Vsnprintf(sizeLeft, out);
      if rc > 0 {
        assert (before + out.text)[..sizeMax - 1] == before + out.text[..sizeLeft - 1];
        Advance(sizeLeft - 1, before, out.text);
        Truncate();
      } else {
        Advance(nwrite, before, out.text);
      }
    }

    /** Move the tail over `n` characters already in place. */
    method Advance(n: nat, ghost before: string, ghost text: string)
      requires Valid() && tail + n < sizeReal && n <= |text|
      requires Contents() == before && data[tail..tail + n] == text[..n]
      modifies this`tail
      ensures Valid() && Contents() == before + text[..n]
      ensures n == |text| ==> Contents() == before + text
    {
      assert data[..tail + n] == data[..tail] + data[tail..tail + n];
      tail := tail + n;
      assert text[..|text|] == text;
    }

    method Perform(w: Write) returns (rc: int)
      requires Valid() && Typed(w)
      modifies this`data, this`sizeReal, this`tail, data
      ensures Valid() && (data == old(data) || fresh(data))
      ensures Contents() == BoundedAppend(sizeMax, truncateStr, old(Contents()), Piece(w))
      ensures rc == if w == WFormat(EncodingError) then -1
                    else if sizeMax != 0 && |old(Contents())| + |Piece(w)| >= sizeMax then 1 else 0
    {
      match w {
        case WAppend(str) => rc := Append(str);
        case WAdjust(str, leftAdjust, inWidth, outWidth) => rc := AdjustAppend(str, leftAdjust, inWidth, outWidth);
        case WDec32(n, width) => rc := PrintfDec32(n, width);
        case WDec64(n, width) => rc := PrintfDec64(n, width);
        case WHex(n, width) => rc := PrintfHex(n, width);
        case WFormat(out) => rc := Vprintf(out);
      }
    }

    /** `zlog_buf_restart` and then any sequence of writes of any kind: the contents are a
        function of the limit, the mark and the pieces alone. */
    method PerformAll(ws: seq<Write>)
      requires Valid() && forall w :: w in ws ==> Typed(w)
      modifies this`data, this`sizeReal, this`tail, data
      ensures Valid() && (data == old(data) || fresh(data))
      ensures Contents() == Bounded(sizeMax, truncateStr, Pieces(ws))
    {
      tail := 0;
      assert Contents() == [];
      for i := 0 to |ws|
        invariant Valid() && (data == old(data) || fresh(data))
        invariant Contents() == Bounded(sizeMax, truncateStr, Pieces(ws[..i]))
      {
        ghost var all := Pieces(ws[..i]);
        var _ := Perform(ws[i]);
        AppendBounded(sizeMax, truncateStr, all, Piece(ws[i]));
        assert ws[..i + 1][..i] == ws[..i];
      }
      assert ws[..|ws|] == ws;
    }
  }

  lemma CutBoth(before: string, first: string, second: string, n1: nat, n2: nat)
    requires n1 <= |first| && n2 <= |second| && (n1 == |first| || n2 == 0)
    ensures (before + first + second)[..|before| + n1 + n2] == before + first[..n1] + second[..n2]
  {
  }

  lemma SecondThenFirst(b: string, b': string, b'': string, t: nat, first: string, second: string)
    requires var k := t + |first|; k + |second| <= |b| == |b'| == |b''|
    requires var k := t + |first|; b'[..k] == b[..k] && b'[k..k + |second|] == second
    requires var k := t + |first|; b''[..t] == b'[..t] && b''[t..k] == first && b''[k..] == b'[k..]
    ensures b''[..t + |first| + |second|] == b[..t] + first + second
  {
    var k := t + |first|;
    assert b''[..k + |second|] == b''[..t] + b''[t..k] + b''[k..][..|second|];
    assert b'[k..][..|second|] == b'[k..k + |second|];
    assert b'[..t] == b'[..k][..t] && b[..t] == b[..k][..t];
  }

  lemma Regroup(before: string, first: string, second: string)
    ensures before + first + second == before + (first + second)
  {
  }

  /** The text keeps its place and the padding is cut, or the text is cut and there is none. */
  lemma CutLeft(before: string, str: string, source0: nat, space0: nat, source: nat, space: nat)
    requires source <= source0 <= |str| && space <= space0 && (source == source0 || space == 0)
    ensures (before + (str[..source0] + Spaces(space0)))[..|before| + source + space]
         == before + str[..source] + Spaces(space)
  {
    Regroup(before, str[..source0], Spaces(space0));
    CutBoth(before, str[..source0], Spaces(space0), source, space);
    assert str[..source0][..source] == str[..source] && Spaces(space0)[..space] == Spaces(space);
  }

  /** The padding keeps its place and the text is cut, or the padding is cut and there is no text. */
  lemma CutRight(before: string, str: string, source0: nat, space0: nat, source: nat, space: nat)
    requires source <= source0 <= |str| && space <= space0 && (space == space0 || source == 0)
    ensures (before + (Spaces(space0) + str[..source0]))[..|before| + space + source]
         == before + Spaces(space) + str[..source]
  {
    Regroup(before, Spaces(space0), str[..source0]);
    CutBoth(before, Spaces(space0), str[..source0], space, source);
    assert str[..source0][..source] == str[..source] && Spaces(space0)[..space] == Spaces(space);
  }
}
