/** The reader of src/xml_parser.c: nested character-level state machines over a read pointer,
    and a growing buffer in which tag names, attribute names and attribute values are trimmed
    in place. Its builder calls are recorded in `events`, in order. */
module XmlParser {
  import opened CText
  import opened XmlSyntax
  import opened XmlModel

  datatype MainState = StNone | StAfterLt | StStartTag | StEndTag | StText | StPreComment1 | StPreComment2 | StPi

  datatype AttrState = PreKey | Key | PreValue | Value | AttrsEnd

  datatype TagState = TagName | TagAttr | TagEnd

  datatype CommentState = InComment | Minus1 | Minus2

  /** What remains to be read in a state of the main machine. */
  ghost function Rest(xml: string, st: MainState, p: nat): seq<RawEvent>
    requires p <= |xml| && (st.StText? || st.StStartTag? ==> 0 < p)
  {
    if p == |xml| then []
    else
      match st
      case StNone => Content(xml, p)
      case StAfterLt => AfterLt(xml, p)
      case StStartTag => Resume(xml, StartTag(xml, p))
      case StEndTag => Resume(xml, EndTag(xml, p))
      case StPi => Resume(xml, PiTag(xml, p))
      case StText => TextRun(xml, p - 1)
      case StPreComment1 => PreComment(xml, p)
      case StPreComment2 => (if xml[p] == '-' then [] else [RawError]) + Resume(xml, CommentTag(xml, p + 1))
  }

  /** The C string stored in `b` at `o` is `t`. */
  ghost predicate Holds(b: array<char>, o: nat, t: string)
    reads b
  {
    o + |t| < b.Length && b[o..o + |t|] == t && b[o + |t|] == NUL
  }

  /** Everything in `b` outside the `n` characters at `str` and their terminator is as in `was`. */
  ghost predicate SameOutside(b: array<char>, was: seq<char>, str: nat, n: nat)
    reads b
  {
    b.Length == |was| && forall i :: 0 <= i < |was| && !(str <= i < str + n) ==> b[i] == was[i]
  }

  /** `strtrim` on the string of `n` characters at `str`. */
  method StrTrim(b: array<char>, str: nat, n: nat, ghost s: string)
    requires str + n < b.Length && b[str + n] == NUL && b[str..str + n] == s
    requires 0 < str ==> b[str - 1] == NUL
    modifies b
    ensures Holds(b, str, Trim(s))
    ensures SameOutside(b, old(b[..]), str, n)
  {
    var m := TrimTail(b, str, n, s);
    var k := SkipFront(b, str, m);
    if k != 0 {
      ShiftDown(b, str, k, m);
    }
  }

  /** The trailing loop. An empty string makes it look at the character in front of the string;
      in front of the whole buffer that character is not modelled and counts as no space. */
  method TrimTail(b: array<char>, str: nat, n: nat, ghost s: string) returns (m: nat)
    requires str + n < b.Length && b[str + n] == NUL && b[str..str + n] == s
    requires 0 < str ==> b[str - 1] == NUL
    modifies b
    ensures m <= n && b[str..str + m] == s[..m] && b[str + m] == NUL
    ensures Trim(s) == TrimLeft(s[..m])
    ensures SameOutside(b, old(b[..]), str, n)
  {
    m := n;
    assert forall i :: str <= i < str + n ==> b[i] == s[i - str];
    while str + m - 1 != str && 0 <= str + m - 1 && IsSpace(b[str + m - 1])
      invariant m <= n && (n > 0 ==> m > 0)
      invariant forall i :: 0 <= i < b.Length && !(str + m <= i < str + n) ==> b[i] == old(b[i])
      invariant b[str + m] == NUL
      invariant forall i :: str <= i < str + m ==> b[i] == s[i - str]
      invariant forall i :: m <= i < n ==> IsSpace(s[i])
    {
      b[str + m - 1] := NUL;
      m := m - 1;
    }
    TrimParts(s, m);
  }

  /** The leading loop. */
  method SkipFront(b: array<char>, str: nat, m: nat) returns (k: nat)
    requires str + m < b.Length
    ensures k <= m && TrimLeft(b[str..str + m]) == b[str + k..str + m]
  {
    k := 0;
    while k < m && IsSpace(b[str + k])
      invariant k <= m
      invariant TrimLeft(b[str..str + m]) == TrimLeft(b[str + k..str + m])
    {
      assert b[str + k..str + m][1..] == b[str + (k + 1)..str + m];
      k := k + 1;
    }
  }

  method ShiftDown(b: array<char>, str: nat, k: nat, m: nat)
    requires 0 < k <= m && str + m < b.Length
    modifies b
    ensures Holds(b, str, old(b[str + k..str + m]))
    ensures SameOutside(b, old(b[..]), str, m)
  {
    var d := 0;
    while k + d < m
      invariant k + d <= m
      invariant forall i :: str <= i < str + d ==> b[i] == old(b[i + k])
      invariant forall i :: 0 <= i < b.Length && !(str <= i < str + d) ==> b[i] == old(b[i])
    {
      b[str + d] := b[str + k + d];
      d := d + 1;
    }
    b[str + d] := NUL;
  }

  /** The trailing loop of strtrim never clears the first character; trimming the front
      afterwards still trims both ends. */
  lemma TrimParts(s: string, m: nat)
    requires m <= |s| && (|s| > 0 ==> m > 0)
    requires forall i :: m <= i < |s| ==> IsSpace(s[i])
    ensures m <= 1 || !IsSpace(s[m - 1]) ==> Trim(s) == TrimLeft(s[..m])
  {
    if m <= 1 || !IsSpace(s[m - 1]) {
      var r := TrimRight(s);
      assert |r| <= m;
      if |r| < m {
        assert m == 1 && r == [];
        assert s[..m][1..] == [];
      } else {
        assert r == s[..m];
      }
    }
  }

  // The attribute machine -----------------------------------------------------------------------

  /** The attribute machine between two characters, with the names and values found so far. */
  datatype AttrCursor = AttrCursor(st: AttrState, start: nat, quote: char, acc: seq<string>)

  /** What remains of an attribute list. */
  ghost function AttrsRest(xml: string, cur: AttrCursor, p: nat, endChar: char): AttrScan
    requires cur.start <= p <= |xml|
  {
    match cur.st
    case PreKey => Attrs(xml, p, endChar, cur.acc)
    case Key => AttrsFromKey(xml, cur.start, endChar, cur.acc)
    case PreValue => AttrsFromEquals(xml, p, endChar, cur.acc)
    case Value => AttrsFromValue(xml, cur.start, cur.quote, endChar, cur.acc)
    case AttrsEnd => AttrScan(cur.acc, p)
  }

  /** The name or value being scanned has not ended before `p`. */
  ghost predicate Scanned(xml: string, cur: AttrCursor, p: nat) {
    && cur.start <= p <= |xml|
    && match cur.st
       case Key => |cur.acc| < MAX_ATTR_NR && '=' !in xml[cur.start..p]
       case Value => |cur.acc| < MAX_ATTR_NR && cur.quote !in xml[cur.start..p]
       case _ => true
  }

  /** The machine's move on the character at `p`. */
  ghost function AttrNext(xml: string, cur: AttrCursor, p: nat, endChar: char): AttrCursor
    requires cur.start <= p < |xml|
  {
    var c := xml[p];
    match cur.st
    case PreKey =>
      if IsSpace(c) then cur
      else if c == endChar || c == '>' then cur.(st := AttrsEnd)
      else if c == '=' then cur.(st := PreValue, start := p, acc := cur.acc + [xml[p..p]])
      else cur.(st := Key, start := p)
    case Key => if c == '=' then cur.(st := PreValue, acc := cur.acc + [xml[cur.start..p]]) else cur
    case PreValue => if IsQuote(c) then cur.(st := Value, quote := c, start := p + 1) else cur
    case Value => if c == cur.quote then cur.(st := PreKey, acc := cur.acc + [xml[cur.start..p]]) else cur
    case AttrsEnd => cur
  }

  /** A move keeps what remains to be read. */
  lemma AttrMove(xml: string, cur: AttrCursor, p: nat, endChar: char)
    requires p < |xml| && Scanned(xml, cur, p) && cur.st != AttrsEnd && |cur.acc| < MAX_ATTR_NR
    ensures var next := AttrNext(xml, cur, p, endChar);
            var q := if next.st == AttrsEnd then p else p + 1;
            Scanned(xml, next, q) && AttrsRest(xml, next, q, endChar) == AttrsRest(xml, cur, p, endChar)
  {
    hide Attrs, AttrsFromKey, AttrsFromEquals, AttrsFromValue;
    var c := xml[p];
    assert xml[cur.start..p + 1] == xml[cur.start..p] + [c];
    match cur.st
    case PreKey =>
      if IsSpace(c) {
        SkipSpace(xml, p, endChar, cur.acc);
      } else {
        BeginKey(xml, p, endChar, cur.acc);
        assert xml[p..p + 1] == [c];
        if c == '=' && endChar != '=' { EndKey(xml, p, p, endChar, cur.acc); }
      }
    case Key => if c == '=' { EndKey(xml, cur.start, p, endChar, cur.acc); }
    case PreValue => SkipToQuote(xml, p, endChar, cur.acc);
    case Value => if c == cur.quote { EndValue(xml, cur.start, p, cur.quote, endChar, cur.acc); }
  }

  lemma SkipSpace(xml: string, p: nat, endChar: char, acc: seq<string>)
    requires p < |xml| && IsSpace(xml[p]) && |acc| < MAX_ATTR_NR
    ensures Attrs(xml, p, endChar, acc) == Attrs(xml, p + 1, endChar, acc)
  {
    hide AttrsFromKey;
    assert ScanUntil(xml, p, NotSpace) == ScanUntil(xml, p + 1, NotSpace);
  }

  lemma BeginKey(xml: string, p: nat, endChar: char, acc: seq<string>)
    requires p < |xml| && !IsSpace(xml[p]) && |acc| < MAX_ATTR_NR
    ensures Attrs(xml, p, endChar, acc)
         == if xml[p] == endChar || xml[p] == '>' then AttrScan(acc, p) else AttrsFromKey(xml, p, endChar, acc)
  {
    hide AttrsFromKey;
    assert ScanUntil(xml, p, NotSpace) == p;
  }

  lemma EndKey(xml: string, k: nat, e: nat, endChar: char, acc: seq<string>)
    requires k <= e < |xml| && '=' !in xml[k..e] && xml[e] == '='
    ensures AttrsFromKey(xml, k, endChar, acc) == AttrsFromEquals(xml, e + 1, endChar, acc + [xml[k..e]])
  {
    hide AttrsFromEquals;
    assert forall i :: k <= i < e ==> xml[i] in xml[k..e];
    assert ScanUntil(xml, k, IsEquals) == e;
  }

  lemma SkipToQuote(xml: string, p: nat, endChar: char, acc: seq<string>)
    requires p < |xml| && |acc| < MAX_ATTR_NR
    ensures AttrsFromEquals(xml, p, endChar, acc)
         == if IsQuote(xml[p]) then AttrsFromValue(xml, p + 1, xml[p], endChar, acc)
            else AttrsFromEquals(xml, p + 1, endChar, acc)
  {
    hide AttrsFromValue;
    assert ScanUntil(xml, p, IsQuote) == if IsQuote(xml[p]) then p else ScanUntil(xml, p + 1, IsQuote);
  }

  lemma EndValue(xml: string, v: nat, e: nat, quote: char, endChar: char, acc: seq<string>)
    requires v <= e < |xml| && quote !in xml[v..e] && xml[e] == quote
    ensures AttrsFromValue(xml, v, quote, endChar, acc) == Attrs(xml, e + 1, endChar, acc + [xml[v..e]])
  {
    hide Attrs;
    assert forall i :: v <= i < e ==> xml[i] in xml[v..e];
    assert ScanUntil(xml, v, IsChar(quote)) == e;
  }

  /** When the attribute loop ends, nothing remains to be read. */
  lemma AttrsDone(xml: string, cur: AttrCursor, p: nat, endChar: char)
    requires Scanned(xml, cur, p)
    requires p == |xml| || |cur.acc| >= MAX_ATTR_NR
    ensures AttrsRest(xml, cur, p, endChar) == AttrScan(cur.acc, p)
  {
    match cur.st
    case Key =>
      assert forall i :: cur.start <= i < p ==> xml[i] in xml[cur.start..p];
      assert ScanUntil(xml, cur.start, IsEquals) == |xml|;
    case Value =>
      assert forall i :: cur.start <= i < p ==> xml[i] in xml[cur.start..p];
      assert ScanUntil(xml, cur.start, IsChar(cur.quote)) == |xml|;
    case _ =>
  }

  lemma AttrsClosed(xml: string, cur: AttrCursor, p: nat, endChar: char)
    requires Scanned(xml, cur, p) && cur.st == AttrsEnd
    ensures AttrsRest(xml, cur, p, endChar) == AttrScan(cur.acc, p)
  {
  }

  /** Offset `o` is where `raw`, trimmed, is stored. Only a token of 128 or more characters may
      have been refused, with offset -1. */
  ghost predicate Stored(used: seq<char>, o: int, raw: string) {
    var t := Trim(raw);
    || (o == -1 && |raw| >= 128)
    || (0 <= o && o + |t| < |used| && NUL !in t && used[o..o + |t|] == t && used[o + |t|] == NUL)
  }

  /** Filling the buffer further keeps what is stored in it. */
  lemma StillStored(used: seq<char>, used': seq<char>, offs: seq<int>, raws: seq<string>)
    requires used <= used' && |offs| == |raws|
    requires forall i :: 0 <= i < |offs| ==> Stored(used, offs[i], raws[i])
    ensures forall i :: 0 <= i < |offs| ==> Stored(used', offs[i], raws[i])
  {
    forall i | 0 <= i < |offs| ensures Stored(used', offs[i], raws[i]) {
      var o, t := offs[i], Trim(raws[i]);
      if o != -1 || |raws[i]| < 128 {
        assert used'[o..o + |t|] == used[o..o + |t|];
      }
    }
  }

  lemma PrefixTrans<T>(a: seq<T>, b: seq<T>, c: seq<T>)
    requires a <= b && b <= c
    ensures a <= c
  {
  }

  /** A string placed behind the used part, which stays as it was. */
  lemma Placed(was: seq<char>, b: seq<char>, o: nat, n: nat, t: string)
    requires |b| == |was| > o + n && |t| <= n && b[o..o + |t|] == t
    requires forall i :: 0 <= i < o ==> b[i] == was[i]
    ensures was[..o] <= b[..o + n + 1] && b[..o + n + 1][o..o + |t|] == t
  {
    assert b[..o + n + 1][o..o + |t|] == b[o..o + |t|];
  }

  class XmlParser {
    var readPtr: nat
    var attrsNr: nat
    const attrs: array<int>
    var buffer: array<char>
    var bufferUsed: nat
    var bufferTotal: nat
    var events: seq<Event>

    ghost predicate Valid()
      reads this`buffer, this`bufferUsed, this`bufferTotal, buffer
    {
      && attrs.Length == 2 * MAX_ATTR_NR + 1
      && bufferTotal == buffer.Length && bufferUsed <= bufferTotal
      && (0 < bufferUsed ==> buffer[bufferUsed - 1] == NUL)
    }

    constructor ()
      ensures Valid() && events == [] && fresh(attrs) && fresh(buffer)
    {
      readPtr, attrsNr, bufferUsed, bufferTotal := 0, 0, 0, 0;
      attrs := new int[2 * MAX_ATTR_NR + 1];
      buffer := new char[0];
      events := [];
    }

    /** The part of the buffer in use. */
    ghost function Used(): seq<char>
      requires bufferUsed <= buffer.Length
      reads this`buffer, this`bufferUsed, buffer
    {
      buffer[..bufferUsed]
    }

    method StrDup(xml: string, start: nat, length: nat) returns (offset: int)
      requires Valid() && NUL !in xml && start + length <= |xml|
      modifies this`buffer, this`bufferUsed, this`bufferTotal, buffer
      ensures Valid() && (buffer == old(buffer) || fresh(buffer)) && old(Used()) <= Used()
      ensures Stored(Used(), offset, xml[start..start + length])
    {
      offset := -1;
      if bufferUsed + length >= bufferTotal {
        Grow(bufferTotal + bufferTotal / 2 + 128);
      }
      if bufferUsed + length >= bufferTotal {
        return;
      }
      offset := bufferUsed;
      Place(xml, start, length);
    }

    /** Copy a token behind the used part of the buffer and trim it there. */
    method Place(xml: string, start: nat, length: nat)
      requires Valid() && NUL !in xml && start + length <= |xml| && bufferUsed + length < bufferTotal
      modifies this`bufferUsed, buffer
      ensures Valid() && old(Used()) <= Used()
      ensures Stored(Used(), old(bufferUsed), xml[start..start + length])
    {
      hide Trim;
      var o := bufferUsed;
      ghost var raw := xml[start..start + length];
      Copy(xml, start, length, o);
      ghost var was, before := buffer[..], Used();
      StrTrim(buffer, o, length, raw);
      bufferUsed := o + length + 1;
      TrimShrinks(raw);
      Placed(was, buffer[..], o, length, Trim(raw));
      assert buffer[..o + length + 1] == buffer[..][..o + length + 1];
    }

    /** The first entries of `attrs` are where `raws` are stored. */
    ghost predicate AttrsStored(raws: seq<string>)
      reads this`buffer, this`bufferUsed, this`attrsNr, buffer, attrs
    {
      && |raws| == attrsNr <= attrs.Length && bufferUsed <= buffer.Length
      && forall i :: 0 <= i < |raws| ==> Stored(Used(), attrs[i], raws[i])
    }

    method StoreAttr(xml: string, start: nat, ghost acc: seq<string>)
      requires Valid() && NUL !in xml && start <= readPtr <= |xml|
      requires AttrsStored(acc) && attrsNr < MAX_ATTR_NR
      modifies this`buffer, this`bufferUsed, this`bufferTotal, this`attrsNr, buffer, attrs
      ensures Valid() && (buffer == old(buffer) || fresh(buffer)) && old(Used()) <= Used()
      ensures AttrsStored(acc + [xml[start..readPtr]])
    {
      ghost var was := Used();
      var offset := StrDup(xml, start, readPtr - start);
      StillStored(was, Used(), attrs[..attrsNr], acc);
      attrs[attrsNr] := offset;
      attrsNr := attrsNr + 1;
    }

    /** One round of the attribute loop: act on the character under the read pointer. */
    method AttrChar(xml: string, endChar: char, st: AttrState, start: nat, quote: char, ghost cur: AttrCursor)
      returns (st': AttrState, start': nat, quote': char)
      requires Valid() && NUL !in xml && !IsSpace(endChar) && endChar != '='
      requires start <= readPtr < |xml| && attrsNr < MAX_ATTR_NR && st != AttrsEnd
      requires cur == AttrCursor(st, start, quote, cur.acc) && AttrsStored(cur.acc)
      modifies this`buffer, this`bufferUsed, this`bufferTotal, this`attrsNr, buffer, attrs
      ensures Valid() && (buffer == old(buffer) || fresh(buffer)) && old(Used()) <= Used()
      ensures AttrNext(xml, cur, readPtr, endChar)
           == AttrCursor(st', start', quote', AttrNext(xml, cur, readPtr, endChar).acc)
      ensures AttrsStored(AttrNext(xml, cur, readPtr, endChar).acc) && attrsNr <= old(attrsNr) + 1
    {
      hide Stored, Trim;
      var c := xml[readPtr];
      st', start', quote' := st, start, quote;
      if st == PreValue {
        if c == '"' || c == '\'' {
          st', quote', start' := Value, c, readPtr + 1;
        }
      } else if st == Value {
        if c == quote {
          StoreAttr(xml, start, cur.acc);
          st' := PreKey;
        }
      } else {
        if st == PreKey {
          if c == endChar || c == '>' {
            st' := AttrsEnd;
          } else if !IsSpace(c) {
            st', start' := Key, readPtr;
          }
        }
        // STAT_PRE_KEY falls through into STAT_KEY
        if c == '=' {
          StoreAttr(xml, start', cur.acc);
          st' := PreValue;
        }
      }
    }

    /** The attribute loop's invariant: with what remains, the list found so far makes up `goal`. */
    ghost predicate InAttrs(xml: string, endChar: char, cur: AttrCursor, goal: AttrScan)
      reads this, buffer, attrs
    {
      && Valid() && Scanned(xml, cur, readPtr) && AttrsStored(cur.acc) && attrsNr <= MAX_ATTR_NR
      && AttrsRest(xml, cur, readPtr, endChar) == goal
    }

    method ParseAttrs(xml: string, endChar: char)
      requires Valid() && NUL !in xml && readPtr <= |xml| && !IsSpace(endChar) && endChar != '='
      modifies this`readPtr, this`buffer, this`bufferUsed, this`bufferTotal, this`attrsNr, buffer, attrs
      ensures Valid() && (buffer == old(buffer) || fresh(buffer)) && old(Used()) <= Used()
      ensures readPtr == Attrs(xml, old(readPtr), endChar, []).pos
      ensures AttrsStored(Attrs(xml, old(readPtr), endChar, []).raws)
    {
      var st, quote := PreKey, '"';
      var start: nat := readPtr;
      attrsNr := 0;
      ghost var cur, used0 := AttrCursor(st, start, quote, []), Used();
      ghost var goal := Attrs(xml, readPtr, endChar, []);
      assert InAttrs(xml, endChar, cur, goal);
      hide AttrsRest, Scanned, Stored, Trim, Attrs, AttrNext;
      while readPtr < |xml| && attrsNr < MAX_ATTR_NR
        invariant InAttrs(xml, endChar, cur, goal) && (buffer == old(buffer) || fresh(buffer)) && used0 <= Used()
        invariant st != AttrsEnd && cur == AttrCursor(st, start, quote, cur.acc) && readPtr <= |xml|
        decreases |xml| - readPtr
      {
        ghost var used := Used();
        st, start, quote, cur := AttrRound(xml, endChar, st, start, quote, cur, goal);
        PrefixTrans(used0, used, Used());
        if st == AttrsEnd {
          break;
        }
      }
      if st == AttrsEnd {
        AttrsClosed(xml, cur, readPtr, endChar);
      } else {
        AttrsDone(xml, cur, readPtr, endChar);
      }
    }

    method AttrRound(xml: string, endChar: char, st: AttrState, start: nat, quote: char,
                     ghost cur: AttrCursor, ghost goal: AttrScan)
      returns (st': AttrState, start': nat, quote': char, ghost cur': AttrCursor)
      requires NUL !in xml && !IsSpace(endChar) && endChar != '='
      requires InAttrs(xml, endChar, cur, goal) && readPtr < |xml| && attrsNr < MAX_ATTR_NR
      requires st != AttrsEnd && cur == AttrCursor(st, start, quote, cur.acc)
      modifies this`readPtr, this`buffer, this`bufferUsed, this`bufferTotal, this`attrsNr, buffer, attrs
      ensures InAttrs(xml, endChar, cur', goal) && cur' == AttrCursor(st', start', quote', cur'.acc)
      ensures (buffer == old(buffer) || fresh(buffer)) && old(Used()) <= Used()
      ensures readPtr == old(readPtr) + (if st' == AttrsEnd then 0 else 1)
    {
      hide AttrsRest, Stored, Trim, Attrs, AttrNext;
      AttrMove(xml, cur, readPtr, endChar);
      st', start', quote' := AttrChar(xml, endChar, st, start, quote, cur);
      cur' := AttrNext(xml, cur, readPtr, endChar);
      if st' != AttrsEnd {
        readPtr := readPtr + 1;
      }
    }

    /** `realloc` of the buffer. */
    method Grow(size: nat)
      requires Valid() && bufferTotal <= size
      modifies this`buffer, this`bufferTotal
      ensures Valid() && fresh(buffer) && bufferTotal == size
      ensures buffer[..bufferUsed] == old(buffer[..bufferUsed])
    {
      var b := new char[size];
      for i := 0 to bufferTotal
        modifies b
        invariant forall j :: 0 <= j < i ==> b[j] == buffer[j]
      {
        b[i] := buffer[i];
      }
      buffer, bufferTotal := b, size;
    }

    /** `strncpy` and the terminator, behind the used part of the buffer. */
    method Copy(xml: string, start: nat, length: nat, offset: nat)
      requires start + length <= |xml| && offset + length < buffer.Length
      modifies buffer
      ensures buffer[..offset] == old(buffer[..offset])
      ensures buffer[offset..offset + length] == xml[start..start + length] && buffer[offset + length] == NUL
    {
      for i := 0 to length
        invariant buffer[..offset] == old(buffer[..offset])
        invariant forall j :: offset <= j < offset + i ==> buffer[j] == xml[start + j - offset]
      {
        buffer[offset + i] := xml[start + i];
      }
      buffer[offset + length] := NUL;
    }

    /** The string at offset `o`. */
    method CString(o: int, ghost raw: string) returns (s: string)
      requires Valid()
      ensures Stored(Used(), o, raw) ==> TokenIs(Tok(raw), s)
    {
      s := [];
      if o < 0 { return; }
      var i := o;
      while i < bufferTotal && buffer[i] != NUL
        invariant o <= i && (o <= bufferTotal ==> i <= bufferTotal)
        invariant i <= bufferTotal ==> s == buffer[o..i]
        invariant forall j :: o <= j < i && j < bufferTotal ==> buffer[j] != NUL
      {
        s := s + [buffer[i]];
        i := i + 1;
      }
      if 0 <= o && Stored(Used(), o, raw) && |raw| < 128 {
        CStringIs(o, raw, i);
      }
    }

    lemma CStringIs(o: nat, raw: string, i: nat)
      requires bufferUsed <= buffer.Length && Stored(Used(), o, raw) && o <= i <= buffer.Length
      requires i < buffer.Length ==> buffer[i] == NUL
      requires forall j :: o <= j < i ==> buffer[j] != NUL
      ensures buffer[o..i] == Trim(raw)
    {
      var t := Trim(raw);
      assert forall j :: 0 <= j < |t| ==> buffer[o + j] == Used()[o..o + |t|][j] == t[j];
      assert i == o + |t|;
    }

    /** The strings of the attribute array. */
    method AttrStrings(ghost raws: seq<string>) returns (ss: seq<string>)
      requires Valid() && AttrsStored(raws)
      ensures TokensAre(raws, ss)
    {
      ss := [];
      for i := 0 to attrsNr
        invariant |ss| == i && forall j :: 0 <= j < i ==> TokenIs(Tok(raws[j]), ss[j])
      {
        var s := CString(attrs[i], raws[i]);
        ss := ss + [s];
      }
    }

    /** The name and attributes of a start tag or a processing instruction. The name's offset
        stays 0 when the input ends inside the name. */
    method ParseHead(xml: string, start: nat, endChar: char) returns (tag: int)
      requires Valid() && NUL !in xml && start <= readPtr < |xml| && attrsNr == 0 && (endChar == '/' || endChar == '?')
      modifies this`readPtr, this`buffer, this`bufferUsed, this`bufferTotal, this`attrsNr, buffer, attrs
      ensures Valid() && (buffer == old(buffer) || fresh(buffer))
      ensures var h := Head(xml, start, old(readPtr), endChar);
              && readPtr == h.scan.pos && AttrsStored(h.scan.raws)
              && (h.tag.Tok? ==> Stored(Used(), tag, h.tag.raw))
    {
      hide Trim, Attrs;
      ghost var p0, e := readPtr, ScanUntil(xml, readPtr, NameStop(endChar));
      var st := TagName;
      tag := 0;
      while readPtr < |xml|
        invariant Valid() && (buffer == old(buffer) || fresh(buffer)) && attrsNr == 0
        invariant p0 <= readPtr <= |xml|
        invariant st == TagName ==> readPtr <= e
        invariant st == TagAttr ==> readPtr == e + 1 && IsSpace(xml[e]) && Stored(Used(), tag, xml[start..e])
        invariant st != TagEnd
        decreases |xml| - readPtr
      {
        var c := xml[readPtr];
        if st == TagName {
          if IsSpace(c) || c == '>' || (c == '/' && endChar == '/') {
            tag := StrDup(xml, start, readPtr - start);
            st := if IsSpace(c) then TagAttr else TagEnd;
          }
        } else {
          ghost var used := Used();
          ParseAttrs(xml, endChar);
          StillStored(used, Used(), [tag], [xml[start..e]]);
          assert Stored(Used(), [tag][0], [xml[start..e]][0]);
          st := TagEnd;
        }
        if st == TagEnd {
          break;
        }
        readPtr := readPtr + 1;
      }
      if st == TagAttr {
        assert Attrs(xml, |xml|, endChar, []) == AttrScan([], |xml|) by { NoAttrs(xml, endChar); }
      }
    }

    method SkipToGt(xml: string)
      requires readPtr <= |xml|
      modifies this`readPtr
      ensures readPtr == ScanUntil(xml, old(readPtr), IsGt)
    {
      while readPtr < |xml| && xml[readPtr] != '>'
        invariant old(readPtr) <= readPtr <= ScanUntil(xml, old(readPtr), IsGt)
      {
        readPtr := readPtr + 1;
      }
    }

    /** The builder call `ev` happened. */
    method Emit(ev: Event, ghost raw: RawEvent, ghost raws: seq<RawEvent>, ghost from: nat)
      requires EventIs(raw, ev) && from <= |events| && EventsAre(raws, events[from..])
      modifies this`events
      ensures events == old(events) + [ev]
      ensures EventsAre(raws + [raw], events[from..])
    {
      events := events + [ev];
      assert events[from..] == old(events)[from..] + [ev];
    }

    method ParseStartTag(xml: string)
      requires Valid() && NUL !in xml && 0 < readPtr < |xml| && attrsNr == 0
      modifies this, buffer, attrs
      ensures Valid() && (buffer == old(buffer) || fresh(buffer))
      ensures readPtr == StartTag(xml, old(readPtr)).pos && old(events) <= events
      ensures EventsAre(StartTag(xml, old(readPtr)).events, events[|old(events)|..])
    {
      hide Head, Stored, EventIs;
      ghost var from, h := |events|, Head(xml, readPtr - 1, readPtr, '/');
      var tag := ParseHead(xml, readPtr - 1, '/');
      var name := CString(tag, if h.tag.Tok? then h.tag.raw else []);
      var ss := AttrStrings(h.scan.raws);
      ghost var started, ended := RawStart(h.tag, h.scan.raws), RawEnd(h.tag);
      assert EventIs(started, OnStart(name, ss)) && EventIs(ended, OnEnd(name)) by { EventsOfTag(h, name, ss); }
      Emit(OnStart(name, ss), started, [], from);
      if readPtr < |xml| && xml[readPtr] == '/' {
        Emit(OnEnd(name), ended, [started], from);
      }
      SkipToGt(xml);
    }

    method ParsePi(xml: string)
      requires Valid() && NUL !in xml && readPtr < |xml| && attrsNr == 0
      modifies this, buffer, attrs
      ensures Valid() && (buffer == old(buffer) || fresh(buffer))
      ensures readPtr == PiTag(xml, old(readPtr)).pos && old(events) <= events
      ensures EventsAre(PiTag(xml, old(readPtr)).events, events[|old(events)|..])
    {
      hide Head, Stored, EventIs;
      ghost var from, h := |events|, Head(xml, readPtr, readPtr, '?');
      var tag := ParseHead(xml, readPtr, '?');
      var name := CString(tag, if h.tag.Tok? then h.tag.raw else []);
      var ss := AttrStrings(h.scan.raws);
      ghost var pi := RawPi(h.tag, h.scan.raws);
      assert EventIs(pi, OnPi(name, ss)) by { EventsOfTag(h, name, ss); }
      Emit(OnPi(name, ss), pi, [], from);
      SkipToGt(xml);
    }

    method ParseEndTag(xml: string)
      requires Valid() && NUL !in xml && readPtr < |xml|
      modifies this, buffer
      ensures Valid() && (buffer == old(buffer) || fresh(buffer))
      ensures readPtr == EndTag(xml, old(readPtr)).pos && old(events) <= events
      ensures EventsAre(EndTag(xml, old(readPtr)).events, events[|old(events)|..])
    {
      hide Stored, Trim;
      ghost var from := |events|;
      var start := readPtr;
      SkipToGt(xml);
      if readPtr < |xml| {
        var o := StrDup(xml, start, readPtr - start);
        var name := CString(o, xml[start..readPtr]);
        Emit(OnEnd(name), RawEnd(Tok(xml[start..readPtr])), [], from);
      }
    }

    method ParseComment(xml: string)
      requires readPtr < |xml|
      modifies this`readPtr, this`events
      ensures readPtr == CommentTag(xml, old(readPtr) + 1).pos && old(events) <= events
      ensures EventsAre(CommentTag(xml, old(readPtr) + 1).events, events[|old(events)|..])
    {
      hide EventIs;
      readPtr := readPtr + 1;
      var start := readPtr;
      ghost var d := CommentDashes(xml, start);
      ToCommentEnd(xml);
      if readPtr < |xml| {
        CommentEvent(xml[start..readPtr - 2]);
        Emit(OnComment(xml[start..readPtr - 2]), RawComment(xml[start..readPtr - 2]), [], |events|);
      }
    }

    /** The states of a comment: to the first '>' after the first double dash. */
    method ToCommentEnd(xml: string)
      requires readPtr <= |xml|
      modifies this`readPtr
      ensures var d := CommentDashes(xml, old(readPtr));
                readPtr == if d == |xml| then |xml| else ScanUntil(xml, d + 2, IsGt)
      ensures readPtr < |xml| ==> readPtr >= old(readPtr) + 2
    {
      var start, st := readPtr, InComment;
      ghost var d := CommentDashes(xml, readPtr);
      while readPtr < |xml|
        invariant start <= readPtr <= |xml|
        invariant st == InComment ==> CommentDashes(xml, readPtr) == d
        invariant st == Minus1 ==> start < readPtr && xml[readPtr - 1] == '-' && CommentDashes(xml, readPtr - 1) == d
        invariant st == Minus2 ==> d + 2 <= readPtr <= ScanUntil(xml, d + 2, IsGt)
      {
        var c := xml[readPtr];
        match st {
          case InComment =>
            if c == '-' { st := Minus1; }
          case Minus1 =>
            st := if c == '-' then Minus2 else InComment;
          case Minus2 =>
            if c == '>' {
              return;
            }
        }
        readPtr := readPtr + 1;
      }
    }

    /** On success the read pointer backs up to the character in front of the '<'. */
    method ParseText(xml: string)
      requires 0 < readPtr < |xml|
      modifies this`readPtr, this`events
      ensures old(events) <= events
      ensures var e := ScanUntil(xml, old(readPtr), IsLt);
              && readPtr == (if e < |xml| then e - 1 else e)
              && EventsAre(if e < |xml| then [RawText(xml[old(readPtr) - 1..e])] else [], events[|old(events)|..])
    {
      var start := readPtr - 1;
      while readPtr < |xml|
        invariant start < readPtr <= ScanUntil(xml, start + 1, IsLt) && events == old(events)
      {
        if xml[readPtr] == '<' {
          Emit(OnText(xml[start..readPtr]), RawText(xml[start..readPtr]), [], |events|);
          readPtr := readPtr - 1;
          return;
        }
        readPtr := readPtr + 1;
      }
    }

    method ResetBuffer()
      requires Valid()
      modifies this`bufferUsed, this`attrsNr
      ensures Valid() && attrsNr == 0
    {
      bufferUsed, attrsNr := 0, 0;
    }

    /** A round of the main loop that looks at one character only. */
    method PlainChar(xml: string, st: MainState) returns (st': MainState, ghost out: seq<RawEvent>)
      requires Valid() && readPtr < |xml| && (st.StNone? || st.StAfterLt? || st.StPreComment1?)
      requires st.StAfterLt? ==> attrsNr == 0
      modifies this
      ensures Valid() && buffer == old(buffer) && readPtr == old(readPtr)
      ensures st'.StAfterLt? || st'.StStartTag? || st'.StPi? ==> attrsNr == 0
      ensures old(events) <= events && EventsAre(out, events[|old(events)|..])
      ensures Rest(xml, st, readPtr) == out + Tail(xml, st', readPtr)
    {
      ContentEnd(xml);
      hide Content, AfterLt, TextRun, PreComment, Resume, ScanUntil, StartTag, PiTag, EndTag, CommentTag;
      var c := xml[readPtr];
      st', out := st, [];
      if st.StNone? {
        ContentChar(xml, readPtr);
        if c == '<' {
          ResetBuffer();
          st' := StAfterLt;
        } else if !IsSpace(c) {
          st' := StText;
        }
      } else if st.StAfterLt? {
        AfterLtChar(xml, readPtr);
        if c == '?' {
          st' := StPi;
        } else if c == '/' {
          st' := StEndTag;
        } else if c == '!' {
          st' := StPreComment1;
        } else if IsAlpha(c) || c == '_' {
          st' := StStartTag;
        } else {
          Emit(OnError, RawError, [], |events|);
          out := [RawError];
        }
      } else {
        PreCommentChar(xml, readPtr);
        if c == '-' {
          st' := StPreComment2;
        } else {
          Emit(OnError, RawError, [], |events|);
          out := [RawError];
        }
      }
    }

    /** A round of the main loop that runs a sub-reader. It leaves the read pointer on the last
        character consumed, or at the end of the input. */
    method Construct(xml: string, st: MainState) returns (ghost out: seq<RawEvent>)
      requires Valid() && NUL !in xml && readPtr < |xml|
      requires st.StStartTag? || st.StPi? || st.StEndTag? || st.StText? || st.StPreComment2?
      requires st.StText? || st.StStartTag? ==> 0 < readPtr
      requires st.StStartTag? || st.StPi? ==> attrsNr == 0
      modifies this, buffer, attrs
      ensures Valid() && (buffer == old(buffer) || fresh(buffer))
      ensures old(readPtr) <= readPtr + (if st.StText? then 1 else 0) && readPtr <= |xml|
      ensures old(events) <= events && EventsAre(out, events[|old(events)|..])
      ensures Rest(xml, st, old(readPtr)) == out + Tail(xml, StNone, readPtr)
    {
      ContentEnd(xml);
      hide Content, AfterLt, StartTag, PiTag, EndTag, CommentTag, TextRun, PreComment, ScanUntil, EventsAre;
      ghost var p := readPtr;
      match st {
        case StStartTag =>
          ParseStartTag(xml);
          out := StartTag(xml, p).events;
        case StEndTag =>
          ParseEndTag(xml);
          out := EndTag(xml, p).events;
        case StPi =>
          ParsePi(xml);
          out := PiTag(xml, p).events;
        case StText =>
          TextChars(xml, p);
          ParseText(xml);
          out := TextEvents(xml, p);
        case StPreComment2 =>
          out := CommentStart(xml);
          // STAT_PRE_COMMENT2 falls through into STAT_COMMENT
          ghost var events1 := events;
          ParseComment(xml);
          JoinEvents(old(events), events1, events, out, CommentTag(xml, p + 1).events);
          out := out + CommentTag(xml, p + 1).events;
      }
    }

    /** The second '-' of a comment. */
    method CommentStart(xml: string) returns (ghost out: seq<RawEvent>)
      requires readPtr < |xml|
      modifies this`events
      ensures out == if xml[readPtr] == '-' then [] else [RawError]
      ensures old(events) <= events && EventsAre(out, events[|old(events)|..])
    {
      out := [];
      if xml[readPtr] != '-' {
        Emit(OnError, RawError, [], |events|);
        out := [RawError];
      }
    }

    /** The main loop's invariant: `done` has been raised, and with what remains makes up `goal`. */
    ghost predicate Reading(xml: string, st: MainState, goal: seq<RawEvent>, done: seq<RawEvent>, prior: seq<Event>)
      reads this, buffer
    {
      && Valid() && readPtr <= |xml|
      && (st.StText? || st.StStartTag? ==> 0 < readPtr)
      && (st.StAfterLt? || st.StStartTag? || st.StPi? ==> attrsNr == 0)
      && prior <= events && EventsAre(done, events[|prior|..])
      && goal == done + Rest(xml, st, readPtr)
    }

    /** One round of the main loop. */
    method Round(xml: string, st: MainState, ghost goal: seq<RawEvent>, ghost done: seq<RawEvent>,
                 ghost prior: seq<Event>)
      returns (st': MainState, ghost done': seq<RawEvent>)
      requires NUL !in xml && readPtr < |xml| && Reading(xml, st, goal, done, prior)
      modifies this, buffer, attrs
      ensures Reading(xml, st', goal, done', prior) && (buffer == old(buffer) || fresh(buffer))
      ensures readPtr > old(readPtr) || (readPtr == old(readPtr) && st.StText? && !st'.StText?)
    {
      hide Rest, EventsAre;
      ghost var before, out := events, [];
      if st.StNone? || st.StAfterLt? || st.StPreComment1? {
        st', out := PlainChar(xml, st);
      } else {
        out := Construct(xml, st);
        st' := StNone;
      }
      JoinEvents(prior, before, events, done, out);
      done' := done + out;
      Regroup(done, out, Tail(xml, st', readPtr));
      if readPtr == |xml| {
        st' := StNone;
        RestAtEnd(xml, st');
      } else {
        readPtr := readPtr + 1;
      }
    }

    /** `xml_parser_parse`: the builder calls are exactly the events of the document. */
    method Parse(xml: string)
      requires Valid() && NUL !in xml
      modifies this, buffer, attrs
      ensures Valid()
      ensures old(events) <= events && EventsAre(Document(xml), events[|old(events)|..])
    {
      var st := StNone;
      readPtr := 0;
      ghost var done: seq<RawEvent> := [];
      RestAtStart(xml);
      hide Rest;
      while readPtr < |xml|
        invariant Reading(xml, st, Document(xml), done, old(events)) && (buffer == old(buffer) || fresh(buffer))
        decreases |xml| - readPtr, if st.StText? then 1 else 0
      {
        st, done := Round(xml, st, Document(xml), done, old(events));
      }
      RestAtEnd(xml, st);
    }
  }

  /** What remains once the character under the read pointer `p` is consumed. */
  ghost function Tail(xml: string, st: MainState, p: nat): seq<RawEvent>
    requires p <= |xml|
  {
    if p == |xml| then [] else Rest(xml, st, p + 1)
  }

  lemma RestAtStart(xml: string)
    ensures Document(xml) == Rest(xml, StNone, 0)
  {
  }

  lemma RestAtEnd(xml: string, st: MainState)
    requires st.StText? || st.StStartTag? ==> 0 < |xml|
    ensures Rest(xml, st, |xml|) == []
  {
  }

  lemma ContentEnd(xml: string)
    ensures Content(xml, |xml|) == []
  {
  }

  lemma ContentChar(xml: string, p: nat)
    requires p < |xml|
    ensures Content(xml, p) == if xml[p] == '<' then AfterLt(xml, p + 1)
                               else if IsSpace(xml[p]) then Content(xml, p + 1) else TextRun(xml, p)
    ensures Content(xml, |xml|) == [] && AfterLt(xml, |xml|) == [] && TextRun(xml, |xml| - 1) == []
  {
    hide AfterLt;
    assert AfterLt(xml, |xml|) == [] by { AfterLtEnd(xml); }
    assert ScanUntil(xml, p, NotSpace) == if IsSpace(xml[p]) then ScanUntil(xml, p + 1, NotSpace) else p;
    assert ScanUntil(xml, |xml|, IsLt) == |xml|;
    hide TextRun;
  }

  lemma AfterLtEnd(xml: string)
    ensures AfterLt(xml, |xml|) == [] && PreComment(xml, |xml|) == []
  {
  }

  lemma AfterLtChar(xml: string, p: nat)
    requires p < |xml|
    ensures AfterLt(xml, p)
         == (if xml[p] in {'?', '/', '!', '_'} || IsAlpha(xml[p]) then [] else [RawError])
            + Rest(xml, if xml[p] == '?' then StPi else if xml[p] == '/' then StEndTag
                        else if xml[p] == '!' then StPreComment1
                        else if IsAlpha(xml[p]) || xml[p] == '_' then StStartTag else StAfterLt, p + 1)
  {
    AfterLtEnd(xml);
    hide Resume, PreComment;
  }

  lemma PreCommentChar(xml: string, p: nat)
    requires p < |xml|
    ensures PreComment(xml, p)
         == (if xml[p] == '-' then [] else [RawError])
            + Rest(xml, if xml[p] == '-' then StPreComment2 else StPreComment1, p + 1)
  {
    AfterLtEnd(xml);
    hide Resume;
  }

  ghost function TextEvents(xml: string, p: nat): seq<RawEvent>
    requires 0 < p <= |xml|
  {
    var e := ScanUntil(xml, p, IsLt);
    if e < |xml| then [RawText(xml[p - 1..e])] else []
  }

  lemma TextChars(xml: string, p: nat)
    requires 0 < p <= |xml|
    ensures var e := ScanUntil(xml, p, IsLt);
            TextRun(xml, p - 1) == TextEvents(xml, p) + if e < |xml| then Content(xml, e) else []
  {
    hide Content;
  }

  lemma Regroup<T>(a: seq<T>, b: seq<T>, c: seq<T>)
    ensures a + (b + c) == (a + b) + c
    ensures a + [] == a && (a + b) + [] == a + b
  {
  }

  lemma JoinEvents(a: seq<Event>, b: seq<Event>, c: seq<Event>, raws: seq<RawEvent>, more: seq<RawEvent>)
    requires a <= b <= c && EventsAre(raws, b[|a|..]) && EventsAre(more, c[|b|..])
    ensures a <= c && EventsAre(raws + more, c[|a|..])
  {
    assert c[|a|..] == b[|a|..] + c[|b|..];
  }

  lemma CommentEvent(text: string)
    ensures EventIs(RawComment(text), OnComment(text))
  {
  }

  lemma NoAttrs(xml: string, endChar: char)
    ensures Attrs(xml, |xml|, endChar, []) == AttrScan([], |xml|)
  {
  }

  lemma EventsOfTag(h: TagHead, name: string, ss: seq<string>)
    requires h.tag.Tok? ==> TokenIs(h.tag, name)
    requires TokensAre(h.scan.raws, ss)
    ensures EventIs(RawStart(h.tag, h.scan.raws), OnStart(name, ss))
    ensures EventIs(RawPi(h.tag, h.scan.raws), OnPi(name, ss))
    ensures EventIs(RawEnd(h.tag), OnEnd(name))
  {
  }

  lemma {:induction false} TrimLeftShrinks(s: string)
    ensures |TrimLeft(s)| <= |s| && (NUL !in s ==> NUL !in TrimLeft(s))
  {
    if s != [] && IsSpace(s[0]) {
      TrimLeftShrinks(s[1..]);
    }
  }

  lemma TrimShrinks(s: string)
    ensures |Trim(s)| <= |s| && (NUL !in s ==> NUL !in Trim(s))
  {
    TrimLeftShrinks(TrimRight(s));
  }
}
