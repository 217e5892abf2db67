/** Character classes and scanning primitives shared by the text-handling components.
    A C string is modelled as a `seq<char>` that does not contain NUL; the position just
    past its end stands for the terminating NUL. */
module CText {

  const NUL: char := '\0'

  /** `isspace` in the C locale. */
  predicate IsSpace(c: char) {
    c == ' ' || ('\t' <= c <= '\r')
  }

  /** `isalpha` in the C locale. */
  predicate IsAlpha(c: char) {
    'a' <= c <= 'z' || 'A' <= c <= 'Z'
  }

  /** The first index at or after `p` whose character satisfies `stop`, or `|s|`.
      The postconditions determine the result uniquely. */
  function ScanUntil(s: seq<char>, p: nat, stop: char -> bool): (r: nat)
    requires p <= |s|
    ensures p <= r <= |s|
    ensures forall i :: p <= i < r ==> !stop(s[i])
    ensures r < |s| ==> stop(s[r])
    decreases |s| - p
  {
    if p == |s| || stop(s[p]) then p else ScanUntil(s, p + 1, stop)
  }

  /** The first index at or after `p` whose character does not satisfy `go`, or `|s|`. */
  function ScanWhile(s: seq<char>, p: nat, go: char -> bool): (r: nat)
    requires p <= |s|
    ensures p <= r <= |s|
    ensures forall i :: p <= i < r ==> go(s[i])
    ensures r < |s| ==> !go(s[r])
    decreases |s| - p
  {
    if p == |s| || !go(s[p]) then p else ScanWhile(s, p + 1, go)
  }

  function TrimLeft(s: seq<char>): (r: seq<char>)
    ensures r == [] || !IsSpace(r[0])
  {
    if s == [] || !IsSpace(s[0]) then s else TrimLeft(s[1..])
  }

  function TrimRight(s: seq<char>): (r: seq<char>)
    ensures r <= s
    ensures r == [] || !IsSpace(r[|r| - 1])
    ensures forall i :: |r| <= i < |s| ==> IsSpace(s[i])
  {
    if s == [] || !IsSpace(s[|s| - 1]) then s else TrimRight(s[..|s| - 1])
  }

  function Trim(s: seq<char>): seq<char> {
    TrimLeft(TrimRight(s))
  }

  // Blanks, for what may be written -------------------------------------------------------------

  /** One of the six characters that a C text treats as space, each by its own name. */
  predicate BlankChar(c: char) {
    c == ' ' || c == '\t' || c == '\n' || c == '\U{B}' || c == '\U{C}' || c == '\r'
  }

  predicate AllBlank(s: string) { forall c :: c in s ==> BlankChar(c) }

  lemma {:induction false} TrimRightBlank(s: string, b: string)
    requires AllBlank(b) && (s == [] || !IsSpace(s[|s| - 1]))
    ensures TrimRight(s + b) == s
    decreases |b|
  {
    if b == [] {
      assert s + b == s;
    } else {
      var n := |b| - 1;
      assert b[n] in b && (s + b)[..|s + b| - 1] == s + b[..n];
      TrimRightBlank(s, b[..n]);
    }
  }

  lemma {:induction false} TrimLeftBlank(a: string, s: string)
    requires AllBlank(a) && (s == [] || !IsSpace(s[0]))
    ensures TrimLeft(a + s) == s
    decreases |a|
  {
    if a == [] {
      assert a + s == s;
    } else {
      assert a[0] in a && (a + s)[1..] == a[1..] + s;
      TrimLeftBlank(a[1..], s);
    }
  }

  // Places --------------------------------------------------------------------------------------

  /** `text` occurs in `s` at position `p`. */
  predicate At(s: seq<char>, p: nat, text: seq<char>) {
    p + |text| <= |s| && s[p..p + |text|] == text
  }

  lemma AtSplit(s: seq<char>, p: nat, a: seq<char>, b: seq<char>)
    requires At(s, p, a + b)
    ensures At(s, p, a) && At(s, p + |a|, b)
  {
    assert s[p..p + |a|] == (a + b)[..|a|];
    assert s[p + |a|..p + |a| + |b|] == (a + b)[|a|..];
  }
}
