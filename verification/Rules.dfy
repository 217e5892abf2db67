/** Log rules and their 256-bit level bitmaps (src/zlog/src/rule.c, src/zlog/src/category.h). */
module Rules {

  // Bits ------------------------------------------------------------------------------------

  /** `1 << (7 - k)`: level 8*i+k is bit k of byte i, counted from the left. */
  function Mask(k: nat): bv8
    requires k < 8
  {
    match k
    case 0 => 0x80 case 1 => 0x40 case 2 => 0x20 case 3 => 0x10
    case 4 => 0x08 case 5 => 0x04 case 6 => 0x02 case _ => 0x01
  }

  /** The low byte of `~(0xFF << (8 - k))`: the bits from k on. */
  function FromBit(k: nat): bv8
    requires k < 8
  {
    match k
    case 0 => 0xFF case 1 => 0x7F case 2 => 0x3F case 3 => 0x1F
    case 4 => 0x0F case 5 => 0x07 case 6 => 0x03 case _ => 0x01
  }

  /** The two tables are the shifts of the source, whose operands are wider than a byte. */
  lemma MasksAreShifts(k: nat)
    requires k < 8
    ensures Mask(k) as bv16 == (1 as bv16) << (7 - k)
    ensures FromBit(k) as bv16 == !((0xFF as bv16) << (8 - k)) & 0xFF
  {
    match k
    case 0 => assert (1 as bv16) << 7 == 0x80; assert (0xFF as bv16) << 8 == 0xFF00;
    case 1 => assert (1 as bv16) << 6 == 0x40; assert (0xFF as bv16) << 7 == 0x7F80;
    case 2 => assert (1 as bv16) << 5 == 0x20; assert (0xFF as bv16) << 6 == 0x3FC0;
    case 3 => assert (1 as bv16) << 4 == 0x10; assert (0xFF as bv16) << 5 == 0x1FE0;
    case 4 => assert (1 as bv16) << 3 == 0x08; assert (0xFF as bv16) << 4 == 0x0FF0;
    case 5 => assert (1 as bv16) << 2 == 0x04; assert (0xFF as bv16) << 3 == 0x07F8;
    case 6 => assert (1 as bv16) << 1 == 0x02; assert (0xFF as bv16) << 2 == 0x03FC;
    case _ => assert (1 as bv16) << 0 == 0x01; assert (0xFF as bv16) << 1 == 0x01FE;
  }

  predicate BitOf(b: bv8, k: nat)
    requires k < 8
  {
    b & Mask(k) != 0
  }

  /** `zlog_category_needless_level` tests a bit by shifting it to the right end. */
  lemma BitByShift(b: bv8, k: nat)
    requires k < 8
    ensures BitOf(b, k) <==> (b >> (7 - k)) & 0x01 == 1
  {
    if k < 4 { BitByShiftHigh(b, k); } else { BitByShiftLow(b, k); }
  }

  lemma BitByShiftHigh(b: bv8, k: nat)
    requires k < 4
    ensures BitOf(b, k) <==> (b >> (7 - k)) & 0x01 == 1
  {
    match k
    case 0 => assert (b & 0x80 != 0) <==> ((b >> 7) & 1 == 1);
    case 1 => assert (b & 0x40 != 0) <==> ((b >> 6) & 1 == 1);
    case 2 => assert (b & 0x20 != 0) <==> ((b >> 5) & 1 == 1);
    case _ => assert (b & 0x10 != 0) <==> ((b >> 4) & 1 == 1);
  }

  lemma BitByShiftLow(b: bv8, k: nat)
    requires 4 <= k < 8
    ensures BitOf(b, k) <==> (b >> (7 - k)) & 0x01 == 1
  {
    match k
    case 4 => assert (b & 0x08 != 0) <==> ((b >> 3) & 1 == 1);
    case 5 => assert (b & 0x04 != 0) <==> ((b >> 2) & 1 == 1);
    case 6 => assert (b & 0x02 != 0) <==> ((b >> 1) & 1 == 1);
    case _ => assert (b & 0x01 != 0) <==> ((b >> 0) & 1 == 1);
  }

  lemma ByteFacts(a: bv8, b: bv8, j: nat, k: nat)
    requires j < 8 && k < 8
    ensures BitOf(a | b, j) <==> BitOf(a, j) || BitOf(b, j)
    ensures !BitOf(0, j) && BitOf(0xFF, j)
    ensures BitOf(0 | Mask(k), j) <==> j == k
    ensures BitOf(0xFF & !Mask(k), j) <==> j != k
    ensures BitOf(0 | FromBit(k), j) <==> j >= k
  {
  }

  // Bitmaps ---------------------------------------------------------------------------------

  type Bitmap = b: seq<bv8> | |b| == 32 witness seq(32, _ => 0)

  const NO_LEVELS: Bitmap := seq(32, _ => 0)

  /** Level `lv` is set. */
  predicate Allows(b: Bitmap, lv: nat)
    requires lv < 256
  {
    BitOf(b[lv / 8], lv % 8)
  }

  /** A rule: which categories and levels it takes. `id` stands for where it writes to. */
  datatype Rule = Rule(category: string, compareChar: char, level: nat, bitmap: Bitmap, id: nat)

  /** `zlog_rule_output` passes an event of level `lv` on to the rule's writer. */
  predicate Outputs(r: Rule, lv: nat) {
    match r.compareChar
    case '*' => true
    case '.' => lv >= r.level
    case '=' => lv == r.level
    case '!' => lv != r.level
    case _ => false
  }

  /** The bitmap is exactly the levels the rule outputs. */
  ghost predicate RuleOk(r: Rule) {
    r.level < 256 && r.category != [] && forall lv :: 0 <= lv < 256 ==> (Allows(r.bitmap, lv) <==> Outputs(r, lv))
  }

  /** What the bits of a rule's bitmap say, counted from the left end of each byte. */
  lemma BitmapMeans(r: Rule, lv: nat)
    requires RuleOk(r) && lv < 256
    ensures (r.bitmap[lv / 8] >> (7 - lv % 8)) & 0x01 == 1 <==>
            || r.compareChar == '*'
            || (r.compareChar == '.' && lv >= r.level)
            || (r.compareChar == '=' && lv == r.level)
            || (r.compareChar == '!' && lv != r.level)
  {
    hide BitOf;
    BitByShift(r.bitmap[lv / 8], lv % 8);
    assert Allows(r.bitmap, lv) <==> Outputs(r, lv);
  }

  /** Byte `j` of the bitmap of a rule. */
  function ByteFor(compareChar: char, level: nat, j: nat): bv8 {
    var i, k := level / 8, level % 8;
    match compareChar
    case '=' => if j == i then 0 | Mask(k) else 0
    case '!' => if j == i then 0xFF & !Mask(k) else 0xFF
    case '*' => 0xFF
    case '.' => if j < i then 0 else if j == i then 0 | FromBit(k) else 0xFF
    case _ => 0
  }

  lemma ByteForLevel(r: Rule, lv: nat)
    requires lv < 256
    ensures BitOf(ByteFor(r.compareChar, r.level, lv / 8), lv % 8) <==> Outputs(r, lv)
  {
    hide Mask, FromBit, BitOf;
    ByteFacts(0, 0, lv % 8, r.level % 8);
  }

  /** The part of `zlog_rule_new` that fills the bitmap, for a resolved level. */
  method FillBitmap(compareChar: char, level: nat) returns (b: array<bv8>)
    requires level < 256
    ensures fresh(b) && b.Length == 32 && forall j :: 0 <= j < 32 ==> b[j] == ByteFor(compareChar, level, j)
  {
    hide Mask, FromBit;
    b := new bv8[32](_ => 0);
    var i, k := level / 8, level % 8;
    match compareChar {
      case '=' =>
        b[i] := b[i] | Mask(k);
      case '!' =>
        FillOnes(b, 0);
        b[i] := b[i] & !Mask(k);
      case '*' =>
        FillOnes(b, 0);
      case '.' =>
        b[i] := b[i] | FromBit(k);
        FillOnes(b, i + 1);
      case _ =>
    }
  }

  method NewRule(category: string, compareChar: char, level: nat, id: nat) returns (r: Rule)
    requires level < 256 && category != []
    ensures r.category == category && r.compareChar == compareChar && r.level == level && r.id == id
    ensures RuleOk(r)
  {
    hide ByteFor, BitOf;
    var b := FillBitmap(compareChar, level);
    r := Rule(category, compareChar, level, b[..], id);
    forall lv | 0 <= lv < 256 ensures Allows(r.bitmap, lv) <==> Outputs(r, lv) {
      ByteForLevel(r, lv);
      assert r.bitmap[lv / 8] == b[lv / 8];
    }
  }

  /** `memset` of the bytes from `from` on. */
  method FillOnes(b: array<bv8>, from: nat)
    requires from <= b.Length
    modifies b
    ensures forall j :: 0 <= j < b.Length ==> b[j] == if j < from then old(b[j]) else 0xFF
  {
    for i := from to b.Length
      invariant forall j :: 0 <= j < b.Length ==> b[j] == if from <= j < i then 0xFF else old(b[j])
    {
      b[i] := 0xFF;
    }
  }

  // Matching --------------------------------------------------------------------------------

  /** `zlog_rule_match_category`; `strncmp` stops at the end of the shorter string. */
  function MatchCategory(r: Rule, name: string): bool
    requires r.category != []
  {
    if r.category == "*" then true
    else if r.category == name then true
    else
      var len := |r.category|;
      if r.category[len - 1] == '_' then
        var n := if |name| == len - 1 then len - 1 else len;
        |name| >= n && r.category[..n] == name[..n]
      else false
  }

  /** What the pattern means: "*" takes every category, "aa_" takes "aa" and everything that
      starts with "aa_", any other pattern takes the category of that name. */
  predicate Covers(pattern: string, name: string) {
    || pattern == "*" || pattern == name
    || (pattern != [] && pattern[|pattern| - 1] == '_' && (pattern <= name || pattern == name + "_"))
  }

  lemma MatchIsCover(r: Rule, name: string)
    requires r.category != []
    ensures MatchCategory(r, name) <==> Covers(r.category, name)
  {
    var c, len := r.category, |r.category|;
    if c[len - 1] == '_' && |name| == len - 1 {
      assert c == c[..len - 1] + "_";
      assert c == name + "_" <==> c[..len - 1] == name;
    }
  }

  /** `zlog_rule_is_wastebin`. */
  predicate IsWastebin(r: Rule) { r.category == "!" }

  /** The rules that match, in order. */
  function Matching(rules: seq<Rule>, name: string): seq<Rule> {
    if rules == [] then []
    else
      var r := rules[|rules| - 1];
      Matching(rules[..|rules| - 1], name) + if Covers(r.category, name) then [r] else []
  }

  /** The rules that match are those, in order, whose pattern is "*" or the name, or ends in '_' and
      is the beginning of the name, or the name and that '_'. */
  lemma {:induction false} MatchingIs(rules: seq<Rule>, more: seq<Rule>, r: Rule, name: string)
    ensures Matching(rules + more, name) == Matching(rules, name) + Matching(more, name)
    ensures Matching([r], name)
         == var p := r.category;
            if p == "*" || p == name || (p != "" && p[|p| - 1] == '_' && (p <= name || p == name + "_"))
            then [r] else []
    decreases more
  {
    assert [r][..0] == [] && Matching([], name) == [];
    hide Covers;
    if more == [] {
      assert rules + more == rules;
    } else {
      var n := |more| - 1;
      MatchingIs(rules, more[..n], r, name);
      assert (rules + more)[..|rules + more| - 1] == rules + more[..n];
    }
  }

  /** The last wastebin rule, if any. */
  function LastWastebin(rules: seq<Rule>): seq<Rule> {
    if rules == [] then []
    else if IsWastebin(rules[|rules| - 1]) then [rules[|rules| - 1]]
    else LastWastebin(rules[..|rules| - 1])
  }

  /** The rules a category uses: those that match, or else the wastebin. */
  function FitRules(rules: seq<Rule>, name: string): seq<Rule> {
    var fit := Matching(rules, name);
    if fit == [] then LastWastebin(rules) else fit
  }

  /** Where no rule matches, the last rule for "!" is used, if there is one. */
  lemma {:induction false} FallsBack(rules: seq<Rule>, name: string)
    ensures Matching(rules, name) != [] ==> FitRules(rules, name) == Matching(rules, name)
    ensures Matching(rules, name) == [] && (forall i :: 0 <= i < |rules| ==> rules[i].category != "!") ==>
              FitRules(rules, name) == []
    ensures forall i :: 0 <= i < |rules| && Matching(rules, name) == [] && rules[i].category == "!"
                        && (forall j :: i < j < |rules| ==> rules[j].category != "!") ==>
              FitRules(rules, name) == [rules[i]]
  {
    hide Matching;
    WastebinIs(rules);
  }

  lemma {:induction false} WastebinIs(rules: seq<Rule>)
    ensures (forall i :: 0 <= i < |rules| ==> rules[i].category != "!") ==> LastWastebin(rules) == []
    ensures forall i :: 0 <= i < |rules| && rules[i].category == "!"
                        && (forall j :: i < j < |rules| ==> rules[j].category != "!") ==>
              LastWastebin(rules) == [rules[i]]
  {
    if rules != [] {
      var n := |rules| - 1;
      WastebinIs(rules[..n]);
      var last := LastWastebin(rules);
      assert last == if rules[n].category == "!" then [rules[n]] else LastWastebin(rules[..n]);
      hide LastWastebin;
      forall i | 0 <= i < |rules| && rules[i].category == "!"
                 && (forall j :: i < j < |rules| ==> rules[j].category != "!")
        ensures last == [rules[i]]
      {
        if i < n {
          assert rules[..n][i] == rules[i] && rules[n].category != "!";
        }
      }
    }
  }

  /** Some rule of `fit` would output level `lv`. */
  ghost predicate SomeOutputs(fit: seq<Rule>, lv: nat) {
    exists i :: 0 <= i < |fit| && Outputs(fit[i], lv)
  }

  /** `b` is set for exactly the levels that some rule of `fit` outputs. */
  ghost predicate BitmapOf(b: Bitmap, fit: seq<Rule>) {
    forall lv :: 0 <= lv < 256 ==> (Allows(b, lv) <==> SomeOutputs(fit, lv))
  }
}
