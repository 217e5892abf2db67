/** Log categories (src/zlog/src/category.c): the rules a category uses, the bitmap that lets it
    skip events no rule would output, and the update, commit and rollback of both. */
module Category {
  import opened Rules
  import opened Options

  /** Which step of `zlog_category_obtain_rules` fails, if any: making the list (0) or adding the
      n-th rule to it. The source has fewer failures: adding a rule allocates only when the list
      outgrows its size. */
  type AllocFailure = Option<nat>

  /** The failure happens: the category gets that far. */
  predicate Strikes(failure: AllocFailure, rules: seq<Rule>, name: string) {
    failure.Some? && failure.value <= |FitRules(rules, name)|
  }

  lemma {:induction false} MatchingPrefix(rules: seq<Rule>, name: string, i: nat)
    requires i <= |rules|
    ensures |Matching(rules[..i], name)| <= |Matching(rules, name)|
  {
    hide Covers;
    if i == |rules| {
      assert rules[..i] == rules;
    } else {
      var n := |rules| - 1;
      MatchingPrefix(rules[..n], name, i);
      assert rules[..n][..i] == rules[..i];
    }
  }

  /** The bytewise or of two bitmaps allows what either of them allows. */
  lemma OverlapAllows(a: Bitmap, b: Bitmap, c: Bitmap, lv: nat)
    requires lv < 256 && forall i :: 0 <= i < 32 ==> c[i] == a[i] | b[i]
    ensures Allows(c, lv) <==> Allows(a, lv) || Allows(b, lv)
  {
    ByteFacts(a[lv / 8], b[lv / 8], lv % 8, 0);
  }

  lemma AddToBitmap(a: Bitmap, fit: seq<Rule>, r: Rule, c: Bitmap)
    requires BitmapOf(a, fit) && RuleOk(r) && forall i :: 0 <= i < 32 ==> c[i] == a[i] | r.bitmap[i]
    ensures BitmapOf(c, fit + [r])
  {
    hide Allows, Outputs;
    forall lv | 0 <= lv < 256 ensures Allows(c, lv) <==> SomeOutputs(fit + [r], lv) {
      OverlapAllows(a, r.bitmap, c, lv);
      if SomeOutputs(fit, lv) {
        var i :| 0 <= i < |fit| && Outputs(fit[i], lv);
        assert Outputs((fit + [r])[i], lv);
      }
      assert (fit + [r])[|fit|] == r;
    }
  }

  lemma NoRulesNoLevels()
    ensures BitmapOf(NO_LEVELS, [])
  {
    forall lv | 0 <= lv < 256 ensures !Allows(NO_LEVELS, lv) {
      ByteFacts(0, 0, lv % 8, 0);
    }
  }

  lemma NoneYet(rules: seq<Rule>, name: string)
    ensures Matching(rules[..0], name) == [] && LastWastebin(rules[..0]) == []
  {
  }

  /** What one more rule adds. */
  lemma OneMore(rules: seq<Rule>, name: string, i: nat)
    requires i < |rules| && RuleOk(rules[i])
    ensures rules[i].category != []
    ensures Matching(rules[..i + 1], name)
         == Matching(rules[..i], name) + if MatchCategory(rules[i], name) then [rules[i]] else []
    ensures LastWastebin(rules[..i + 1]) == if IsWastebin(rules[i]) then [rules[i]] else LastWastebin(rules[..i])
  {
    hide Covers, MatchCategory;
    assert rules[..i + 1][..i] == rules[..i];
    MatchIsCover(rules[i], name);
  }

  class Category {
    const name: string
    var levelBitmap: Bitmap
    var levelBitmapBackup: Bitmap
    var fitRules: Option<seq<Rule>>
    var fitRulesBackup: Option<seq<Rule>>

    constructor (name: string)
      ensures this.name == name && fitRules == None && fitRulesBackup == None
    {
      this.name := name;
      levelBitmap, levelBitmapBackup := NO_LEVELS, NO_LEVELS;
      fitRules, fitRulesBackup := None, None;
    }

    /** The category uses exactly the rules of `rules` that are meant for it. */
    ghost predicate Uses(rules: seq<Rule>)
      reads this
    {
      fitRules == Some(FitRules(rules, name)) && BitmapOf(levelBitmap, FitRules(rules, name))
    }

    method OverlapBitmap(r: Rule, ghost fit: seq<Rule>)
      requires RuleOk(r) && BitmapOf(levelBitmap, fit)
      modifies this`levelBitmap
      ensures BitmapOf(levelBitmap, fit + [r])
    {
      var b := levelBitmap;
      for i := 0 to 32
        invariant forall j :: 0 <= j < 32 ==> b[j] == if j < i then levelBitmap[j] | r.bitmap[j] else levelBitmap[j]
      {
        b := b[i := b[i] | r.bitmap[i]];
      }
      AddToBitmap(levelBitmap, fit, r, b);
      levelBitmap := b;
    }

    /** `zlog_category_obtain_rules`. */
    method ObtainRules(rules: seq<Rule>, failure: AllocFailure) returns (rc: int)
      requires forall r :: r in rules ==> RuleOk(r)
      modifies this`fitRules, this`levelBitmap
      ensures rc == if Strikes(failure, rules, name) then -1 else 0
      ensures rc == 0 ==> Uses(rules)
      ensures rc != 0 ==> fitRules == None
    {
      hide BitmapOf, RuleOk, Covers, MatchCategory, Matching, LastWastebin;
      levelBitmap := NO_LEVELS;
      NoRulesNoLevels();
      NoneYet(rules, name);
      if failure == Some(0) {
        fitRules := None;
        return -1;
      }
      var fit: seq<Rule> := [];
      var wastebin: Option<Rule> := None;
      var adds := 0;
      for i := 0 to |rules|
        modifies this`levelBitmap, this`fitRules
        invariant fit == Matching(rules[..i], name) && BitmapOf(levelBitmap, fit)
        invariant LastWastebin(rules[..i]) == if wastebin.Some? then [wastebin.value] else []
        invariant wastebin.Some? ==> RuleOk(wastebin.value)
        invariant adds == |fit| && (failure.Some? ==> failure.value > adds)
      {
        var r := rules[i];
        assert r in rules && RuleOk(r);
        OneMore(rules, name, i);
        MatchingPrefix(rules, name, i + 1);
        if MatchCategory(r, name) {
          adds := adds + 1;
          if failure == Some(adds) {
            fitRules := None;
            return -1;
          }
          OverlapBitmap(r, fit);
          fit := fit + [r];
        }
        if IsWastebin(r) {
          wastebin := Some(r);
        }
      }
      assert rules[..|rules|] == rules;
      if fit == [] && wastebin.Some? {
        adds := adds + 1;
        if failure == Some(adds) {
          fitRules := None;
          return -1;
        }
        OverlapBitmap(wastebin.value, fit);
        assert [] + [wastebin.value] == [wastebin.value];
        fit := [wastebin.value];
      }
      fitRules := Some(fit);
      rc := 0;
    }

    /** `zlog_category_update_rules`: the old rules and bitmap become the backup. */
    method UpdateRules(newRules: seq<Rule>, failure: AllocFailure) returns (rc: int)
      requires forall r :: r in newRules ==> RuleOk(r)
      modifies this
      ensures fitRulesBackup == old(fitRules) && levelBitmapBackup == old(levelBitmap)
      ensures rc == if Strikes(failure, newRules, name) then -1 else 0
      ensures rc == 0 ==> Uses(newRules)
      ensures rc != 0 ==> fitRules == None
    {
      fitRulesBackup := fitRules;
      fitRules := None;
      levelBitmapBackup := levelBitmap;
      rc := ObtainRules(newRules, failure);
    }

    /** `zlog_category_commit_rules`. */
    method CommitRules()
      modifies this`fitRulesBackup, this`levelBitmapBackup
      ensures fitRulesBackup == None
      ensures levelBitmapBackup == if old(fitRulesBackup) == None then old(levelBitmapBackup) else NO_LEVELS
    {
      if fitRulesBackup == None {
        return;
      }
      fitRulesBackup := None;
      levelBitmapBackup := NO_LEVELS;
    }

    /** `zlog_category_rollback_rules`. */
    method RollbackRules()
      modifies this
      ensures fitRulesBackup == None
      ensures old(fitRulesBackup) == None ==>
                fitRules == old(fitRules) && levelBitmap == old(levelBitmap)
                && levelBitmapBackup == old(levelBitmapBackup)
      ensures old(fitRulesBackup) != None ==>
                fitRules == old(fitRulesBackup) && levelBitmap == old(levelBitmapBackup)
                && levelBitmapBackup == NO_LEVELS
    {
      if fitRulesBackup == None {
        return;
      }
      fitRules := fitRulesBackup;
      fitRulesBackup := None;
      levelBitmap := levelBitmapBackup;
      levelBitmapBackup := NO_LEVELS;
    }

    /** `zlog_category_needless_level`: the test in front of every log call. */
    method NeedlessLevel(lv: nat, ghost rules: seq<Rule>) returns (needless: bool)
      requires lv < 256 && Uses(rules)
      ensures needless <==> !SomeOutputs(FitRules(rules, name), lv)
    {
      BitByShift(levelBitmap[lv / 8], lv % 8);
      needless := !((levelBitmap[lv / 8] >> (7 - lv % 8)) & 0x01 == 1);
    }

    /** `zlog_category_output`: the rules of an event that reach their writer, in order. */
    method Output(lv: nat) returns (written: seq<Rule>)
      requires fitRules.Some?
      ensures written == Passing(fitRules.value, lv)
    {
      written := [];
      var fit := fitRules.value;
      for i := 0 to |fit|
        invariant written == Passing(fit[..i], lv)
      {
        assert fit[..i + 1][..i] == fit[..i];
        if Outputs(fit[i], lv) {
          written := written + [fit[i]];
        }
      }
      assert fit[..|fit|] == fit;
    }
  }

  /** The rules of `fit` that output level `lv`. */
  function Passing(fit: seq<Rule>, lv: nat): seq<Rule> {
    if fit == [] then []
    else Passing(fit[..|fit| - 1], lv) + if Outputs(fit[|fit| - 1], lv) then [fit[|fit| - 1]] else []
  }

  /** A category writes an event with its rules in order, each that takes the level. */
  lemma {:induction false} PassingIs(fit: seq<Rule>, more: seq<Rule>, r: Rule, lv: nat)
    ensures Passing(fit + more, lv) == Passing(fit, lv) + Passing(more, lv)
    ensures Passing([r], lv)
         == if r.compareChar == '*' || (r.compareChar == '.' && lv >= r.level)
               || (r.compareChar == '=' && lv == r.level) || (r.compareChar == '!' && lv != r.level)
            then [r] else []
    decreases more
  {
    assert [r][..0] == [] && Passing([], lv) == [];
    hide Outputs;
    if more == [] {
      assert fit + more == fit;
    } else {
      var n := |more| - 1;
      PassingIs(fit, more[..n], r, lv);
      assert (fit + more)[..|fit + more| - 1] == fit + more[..n];
    }
  }

  /** Skipping a needless level loses nothing: no rule would have written it. */
  lemma {:induction false} NeedlessWritesNothing(fit: seq<Rule>, lv: nat)
    ensures Passing(fit, lv) == [] <==> !SomeOutputs(fit, lv)
  {
    hide Outputs;
    if fit != [] {
      var n := |fit| - 1;
      NeedlessWritesNothing(fit[..n], lv);
      if SomeOutputs(fit[..n], lv) {
        var i :| 0 <= i < n && Outputs(fit[..n][i], lv);
        assert Outputs(fit[i], lv);
      }
      if SomeOutputs(fit, lv) {
        var i :| 0 <= i < |fit| && Outputs(fit[i], lv);
        assert i < n ==> Outputs(fit[..n][i], lv);
      }
    }
  }
}
