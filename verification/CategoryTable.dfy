/** Operations on the whole category table (src/zlog/src/category_table.c) and the reload that
    drives them (src/zlog/src/zlog.c). */
module CategoryTable {
  import opened Rules
  import opened HashTable
  import opened Options
  import C = Category

  type Category = C.Category
  type Table = HashTable<string, Category>

  /** Every category is stored under its own name. */
  ghost predicate TableOk(t: Table)
    reads t, t.tab
  {
    t.Valid() && forall k :: k in t.m ==> t.m[k].name == k
  }

  /** The categories in the order in which `zc_hashtable_foreach` visits them. */
  ghost function Order(t: Table): (cats: seq<Category>)
    requires InStore(t.store, Flat(t.bs))
    reads t
    ensures |cats| == |Flat(t.bs)|
    ensures forall s :: 0 <= s < |cats| ==> cats[s] == t.store[Flat(t.bs)[s]].value
  {
    var store, f := t.store, Flat(t.bs);
    seq(|f|, s requires 0 <= s < |f| => store[f[s]].value)
  }

  ghost predicate Apart(cats: seq<Category>) {
    forall s, u :: 0 <= s < u < |cats| ==> cats[s] != cats[u]
  }

  /** The iteration visits every category of the table exactly once. */
  lemma OrderFacts(t: Table)
    requires TableOk(t)
    ensures InStore(t.store, Flat(t.bs))
    ensures Apart(Order(t))
    ensures forall s :: 0 <= s < |Order(t)| ==> Order(t)[s] in t.m.Values
    ensures forall k :: k in t.m ==> t.m[k] in Order(t)
  {
    hide Flat, Buckets, Represents;
    VisitsOnce(t.store, t.tab[..], t.bs, t.hash, t.m);
    var f, cats := Flat(t.bs), Order(t);
    forall s, u | 0 <= s < u < |f| ensures cats[s] != cats[u] {
      assert t.store[f[s]].key != t.store[f[u]].key;
    }
    forall k | k in t.m ensures t.m[k] in cats {
      var s :| 0 <= s < |f| && t.store[f[s]].key == k;
      assert cats[s] == t.m[k];
    }
  }

  lemma NotYet(cats: seq<Category>, n: nat)
    requires Apart(cats) && n < |cats|
    ensures forall s :: 0 <= s < |cats| && s != n ==> cats[s] != cats[n]
  {
  }

  /** No reload is half done: every category has rules and no backup. */
  ghost predicate Quiet(t: Table)
    reads t, t.m.Values
  {
    forall k :: k in t.m ==> t.m[k].fitRules.Some? && t.m[k].fitRulesBackup == None
  }

  /** Some category has no rules at all. */
  ghost predicate Stripped(t: Table)
    reads t, t.m.Values
  {
    exists k :: k in t.m && t.m[k].fitRules == None
  }

  /** The plan strikes none of the categories of these names. */
  ghost predicate Lucky(names: set<string>, rules: seq<Rule>, plan: string -> C.AllocFailure) {
    forall k :: k in names ==> !C.Strikes(plan(k), rules, k)
  }

  ghost predicate Spared(c: Category, rules: seq<Rule>, plan: string -> C.AllocFailure) {
    !C.Strikes(plan(c.name), rules, c.name)
  }

  lemma NoFailures(names: set<string>, rules: seq<Rule>, plan: string -> C.AllocFailure)
    ensures (forall k :: k in names ==> plan(k) == None) ==> Lucky(names, rules, plan)
  {
  }

  lemma LuckyIfSpared(t: Table, rules: seq<Rule>, plan: string -> C.AllocFailure)
    requires TableOk(t)
    ensures Lucky(t.m.Keys, rules, plan) <==> forall c :: c in t.m.Values ==> Spared(c, rules, plan)
  {
    if !Lucky(t.m.Keys, rules, plan) {
      var k :| k in t.m && C.Strikes(plan(k), rules, k);
      assert t.m[k] in t.m.Values && !Spared(t.m[k], rules, plan);
    }
  }

  /** Every category uses what `rules` has for it. */
  ghost predicate AllUse(t: Table, rules: seq<Rule>)
    reads t, t.m.Values
  {
    forall k :: k in t.m ==> t.m[k].Uses(rules)
  }

  twostate predicate Kept(c: Category)
    reads c
  {
    c.fitRules == old(c.fitRules) && c.levelBitmap == old(c.levelBitmap)
  }

  twostate predicate Untouched(c: Category)
    reads c
  {
    && Kept(c) && c.fitRulesBackup == old(c.fitRulesBackup) && c.levelBitmapBackup == old(c.levelBitmapBackup)
  }

  twostate predicate BackedUp(c: Category)
    reads c
  {
    c.fitRulesBackup == old(c.fitRules) && c.levelBitmapBackup == old(c.levelBitmap)
  }

  twostate predicate Committed(c: Category)
    reads c
  {
    Kept(c) && c.fitRulesBackup == None
  }

  twostate predicate RolledBack(c: Category)
    reads c
  {
    && c.fitRulesBackup == None
    && (if old(c.fitRulesBackup) == None then Kept(c)
        else c.fitRules == old(c.fitRulesBackup) && c.levelBitmap == old(c.levelBitmapBackup))
  }

  /** The rules and bitmaps of a category. */
  datatype Saved = Saved(fit: Option<seq<Rule>>, bitmap: Bitmap, fitBackup: Option<seq<Rule>>, bitmapBackup: Bitmap)

  ghost function StateOf(c: Category): Saved
    reads c
  {
    Saved(c.fitRules, c.levelBitmap, c.fitRulesBackup, c.levelBitmapBackup)
  }

  ghost function StatesOf(cats: seq<Category>): (was: seq<Saved>)
    reads cats
    ensures |was| == |cats| && forall s :: 0 <= s < |cats| ==> was[s] == StateOf(cats[s])
  {
    seq(|cats|, s requires 0 <= s < |cats| reads cats => StateOf(cats[s]))
  }

  /** The categories from `n` on are as they were. */
  ghost predicate SameFrom(cats: seq<Category>, was: seq<Saved>, n: nat)
    reads cats
  {
    |was| == |cats| && n <= |cats| && forall s :: n <= s < |cats| ==> StateOf(cats[s]) == was[s]
  }

  /** The first `n` categories are updated. */
  ghost predicate UpdatedTo(cats: seq<Category>, was: seq<Saved>, n: nat, rules: seq<Rule>,
                            plan: string -> C.AllocFailure)
    reads cats
  {
    && SameFrom(cats, was, n)
    && (forall s :: 0 <= s < n ==> HasBackup(cats[s], was[s]))
    && (forall s :: 0 <= s < n ==> cats[s].Uses(rules))
    && (forall s :: 0 <= s < n ==> Spared(cats[s], rules, plan))
  }

  ghost predicate HasBackup(c: Category, was: Saved)
    reads c
  {
    c.fitRulesBackup == was.fit && c.levelBitmapBackup == was.bitmap
  }

  /** The update stopped at category `n`. */
  ghost predicate StuckAt(cats: seq<Category>, was: seq<Saved>, n: nat, rules: seq<Rule>,
                          plan: string -> C.AllocFailure)
    reads cats
  {
    && n < |cats| && SameFrom(cats, was, n + 1)
    && (forall s :: 0 <= s <= n ==> HasBackup(cats[s], was[s]))
    && cats[n].fitRules == None && !Spared(cats[n], rules, plan)
  }

  method UpdateNext(c: Category, rules: seq<Rule>, plan: string -> C.AllocFailure,
                    ghost cats: seq<Category>, ghost was: seq<Saved>, ghost n: nat) returns (rc: int)
    requires Apart(cats) && n < |cats| && c == cats[n] && UpdatedTo(cats, was, n, rules, plan)
    requires forall r :: r in rules ==> RuleOk(r)
    modifies c
    ensures rc == if Spared(c, rules, plan) then 0 else -1
    ensures if rc == 0 then UpdatedTo(cats, was, n + 1, rules, plan) else StuckAt(cats, was, n, rules, plan)
  {
    hide BitmapOf, FitRules, RuleOk, C.Strikes;
    NotYet(cats, n);
    assert StateOf(c) == was[n];
    hide Apart;
    rc := c.UpdateRules(rules, plan(c.name));
  }

  /** `zlog_category_table_update_rules`: stops at the first category that cannot be updated.
      `plan` says which allocation fails for which category. Every category is as before or has
      its old rules in the backup. */
  method UpdateAll(t: Table, rules: seq<Rule>, plan: string -> C.AllocFailure) returns (rc: int)
    requires TableOk(t) && forall r :: r in rules ==> RuleOk(r)
    modifies t.m.Values
    ensures forall k :: k in t.m ==> BackedUp(t.m[k]) || (rc != 0 && Untouched(t.m[k]))
    ensures rc == if Lucky(t.m.Keys, rules, plan) then 0 else -1
    ensures rc == 0 ==> AllUse(t, rules)
    ensures rc != 0 ==> Stripped(t)
  {
    hide Flat, Buckets, Represents, Apart, RuleOk, Lucky, UpdatedTo, StuckAt, StatesOf, Spared, BitmapOf, FitRules;
    OrderFacts(t);
    LuckyIfSpared(t, rules, plan);
    ghost var cats, n := Order(t), 0;
    ghost var was := StatesOf(cats);
    rc, n := UpdateEach(t, rules, plan, cats);
    if rc == 0 {
      AllUpdated(cats, was, rules, plan);
    } else {
      SomeStuck(cats, was, n, rules, plan);
    }
    assert forall s :: 0 <= s < |cats| ==> HasBackup(cats[s], was[s]) || StateOf(cats[s]) == was[s];
  }

  /** Its loop: `n` categories are done, or stuck is the one after them. */
  method UpdateEach(t: Table, rules: seq<Rule>, plan: string -> C.AllocFailure, ghost cats: seq<Category>)
      returns (rc: int, ghost n: nat)
    requires TableOk(t) && InStore(t.store, Flat(t.bs)) && cats == Order(t) && Apart(cats)
    requires (forall s :: 0 <= s < |cats| ==> cats[s] in t.m.Values) && forall r :: r in rules ==> RuleOk(r)
    modifies t.m.Values
    ensures rc == 0 || rc == -1
    ensures rc == 0 ==> UpdatedTo(cats, old(StatesOf(cats)), |cats|, rules, plan)
    ensures rc != 0 ==> StuckAt(cats, old(StatesOf(cats)), n, rules, plan)
  {
    hide Flat, Buckets, Represents, Apart, RuleOk, UpdatedTo, StuckAt, StatesOf, Spared;
    ghost var was := StatesOf(cats);
    NothingUpdated(cats, rules, plan);
    rc, n := 0, 0;
    var p := t.Begin();
    while p != NULL
      invariant TableOk(t) && cats == Order(t) && rc == 0
      invariant 0 <= n <= |cats| && p == Link(Flat(t.bs), n)
      invariant UpdatedTo(cats, was, n, rules, plan)
      decreases |cats| - n
    {
      rc := UpdateNext(t.store[p].value, rules, plan, cats, was, n);
      if rc != 0 {
        return;
      }
      p := t.NextInOrder(p, n);
      n := n + 1;
    }
  }

  lemma SameAtStart(cats: seq<Category>)
    ensures SameFrom(cats, StatesOf(cats), 0)
  {
  }

  lemma NothingUpdated(cats: seq<Category>, rules: seq<Rule>, plan: string -> C.AllocFailure)
    ensures UpdatedTo(cats, StatesOf(cats), 0, rules, plan)
  {
  }

  lemma AllUpdated(cats: seq<Category>, was: seq<Saved>, rules: seq<Rule>, plan: string -> C.AllocFailure)
    requires UpdatedTo(cats, was, |cats|, rules, plan)
    ensures |was| == |cats|
    ensures forall s :: 0 <= s < |cats| ==> HasBackup(cats[s], was[s])
    ensures forall s :: 0 <= s < |cats| ==> cats[s].Uses(rules) && Spared(cats[s], rules, plan)
  {
  }

  lemma SomeStuck(cats: seq<Category>, was: seq<Saved>, n: nat, rules: seq<Rule>, plan: string -> C.AllocFailure)
    requires StuckAt(cats, was, n, rules, plan)
    ensures |was| == |cats| && n < |cats| && cats[n].fitRules == None && !Spared(cats[n], rules, plan)
    ensures forall s :: 0 <= s < |cats| ==> HasBackup(cats[s], was[s]) || StateOf(cats[s]) == was[s]
  {
  }

  ghost predicate HasCommitted(c: Category, was: Saved)
    reads c
  {
    c.fitRulesBackup == None && c.fitRules == was.fit && c.levelBitmap == was.bitmap
  }

  method CommitNext(c: Category, ghost cats: seq<Category>, ghost was: seq<Saved>, ghost n: nat)
    requires Apart(cats) && n < |cats| && c == cats[n] && SameFrom(cats, was, n)
    requires forall s :: 0 <= s < n ==> HasCommitted(cats[s], was[s])
    modifies c
    ensures SameFrom(cats, was, n + 1) && forall s :: 0 <= s <= n ==> HasCommitted(cats[s], was[s])
  {
    NotYet(cats, n);
    assert StateOf(c) == was[n];
    hide Apart;
    c.CommitRules();
  }

  /** The loop of `zlog_category_table_commit_rules`. */
  method CommitEach(t: Table, ghost cats: seq<Category>)
    requires TableOk(t) && InStore(t.store, Flat(t.bs)) && cats == Order(t) && Apart(cats)
    requires forall s :: 0 <= s < |cats| ==> cats[s] in t.m.Values
    modifies t.m.Values
    ensures var was := old(StatesOf(cats)); forall s :: 0 <= s < |cats| ==> HasCommitted(cats[s], was[s])
  {
    hide Flat, Buckets, Represents, Apart, StatesOf, SameFrom, HasCommitted;
    ghost var n, was := 0, StatesOf(cats);
    SameAtStart(cats);
    var p := t.Begin();
    while p != NULL
      invariant TableOk(t) && cats == Order(t)
      invariant 0 <= n <= |cats| && p == Link(Flat(t.bs), n) && SameFrom(cats, was, n)
      invariant forall s :: 0 <= s < n ==> HasCommitted(cats[s], was[s])
      decreases |cats| - n
    {
      CommitNext(t.store[p].value, cats, was, n);
      p := t.NextInOrder(p, n);
      n := n + 1;
    }
  }

  /** `zlog_category_table_commit_rules`. */
  method CommitAll(t: Table)
    requires TableOk(t)
    modifies t.m.Values
    ensures forall k :: k in t.m ==> Committed(t.m[k])
  {
    hide Flat, Buckets, Represents, Apart, StatesOf;
    OrderFacts(t);
    ghost var cats := Order(t);
    ghost var was := StatesOf(cats);
    CommitEach(t, cats);
    assert forall s :: 0 <= s < |cats| ==> HasCommitted(cats[s], was[s]);
  }

  /** The commit of a complete update. */
  method CommitUpdate(t: Table, ghost rules: seq<Rule>)
    requires TableOk(t) && AllUse(t, rules)
    modifies t.m.Values
    ensures AllUse(t, rules) && Quiet(t)
  {
    hide TableOk, BitmapOf, FitRules;
    CommitAll(t);
  }

  ghost predicate HasRolledBack(c: Category, was: Saved)
    reads c
  {
    && c.fitRulesBackup == None
    && c.fitRules == (if was.fitBackup == None then was.fit else was.fitBackup)
    && c.levelBitmap == (if was.fitBackup == None then was.bitmap else was.bitmapBackup)
  }

  method RollbackNext(c: Category, ghost cats: seq<Category>, ghost was: seq<Saved>, ghost n: nat)
    requires Apart(cats) && n < |cats| && c == cats[n] && SameFrom(cats, was, n)
    requires forall s :: 0 <= s < n ==> HasRolledBack(cats[s], was[s])
    modifies c
    ensures SameFrom(cats, was, n + 1) && forall s :: 0 <= s <= n ==> HasRolledBack(cats[s], was[s])
  {
    NotYet(cats, n);
    assert StateOf(c) == was[n];
    hide Apart;
    c.RollbackRules();
  }

  /** The loop of `zlog_category_table_rollback_rules`. */
  method RollbackEach(t: Table, ghost cats: seq<Category>)
    requires TableOk(t) && InStore(t.store, Flat(t.bs)) && cats == Order(t) && Apart(cats)
    requires forall s :: 0 <= s < |cats| ==> cats[s] in t.m.Values
    modifies t.m.Values
    ensures var was := old(StatesOf(cats)); forall s :: 0 <= s < |cats| ==> HasRolledBack(cats[s], was[s])
  {
    hide Flat, Buckets, Represents, Apart, StatesOf, SameFrom, HasRolledBack;
    ghost var n, was := 0, StatesOf(cats);
    SameAtStart(cats);
    var p := t.Begin();
    while p != NULL
      invariant TableOk(t) && cats == Order(t)
      invariant 0 <= n <= |cats| && p == Link(Flat(t.bs), n) && SameFrom(cats, was, n)
      invariant forall s :: 0 <= s < n ==> HasRolledBack(cats[s], was[s])
      decreases |cats| - n
    {
      RollbackNext(t.store[p].value, cats, was, n);
      p := t.NextInOrder(p, n);
      n := n + 1;
    }
  }

  /** `zlog_category_table_rollback_rules`. */
  method RollbackAll(t: Table)
    requires TableOk(t)
    modifies t.m.Values
    ensures forall k :: k in t.m ==> RolledBack(t.m[k])
  {
    hide Flat, Buckets, Represents, Apart, StatesOf;
    OrderFacts(t);
    ghost var cats := Order(t);
    ghost var was := StatesOf(cats);
    RollbackEach(t, cats);
    assert forall s :: 0 <= s < |cats| ==> HasRolledBack(cats[s], was[s]);
  }

  /** An update that stops anywhere, or runs to its end, is undone by a rollback. */
  method UpdateThenRollback(t: Table, rules: seq<Rule>, plan: string -> C.AllocFailure) returns (rc: int)
    requires TableOk(t) && Quiet(t) && forall r :: r in rules ==> RuleOk(r)
    modifies t.m.Values
    ensures rc == if Lucky(t.m.Keys, rules, plan) then 0 else -1
    ensures Quiet(t) && forall k :: k in t.m ==> Kept(t.m[k])
  {
    hide Flat, Buckets, Represents, Apart, BitmapOf, FitRules;
    rc := UpdateAll(t, rules, plan);
    RollbackAll(t);
  }

  /** A complete update followed by a commit leaves every category with the new rules only. */
  method UpdateThenCommit(t: Table, rules: seq<Rule>, plan: string -> C.AllocFailure) returns (rc: int)
    requires TableOk(t) && forall r :: r in rules ==> RuleOk(r)
    modifies t.m.Values
    ensures rc == if Lucky(t.m.Keys, rules, plan) then 0 else -1
    ensures rc == 0 ==> Quiet(t) && AllUse(t, rules)
  {
    hide Flat, Buckets, Represents;
    rc := UpdateAll(t, rules, plan);
    if rc == 0 {
      CommitUpdate(t, rules);
    }
  }

  /** What is modelled of a configuration. */
  datatype Conf = Conf(rules: seq<Rule>, reloadPeriod: nat)

  ghost predicate ConfOk(conf: Conf) { forall r :: r in conf.rules ==> RuleOk(r) }

  /** How `zlog_reload` is called: with a path, with NULL, or because the period is over. */
  datatype Request = Path | LastFile | Period

  const MAX_NAME := 1024

  /** `zlog_category_new`. */
  method NewCategory(name: string, rules: seq<Rule>, failure: C.AllocFailure) returns (r: Option<Category>)
    requires forall r :: r in rules ==> RuleOk(r)
    ensures r.Some? <==> |name| <= MAX_NAME && !C.Strikes(failure, rules, name)
    ensures r.Some? ==>
              fresh(r.value) && r.value.name == name && r.value.Uses(rules) && r.value.fitRulesBackup == None
  {
    if |name| > MAX_NAME {
      return None;
    }
    var c := new C.Category(name);
    var rc := c.ObtainRules(rules, failure);
    r := if rc != 0 then None else Some(c);
  }

  /** The process-wide state of src/zlog/src/zlog.c. */
  class Env {
    var isInit: bool
    var categories: Table
    var conf: Conf
    var reloadCount: nat
    var version: nat

    ghost predicate Valid()
      reads this, categories, categories.tab
    {
      TableOk(categories) && ConfOk(conf)
    }

    /** The first successful `zlog_init`, with an empty category table. */
    constructor (conf: Conf, hash: string -> nat)
      requires ConfOk(conf)
      ensures Valid() && Coherent() && isInit && version == 1 && this.conf == conf && categories.m == map[]
      ensures fresh(categories) && fresh(categories.tab)
    {
      isInit, reloadCount, version := true, 0, 1;
      this.conf := conf;
      categories := new HashTable(20, hash);
    }

    /** Every category uses the rules of the current configuration, and nothing is half done. */
    ghost predicate Coherent()
      reads this, categories, categories.m.Values
    {
      Quiet(categories) && AllUse(categories, conf.rules)
    }

    /** The call returns at once. */
    ghost predicate Ignored(request: Request)
      reads this
    {
      !isInit || (request == Period && reloadCount <= conf.reloadPeriod)
    }

    /** The reload can be carried out to its end. */
    ghost predicate Feasible(parsed: Option<Conf>, plan: string -> C.AllocFailure)
      reads this, categories
    {
      parsed.Some? && Lucky(categories.m.Keys, parsed.value.rules, plan)
    }

    /** `zlog_reload`. `parsed` is what `zlog_conf_new` makes of the file, None when it fails. A
        reload that can be carried out leaves every category with the new rules, whatever state
        they were in. Otherwise the old configuration stays. From a state in which nothing is half
        done, a reload is all or nothing unless the file parses and the plan strikes: a failed
        table update is never rolled back. */
    method Reload(request: Request, parsed: Option<Conf>, plan: string -> C.AllocFailure) returns (rc: int)
      requires Valid() && (parsed.Some? ==> ConfOk(parsed.value))
      modifies this`conf, this`reloadCount, this`version, categories.m.Values
      ensures Valid()
      ensures rc == if old(Ignored(request)) || Feasible(parsed, plan) then 0 else -1
      ensures old(Ignored(request)) ==>
                && conf == old(conf) && version == old(version) && reloadCount == old(reloadCount)
                && forall k :: k in categories.m ==> Untouched(categories.m[k])
      ensures !old(Ignored(request)) ==> reloadCount == 0
      ensures !old(Ignored(request)) && Feasible(parsed, plan) ==>
                parsed == Some(conf) && version == old(version) + 1 && Coherent()
      ensures !Feasible(parsed, plan) ==> conf == old(conf) && version == old(version)
      ensures !old(Ignored(request)) && parsed.Some? && !Feasible(parsed, plan) ==> Stripped(categories)
      ensures old(isInit) && (request == Period ==> old(reloadCount) > old(conf).reloadPeriod)
              && parsed.Some? && (forall k :: k in categories.m ==> plan(k) == None) ==>
                rc == 0 && conf == parsed.value && AllUse(categories, parsed.value.rules)
      ensures !old(Ignored(request)) && old(Quiet(categories)) ==>
                ((parsed == None || Feasible(parsed, plan)) <==>
                 ((forall k :: k in categories.m ==> Kept(categories.m[k]))
                  || (parsed.Some? && AllUse(categories, parsed.value.rules))))
    {
      hide TableOk, BitmapOf, FitRules, RuleOk, Lucky;
      if parsed.Some? {
        NoFailures(categories.m.Keys, parsed.value.rules, plan);
      }
      if !isInit {
        return 0;
      }
      if request == Period && !(reloadCount > conf.reloadPeriod) {
        return 0;
      }
      reloadCount := 0;
      if parsed == None {
        return -1;
      }
      rc := Install(parsed.value, plan);
    }

    /** The half of `zlog_reload` that has a new configuration at hand. */
    method Install(newConf: Conf, plan: string -> C.AllocFailure) returns (rc: int)
      requires Valid() && ConfOk(newConf)
      modifies this`conf, this`version, categories.m.Values
      ensures Valid()
      ensures rc == if Lucky(categories.m.Keys, newConf.rules, plan) then 0 else -1
      ensures rc == 0 ==> conf == newConf && version == old(version) + 1 && Coherent()
      ensures rc != 0 ==> conf == old(conf) && version == old(version) && Stripped(categories)
    {
      hide TableOk, BitmapOf, FitRules, RuleOk, Quiet, AllUse, Stripped, Lucky;
      rc := UpdateAll(categories, newConf.rules, plan);
      if rc != 0 {
        return -1;
      }
      version := version + 1;
      CommitUpdate(categories, newConf.rules);
      conf := newConf;
    }

    /** `zlog_category_table_fetch_category`: an existing category, or a new one with the rules of
        the configuration; None when the name is too long or memory runs out. */
    method FetchCategory(name: string, failure: C.AllocFailure) returns (r: Option<Category>)
      requires Valid()
      modifies categories, categories.tab
      ensures Valid()
      ensures name in old(categories.m) ==> r == Some(old(categories.m)[name]) && categories.m == old(categories.m)
      ensures name !in old(categories.m) ==>
                (r.Some? <==> |name| <= MAX_NAME && !C.Strikes(failure, conf.rules, name))
      ensures name !in old(categories.m) && r.Some? ==>
                && fresh(r.value) && r.value.name == name && r.value.Uses(conf.rules)
                && categories.m == old(categories.m)[name := r.value]
      ensures r == None ==> categories.m == old(categories.m)
      ensures old(Coherent()) ==> Coherent()
    {
      hide Flat, Buckets, Represents, BitmapOf, FitRules, RuleOk;
      r := categories.Get(name);
      if r.Some? {
        return;
      }
      r := NewCategory(name, conf.rules, failure);
      if r == None {
        return;
      }
      categories.Put(name, r.value);
    }
  }

  /** The reload that does harm: one category with one rule, a file that parses, and no memory for
      the new list of rules. The call fails and the category has lost the rule it had. */
  method RulesLost(hash: string -> nat) returns (had: seq<Rule>, rc: int, c: Category)
    ensures |had| == 1 && rc == -1 && c.fitRules == None
  {
    var rule := NewRule("a", '*', 0, 0);
    OneRule(rule);
    hide FitRules, RuleOk;
    had, rc, c := ReloadWithoutMemory(hash, Conf([rule], 0), "a");
  }

  /** Any category loses what it has when its new list cannot be made. */
  method ReloadWithoutMemory(hash: string -> nat, conf: Conf, name: string)
      returns (had: seq<Rule>, rc: int, c: Category)
    requires ConfOk(conf) && |name| <= MAX_NAME
    ensures had == FitRules(conf.rules, name)
    ensures rc == -1 && c.fitRules == None
  {
    hide TableOk, BitmapOf, FitRules, RuleOk, Lucky, AllUse, Quiet;
    var env := new Env(conf, hash);
    var fetched := env.FetchCategory(name, None);
    c := fetched.value;
    had := c.fitRules.value;
    assert env.categories.m.Keys == {name};
    NoMemory(name, conf.rules);
    hide OutOfMemory;
    rc := env.Reload(Path, Some(conf), OutOfMemory);
  }

  lemma OneRule(rule: Rule)
    requires rule.category == "a"
    ensures FitRules([rule], "a") == [rule]
  {
    assert [rule][..0] == [];
    assert Matching([rule], "a") == Matching([], "a") + [rule];
  }

  /** The plan under which no list of rules can be allocated. */
  function OutOfMemory(name: string): C.AllocFailure { Some(0) }

  lemma NoMemory(name: string, rules: seq<Rule>)
    ensures !Lucky({name}, rules, OutOfMemory)
  {
  }
}
