/** The hash table of src/zlog/src/zc_hashtable.c.

    Entries live in a growing store and refer to each other by index (-1 is NULL), so that every
    `prev` and `next` link the C code writes is written here too. An abstract bucket list says
    which entries each chain runs through, and a map is what the table as a whole stands for. */
module HashTable {
  import opened Options

  const NULL: int := -1

  datatype Entry<K, V> = Entry(hashKey: nat, key: K, value: V, prev: int, next: int)

  function Link(b: seq<nat>, j: nat): int { if j < |b| then b[j] else NULL }

  function Back(b: seq<nat>, j: nat): int
    requires j <= |b|
  {
    if j == 0 then NULL else b[j - 1]
  }

  /** The bucket of a hash value. */
  function Slot(h: nat, size: nat): (i: nat)
    requires size > 0
    ensures i < size
  {
    h % size
  }

  // One bucket --------------------------------------------------------------------------------

  ghost predicate InStore<K, V>(store: seq<Entry<K, V>>, b: seq<nat>) {
    forall j :: 0 <= j < |b| ==> b[j] < |store|
  }

  /** The entries `b` form the chain that starts at `head`: next and prev links agree. */
  ghost predicate Chain<K, V>(store: seq<Entry<K, V>>, b: seq<nat>, head: int) {
    && head == Link(b, 0)
    && InStore(store, b)
    && forall j {:trigger store[b[j]]} :: 0 <= j < |b| ==>
         store[b[j]].next == Link(b, j + 1) && store[b[j]].prev == Back(b, j)
  }

  /** Every entry of bucket `i` belongs there, and no key occurs twice. */
  ghost predicate Sorted<K, V>(store: seq<Entry<K, V>>, b: seq<nat>, i: nat, size: nat, hash: K -> nat)
    requires size > 0
  {
    && InStore(store, b)
    && (forall j {:trigger store[b[j]]} :: 0 <= j < |b| ==>
          store[b[j]].hashKey == hash(store[b[j]].key) && Slot(store[b[j]].hashKey, size) == i)
    && forall j, l {:trigger store[b[j]], store[b[l]]} :: 0 <= j < l < |b| ==> store[b[j]].key != store[b[l]].key
  }

  /** The buckets of a table. */
  ghost predicate Buckets<K, V>(store: seq<Entry<K, V>>, tab: seq<int>, bs: seq<seq<nat>>, hash: K -> nat) {
    && |tab| == |bs| > 0
    && forall i :: 0 <= i < |bs| ==> Chain(store, bs[i], tab[i]) && Sorted(store, bs[i], i, |bs|, hash)
  }

  /** The entry for `k`, if any, is in `b`. */
  ghost predicate Has<K, V>(store: seq<Entry<K, V>>, b: seq<nat>, k: K) {
    exists j :: 0 <= j < |b| && b[j] < |store| && store[b[j]].key == k
  }

  /** The buckets hold exactly the bindings of `m`. */
  ghost predicate Represents<K, V>(store: seq<Entry<K, V>>, bs: seq<seq<nat>>, hash: K -> nat, m: map<K, V>)
    requires |bs| > 0
  {
    && (forall i :: 0 <= i < |bs| ==> InStore(store, bs[i]))
    && (forall i, j {:trigger store[bs[i][j]]} :: 0 <= i < |bs| && 0 <= j < |bs[i]| ==>
          store[bs[i][j]].key in m && m[store[bs[i][j]].key] == store[bs[i][j]].value)
    && forall k :: k in m ==> Has(store, bs[Slot(hash(k), |bs|)], k)
  }

  /** An entry belongs to one place of one bucket only. */
  lemma OnePlace<K, V>(store: seq<Entry<K, V>>, tab: seq<int>, bs: seq<seq<nat>>, hash: K -> nat, i: nat, j: nat,
                       k: nat, l: nat)
    requires Buckets(store, tab, bs, hash)
    requires i < |bs| && j < |bs[i]| && k < |bs| && l < |bs[k]| && bs[i][j] == bs[k][l]
    ensures i == k && j == l
  {
    assert Sorted(store, bs[i], i, |bs|, hash) && Sorted(store, bs[k], k, |bs|, hash);
    assert store[bs[i][j]] == store[bs[k][l]];
  }

  lemma PresentKey<K, V>(store: seq<Entry<K, V>>, bs: seq<seq<nat>>, hash: K -> nat, m: map<K, V>, i: nat, j: nat)
    requires |bs| > 0 && Represents(store, bs, hash, m) && i < |bs| && j < |bs[i]|
    ensures bs[i][j] < |store| && store[bs[i][j]].key in m && m[store[bs[i][j]].key] == store[bs[i][j]].value
  {
  }

  lemma AbsentKey<K, V>(store: seq<Entry<K, V>>, bs: seq<seq<nat>>, hash: K -> nat, m: map<K, V>, key: K)
    requires |bs| > 0 && Represents(store, bs, hash, m)
    requires !Has(store, bs[Slot(hash(key), |bs|)], key)
    ensures key !in m
  {
  }

  // Changing links ------------------------------------------------------------------------------

  /** The stores agree on everything but links. */
  ghost predicate SameData<K, V>(store: seq<Entry<K, V>>, store': seq<Entry<K, V>>) {
    && |store| <= |store'|
    && forall x :: 0 <= x < |store| ==>
         && store'[x].hashKey == store[x].hashKey
         && store'[x].key == store[x].key && store'[x].value == store[x].value
  }

  lemma SortedSame<K, V>(store: seq<Entry<K, V>>, store': seq<Entry<K, V>>, b: seq<nat>, i: nat, size: nat,
                         hash: K -> nat)
    requires size > 0 && Sorted(store, b, i, size, hash) && SameData(store, store')
    ensures Sorted(store', b, i, size, hash)
  {
  }

  lemma HasSame<K, V>(store: seq<Entry<K, V>>, store': seq<Entry<K, V>>, b: seq<nat>, k: K)
    requires Has(store, b, k) && SameData(store, store')
    ensures Has(store', b, k)
  {
    var j :| 0 <= j < |b| && b[j] < |store| && store[b[j]].key == k;
    assert b[j] < |store'| && store'[b[j]].key == k;
  }

  /** Put entry `p` in front of the chain that starts at `head`. */
  function LinkFront<K, V>(store: seq<Entry<K, V>>, head: int, p: nat): (r: seq<Entry<K, V>>)
    requires p < |store|
    ensures SameData(store, r) && |r| == |store|
    ensures forall x :: 0 <= x < |store| && x != p && x != head ==> r[x] == store[x]
  {
    var linked := store[p := store[p].(prev := NULL, next := head)];
    if 0 <= head < |store| then linked[head := linked[head].(prev := p)] else linked
  }

  lemma LinkFrontChain<K, V>(store: seq<Entry<K, V>>, b: seq<nat>, head: int, p: nat)
    requires Chain(store, b, head) && p < |store| && p !in b && Distinct(b)
    ensures head == NULL || (0 <= head < |store| && head != p)
    ensures Chain(LinkFront(store, head, p), [p] + b, p) && Distinct([p] + b)
  {
    assert b != [] ==> b[0] in b;
    var store', b' := LinkFront(store, head, p), [p] + b;
    forall j | 0 <= j < |b'| ensures store'[b'[j]].next == Link(b', j + 1) && store'[b'[j]].prev == Back(b', j) {
      if j > 0 {
        assert b'[j] == b[j - 1] && b[j - 1] in b;
        assert store[b[j - 1]].next == Link(b, j);
      }
    }
  }

  ghost predicate Distinct(b: seq<nat>) {
    forall j, l :: 0 <= j < l < |b| ==> b[j] != b[l]
  }

  /** A chain none of whose entries changed. */
  lemma ChainSame<K, V>(store: seq<Entry<K, V>>, store': seq<Entry<K, V>>, b: seq<nat>, head: int)
    requires Chain(store, b, head) && |store| <= |store'|
    requires forall j :: 0 <= j < |b| ==> store'[b[j]] == store[b[j]]
    ensures Chain(store', b, head)
  {
  }

  /** Take entry `p` out of its chain. */
  function Unlink<K, V>(store: seq<Entry<K, V>>, p: nat): (r: seq<Entry<K, V>>)
    requires p < |store|
    ensures SameData(store, r) && |r| == |store|
    ensures forall x :: 0 <= x < |store| && x != store[p].next && x != store[p].prev ==> r[x] == store[x]
  {
    var e := store[p];
    var s1 := if 0 <= e.next < |store| then store[e.next := store[e.next].(prev := e.prev)] else store;
    if 0 <= e.prev < |store| then s1[e.prev := s1[e.prev].(next := e.next)] else s1
  }

  /** The links of the other entries of the chain after an unlink. */
  lemma UnlinkAt<K, V>(store: seq<Entry<K, V>>, b: seq<nat>, head: int, j: nat, k: nat)
    requires Chain(store, b, head) && Distinct(b) && j < |b| && k < |b| && k != j
    ensures var e := store[b[j]];
            && (e.next == NULL || 0 <= e.next < |store|) && (e.prev == NULL || 0 <= e.prev < |store|)
            && Unlink(store, b[j])[b[k]].next == (if k + 1 == j then Link(b, j + 1) else Link(b, k + 1))
            && Unlink(store, b[j])[b[k]].prev == (if k == j + 1 then Back(b, j) else Back(b, k))
  {
    assert store[b[j]].next == Link(b, j + 1) && store[b[j]].prev == Back(b, j);
    assert store[b[k]].next == Link(b, k + 1) && store[b[k]].prev == Back(b, k);
  }

  lemma UnlinkChain<K, V>(store: seq<Entry<K, V>>, b: seq<nat>, head: int, j: nat)
    requires Chain(store, b, head) && Distinct(b) && j < |b|
    ensures var e := store[b[j]];
            && (e.next == NULL || 0 <= e.next < |store|) && (e.prev == NULL || 0 <= e.prev < |store|)
            && Chain(Unlink(store, b[j]), b[..j] + b[j + 1..], if e.prev == NULL then e.next else head)
            && Distinct(b[..j] + b[j + 1..])
  {
    var e, b' := store[b[j]], b[..j] + b[j + 1..];
    assert e.next == Link(b, j + 1) && e.prev == Back(b, j);
    UnlinkInStore(store, b, head, j);
    DistinctDrop(b, j);
    var store' := Unlink(store, b[j]);
    hide Unlink, Link, Back, Distinct;
    forall l | 0 <= l < |b'| ensures store'[b'[l]].next == Link(b', l + 1) && store'[b'[l]].prev == Back(b', l) {
      LinkDrop(b, j, l);
      UnlinkAt(store, b, head, j, if l < j then l else l + 1);
    }
    HeadDrop(b, j);
  }

  lemma UnlinkInStore<K, V>(store: seq<Entry<K, V>>, b: seq<nat>, head: int, j: nat)
    requires Chain(store, b, head) && j < |b|
    ensures var e := store[b[j]];
            (e.next == NULL || 0 <= e.next < |store|) && (e.prev == NULL || 0 <= e.prev < |store|)
    ensures InStore(store, b[..j] + b[j + 1..])
  {
    assert store[b[j]].next == Link(b, j + 1) && store[b[j]].prev == Back(b, j);
  }

  lemma DistinctDrop(b: seq<nat>, j: nat)
    requires Distinct(b) && j < |b|
    ensures Distinct(b[..j] + b[j + 1..])
  {
    var b' := b[..j] + b[j + 1..];
    assert forall l :: 0 <= l < |b'| ==> b'[l] == if l < j then b[l] else b[l + 1];
  }

  lemma HeadDrop(b: seq<nat>, j: nat)
    requires j < |b|
    ensures Link(b[..j] + b[j + 1..], 0) == if j == 0 then Link(b, j + 1) else Link(b, 0)
    ensures Back(b, j) == NULL <==> j == 0
  {
  }

  /** Links in a list from which the `j`-th element was taken. */
  lemma LinkDrop(b: seq<nat>, j: nat, l: nat)
    requires j < |b| && l < |b| - 1
    ensures var b', k := b[..j] + b[j + 1..], if l < j then l else l + 1;
            && b'[l] == b[k]
            && Link(b', l + 1) == (if k + 1 == j then Link(b, j + 1) else Link(b, k + 1))
            && Back(b', l) == (if k == j + 1 then Back(b, j) else Back(b, k))
  {
  }

  // Changing a table ------------------------------------------------------------------------------

  lemma SortedDistinct<K, V>(store: seq<Entry<K, V>>, b: seq<nat>, i: nat, size: nat, hash: K -> nat)
    requires size > 0 && Sorted(store, b, i, size, hash)
    ensures Distinct(b)
  {
    forall j, l | 0 <= j < l < |b| ensures b[j] != b[l] {
      assert store[b[j]].key != store[b[l]].key;
    }
  }

  /** Entry `p` is in none of the buckets. */
  ghost predicate Outside(bs: seq<seq<nat>>, p: nat) {
    forall i :: 0 <= i < |bs| ==> p !in bs[i]
  }

  /** Replacing the value of an entry. */
  lemma ReplaceBuckets<K, V>(store: seq<Entry<K, V>>, tab: seq<int>, bs: seq<seq<nat>>, hash: K -> nat, p: nat,
                             value: V)
    requires Buckets(store, tab, bs, hash) && p < |store|
    ensures Buckets(store[p := store[p].(value := value)], tab, bs, hash)
  {
    hide Slot;
    var store' := store[p := store[p].(value := value)];
    forall k | 0 <= k < |bs| ensures Chain(store', bs[k], tab[k]) && Sorted(store', bs[k], k, |bs|, hash) {
      assert Chain(store, bs[k], tab[k]) && Sorted(store, bs[k], k, |bs|, hash);
    }
  }

  lemma ReplaceRepresents<K, V>(store: seq<Entry<K, V>>, tab: seq<int>, bs: seq<seq<nat>>, hash: K -> nat, m: map<K, V>,
                                i: nat, j: nat, value: V)
    requires Buckets(store, tab, bs, hash) && |bs| > 0 && Represents(store, bs, hash, m)
    requires i < |bs| && j < |bs[i]| && bs[i][j] < |store|
    ensures var p := bs[i][j];
            Represents(store[p := store[p].(value := value)], bs, hash, m[store[p].key := value])
  {
    hide Buckets, Slot;
    var p := bs[i][j];
    var store', m' := store[p := store[p].(value := value)], m[store[p].key := value];
    forall k, l | 0 <= k < |bs| && 0 <= l < |bs[k]|
      ensures bs[k][l] < |store'| && store'[bs[k][l]].key in m' && m'[store'[bs[k][l]].key] == store'[bs[k][l]].value
    {
      if store[bs[k][l]].key == store[p].key {
        SameKeySamePlace(store, tab, bs, hash, i, j, k, l);
      }
    }
    forall k | k in m' ensures Has(store', bs[Slot(hash(k), |bs|)], k) {
      var b := bs[Slot(hash(k), |bs|)];
      assert k in m;
      assert Has(store, b, k);
      var l :| 0 <= l < |b| && b[l] < |store| && store[b[l]].key == k;
      assert store'[b[l]].key == k;
    }
  }

  lemma SameKeySamePlace<K, V>(store: seq<Entry<K, V>>, tab: seq<int>, bs: seq<seq<nat>>, hash: K -> nat,
                               i: nat, j: nat, k: nat, l: nat)
    requires Buckets(store, tab, bs, hash)
    requires i < |bs| && j < |bs[i]| && k < |bs| && l < |bs[k]|
    requires bs[i][j] < |store| && bs[k][l] < |store| && store[bs[i][j]].key == store[bs[k][l]].key
    ensures i == k && j == l
  {
    hide Slot;
    assert Sorted(store, bs[i], i, |bs|, hash) && Sorted(store, bs[k], k, |bs|, hash);
  }

  /** Taking an entry out of its bucket removes its binding. */
  lemma RemoveBuckets<K, V>(store: seq<Entry<K, V>>, tab: seq<int>, bs: seq<seq<nat>>, hash: K -> nat, i: nat, j: nat)
    requires Buckets(store, tab, bs, hash) && i < |bs| && j < |bs[i]|
    ensures bs[i][j] < |store|
    ensures var e := store[bs[i][j]];
            && Buckets(Unlink(store, bs[i][j]), if e.prev == NULL then tab[i := e.next] else tab,
                       bs[i := bs[i][..j] + bs[i][j + 1..]], hash)
  {
    hide Slot;
    assert Chain(store, bs[i], tab[i]) && Sorted(store, bs[i], i, |bs|, hash);
    SortedDistinct(store, bs[i], i, |bs|, hash);
    UnlinkChain(store, bs[i], tab[i], j);
    var e := store[bs[i][j]];
    assert e.next == Link(bs[i], j + 1) && e.prev == Back(bs[i], j);
    var store', bs' := Unlink(store, bs[i][j]), bs[i := bs[i][..j] + bs[i][j + 1..]];
    var tab' := if e.prev == NULL then tab[i := e.next] else tab;
    hide Unlink;
    forall k | 0 <= k < |bs| ensures Chain(store', bs'[k], tab'[k]) && Sorted(store', bs'[k], k, |bs|, hash) {
      assert Chain(store, bs[k], tab[k]) && Sorted(store, bs[k], k, |bs|, hash);
      SortedSame(store, store', bs[k], k, |bs|, hash);
      if k == i {
        DropSorted(store', bs[i], i, |bs|, hash, j);
      } else {
        ChainsApart(store, tab, bs, hash, i, k);
        ChainSame(store, store', bs[k], tab[k]);
      }
    }
  }

  lemma DropSorted<K, V>(store: seq<Entry<K, V>>, b: seq<nat>, i: nat, size: nat, hash: K -> nat, j: nat)
    requires size > 0 && Sorted(store, b, i, size, hash) && j < |b|
    ensures Sorted(store, b[..j] + b[j + 1..], i, size, hash)
  {
    hide Slot;
    var b' := b[..j] + b[j + 1..];
    assert forall l :: 0 <= l < |b'| ==> b'[l] == if l < j then b[l] else b[l + 1];
  }

  lemma RemoveRepresents<K, V>(store: seq<Entry<K, V>>, store': seq<Entry<K, V>>, tab: seq<int>, bs: seq<seq<nat>>,
                               hash: K -> nat, m: map<K, V>, i: nat, j: nat)
    requires Buckets(store, tab, bs, hash) && |bs| > 0 && Represents(store, bs, hash, m) && SameData(store, store')
    requires i < |bs| && j < |bs[i]| && bs[i][j] < |store|
    ensures Represents(store', bs[i := bs[i][..j] + bs[i][j + 1..]], hash, m - {store[bs[i][j]].key})
  {
    hide Buckets, Slot, Represents;
    var key, b' := store[bs[i][j]].key, bs[i][..j] + bs[i][j + 1..];
    var bs', m' := bs[i := b'], m - {key};
    forall k, l | 0 <= k < |bs'| && 0 <= l < |bs'[k]|
      ensures bs'[k][l] < |store'| && store'[bs'[k][l]].key in m'
              && m'[store'[bs'[k][l]].key] == store'[bs'[k][l]].value
    {
      var l' := if k == i && l >= j then l + 1 else l;
      assert bs'[k][l] == bs[k][l'];
      PresentKey(store, bs, hash, m, k, l');
      if store[bs[k][l']].key == key {
        SameKeySamePlace(store, tab, bs, hash, i, j, k, l');
      }
    }
    forall k | k in m' ensures Has(store', bs'[Slot(hash(k), |bs'|)], k) {
      var s := Slot(hash(k), |bs|);
      HasKey(store, bs, hash, m, k);
      if s == i {
        HasWithout(store, store', bs[i], j, k);
      } else {
        HasSame(store, store', bs[s], k);
      }
    }
    MakeRepresents(store', bs', hash, m');
  }

  lemma HasKey<K, V>(store: seq<Entry<K, V>>, bs: seq<seq<nat>>, hash: K -> nat, m: map<K, V>, k: K)
    requires |bs| > 0 && Represents(store, bs, hash, m) && k in m
    ensures Has(store, bs[Slot(hash(k), |bs|)], k)
  {
  }

  /** Any key but that of the removed place is still there. */
  lemma HasWithout<K, V>(store: seq<Entry<K, V>>, store': seq<Entry<K, V>>, b: seq<nat>, j: nat, k: K)
    requires Has(store, b, k) && SameData(store, store') && j < |b| && b[j] < |store| && store[b[j]].key != k
    ensures Has(store', b[..j] + b[j + 1..], k)
  {
    var l :| 0 <= l < |b| && b[l] < |store| && store[b[l]].key == k;
    var x := if l > j then l - 1 else l;
    assert (b[..j] + b[j + 1..])[x] == b[l];
    assert store'[b[l]].key == k;
  }

  lemma MakeRepresents<K, V>(store: seq<Entry<K, V>>, bs: seq<seq<nat>>, hash: K -> nat, m: map<K, V>)
    requires |bs| > 0
    requires forall i, j :: 0 <= i < |bs| && 0 <= j < |bs[i]| ==>
               bs[i][j] < |store| && store[bs[i][j]].key in m && m[store[bs[i][j]].key] == store[bs[i][j]].value
    requires forall k :: k in m ==> Has(store, bs[Slot(hash(k), |bs|)], k)
    ensures Represents(store, bs, hash, m)
  {
    hide Slot, Has;
  }

  /** An entry that is put in front of its bucket adds its binding. */
  lemma PushBuckets<K, V>(store: seq<Entry<K, V>>, tab: seq<int>, bs: seq<seq<nat>>, hash: K -> nat, p: nat, i: nat)
    requires Buckets(store, tab, bs, hash) && p < |store| && Outside(bs, p)
    requires store[p].hashKey == hash(store[p].key) && i == Slot(store[p].hashKey, |bs|)
    requires !Has(store, bs[i], store[p].key)
    ensures tab[i] == NULL || (0 <= tab[i] < |store| && tab[i] != p)
    ensures Buckets(LinkFront(store, tab[i], p), tab[i := p], bs[i := [p] + bs[i]], hash)
  {
    assert Chain(store, bs[i], tab[i]) && Sorted(store, bs[i], i, |bs|, hash);
    SortedDistinct(store, bs[i], i, |bs|, hash);
    LinkFrontChain(store, bs[i], tab[i], p);
    var store', bs' := LinkFront(store, tab[i], p), bs[i := [p] + bs[i]];
    forall k | 0 <= k < |bs| ensures Chain(store', bs'[k], tab[i := p][k]) && Sorted(store', bs'[k], k, |bs|, hash) {
      assert Chain(store, bs[k], tab[k]) && Sorted(store, bs[k], k, |bs|, hash);
      hide LinkFront;
      SortedSame(store, store', bs[k], k, |bs|, hash);
      if k == i {
        PushSorted(store', bs[i], i, |bs|, hash, p);
      } else {
        ChainsApart(store, tab, bs, hash, i, k);
        ChainSame(store, store', bs[k], tab[k]);
      }
    }
  }

  lemma PushSorted<K, V>(store: seq<Entry<K, V>>, b: seq<nat>, i: nat, size: nat, hash: K -> nat, p: nat)
    requires size > 0 && Sorted(store, b, i, size, hash) && p < |store|
    requires store[p].hashKey == hash(store[p].key) && i == Slot(store[p].hashKey, size)
    requires !Has(store, b, store[p].key)
    ensures Sorted(store, [p] + b, i, size, hash)
  {
    hide Slot;
    var b' := [p] + b;
    forall l | 0 < l < |b'| ensures store[b'[l]].key != store[p].key {
      assert b'[l] == b[l - 1];
    }
  }

  /** The first entry of one bucket is in no other bucket. */
  lemma ChainsApart<K, V>(store: seq<Entry<K, V>>, tab: seq<int>, bs: seq<seq<nat>>, hash: K -> nat, i: nat, k: nat)
    requires Buckets(store, tab, bs, hash) && i < |bs| && k < |bs| && i != k
    ensures forall j, l :: 0 <= j < |bs[i]| && 0 <= l < |bs[k]| ==> bs[i][j] != bs[k][l]
    ensures tab[i] == Link(bs[i], 0)
  {
    assert Chain(store, bs[i], tab[i]);
    forall j, l | 0 <= j < |bs[i]| && 0 <= l < |bs[k]| ensures bs[i][j] != bs[k][l] {
      if bs[i][j] == bs[k][l] {
        OnePlace(store, tab, bs, hash, i, j, k, l);
      }
    }
  }

  lemma PushRepresents<K, V>(store: seq<Entry<K, V>>, store': seq<Entry<K, V>>, bs: seq<seq<nat>>, hash: K -> nat,
                             m: map<K, V>, p: nat, i: nat)
    requires |bs| > 0 && Represents(store, bs, hash, m) && SameData(store, store') && p < |store'|
    requires i == Slot(hash(store'[p].key), |bs|) && store'[p].key !in m
    ensures Represents(store', bs[i := [p] + bs[i]], hash, m[store'[p].key := store'[p].value])
  {
    hide Slot;
    var bs', key := bs[i := [p] + bs[i]], store'[p].key;
    var m' := m[key := store'[p].value];
    forall k, l | 0 <= k < |bs'| && 0 <= l < |bs'[k]|
      ensures bs'[k][l] < |store'| && store'[bs'[k][l]].key in m'
              && m'[store'[bs'[k][l]].key] == store'[bs'[k][l]].value
    {
      if k == i && l > 0 {
        assert bs'[k][l] == bs[k][l - 1];
        assert store[bs[k][l - 1]].key in m;
      } else if k != i {
        assert store[bs[k][l]].key in m;
      }
    }
    forall k | k in m' ensures Has(store', bs'[Slot(hash(k), |bs'|)], k) {
      var b := bs[Slot(hash(k), |bs|)];
      if k == key {
        assert bs'[i][0] == p;
      } else {
        HasSame(store, store', b, k);
        var l :| 0 <= l < |b| && b[l] < |store'| && store'[b[l]].key == k;
        assert ([p] + b)[l + 1] == b[l];
      }
    }
  }

  // All entries in iteration order ------------------------------------------------------------------

  /** The buckets one after the other. */
  function Flat(bs: seq<seq<nat>>): seq<nat> {
    if bs == [] then [] else Flat(bs[..|bs| - 1]) + bs[|bs| - 1]
  }

  lemma FlatNext(bs: seq<seq<nat>>, i: nat)
    requires i < |bs|
    ensures Flat(bs[..i + 1]) == Flat(bs[..i]) + bs[i]
  {
    assert bs[..i + 1][..i] == bs[..i];
  }

  lemma {:induction false} FlatPrefix(bs: seq<seq<nat>>, i: nat, n: nat)
    requires i <= n <= |bs|
    ensures Flat(bs[..i]) <= Flat(bs[..n])
    decreases n
  {
    if i < n {
      FlatPrefix(bs, i, n - 1);
      FlatNext(bs, n - 1);
      hide Flat;
    }
  }

  /** Where the entries of bucket `i` are in iteration order. */
  lemma FlatAt(bs: seq<seq<nat>>, i: nat, c: nat)
    requires i < |bs| && c < |bs[i]|
    ensures |Flat(bs[..i])| + c < |Flat(bs)| && Flat(bs)[|Flat(bs[..i])| + c] == bs[i][c]
  {
    FlatNext(bs, i);
    FlatPrefix(bs, i + 1, |bs|);
    assert bs[..|bs|] == bs;
    hide Flat;
    assert Flat(bs)[|Flat(bs[..i])| + c] == Flat(bs[..i + 1])[|Flat(bs[..i])| + c];
  }

  ghost predicate DistinctKeys<K, V>(store: seq<Entry<K, V>>, f: seq<nat>) {
    InStore(store, f) && forall s, t :: 0 <= s < t < |f| ==> store[f[s]].key != store[f[t]].key
  }

  /** No entry occurs twice in iteration order, and no key does. */
  lemma {:induction false} FlatDistinct<K, V>(store: seq<Entry<K, V>>, tab: seq<int>, bs: seq<seq<nat>>,
                                              hash: K -> nat, n: nat)
    requires Buckets(store, tab, bs, hash) && n <= |bs|
    ensures DistinctKeys(store, Flat(bs[..n]))
    ensures forall s :: 0 <= s < |Flat(bs[..n])| ==>
              var e := store[Flat(bs[..n])[s]]; e.hashKey == hash(e.key) && Slot(e.hashKey, |bs|) < n
    decreases n
  {
    hide Slot, Flat;
    if n == 0 {
      assert Flat(bs[..0]) == [] by { FlatNothing(bs); }
    } else {
      FlatDistinct(store, tab, bs, hash, n - 1);
      FlatNext(bs, n - 1);
      assert Sorted(store, bs[n - 1], n - 1, |bs|, hash);
      hide Buckets;
    }
  }

  lemma FlatNothing(bs: seq<seq<nat>>)
    ensures Flat(bs[..0]) == []
  {
  }

  // Rehashing -------------------------------------------------------------------------------------

  /** The buckets and the map are made of the first `t` of the entries `f`. */
  ghost predicate Members<K, V>(store: seq<Entry<K, V>>, bs: seq<seq<nat>>, m: map<K, V>, f: seq<nat>, t: nat) {
    && t <= |f| && DistinctKeys(store, f)
    && (forall i, j :: 0 <= i < |bs| && 0 <= j < |bs[i]| ==> bs[i][j] in f[..t])
    && (forall s :: 0 <= s < t ==> store[f[s]].key in m && m[store[f[s]].key] == store[f[s]].value)
    && forall k :: k in m ==> exists s :: 0 <= s < t && store[f[s]].key == k
  }

  /** The first `t` of the entries `f` have been moved to the new buckets. */
  ghost predicate Moved<K, V>(store: seq<Entry<K, V>>, tab: seq<int>, bs: seq<seq<nat>>, hash: K -> nat, m: map<K, V>,
                              f: seq<nat>, t: nat)
  {
    Buckets(store, tab, bs, hash) && |bs| > 0 && Represents(store, bs, hash, m) && Members(store, bs, m, f, t)
  }

  lemma NotMoved<K, V>(store: seq<Entry<K, V>>, tab: seq<int>, bs: seq<seq<nat>>, hash: K -> nat, m: map<K, V>,
                       f: seq<nat>, t: nat)
    requires Moved(store, tab, bs, hash, m, f, t) && t < |f|
    ensures f[t] < |store| && store[f[t]].key !in m && Outside(bs, f[t])
    ensures forall i :: 0 <= i < |bs| ==> !Has(store, bs[i], store[f[t]].key)
  {
    hide Buckets, Represents;
    var p := f[t];
    forall i | 0 <= i < |bs| ensures p !in bs[i] && !Has(store, bs[i], store[p].key) {
      forall j | 0 <= j < |bs[i]|
        ensures bs[i][j] != p && (bs[i][j] < |store| ==> store[bs[i][j]].key != store[p].key)
      {
        assert bs[i][j] in f[..t];
        var s :| 0 <= s < t && f[s] == bs[i][j];
      }
    }
  }

  /** Moving one more entry. */
  lemma MoveOne<K, V>(store: seq<Entry<K, V>>, tab: seq<int>, bs: seq<seq<nat>>, hash: K -> nat, m: map<K, V>,
                      f: seq<nat>, t: nat)
    requires Moved(store, tab, bs, hash, m, f, t) && t < |f|
    requires f[t] < |store| && store[f[t]].hashKey == hash(store[f[t]].key)
    ensures |tab| == |bs| > 0
    ensures var p, i := f[t], Slot(store[f[t]].hashKey, |bs|);
            && (tab[i] == NULL || tab[i] in f[..t])
            && Moved(LinkFront(store, tab[i], p), tab[i := p], bs[i := [p] + bs[i]], hash,
                     m[store[p].key := store[p].value], f, t + 1)
  {
    hide Slot, Buckets, Represents, LinkFront, Members;
    HeadMoved(store, tab, bs, hash, m, f, t, Slot(store[f[t]].hashKey, |bs|));
    var p, i := f[t], Slot(store[f[t]].hashKey, |bs|);
    NotMoved(store, tab, bs, hash, m, f, t);
    PushBuckets(store, tab, bs, hash, p, i);
    var store' := LinkFront(store, tab[i], p);
    KeepsEntry(store, store', p);
    PushRepresents(store, store', bs, hash, m, p, i);
    MovedMembers(store, store', bs, m, f, t, p, i);
  }

  lemma HeadMoved<K, V>(store: seq<Entry<K, V>>, tab: seq<int>, bs: seq<seq<nat>>, hash: K -> nat, m: map<K, V>,
                        f: seq<nat>, t: nat, i: nat)
    requires Moved(store, tab, bs, hash, m, f, t) && i < |bs| && t < |f|
    ensures |tab| == |bs| > 0 && (tab[i] == NULL || tab[i] in f[..t])
  {
    hide Slot, Represents;
    HeadOf(store, tab, bs, hash, i);
    hide Buckets;
    assert bs[i] != [] ==> bs[i][0] in f[..t];
  }

  lemma HeadOf<K, V>(store: seq<Entry<K, V>>, tab: seq<int>, bs: seq<seq<nat>>, hash: K -> nat, i: nat)
    requires Buckets(store, tab, bs, hash) && i < |bs|
    ensures |tab| == |bs| && tab[i] == Link(bs[i], 0)
  {
    assert Chain(store, bs[i], tab[i]);
  }

  lemma MovedMembers<K, V>(store: seq<Entry<K, V>>, store': seq<Entry<K, V>>, bs: seq<seq<nat>>, m: map<K, V>,
                           f: seq<nat>, t: nat, p: nat, i: nat)
    requires SameData(store, store') && t < |f| && p == f[t] < |store| && i < |bs| && Members(store, bs, m, f, t)
    ensures Members(store', bs[i := [p] + bs[i]], m[store[p].key := store[p].value], f, t + 1)
  {
    var bs' := bs[i := [p] + bs[i]];
    assert f[..t + 1] == f[..t] + [p];
    forall k, j | 0 <= k < |bs'| && 0 <= j < |bs'[k]| ensures bs'[k][j] in f[..t + 1] {
      if k == i && j > 0 {
        assert bs'[k][j] == bs[k][j - 1];
      }
    }
    var m' := m[store[p].key := store[p].value];
    forall k | k in m' ensures exists s :: 0 <= s < t + 1 && store'[f[s]].key == k {
      if k == store[p].key {
        assert store'[f[t]].key == k;
      } else {
        var s :| 0 <= s < t && store[f[s]].key == k;
        assert store'[f[s]].key == k;
      }
    }
  }

  /** Walk a chain to the entry of `key`. */
  method Walk<K(==), V>(store: seq<Entry<K, V>>, ghost b: seq<nat>, head: int, key: K) returns (p: int, ghost j: nat)
    requires Chain(store, b, head)
    ensures j <= |b| && p == Link(b, j)
    ensures p == NULL ==> !Has(store, b, key)
    ensures p != NULL ==> 0 <= p < |store| && j < |b| && store[p].key == key
  {
    p, j := head, 0;
    while p != NULL
      invariant j <= |b| && p == Link(b, j)
      invariant forall l :: 0 <= l < j ==> store[b[l]].key != key
      decreases |b| - j
    {
      if store[p].key == key {
        return;
      }
      p := store[p].next;
      j := j + 1;
    }
  }

  class HashTable<K(==), V> {
    var nelem: nat
    var tab: array<int>
    var tabSize: nat
    const hash: K -> nat
    var store: seq<Entry<K, V>>
    ghost var bs: seq<seq<nat>>
    ghost var m: map<K, V>

    ghost predicate Valid()
      reads this, tab
    {
      && tab.Length == tabSize == |bs| && tabSize > 0
      && Buckets(store, tab[..], bs, hash)
      && Represents(store, bs, hash, m)
      && nelem == |m|
      && 10 * (nelem - 1) <= 13 * tabSize
    }

    constructor (size: nat, hash: K -> nat)
      requires size > 0
      ensures Valid() && fresh(tab) && m == map[] && tabSize == size && this.hash == hash
    {
      nelem, tabSize := 0, size;
      this.hash := hash;
      tab := new int[size](_ => NULL);
      store := [];
      bs := seq(size, _ => []);
      m := map[];
    }

    /** Walk the chain of the key's bucket (`zc_hashtable_get_entry`). */
    method Find(key: K) returns (p: int, ghost i: nat, ghost j: nat)
      requires Valid()
      ensures i == Slot(hash(key), tabSize) && i < |bs|
      ensures p == NULL <==> key !in m
      ensures p != NULL ==> j < |bs[i]| && p == bs[i][j] && p < |store| && store[p].key == key
    {
      i := Slot(hash(key), tabSize);
      hide Slot, Sorted, Represents, Chain;
      assert Chain(store, bs[i], tab[..][i]);
      p, j := Walk(store, bs[i], tab[Slot(hash(key), tabSize)], key);
      if p == NULL {
        AbsentKey(store, bs, hash, m, key);
      } else {
        PresentKey(store, bs, hash, m, i, j);
      }
    }

    method Get(key: K) returns (r: Option<V>)
      requires Valid()
      ensures r == if key in m then Some(m[key]) else None
    {
      var p, i, j := Find(key);
      if p == NULL {
        return None;
      }
      PresentKey(store, bs, hash, m, i, j);
      r := Some(store[p].value);
    }

    /** `zc_hashtable_put`: replace the binding in place, or add an entry in front of its bucket,
        doubling the table first when it is loaded beyond 1.3 entries a bucket. */
    method Put(key: K, value: V)
      requires Valid()
      modifies this, tab
      ensures Valid() && (tab == old(tab) || fresh(tab))
      ensures m == old(m)[key := value]
      ensures key in old(m) ==> bs == old(bs) && tabSize == old(tabSize)
    {
      hide Buckets, Represents, Slot;
      var p, i, j := Find(key);
      if p != NULL {
        ReplaceBuckets(store, tab[..], bs, hash, p, value);
        ReplaceRepresents(store, tab[..], bs, hash, m, i, j, value);
        store := store[p := store[p].(key := key, value := value)];
        m := m[key := value];
        Counts(old(m), key, value);
      } else {
        if 10 * nelem > 13 * tabSize {
          Rehash();
        }
        AddEntry(key, value);
      }
    }

    /** A new entry in front of its bucket. */
    method AddEntry(key: K, value: V)
      requires Valid() && key !in m && 10 * nelem <= 13 * tabSize
      modifies this, tab
      ensures Valid() && tab == old(tab) && m == old(m)[key := value]
    {
      hide Buckets, Represents, Slot, LinkFront;
      var p := |store|;
      var entry := Entry(hash(key), key, value, NULL, NULL);
      var i := Slot(entry.hashKey, tabSize);
      AddTable(store, tab[..], bs, hash, m, entry);
      store := LinkFront(store + [entry], tab[i], p);
      tab[i] := p;
      assert tab[..] == old(tab[..])[i := p];
      bs := bs[i := [p] + bs[i]];
      m := m[key := value];
      nelem := nelem + 1;
    }

    /** `zc_hashtable_rehash`: move every entry to the front of its bucket in a table of twice the
        size. No binding changes. */
    method Rehash()
      requires Valid()
      modifies this
      ensures Valid() && fresh(tab) && m == old(m) && nelem == old(nelem) && tabSize == 2 * old(tabSize)
    {
      hide Buckets, Represents, Slot, Flat, Members;
      var size := 2 * tabSize;
      var tab2 := new int[size](_ => NULL);
      ghost var bs2: seq<seq<nat>>, m2: map<K, V>, f, t: nat := seq(size, _ => []), map[], Flat(bs), 0;
      ghost var store0 := store;
      FlatDistinct(store, tab[..], bs, hash, |bs|);
      FlatNothing(bs);
      assert bs[..|bs|] == bs;
      StartMoving(store, tab2[..], bs2, hash, f);
      for i := 0 to tabSize
        modifies this`store, tab2
        invariant |bs2| == size && Moved(store, tab2[..], bs2, hash, m2, f, t)
        invariant SameData(store0, store) && |store| == |store0|
        invariant t == |Flat(bs[..i])| <= |f|
        invariant forall s :: t <= s < |f| ==> store[f[s]] == store0[f[s]]
      {
        bs2, m2, t := MoveBucket(tab2, i, bs2, m2, f, t, store0);
      }
      assert bs[..tabSize] == bs;
      AllMoved(store0, bs, store, bs2, hash, m, m2, f);
      tab, tabSize, bs := tab2, size, bs2;
    }

    /** The inner loop of the rehash: walk one old chain. */
    method MoveBucket(tab2: array<int>, i: nat, ghost bs2: seq<seq<nat>>, ghost m2: map<K, V>, ghost f: seq<nat>,
                      ghost t: nat, ghost store0: seq<Entry<K, V>>)
      returns (ghost bs3: seq<seq<nat>>, ghost m3: map<K, V>, ghost u: nat)
      requires tab2 != tab && tab2.Length == |bs2| > 0 && i < tabSize == tab.Length == |bs|
      requires Buckets(store0, tab[..], bs, hash) && f == Flat(bs)
      requires Moved(store, tab2[..], bs2, hash, m2, f, t) && t == |Flat(bs[..i])| <= |f|
      requires SameData(store0, store) && |store| == |store0| && InStore(store0, f)
      requires forall s :: 0 <= s < |f| ==> store0[f[s]].hashKey == hash(store0[f[s]].key)
      requires forall s :: t <= s < |f| ==> store[f[s]] == store0[f[s]]
      modifies this`store, tab2
      ensures |bs3| == |bs2| && Moved(store, tab2[..], bs3, hash, m3, f, u) && u == |Flat(bs[..i + 1])| <= |f|
      ensures SameData(store0, store) && |store| == |store0|
      ensures forall s :: u <= s < |f| ==> store[f[s]] == store0[f[s]]
    {
      hide Buckets, Represents, Slot, Moved, Flat;
      bs3, m3, u := bs2, m2, t;
      ghost var c := 0;
      FlatNext(bs, i);
      BucketInOrder(store0, tab[..], bs, hash, i, f);
      var p := tab[i];
      while p != NULL
        invariant |bs3| == |bs2| && c <= |bs[i]| && p == Link(bs[i], c) && u == t + c
        invariant Moved(store, tab2[..], bs3, hash, m3, f, u)
        invariant SameData(store0, store) && |store| == |store0|
        invariant forall s :: u <= s < |f| ==> store[f[s]] == store0[f[s]]
        decreases |bs[i]| - c
      {
        assert p == bs[i][c] == f[u];
        assert store[f[u]] == store0[f[u]] && store0[bs[i][c]].next == Link(bs[i], c + 1);
        var q := store[p].next;
        bs3, m3 := MoveEntry(tab2, p, bs3, m3, f, u);
        p := q;
        c, u := c + 1, u + 1;
      }
    }

    /** Move one entry to the front of its new bucket. */
    method MoveEntry(tab2: array<int>, p: nat, ghost bs2: seq<seq<nat>>, ghost m2: map<K, V>, ghost f: seq<nat>,
                     ghost t: nat)
      returns (ghost bs3: seq<seq<nat>>, ghost m3: map<K, V>)
      requires tab2.Length == |bs2| > 0 && Moved(store, tab2[..], bs2, hash, m2, f, t)
      requires t < |f| && p == f[t] && InStore(store, f) && store[p].hashKey == hash(store[p].key)
      modifies this`store, tab2
      ensures |bs3| == |bs2| && Moved(store, tab2[..], bs3, hash, m3, f, t + 1)
      ensures SameData(old(store), store) && |store| == |old(store)|
      ensures forall s :: t < s < |f| ==> store[f[s]] == old(store)[f[s]]
    {
      MoveOne(store, tab2[..], bs2, hash, m2, f, t);
      var j := Slot(store[p].hashKey, tab2.Length);
      FarEntries(store, tab2[..], bs2, hash, m2, f, t, tab2[j]);
      hide Moved, Slot;
      m3 := m2[store[p].key := store[p].value];
      store := LinkFront(store, tab2[j], p);
      hide LinkFront;
      bs3 := bs2[j := [p] + bs2[j]];
      tab2[j] := p;
      assert tab2[..] == old(tab2[..])[j := p];
    }

    /** `zc_hashtable_remove`. */
    method Remove(key: K)
      requires Valid()
      modifies this, tab
      ensures Valid() && tab == old(tab) && m == old(m) - {key}
    {
      hide Buckets, Represents, Slot, Unlink;
      var p, i, j := Find(key);
      if p == NULL {
        assert m - {key} == m;
        return;
      }
      RemoveEntry(p, i, j);
    }

    /** Unlink the entry `p`, the `j`-th of bucket `i`. */
    method RemoveEntry(p: nat, ghost i: nat, ghost j: nat)
      requires Valid() && i < |bs| && j < |bs[i]| && p == bs[i][j] < |store|
      modifies this, tab
      ensures Valid() && tab == old(tab) && m == old(m) - {old(store)[p].key}
    {
      hide Buckets, Represents, Slot, Unlink;
      RemoveTable(store, tab[..], bs, hash, m, i, j);
      var e := store[p];
      store := Unlink(store, p);
      if e.prev == NULL {
        tab[Slot(e.hashKey, tabSize)] := e.next;
        assert tab[..] == old(tab[..])[i := e.next];
      }
      bs := bs[i := bs[i][..j] + bs[i][j + 1..]];
      m := m - {e.key};
      nelem := nelem - 1;
    }

    /** `zc_hashtable_clean`. */
    method Clean()
      requires Valid()
      modifies this, tab
      ensures Valid() && tab == old(tab) && m == map[]
    {
      hide Buckets, Represents;
      for i := 0 to tabSize
        modifies tab
        invariant forall j :: 0 <= j < i ==> tab[j] == NULL
      {
        tab[i] := NULL;
      }
      nelem := 0;
      bs := seq(tabSize, _ => []);
      m := map[];
      EmptyTable(store, tab[..], bs, hash);
      hide Buckets, Represents;
    }

    /** `zc_hashtable_begin`: the first entry in iteration order. */
    method Begin() returns (p: int)
      requires Valid()
      ensures p == Link(Flat(bs), 0)
    {
      p := FirstFrom(0);
    }

    /** The head of the first non-empty bucket from `i` on. */
    method FirstFrom(i: nat) returns (p: int)
      requires Valid() && i <= tabSize
      ensures p == Link(Flat(bs), |Flat(bs[..i])|)
    {
      hide Buckets, Represents, Flat;
      var k := i;
      while k < tabSize
        invariant i <= k <= tabSize && |Flat(bs[..k])| == |Flat(bs[..i])|
      {
        HeadOf(store, tab[..], bs, hash, k);
        if tab[k] != NULL {
          FlatAt(bs, k, 0);
          return tab[k];
        }
        FlatNext(bs, k);
        k := k + 1;
      }
      assert bs[..tabSize] == bs;
      p := NULL;
    }

    /** `zc_hashtable_next`: the entry that follows the `c`-th of bucket `i` in iteration order. */
    method Next(entry: nat, ghost i: nat, ghost c: nat) returns (p: int)
      requires Valid() && i < |bs| && c < |bs[i]| && entry == bs[i][c]
      ensures p == Link(Flat(bs), |Flat(bs[..i])| + c + 1)
    {
      hide Buckets, Represents, Slot, Flat;
      OwnSlot(store, tab[..], bs, hash, i, c);
      FlatNext(bs, i);
      if store[entry].next != NULL {
        FlatAt(bs, i, c + 1);
        return store[entry].next;
      }
      p := FirstFrom(Slot(store[entry].hashKey, tabSize) + 1);
      assert |Flat(bs[..i + 1])| == |Flat(bs[..i])| + c + 1;
    }

    /** The entry that follows the `s`-th in iteration order. */
    method NextInOrder(entry: nat, ghost s: nat) returns (p: int)
      requires Valid() && s < |Flat(bs)| && entry == Flat(bs)[s]
      ensures p == Link(Flat(bs), s + 1)
    {
      hide Buckets, Represents, Flat;
      ghost var i, c := FlatFind(bs, s);
      p := Next(entry, i, c);
    }
  }

  /** Iteration visits every binding exactly once. */
  lemma VisitsOnce<K, V>(store: seq<Entry<K, V>>, tab: seq<int>, bs: seq<seq<nat>>, hash: K -> nat, m: map<K, V>)
    requires Buckets(store, tab, bs, hash) && |bs| > 0 && Represents(store, bs, hash, m)
    ensures DistinctKeys(store, Flat(bs))
    ensures forall s :: 0 <= s < |Flat(bs)| ==>
              store[Flat(bs)[s]].key in m && m[store[Flat(bs)[s]].key] == store[Flat(bs)[s]].value
    ensures forall k :: k in m ==> exists s :: 0 <= s < |Flat(bs)| && store[Flat(bs)[s]].key == k
  {
    hide Flat, Slot, Buckets;
    FlatDistinct(store, tab, bs, hash, |bs|);
    assert bs[..|bs|] == bs;
    var f := Flat(bs);
    forall s | 0 <= s < |f| ensures store[f[s]].key in m && m[store[f[s]].key] == store[f[s]].value {
      var i, c := FlatFind(bs, s);
      PresentKey(store, bs, hash, m, i, c);
    }
    forall k | k in m ensures exists s :: 0 <= s < |f| && store[f[s]].key == k {
      var i := Slot(hash(k), |bs|);
      assert Has(store, bs[i], k);
      var c :| 0 <= c < |bs[i]| && bs[i][c] < |store| && store[bs[i][c]].key == k;
      FlatAt(bs, i, c);
      assert store[f[|Flat(bs[..i])| + c]].key == k;
    }
  }

  lemma Counts<K, V>(m: map<K, V>, key: K, value: V)
    ensures |m[key := value]| == if key in m then |m| else |m| + 1
    ensures key in m ==> |m - {key}| == |m| - 1
  {
    assert m[key := value].Keys == m.Keys + {key};
    assert (m - {key}).Keys == m.Keys - {key};
  }

  lemma KeepsEntry<K, V>(store: seq<Entry<K, V>>, store': seq<Entry<K, V>>, p: nat)
    requires SameData(store, store') && p < |store|
    ensures p < |store'| && store'[p].key == store[p].key && store'[p].value == store[p].value
  {
  }

  /** An entry that is only appended to the store changes no bucket. */
  lemma GrowBuckets<K, V>(store: seq<Entry<K, V>>, tab: seq<int>, bs: seq<seq<nat>>, hash: K -> nat, e: Entry<K, V>)
    requires Buckets(store, tab, bs, hash)
    ensures Buckets(store + [e], tab, bs, hash) && Outside(bs, |store|)
  {
    var store' := store + [e];
    assert SameData(store, store');
    forall i | 0 <= i < |bs|
      ensures Chain(store', bs[i], tab[i]) && Sorted(store', bs[i], i, |bs|, hash) && |store| !in bs[i]
    {
      assert Chain(store, bs[i], tab[i]) && Sorted(store, bs[i], i, |bs|, hash);
      hide Slot, Buckets, Sorted;
      SortedSame(store, store', bs[i], i, |bs|, hash);
      ChainSame(store, store', bs[i], tab[i]);
    }
  }

  lemma GrowRepresents<K, V>(store: seq<Entry<K, V>>, bs: seq<seq<nat>>, hash: K -> nat, m: map<K, V>, e: Entry<K, V>)
    requires |bs| > 0 && Represents(store, bs, hash, m) && e.key !in m
    ensures Represents(store + [e], bs, hash, m)
    ensures forall i :: 0 <= i < |bs| ==> !Has(store + [e], bs[i], e.key)
  {
    hide Slot;
    var store' := store + [e];
    assert SameData(store, store');
    forall k | k in m ensures Has(store', bs[Slot(hash(k), |bs|)], k) {
      HasSame(store, store', bs[Slot(hash(k), |bs|)], k);
    }
    forall i, j | 0 <= i < |bs| && 0 <= j < |bs[i]|
      ensures bs[i][j] < |store| && store'[bs[i][j]].key in m && m[store'[bs[i][j]].key] == store'[bs[i][j]].value
    {
      assert InStore(store, bs[i]);
      assert store[bs[i][j]].key in m;
    }
  }

  /** What adding an entry for a new key makes of a table. */
  lemma AddTable<K, V>(store: seq<Entry<K, V>>, tab: seq<int>, bs: seq<seq<nat>>, hash: K -> nat, m: map<K, V>,
                       e: Entry<K, V>)
    requires Buckets(store, tab, bs, hash) && |tab| == |bs| > 0 && Represents(store, bs, hash, m)
    requires e.key !in m && e.hashKey == hash(e.key)
    ensures var p, i := |store|, Slot(e.hashKey, |bs|);
            var store' := LinkFront(store + [e], tab[i], p);
            && Buckets(store', tab[i := p], bs[i := [p] + bs[i]], hash)
            && Represents(store', bs[i := [p] + bs[i]], hash, m[e.key := e.value])
    ensures |m[e.key := e.value]| == |m| + 1
  {
    hide Buckets, Represents, Slot, LinkFront, SameData, Outside, Has;
    var p, i, grown := |store|, Slot(e.hashKey, |bs|), store + [e];
    GrowBuckets(store, tab, bs, hash, e);
    GrowRepresents(store, bs, hash, m, e);
    PushBuckets(grown, tab, bs, hash, p, i);
    var store' := LinkFront(grown, tab[i], p);
    KeepsEntry(grown, store', p);
    PushRepresents(grown, store', bs, hash, m, p, i);
    Counts(m, e.key, e.value);
  }

  /** What taking an entry out makes of a table. */
  lemma RemoveTable<K, V>(store: seq<Entry<K, V>>, tab: seq<int>, bs: seq<seq<nat>>, hash: K -> nat, m: map<K, V>,
                          i: nat, j: nat)
    requires Buckets(store, tab, bs, hash) && |tab| == |bs| > 0 && Represents(store, bs, hash, m)
    requires i < |bs| && j < |bs[i]|
    ensures bs[i][j] < |store| && Slot(store[bs[i][j]].hashKey, |bs|) == i && store[bs[i][j]].key in m
    ensures var e, bs' := store[bs[i][j]], bs[i := bs[i][..j] + bs[i][j + 1..]];
            && Buckets(Unlink(store, bs[i][j]), if e.prev == NULL then tab[i := e.next] else tab, bs', hash)
            && Represents(Unlink(store, bs[i][j]), bs', hash, m - {e.key})
            && |m - {e.key}| == |m| - 1
  {
    hide Buckets, Represents, Slot, Unlink, SameData;
    OwnSlot(store, tab, bs, hash, i, j);
    PresentKey(store, bs, hash, m, i, j);
    RemoveBuckets(store, tab, bs, hash, i, j);
    RemoveRepresents(store, Unlink(store, bs[i][j]), tab, bs, hash, m, i, j);
    Counts(m, store[bs[i][j]].key, m[store[bs[i][j]].key]);
  }

  lemma EmptyTable<K, V>(store: seq<Entry<K, V>>, tab: seq<int>, bs: seq<seq<nat>>, hash: K -> nat)
    requires |tab| == |bs| > 0
    requires forall i :: 0 <= i < |bs| ==> bs[i] == [] && tab[i] == NULL
    ensures Buckets(store, tab, bs, hash) && Represents(store, bs, hash, map[])
  {
  }

  lemma StartMoving<K, V>(store: seq<Entry<K, V>>, tab: seq<int>, bs: seq<seq<nat>>, hash: K -> nat, f: seq<nat>)
    requires |tab| == |bs| > 0 && DistinctKeys(store, f)
    requires forall i :: 0 <= i < |bs| ==> bs[i] == [] && tab[i] == NULL
    ensures Moved(store, tab, bs, hash, map[], f, 0)
  {
  }

  /** The `c`-th entry of bucket `i` follows `c` entries behind the earlier buckets. */
  lemma BucketInOrder<K, V>(store: seq<Entry<K, V>>, tab: seq<int>, bs: seq<seq<nat>>, hash: K -> nat, i: nat,
                            f: seq<nat>)
    requires Buckets(store, tab, bs, hash) && i < |bs| && f == Flat(bs)
    ensures tab[i] == Link(bs[i], 0) && InStore(store, bs[i])
    ensures |Flat(bs[..i])| + |bs[i]| <= |f|
    ensures forall c :: 0 <= c < |bs[i]| ==> bs[i][c] == f[|Flat(bs[..i])| + c]
    ensures forall c {:trigger store[bs[i][c]]} :: 0 <= c < |bs[i]| ==> store[bs[i][c]].next == Link(bs[i], c + 1)
  {
    assert Chain(store, bs[i], tab[i]);
    FlatNext(bs, i);
    FlatPrefix(bs, i + 1, |bs|);
    assert bs[..|bs|] == bs;
    hide Flat;
    assert Flat(bs[..i + 1]) <= f;
  }

  /** The entries still to be moved are neither the one moved now nor the one it is put in front of. */
  lemma FarEntries<K, V>(store: seq<Entry<K, V>>, tab: seq<int>, bs: seq<seq<nat>>, hash: K -> nat, m: map<K, V>,
                         f: seq<nat>, t: nat, head: int)
    requires Moved(store, tab, bs, hash, m, f, t) && t < |f| && (head == NULL || head in f[..t])
    ensures forall s :: t < s < |f| ==> f[s] != f[t] && f[s] != head
  {
    hide Buckets, Represents;
  }

  /** When every entry has been moved, every binding has. */
  lemma AllMoved<K, V>(store: seq<Entry<K, V>>, bs: seq<seq<nat>>, store': seq<Entry<K, V>>, bs': seq<seq<nat>>,
                       hash: K -> nat, m: map<K, V>, m': map<K, V>, f: seq<nat>)
    requires |bs| > 0 && Represents(store, bs, hash, m) && f == Flat(bs)
    requires SameData(store, store') && Members(store', bs', m', f, |f|)
    ensures m == m'
  {
    hide Slot, Flat;
    forall k | k in m ensures k in m' && m'[k] == m[k] {
      var i := Slot(hash(k), |bs|);
      assert Has(store, bs[i], k);
      var c :| 0 <= c < |bs[i]| && bs[i][c] < |store| && store[bs[i][c]].key == k;
      FlatAt(bs, i, c);
      assert store'[f[|Flat(bs[..i])| + c]].key == k;
    }
    forall k | k in m' ensures k in m {
      var s :| 0 <= s < |f| && store'[f[s]].key == k;
      var i, c := FlatFind(bs, s);
      assert InStore(store, bs[i]);
      assert store[bs[i][c]].key == k;
    }
  }

  /** The bucket and place of the `s`-th entry in iteration order. */
  lemma {:induction false} FlatFind(bs: seq<seq<nat>>, s: nat) returns (i: nat, c: nat)
    requires s < |Flat(bs)|
    ensures i < |bs| && c < |bs[i]| && bs[i][c] == Flat(bs)[s] && s == |Flat(bs[..i])| + c
  {
    var n := |bs| - 1;
    var rest := bs[..n];
    if s < |Flat(rest)| {
      i, c := FlatFind(rest, s);
      assert rest[..i] == bs[..i];
    } else {
      i, c := n, s - |Flat(rest)|;
    }
  }

  lemma OwnSlot<K, V>(store: seq<Entry<K, V>>, tab: seq<int>, bs: seq<seq<nat>>, hash: K -> nat, i: nat, c: nat)
    requires Buckets(store, tab, bs, hash) && i < |bs| && c < |bs[i]|
    ensures bs[i][c] < |store| && Slot(store[bs[i][c]].hashKey, |bs|) == i && store[bs[i][c]].next == Link(bs[i], c + 1)
  {
    assert Chain(store, bs[i], tab[i]) && Sorted(store, bs[i], i, |bs|, hash);
  }
}
