/** The growing pointer array of src/zlog/src/zc_arraylist.c. */
module ArrayList {
  import opened Options

  const DEFAULT_SIZE := 32

  /** Where `zc_arraylist_sortadd` puts `x`: in front of the first element that compares greater. */
  function Place<T>(cmp: (T, T) -> int, s: seq<T>, x: T): (p: nat)
    ensures p <= |s|
    ensures forall i :: 0 <= i < p ==> cmp(s[i], x) <= 0
    ensures p < |s| ==> cmp(s[p], x) > 0
  {
    if s == [] then 0
    else if cmp(s[0], x) > 0 then 0
    else 1 + Place(cmp, s[1..], x)
  }

  function InsertAt<T>(s: seq<T>, p: nat, x: T): seq<T>
    requires p <= |s|
  {
    s[..p] + [x] + s[p..]
  }

  function Somes<T>(s: seq<T>): seq<Option<T>> { seq(|s|, i requires 0 <= i < |s| => Some(s[i])) }

  /** Moving the tail up by one and filling the hole is an insertion. */
  lemma Inserted<T>(b: seq<T>, b': seq<T>, len: nat, idx: nat, x: T)
    requires idx < len < |b| == |b'|
    requires b'[idx] == x && b'[..idx] == b[..idx] && b'[idx + 1..len + 1] == b[idx..len]
    ensures b'[..len + 1] == InsertAt(b[..len], idx, x)
  {
    assert b'[..len + 1] == b'[..idx] + [b'[idx]] + b'[idx + 1..len + 1];
    assert b[..len][..idx] == b[..idx] && b[..len][idx..] == b[idx..len];
  }

  class ArrayList<T> {
    var slots: array<Option<T>>
    var len: nat
    var size: nat

    ghost predicate Valid()
      reads this, slots
    {
      && slots.Length == size && len <= size && size > 0
      && forall i :: len <= i < size ==> slots[i] == None
    }

    /** The slots in use; a slot that was jumped over is NULL. */
    ghost function Slots(): seq<Option<T>>
      requires Valid()
      reads this, slots
    {
      slots[..len]
    }

    constructor ()
      ensures Valid() && fresh(slots) && Slots() == []
    {
      size, len := DEFAULT_SIZE, 0;
      slots := new Option<T>[DEFAULT_SIZE](_ => None);
    }

    /** `zc_arraylist_expand_inner`: `realloc` copies, the new part is zeroed. */
    method Expand(max: nat)
      requires Valid()
      modifies this`slots, this`size
      ensures Valid() && fresh(slots) && Slots() == old(Slots())
      ensures size == if 2 * old(size) > max then 2 * old(size) else max
    {
      var n := if size * 2 > max then size * 2 else max;
      var a := new Option<T>[n](_ => None);
      for i := 0 to size
        modifies a
        invariant fresh(a) && forall j :: 0 <= j < n ==> a[j] == if j < i then slots[j] else None
      {
        a[i] := slots[i];
      }
      ghost var was := Slots();
      slots := a;
      size := n;
      assert Slots() == was;
    }

    /** `zc_arraylist_set`. Expansion makes room for `max`, not for index `max`. */
    method Set(idx: nat, data: T)
      requires Valid() && idx < 2 * size
      modifies this, slots
      ensures Valid() && (slots == old(slots) || fresh(slots))
      ensures |Slots()| == if idx < old(len) then old(len) else idx + 1
      ensures forall i :: 0 <= i < len ==>
                Slots()[i] == if i == idx then Some(data) else if i < old(len) then old(Slots())[i] else None
    {
      ghost var was := Slots();
      if idx > size - 1 {
        Expand(idx);
      }
      assert Slots() == was;
      assert forall i :: 0 <= i < len ==> slots[i] == was[i];
      slots[idx] := Some(data);
      if len <= idx {
        len := idx + 1;
      }
    }

    method Add(data: T)
      requires Valid()
      modifies this, slots
      ensures Valid() && (slots == old(slots) || fresh(slots))
      ensures Slots() == old(Slots()) + [Some(data)]
    {
      Set(len, data);
    }

    /** `zc_arraylist_insert_inner`: fill a NULL slot, or move the tail up by one. */
    method InsertInner(idx: nat, data: T)
      requires Valid() && idx < len
      modifies this, slots
      ensures Valid() && (slots == old(slots) || fresh(slots))
      ensures Slots() == if old(Slots())[idx] == None then old(Slots())[idx := Some(data)]
                         else InsertAt(old(Slots()), idx, Some(data))
    {
      if slots[idx] == None {
        slots[idx] := Some(data);
        return;
      }
      if len > size - 1 {
        Expand(0);
      }
      MakePlace(idx, data);
    }

    /** The insertion when there is room. */
    method MakePlace(idx: nat, data: T)
      requires Valid() && idx < len < size
      modifies this`len, slots
      ensures Valid() && Slots() == InsertAt(old(Slots()), idx, Some(data))
    {
      ghost var was := slots[..];
      MoveUp(idx);
      slots[idx] := Some(data);
      Inserted(was, slots[..], len, idx, Some(data));
      len := len + 1;
      assert Slots() == slots[..][..len];
    }

    /** The `memmove` of the slots from `idx` on, from the last one down. */
    method MoveUp(idx: nat)
      requires Valid() && idx < len < size
      modifies slots
      ensures forall i :: 0 <= i < size ==> slots[i] == if idx < i <= len then old(slots[i - 1]) else old(slots[i])
    {
      var k := len;
      while k > idx
        invariant idx <= k <= len
        invariant forall i :: 0 <= i < size ==> slots[i] == if k < i <= len then old(slots[i - 1]) else old(slots[i])
      {
        slots[k] := slots[k - 1];
        k := k - 1;
      }
    }

    /** `zc_arraylist_sortadd`, for a list without NULL slots whose values are `s`. */
    method SortAdd(cmp: (T, T) -> int, data: T, ghost s: seq<T>)
      requires Valid() && Slots() == Somes(s)
      modifies this, slots
      ensures Valid() && (slots == old(slots) || fresh(slots))
      ensures Slots() == Somes(InsertAt(s, Place(cmp, s, data), data))
    {
      hide Place;
      ghost var p := Place(cmp, s, data);
      assert forall j :: 0 <= j < len ==> slots[j] == Slots()[j] == Some(s[j]);
      var i := 0;
      while i < len
        invariant 0 <= i <= p
      {
        if cmp(slots[i].value, data) > 0 {
          break;
        }
        i := i + 1;
      }
      assert i == p;
      if i == len {
        Add(data);
      } else {
        assert Slots()[i] == Some(s[i]);
        InsertInner(i, data);
      }
      assert Slots() == Somes(InsertAt(s, p, data));
    }

    method Get(i: nat) returns (r: Option<T>)
      requires Valid()
      ensures r == if i < len then Slots()[i] else None
    {
      r := if i >= len then None else slots[i];
    }
  }
}
