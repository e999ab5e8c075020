/**
 * The intrusive ownership list of Util.cpp: `Element`s linked into
 * `Container`s, each element in at most one container, every `Attach*`
 * first detaching the element from the container that held it before, and
 * a `size` counter kept by hand.
 *
 * Because attaching to one container changes another, all elements and
 * containers live in one `Pool`. Per container, `lists` holds the chain
 * that the C++ `elements` head and the elements' `next`/`prev` pointers
 * spell out, front to back; `owner` is each element's `container` field and
 * `size` each container's counter. `Next` and `Prev` read the neighbours off
 * the chain.
 *
 * The invariant is stated over plain values (`Chain`, `PoolOk`) and each
 * kind of change has a lemma saying that it keeps the invariant.
 */
module Containers {
  import opened Util

  /** An element (an `Element*`). */
  type Handle = nat
  /** A container (a `Container*`). */
  type Id = nat

  /** Per container: its elements, front to back. */
  type Contents = map<Id, seq<Handle>>
  /** Per element: the container holding it, or null. */
  type Owners = map<Handle, Option<Id>>

  /** `s` without `x`, when `x` occurs in it. */
  function Without(s: seq<Handle>, x: Handle): seq<Handle>
  {
    if x in s then RemoveAt(s, IndexOf(s, x)) else s
  }

  /** The content of every container after `e` leaves the container `from` (if any). */
  function Unowned(lists: Contents, from: Option<Id>, e: Handle): Contents
  {
    if from.Some? && from.value in lists then lists[from.value := Without(lists[from.value], e)] else lists
  }

  /** The elements of `s`, as a set. */
  function Elems(s: seq<Handle>): set<Handle>
  {
    set x | x in s
  }

  /**
   * Container `c` holds the chain `l` with counter `n`: no element twice,
   * the counter equal to the length, and every element pointing back at `c`.
   */
  ghost predicate Chain(l: seq<Handle>, c: Id, owner: Owners, n: int)
  {
    Distinct(l) && n == |l| && forall i | 0 <= i < |l| :: l[i] in owner && owner[l[i]] == Some(c)
  }

  /** The container holding `e`, or null. */
  ghost function Holder(owner: Owners, e: Handle): Option<Id>
    requires e in owner
  {
    owner[e]
  }

  /** An element's container exists and holds it. */
  ghost predicate OwnersHold(lists: Contents, owner: Owners)
  {
    forall e {:trigger Holder(owner, e)} | e in owner && Holder(owner, e).Some? ::
      Holder(owner, e).value in lists && e in lists[Holder(owner, e).value]
  }

  /** The whole pool is consistent; handles and ids handed out lie below the allocation counters. */
  ghost predicate PoolOk(lists: Contents, owner: Owners, size: map<Id, int>, nextHandle: nat, nextId: nat)
  {
    size.Keys == lists.Keys &&
    (forall c | c in lists :: c < nextId && Chain(lists[c], c, owner, size[c])) &&
    (forall e | e in owner :: e < nextHandle) &&
    OwnersHold(lists, owner)
  }

  /** Only the owners of the elements of `l` matter to `l`. */
  lemma ChainAgree(l: seq<Handle>, c: Id, owner: Owners, n: int, owner': Owners)
    requires Chain(l, c, owner, n)
    requires forall i | 0 <= i < |l| :: l[i] in owner' && owner'[l[i]] == owner[l[i]]
    ensures Chain(l, c, owner', n)
  {
  }

  /** An element other than the one removed is still there. */
  lemma InRemoveAt(l: seq<Handle>, i: nat, x: Handle)
    requires i < |l| && x in l && x != l[i]
    ensures x in RemoveAt(l, i)
  {
    var k := IndexOf(l, x);
    var k' := if k < i then k else k - 1;
    assert RemoveAt(l, i)[k'] == x;
  }

  /** Every element is still there after an insertion. */
  lemma InInsertAt(l: seq<Handle>, i: nat, e: Handle, x: Handle)
    requires i <= |l| && x in l
    ensures x in InsertAt(l, i, e)
  {
    var k := IndexOf(l, x);
    var k' := if k < i then k else k + 1;
    assert InsertAt(l, i, e)[k'] == x;
  }

  /** In a chain without repeats, the element at position `i` is found at `i`. */
  lemma IndexOfDistinct(l: seq<Handle>, i: nat)
    requires Distinct(l) && i < |l|
    ensures IndexOf(l, l[i]) == i
  {
  }

  /** Removing an element from a chain keeps the rest, in order, without repeats. */
  lemma ChainRemove(l: seq<Handle>, c: Id, owner: Owners, n: int, i: nat)
    requires Chain(l, c, owner, n) && i < |l|
    ensures Chain(RemoveAt(l, i), c, owner[l[i] := None], n - 1)
  {
    var l' := RemoveAt(l, i);
    forall k | 0 <= k < |l'|
      ensures l'[k] in owner[l[i] := None] && owner[l[i] := None][l'[k]] == Some(c)
    {
      var k' := if k < i then k else k + 1;
      assert l'[k] == l[k'];
    }
    forall a, b | 0 <= a < b < |l'|
      ensures l'[a] != l'[b]
    {
      var a' := if a < i then a else a + 1;
      var b' := if b < i then b else b + 1;
      assert l'[a] == l[a'] && l'[b] == l[b'];
    }
  }

  /** Inserting an element that is in no chain keeps the chain without repeats. */
  lemma ChainInsert(l: seq<Handle>, c: Id, owner: Owners, n: int, e: Handle, i: nat)
    requires Chain(l, c, owner, n) && i <= |l| && e in owner && owner[e].None?
    ensures Chain(InsertAt(l, i, e), c, owner[e := Some(c)], n + 1)
  {
    var l' := InsertAt(l, i, e);
    forall k | 0 <= k < |l'|
      ensures l'[k] in owner[e := Some(c)] && owner[e := Some(c)][l'[k]] == Some(c)
    {
      if k != i {
        var k' := if k < i then k else k - 1;
        assert l'[k] == l[k'];
      }
    }
    forall a, b | 0 <= a < b < |l'|
      ensures l'[a] != l'[b]
    {
      if a != i && b != i {
        var a' := if a < i then a else a - 1;
        var b' := if b < i then b else b - 1;
        assert l'[a] == l[a'] && l'[b] == l[b'];
      } else if a == i {
        assert l'[b] == l[b - 1];
      } else {
        assert l'[a] == l[a];
      }
    }
  }

  /** Removing `e` from its container `c` and clearing its owner keeps the pool consistent. */
  lemma PoolRemove(lists: Contents, owner: Owners, size: map<Id, int>, nextHandle: nat, nextId: nat,
                   c: Id, e: Handle)
    requires PoolOk(lists, owner, size, nextHandle, nextId)
    requires c in lists && e in lists[c]
    ensures PoolOk(lists[c := Without(lists[c], e)], owner[e := None], size[c := size[c] - 1], nextHandle, nextId)
  {
    var l := lists[c];
    var i := IndexOf(l, e);
    var lists' := lists[c := Without(l, e)];
    var owner' := owner[e := None];
    ChainRemove(l, c, owner, size[c], i);
    forall d | d in lists && d != c
      ensures Chain(lists'[d], d, owner', size[d])
    {
      forall k | 0 <= k < |lists[d]|
        ensures lists[d][k] != e
      {
        assert owner[lists[d][k]] == Some(d);
      }
      ChainAgree(lists[d], d, owner, size[d], owner');
    }
    forall x | x in owner' && Holder(owner', x).Some?
      ensures Holder(owner', x).value in lists' && x in lists'[Holder(owner', x).value]
    {
      assert Holder(owner, x) == owner[x];
      if owner[x].value == c {
        InRemoveAt(l, i, x);
      }
    }
  }

  /** Inserting `e`, which is in no container, at position `i` of `c` keeps the pool consistent. */
  lemma PoolInsert(lists: Contents, owner: Owners, size: map<Id, int>, nextHandle: nat, nextId: nat,
                   c: Id, e: Handle, i: nat)
    requires PoolOk(lists, owner, size, nextHandle, nextId)
    requires c in lists && e in owner && owner[e].None? && i <= |lists[c]|
    ensures PoolOk(lists[c := InsertAt(lists[c], i, e)], owner[e := Some(c)], size[c := size[c] + 1],
                   nextHandle, nextId)
  {
    var l := lists[c];
    var lists' := lists[c := InsertAt(l, i, e)];
    var owner' := owner[e := Some(c)];
    ChainInsert(l, c, owner, size[c], e, i);
    forall d | d in lists && d != c
      ensures Chain(lists'[d], d, owner', size[d])
    {
      forall k | 0 <= k < |lists[d]|
        ensures lists[d][k] != e
      {
        assert owner[lists[d][k]] == Some(d);
      }
      ChainAgree(lists[d], d, owner, size[d], owner');
    }
    forall x | x in owner' && Holder(owner', x).Some?
      ensures Holder(owner', x).value in lists' && x in lists'[Holder(owner', x).value]
    {
      if x == e {
        assert lists'[c][i] == e;
      } else {
        assert Holder(owner, x) == owner[x];
        if owner[x].value == c {
          InInsertAt(l, i, e, x);
        }
      }
    }
  }

  /** A fresh element, in no container, keeps the pool consistent. */
  lemma PoolNewElement(lists: Contents, owner: Owners, size: map<Id, int>, nextHandle: nat, nextId: nat)
    requires PoolOk(lists, owner, size, nextHandle, nextId)
    ensures nextHandle !in owner
    ensures PoolOk(lists, owner[nextHandle := None], size, nextHandle + 1, nextId)
  {
    var owner' := owner[nextHandle := None];
    forall c | c in lists
      ensures Chain(lists[c], c, owner', size[c])
    {
      ChainAgree(lists[c], c, owner, size[c], owner');
    }
    forall x | x in owner' && Holder(owner', x).Some?
      ensures Holder(owner', x).value in lists && x in lists[Holder(owner', x).value]
    {
      assert Holder(owner, x) == owner'[x];
    }
  }

  /** A fresh, empty container keeps the pool consistent. */
  lemma PoolNewContainer(lists: Contents, owner: Owners, size: map<Id, int>, nextHandle: nat, nextId: nat)
    requires PoolOk(lists, owner, size, nextHandle, nextId)
    ensures nextId !in lists
    ensures PoolOk(lists[nextId := []], owner, size[nextId := 0], nextHandle, nextId + 1)
  {
    var lists' := lists[nextId := []];
    forall x | x in owner && Holder(owner, x).Some?
      ensures Holder(owner, x).value in lists' && x in lists'[Holder(owner, x).value]
    {
    }
  }

  /** Destroying an element that is in no container keeps the pool consistent. */
  lemma PoolDeleteElement(lists: Contents, owner: Owners, size: map<Id, int>, nextHandle: nat, nextId: nat,
                          e: Handle)
    requires PoolOk(lists, owner, size, nextHandle, nextId)
    requires e in owner && owner[e].None?
    ensures PoolOk(lists, owner - {e}, size, nextHandle, nextId)
  {
    var owner' := owner - {e};
    forall c | c in lists
      ensures Chain(lists[c], c, owner', size[c])
    {
      forall k | 0 <= k < |lists[c]|
        ensures lists[c][k] != e
      {
        assert owner[lists[c][k]] == Some(c);
      }
      ChainAgree(lists[c], c, owner, size[c], owner');
    }
    forall x | x in owner' && Holder(owner', x).Some?
      ensures Holder(owner', x).value in lists && x in lists[Holder(owner', x).value]
    {
      assert Holder(owner, x) == owner'[x];
    }
  }

  /** Destroying an empty container keeps the pool consistent. */
  lemma PoolDeleteContainer(lists: Contents, owner: Owners, size: map<Id, int>, nextHandle: nat, nextId: nat,
                            c: Id)
    requires PoolOk(lists, owner, size, nextHandle, nextId)
    requires c in lists && lists[c] == []
    ensures PoolOk(lists - {c}, owner, size - {c}, nextHandle, nextId)
  {
    forall x | x in owner && Holder(owner, x).Some?
      ensures Holder(owner, x).value in lists - {c} && x in (lists - {c})[Holder(owner, x).value]
    {
      assert Holder(owner, x).value in lists && x in lists[Holder(owner, x).value];
    }
  }

  /** An element is in container `c` exactly when its owner is `c`. */
  lemma HeldIff(lists: Contents, owner: Owners, size: map<Id, int>, nextHandle: nat, nextId: nat,
                c: Id, e: Handle)
    requires PoolOk(lists, owner, size, nextHandle, nextId)
    requires c in lists && e in owner
    ensures e in lists[c] <==> owner[e] == Some(c)
  {
    if e in lists[c] {
      var k := IndexOf(lists[c], e);
      assert lists[c][k] == e;
    } else {
      assert Holder(owner, e) == owner[e];
    }
  }

  /**
   * `Detach` undoes an insertion: the inserted element is found where it
   * was put, and taking it out gives back the chain as it was.
   */
  lemma WithoutInsertAt(l: seq<Handle>, i: nat, e: Handle)
    requires i <= |l| && e !in l
    ensures IndexOf(InsertAt(l, i, e), e) == i
    ensures Without(InsertAt(l, i, e), e) == l
  {
    var l' := InsertAt(l, i, e);
    assert l'[i] == e;
    forall j | 0 <= j < i
      ensures l'[j] != e
    {
      assert l'[j] == l[j];
    }
    assert RemoveAt(l', i) == l;
  }

  class Pool {
    /** Per container: the chain that `elements` and the `next` links spell out. */
    var lists: Contents
    /** Per element: its `container` field. */
    var owner: Owners
    /** Per container: its hand-kept `size` counter. */
    var size: map<Id, int>
    // Allocation of fresh handles and container ids
    var nextHandle: nat
    var nextId: nat

    ghost predicate Valid()
      reads this
    {
      PoolOk(lists, owner, size, nextHandle, nextId)
    }

    constructor ()
      ensures Valid() && lists == map[] && owner == map[]
    {
      lists, owner, size := map[], map[], map[];
      nextHandle, nextId := 0, 0;
    }

    /** `new Element`: a fresh element in no container, with null links. */
    method NewElement() returns (e: Handle)
      requires Valid()
      modifies this
      ensures Valid() && e !in old(owner)
      ensures owner == old(owner)[e := None] && lists == old(lists)
    {
      e := nextHandle;
      PoolNewElement(lists, owner, size, nextHandle, nextId);
      owner, nextHandle := owner[e := None], nextHandle + 1;
    }

    /** `new Container`: a fresh, empty container. */
    method NewContainer() returns (c: Id)
      requires Valid()
      modifies this
      ensures Valid() && c !in old(lists)
      ensures lists == old(lists)[c := []] && owner == old(owner)
    {
      c := nextId;
      PoolNewContainer(lists, owner, size, nextHandle, nextId);
      lists, size, nextId := lists[c := []], size[c := 0], nextId + 1;
    }

    /** `Container::Elements`: the first element, or null. */
    method Elements(c: Id) returns (r: Option<Handle>)
      requires Valid() && c in lists
      ensures r == if lists[c] == [] then None else Some(lists[c][0])
    {
      r := if lists[c] == [] then None else Some(lists[c][0]);
    }

    /** `Element::Next`: the element after `e` in its container, or null at the end or outside any container. */
    method Next(e: Handle) returns (r: Option<Handle>)
      requires Valid() && e in owner
      ensures owner[e].None? ==> r.None?
      ensures owner[e].Some? ==> owner[e].value in lists &&
                                 var l := lists[owner[e].value];
                                 e in l && (r.Some? <==> IndexOf(l, e) + 1 < |l|) &&
                                 (r.Some? ==> r.value == l[IndexOf(l, e) + 1])
    {
      assert Holder(owner, e) == owner[e];
      if owner[e].None? {
        return None;
      }
      var l := lists[owner[e].value];
      var k := IndexOf(l, e);
      r := if k + 1 < |l| then Some(l[k + 1]) else None;
    }

    /** `Element::Prev`: the element before `e` in its container, or null at the front or outside any container. */
    method Prev(e: Handle) returns (r: Option<Handle>)
      requires Valid() && e in owner
      ensures owner[e].None? ==> r.None?
      ensures owner[e].Some? ==> owner[e].value in lists &&
                                 var l := lists[owner[e].value];
                                 e in l && (r.Some? <==> IndexOf(l, e) > 0) &&
                                 (r.Some? ==> r.value == l[IndexOf(l, e) - 1])
    {
      assert Holder(owner, e) == owner[e];
      if owner[e].None? {
        return None;
      }
      var l := lists[owner[e].value];
      var k := IndexOf(l, e);
      r := if k > 0 then Some(l[k - 1]) else None;
    }

    /** `Container::GetSize` returns the hand-kept counter, which is the length of the chain. */
    method GetSize(c: Id) returns (n: int)
      requires Valid() && c in lists
      ensures n == |lists[c]|
    {
      n := size[c];
    }

    /** `Container::Find` walks the chain from the front. */
    method Find(c: Id, e: Handle) returns (found: bool)
      requires Valid() && c in lists
      ensures found <==> e in lists[c]
    {
      var l := lists[c];
      var k := 0;
      while k < |l|
        invariant 0 <= k <= |l|
        invariant e !in l[..k]
      {
        if l[k] == e {
          return true;
        }
        assert l[..k + 1] == l[..k] + [l[k]];
        k := k + 1;
      }
      assert l[..k] == l;
      return false;
    }

    /** `Container::GetIndex`: the position of `e`, or -1 when it is not here. */
    method GetIndex(c: Id, e: Handle) returns (i: int)
      requires Valid() && c in lists
      ensures e !in lists[c] ==> i == -1
      ensures e in lists[c] ==> 0 <= i < |lists[c]| && lists[c][i] == e
    {
      var l := lists[c];
      i := 0;
      while i < |l|
        invariant 0 <= i <= |l|
        invariant e !in l[..i]
      {
        if l[i] == e {
          return;
        }
        assert l[..i + 1] == l[..i] + [l[i]];
        i := i + 1;
      }
      assert l[..i] == l;
      i := -1;
    }

    /** `Container::Get`: the element at position `number`, or null outside `[0, size)`. */
    method Get(c: Id, number: int) returns (r: Option<Handle>)
      requires Valid() && c in lists
      ensures r == if 0 <= number < |lists[c]| then Some(lists[c][number]) else None
    {
      var l := lists[c];
      var i := 0;
      while i < |l|
        invariant 0 <= i <= |l|
        invariant number < i ==> number < 0
      {
        if i == number {
          return Some(l[i]);
        }
        i := i + 1;
      }
      return None;
    }

    /**
     * `Container::Detach`: when `e` is here, it leaves the chain, its owner
     * is cleared and the counter drops; otherwise nothing changes.
     */
    method Detach(c: Id, e: Handle) returns (r: bool)
      requires Valid() && c in lists && e in owner
      modifies this
      ensures Valid()
      ensures r <==> e in old(lists[c])
      ensures r ==> lists == old(lists)[c := Without(old(lists[c]), e)] && owner == old(owner)[e := None]
      ensures !r ==> lists == old(lists) && owner == old(owner) && size == old(size)
      ensures nextHandle == old(nextHandle) && nextId == old(nextId)
    {
      r := Find(c, e);
      if r {
        PoolRemove(lists, owner, size, nextHandle, nextId, c, e);
        lists, owner, size := lists[c := Without(lists[c], e)], owner[e := None], size[c := size[c] - 1];
      }
    }

    /** `Element::Free`: `e` leaves the container that holds it, if any. */
    method Free(e: Handle)
      requires Valid() && e in owner
      modifies this
      ensures Valid()
      ensures lists == Unowned(old(lists), old(owner[e]), e) && owner == old(owner)[e := None]
      ensures nextHandle == old(nextHandle) && nextId == old(nextId)
    {
      var holder := owner[e];
      if holder.Some? {
        assert Holder(owner, e) == holder;
        var _ := Detach(holder.value, e);
      } else {
        assert owner == owner[e := None];
      }
    }

    /** Detaches `e` from its old container and links it in at position `i` of `c`. */
    method Insert(c: Id, e: Handle, i: nat)
      requires Valid() && c in lists && e in owner && e !in lists[c] && i <= |lists[c]|
      modifies this
      ensures Valid()
      ensures lists == Unowned(old(lists), old(owner[e]), e)[c := InsertAt(old(lists[c]), i, e)]
      ensures owner == old(owner)[e := Some(c)]
      ensures nextHandle == old(nextHandle) && nextId == old(nextId)
    {
      HeldIff(lists, owner, size, nextHandle, nextId, c, e);
      Free(e);
      PoolInsert(lists, owner, size, nextHandle, nextId, c, e, i);
      lists, owner, size := lists[c := InsertAt(lists[c], i, e)], owner[e := Some(c)], size[c := size[c] + 1];
    }

    /**
     * `Container::Attach` (and `AttachFirst`): when `e` is not here, it
     * leaves its old container and becomes the first element; otherwise
     * nothing changes.
     */
    method Attach(c: Id, e: Handle) returns (r: bool)
      requires Valid() && c in lists && e in owner
      modifies this
      ensures Valid()
      ensures r <==> e !in old(lists[c])
      ensures r ==> lists == Unowned(old(lists), old(owner[e]), e)[c := [e] + old(lists[c])] &&
                    owner == old(owner)[e := Some(c)]
      ensures !r ==> lists == old(lists) && owner == old(owner) && size == old(size)
      ensures nextHandle == old(nextHandle) && nextId == old(nextId)
    {
      var found := Find(c, e);
      if !found {
        Insert(c, e, 0);
        assert InsertAt(old(lists[c]), 0, e) == [e] + old(lists[c]);
        return true;
      }
      return false;
    }

    /** `Container::AttachLast`: as `Attach`, but `e` goes after the last element. */
    method AttachLast(c: Id, e: Handle) returns (r: bool)
      requires Valid() && c in lists && e in owner
      modifies this
      ensures Valid()
      ensures r <==> e !in old(lists[c])
      ensures r ==> lists == Unowned(old(lists), old(owner[e]), e)[c := old(lists[c]) + [e]] &&
                    owner == old(owner)[e := Some(c)]
      ensures !r ==> lists == old(lists) && owner == old(owner) && size == old(size)
      ensures nextHandle == old(nextHandle) && nextId == old(nextId)
    {
      var found := Find(c, e);
      if !found {
        Insert(c, e, |lists[c]|);
        assert InsertAt(old(lists[c]), |old(lists[c])|, e) == old(lists[c]) + [e];
        return true;
      }
      return false;
    }

    /**
     * `Container::AttachAfter`: when `e` is not here and `after` is, `e`
     * leaves its old container and is linked in right after `after`;
     * otherwise nothing changes.
     */
    method AttachAfter(c: Id, e: Handle, after: Handle) returns (r: bool)
      requires Valid() && c in lists && e in owner
      modifies this
      ensures Valid()
      ensures r <==> e !in old(lists[c]) && after in old(lists[c])
      ensures r ==> lists == Unowned(old(lists), old(owner[e]), e)[c := InsertAt(old(lists[c]), IndexOf(old(lists[c]), after) + 1, e)] &&
                    owner == old(owner)[e := Some(c)]
      ensures !r ==> lists == old(lists) && owner == old(owner) && size == old(size)
      ensures nextHandle == old(nextHandle) && nextId == old(nextId)
    {
      var found := Find(c, e);
      var anchor := Find(c, after);
      if !found && anchor {
        Insert(c, e, IndexOf(lists[c], after) + 1);
        return true;
      }
      return false;
    }

    /**
     * `Container::AttachBefore`: when `e` is not here and `before` is, `e`
     * leaves its old container and is linked in right before `before`;
     * otherwise nothing changes.
     */
    method AttachBefore(c: Id, e: Handle, before: Handle) returns (r: bool)
      requires Valid() && c in lists && e in owner
      modifies this
      ensures Valid()
      ensures r <==> e !in old(lists[c]) && before in old(lists[c])
      ensures r ==> lists == Unowned(old(lists), old(owner[e]), e)[c := InsertAt(old(lists[c]), IndexOf(old(lists[c]), before), e)] &&
                    owner == old(owner)[e := Some(c)]
      ensures !r ==> lists == old(lists) && owner == old(owner) && size == old(size)
      ensures nextHandle == old(nextHandle) && nextId == old(nextId)
    {
      var found := Find(c, e);
      var anchor := Find(c, before);
      if !found && anchor {
        Insert(c, e, IndexOf(lists[c], before));
        return true;
      }
      return false;
    }

    /**
     * `Container::AttachAt`: when `e` is not here and `index` names an
     * element (so `0 <= index < size`; `index == size` fails), `e` is
     * linked in before it and ends up at position `index`.
     */
    method AttachAt(c: Id, e: Handle, index: int) returns (r: bool)
      requires Valid() && c in lists && e in owner
      modifies this
      ensures Valid()
      ensures r <==> e !in old(lists[c]) && 0 <= index < |old(lists[c])|
      ensures r ==> lists == Unowned(old(lists), old(owner[e]), e)[c := InsertAt(old(lists[c]), index, e)] &&
                    owner == old(owner)[e := Some(c)] && lists[c][index] == e
      ensures !r ==> lists == old(lists) && owner == old(owner) && size == old(size)
      ensures nextHandle == old(nextHandle) && nextId == old(nextId)
    {
      var found := Find(c, e);
      if !found {
        var before := Get(c, index);
        if before.Some? {
          Insert(c, e, index);
          assert lists[c][index] == e;
          return true;
        }
      }
      return false;
    }

    /** `Container::DetachAll`: detaches the first element until none is left. */
    method DetachAll(c: Id)
      requires Valid() && c in lists
      modifies this
      ensures Valid()
      ensures lists == old(lists)[c := []]
      ensures owner.Keys == old(owner).Keys
      ensures forall x | x in old(lists[c]) :: x in owner && owner[x] == None
      ensures forall x | x in owner && x !in old(lists[c]) :: owner[x] == old(owner[x])
      ensures nextHandle == old(nextHandle) && nextId == old(nextId)
    {
      ghost var l := lists[c];
      ghost var k := 0;
      while lists[c] != []
        invariant Valid() && c in lists && 0 <= k <= |l|
        invariant lists == old(lists)[c := l[k..]]
        invariant owner.Keys == old(owner).Keys
        invariant forall x | x in l[..k] :: x in owner && owner[x] == None
        invariant forall x | x in owner && x !in l[..k] :: owner[x] == old(owner[x])
        invariant nextHandle == old(nextHandle) && nextId == old(nextId)
        decreases |lists[c]|
      {
        var e := lists[c][0];
        IndexOfDistinct(lists[c], 0);
        assert RemoveAt(lists[c], 0) == lists[c][1..];
        var _ := Detach(c, e);
        assert l[..k + 1] == l[..k] + [e];
        assert l[k + 1..] == l[k..][1..];
        k := k + 1;
      }
      assert l[..k] == l;
    }

    /** `delete e`: the destructor frees `e` from its container, then the element is gone. */
    method DeleteElement(e: Handle)
      requires Valid() && e in owner
      modifies this
      ensures Valid()
      ensures lists == Unowned(old(lists), old(owner[e]), e) && owner == old(owner) - {e}
      ensures nextHandle == old(nextHandle) && nextId == old(nextId)
    {
      Free(e);
      PoolDeleteElement(lists, owner, size, nextHandle, nextId, e);
      owner := owner - {e};
    }

    /**
     * `Container::Empty` (and so a `CleanContainer`'s teardown): deletes
     * the first element until none is left; every element it held is gone.
     */
    method Empty(c: Id)
      requires Valid() && c in lists
      modifies this
      ensures Valid()
      ensures lists == old(lists)[c := []]
      ensures owner == old(owner) - Elems(old(lists[c]))
      ensures nextHandle == old(nextHandle) && nextId == old(nextId)
    {
      ghost var l := lists[c];
      ghost var k := 0;
      while lists[c] != []
        invariant Valid() && c in lists && 0 <= k <= |l|
        invariant lists == old(lists)[c := l[k..]]
        invariant owner == old(owner) - Elems(l[..k])
        invariant nextHandle == old(nextHandle) && nextId == old(nextId)
        decreases |lists[c]|
      {
        var e := lists[c][0];
        IndexOfDistinct(lists[c], 0);
        assert Holder(owner, e) == Some(c);
        assert RemoveAt(lists[c], 0) == lists[c][1..];
        DeleteElement(e);
        assert l[..k + 1] == l[..k] + [e];
        assert Elems(l[..k + 1]) == Elems(l[..k]) + {e};
        assert l[k + 1..] == l[k..][1..];
        k := k + 1;
      }
      assert l[..k] == l;
    }

    /** `~Container`: detaches everything, then the container is gone. */
    method DeleteContainer(c: Id)
      requires Valid() && c in lists
      modifies this
      ensures Valid()
      ensures lists == old(lists) - {c}
      ensures owner.Keys == old(owner).Keys
      ensures forall x | x in old(lists[c]) :: x in owner && owner[x] == None
      ensures forall x | x in owner && x !in old(lists[c]) :: owner[x] == old(owner[x])
    {
      DetachAll(c);
      PoolDeleteContainer(lists, owner, size, nextHandle, nextId, c);
      lists, size := lists - {c}, size - {c};
    }

    /** `~CleanContainer`: deletes every element, then the container is gone. */
    method DeleteCleanContainer(c: Id)
      requires Valid() && c in lists
      modifies this
      ensures Valid()
      ensures lists == old(lists) - {c}
      ensures owner == old(owner) - Elems(old(lists[c]))
    {
      Empty(c);
      PoolDeleteContainer(lists, owner, size, nextHandle, nextId, c);
      lists, size := lists - {c}, size - {c};
    }

    /** The `forEach` macro: from `Elements()`, follow `Next()` until null; visits the chain front to back. */
    method ForEach(c: Id) returns (visited: seq<Handle>)
      requires Valid() && c in lists
      ensures visited == lists[c]
    {
      ghost var l := lists[c];
      visited := [];
      var it := Elements(c);
      while it.Some?
        invariant |visited| <= |l| && visited == l[..|visited|]
        invariant it == if |visited| < |l| then Some(l[|visited|]) else None
        decreases |l| - |visited|
      {
        IndexOfDistinct(l, |visited|);
        assert Holder(owner, l[|visited|]) == Some(c);
        visited := visited + [it.value];
        it := Next(it.value);
      }
      assert l[..|visited|] == l;
    }

    /**
     * The `forEach` macro with a body that detaches the current element:
     * `Detach` nulls its `next` link, so the traversal stops after the
     * first element.
     */
    method ForEachDetach(c: Id) returns (visited: seq<Handle>)
      requires Valid() && c in lists
      modifies this
      ensures Valid()
      ensures visited == if old(lists[c]) == [] then [] else [old(lists[c])[0]]
      ensures lists == old(lists)[c := if old(lists[c]) == [] then [] else old(lists[c])[1..]]
    {
      visited := [];
      var it := Elements(c);
      while it.Some?
        invariant Valid() && c in lists && |visited| <= 1
        invariant visited == [] ==> lists == old(lists) && it == if lists[c] == [] then None else Some(lists[c][0])
        invariant visited != [] ==> old(lists[c]) != [] && visited == [old(lists[c])[0]] && it.None? &&
                                    lists == old(lists)[c := old(lists[c])[1..]]
        decreases 1 - |visited|
      {
        var e := it.value;
        visited := visited + [e];
        IndexOfDistinct(lists[c], 0);
        assert RemoveAt(lists[c], 0) == lists[c][1..];
        var _ := Detach(c, e);
        it := Next(e);
      }
    }
  }
}
