/** The message pool (MessagePool.c): a ring of equal slots, each with a semaphore, searched from
    the slot after the one that was looked at last. */
module MessagePool {
  import opened CharCircularBuffer

  /** A slot; it is free while its semaphore can be taken. */
  class MessageItem {
    var free: bool
    var nextItem: MessageItem?

    constructor ()
      ensures free && nextItem == null
    {
      free, nextItem := true, null;
    }
  }

  /** The slots in the order of the ring, from the one after `at` round to `at` itself. */
  function Rotation<T>(items: seq<T>, at: nat): (r: seq<T>)
    requires at < |items|
    ensures |r| == |items|
    ensures forall j :: 0 <= j < |items| ==> r[j] == items[At(at + 1 + j, |items|)]
  {
    seq(|items|, j requires 0 <= j < |items| => items[At(at + 1 + j, |items|)])
  }

  lemma RotationIsRing<T>(items: seq<T>, at: nat)
    requires at < |items|
    ensures Rotation(items, at) == items[at + 1..] + items[..at + 1]
    ensures multiset(Rotation(items, at)) == multiset(items)
  {
    assert items == items[..at + 1] + items[at + 1..];
  }

  /** Each slot points to the next and the last one to the first. */
  ghost predicate Linked(r: seq<MessageItem>)
    reads r`nextItem
  {
    && (forall j :: 0 <= j < |r| - 1 ==> r[j].nextItem == r[j + 1])
    && (|r| > 0 ==> r[|r| - 1].nextItem == r[0])
  }

  lemma NextInRing(r: seq<MessageItem>, k: nat, item: MessageItem)
    requires Linked(r) && k < |r| && item == if k == 0 then r[|r| - 1] else r[k - 1]
    ensures item.nextItem == r[k]
  {
  }

  class Pool {
    const items: seq<MessageItem>
    const itemSize: nat
    var lastItem: MessageItem?
    ghost var at: nat

    /** The slots are different objects. */
    ghost predicate Distinct() {
      forall i, j :: 0 <= i < j < |items| ==> items[i] != items[j]
    }

    ghost predicate Ring()
      reads items`nextItem
    {
      forall i :: 0 <= i < |items| ==> items[i].nextItem == items[At(i + 1, |items|)]
    }

    ghost predicate Valid()
      reads this, items`nextItem
    {
      && Distinct() && Ring()
      && (|items| > 0 ==> at < |items| && lastItem == items[at])
    }

    ghost function Free(): (s: set<MessageItem>)
      reads items`free
    {
      set m | m in items && m.free
    }

    /** messagePool_create: all slots free, linked into a ring. */
    constructor (itemSize: nat, itemCount: nat)
      ensures Valid() && this.itemSize == itemSize && |items| == itemCount && at == 0
      ensures fresh(items) && forall i :: 0 <= i < itemCount ==> items[i].free
    {
      var made: seq<MessageItem> := [];
      for i := 0 to itemCount
        invariant |made| == i && fresh(made)
        invariant forall j :: 0 <= j < i ==> made[j].free
        invariant forall j, k :: 0 <= j < k < i ==> made[j] != made[k]
      {
        var item := new MessageItem();
        made := made + [item];
      }
      this.itemSize := itemSize;
      items := made;
      at := 0;
      lastItem := if itemCount > 0 then made[0] else null;
      new;
      for i := 0 to itemCount
        invariant items == made && |made| == itemCount && fresh(made) && at == 0 && this.itemSize == itemSize
        invariant lastItem == if itemCount > 0 then made[0] else null
        invariant forall j :: 0 <= j < itemCount ==> made[j].free
        invariant forall j :: 0 <= j < i ==> made[j].nextItem == made[At(j + 1, itemCount)]
      {
        made[i].nextItem := if i == itemCount - 1 then made[0] else made[i + 1];
      }
    }

    /** Following the links from the last item runs through the rotation. */
    lemma Links()
      requires Valid() && |items| > 0
      ensures var r, n := Rotation(items, at), |items|;
              && Linked(r) && r[n - 1] == lastItem
              && (forall i, j :: 0 <= i < j < n ==> r[i] != r[j])
    {
    }

    /** messagePool_aquire: the first free slot after the last one, now held, if the size fits and
        some slot is free; a slot that is held is never handed out. */
    method Acquire(size: nat) returns (result: MessageItem?)
      requires Valid()
      modifies this`lastItem, this`at, items`free
      ensures Valid()
      ensures result == null <==> size > itemSize || old(Free()) == {}
      ensures result == null ==> Free() == old(Free()) && lastItem == old(lastItem)
      ensures result != null ==>
                && result in old(Free()) && Free() == old(Free()) - {result} && lastItem == result
                && FirstIn(Rotation(items, old(at)), old(Free()), result)
    {
      if size > itemSize {
        return null;
      }
      result := null;
      ghost var start, n, free := at, |items|, Free();
      if |items| > 0 {
        result := Search();
      }
      if result == null {
        assert free == {} by {
          forall m | m in items
            ensures m !in free
          {
            InRotation(items, start, m);
          }
        }
      }
    }

    /** The loop of messagePool_aquire. */
    method Search() returns (result: MessageItem?)
      requires Valid() && |items| > 0
      modifies this`lastItem, this`at, items`free
      ensures Valid()
      ensures forall m :: m in items ==> m.free == (old(m.free) && m != result)
      ensures result == null ==> lastItem == old(lastItem)
      ensures result == null ==> forall j :: 0 <= j < |items| ==> Rotation(items, old(at))[j] !in old(Free())
      ensures result != null ==>
                result in items && lastItem == result && FirstIn(Rotation(items, old(at)), old(Free()), result)
    {
      hide Ring, Distinct, Linked, Rotation;
      result := null;
      var index := 0;
      Links();
      ghost var r, n, free, start := Rotation(items, at), |items|, Free(), at;
      while result == null && index < |items|
        invariant index <= n && Ring() && Linked(r)
        invariant at == At(start + index, n) && lastItem == items[at]
        invariant lastItem == if index == 0 then r[n - 1] else r[index - 1]
        invariant forall m :: m in items ==> m.free == (m in free && m != result)
        invariant result == null ==> forall j :: 0 <= j < index ==> r[j] !in free
        invariant result != null ==> 0 < index && lastItem == result == r[index - 1] && result in free
        invariant result != null ==> forall j :: 0 <= j < index - 1 ==> r[j] !in free
        decreases n - index
      {
        NextInRing(r, index, lastItem);
        index := index + 1;
        lastItem := lastItem.nextItem;
        at := At(at + 1, |items|);
        if lastItem.free {
          lastItem.free := false;
          result := lastItem;
        }
      }
    }

    /** messagePool_release. */
    method Release(item: MessageItem)
      requires Valid() && item in items
      modifies item`free
      ensures Valid() && Free() == old(Free()) + {item}
    {
      item.free := true;
    }

    /** messagePool_delete: takes the ring apart, link by link. The result lists the slots whose
        semaphores it deletes: each exactly once. */
    method Delete() returns (deleted: seq<MessageItem>)
      requires Valid() && |items| > 0
      modifies this`lastItem, items`nextItem
      ensures deleted == Rotation(items, at)
      ensures multiset(deleted) == multiset(items)
      ensures forall m :: m in items ==> m.nextItem == null
    {
      hide Ring, Distinct, Rotation, Cut, Linked, At;
      deleted := [];
      Links();
      ghost var r, n := Rotation(items, at), |items|;
      NothingCut(r);
      while lastItem.nextItem != null
        invariant |deleted| <= n && deleted == r[..|deleted|]
        invariant lastItem == if deleted == [] then r[n - 1] else r[|deleted| - 1]
        invariant Cut(r, |deleted|)
        decreases n - |deleted|
      {
        ghost var k := |deleted|;
        CutAt(r, k, lastItem);
        var item := DeleteNext(r, k);
        deleted := deleted + [item];
        assert r[..k + 1] == r[..k] + [r[k]];
      }
      CutAt(r, |deleted|, lastItem);
      assert deleted == r;
      AllCut(items, at);
      RotationIsRing(items, at);
    }

    /** One turn of the loop of messagePool_delete. */
    method DeleteNext(ghost r: seq<MessageItem>, ghost k: nat) returns (item: MessageItem)
      requires k < |r| && Cut(r, k) && lastItem == if k == 0 then r[|r| - 1] else r[k - 1]
      requires forall i, j :: 0 <= i < j < |r| ==> r[i] != r[j]
      modifies this`lastItem, r`nextItem
      ensures item == r[k] == lastItem && Cut(r, k + 1)
    {
      CutAt(r, k, lastItem);
      item := lastItem.nextItem;
      lastItem.nextItem := null;
      lastItem := item;
    }
  }

  /** A ring whose first k links have been cut, beginning with the one that closes it. */
  ghost predicate Cut(r: seq<MessageItem>, k: nat)
    requires |r| > 0
    reads r`nextItem
  {
    && r[|r| - 1].nextItem == (if k == 0 then r[0] else null)
    && (forall j :: 0 <= j < |r| - 1 && j < k - 1 ==> r[j].nextItem == null)
    && (forall j :: 0 <= j < |r| - 1 && k - 1 <= j ==> r[j].nextItem == r[j + 1])
  }

  lemma NothingCut(r: seq<MessageItem>)
    requires |r| > 0 && Linked(r)
    ensures Cut(r, 0)
  {
  }

  lemma AllCut(items: seq<MessageItem>, at: nat)
    requires at < |items| && Cut(Rotation(items, at), |items|)
    ensures forall m :: m in items ==> m.nextItem == null
  {
    hide Rotation;
    forall m | m in items
      ensures m.nextItem == null
    {
      InRotation(items, at, m);
    }
  }

  lemma CutAt(r: seq<MessageItem>, k: nat, item: MessageItem)
    requires 0 < |r| && k <= |r| && Cut(r, k) && item == if k == 0 then r[|r| - 1] else r[k - 1]
    ensures k < |r| ==> item.nextItem == r[k]
    ensures k == |r| <==> item.nextItem == null
  {
  }

  /** The first of a sequence that is in a set. */
  ghost predicate FirstIn(s: seq<MessageItem>, free: set<MessageItem>, x: MessageItem) {
    exists k :: 0 <= k < |s| && s[k] == x && x in free && forall j :: 0 <= j < k ==> s[j] !in free
  }

  lemma InRotation<T>(items: seq<T>, at: nat, m: T)
    requires at < |items| && m in items
    ensures exists j :: 0 <= j < |items| && Rotation(items, at)[j] == m
  {
    var i :| 0 <= i < |items| && items[i] == m;
    var j := if i > at then i - at - 1 else i + |items| - at - 1;
    assert Rotation(items, at)[j] == m;
  }
}
