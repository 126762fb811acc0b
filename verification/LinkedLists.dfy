/** The intrusive doubly linked list, and sweeps that delete while they walk. */
module LinkedLists {
  import opened Rows

  class Item<T> {
    var prev: Item?<T>
    var next: Item?<T>
    var list: LinkedList?<T>
    const data: T

    constructor (data: T)
      ensures list == null && this.data == data
    {
      prev, next, list := null, null, null;
      this.data := data;
    }
  }

  datatype Location = AtHead | AtTail

  function At<T>(items: seq<Item<T>>, i: int): Item?<T> {
    if 0 <= i < |items| then items[i] else null
  }

  function Just<T>(x: Item?<T>): set<Item<T>> {
    if x == null then {} else {x}
  }

  function ValuesOf<T>(s: seq<Item<T>>): (vs: seq<T>)
    ensures |vs| == |s| && forall i :: 0 <= i < |s| ==> vs[i] == s[i].data
  {
    seq(|s|, i requires 0 <= i < |s| => s[i].data)
  }

  lemma ValuesOfFirst<T>(item: Item<T>, s: seq<Item<T>>)
    ensures ValuesOf([item] + s) == [item.data] + ValuesOf(s)
  {
  }

  lemma ValuesOfCut<T>(s: seq<Item<T>>, k: nat)
    requires k < |s|
    ensures ValuesOf(s[..k] + s[k + 1..]) == ValuesOf(s)[..k] + ValuesOf(s)[k + 1..]
  {
  }

  /** A walk along a list has kept some items, and others are still to be seen. */
  ghost predicate Walked<T>(list: LinkedList<T>, kept: seq<T>, rest: seq<T>, prev: Item?<T>, item: Item?<T>)
    reads list`items
  {
    && list.Values() == kept + rest
    && item == At(list.items, |kept|) && prev == At(list.items, |kept| - 1)
  }

  lemma WalkStarts<T>(list: LinkedList<T>)
    requires list.Valid()
    ensures Walked(list, [], list.Values(), null, list.head)
  {
    assert [] + list.Values() == list.Values();
  }

  lemma WalkGoesOn<T>(list: LinkedList<T>, kept: seq<T>, rest: seq<T>, prev: Item?<T>, at: Item<T>)
    requires Walked(list, kept, rest, prev, at)
    ensures rest != [] && at.data == rest[0] && |kept| < |list.items| && at == list.items[|kept|]
  {
    assert list.Values()[|kept|] == at.data;
  }

  lemma WalkEnds<T>(list: LinkedList<T>, kept: seq<T>, rest: seq<T>, prev: Item?<T>)
    requires Walked(list, kept, rest, prev, null)
    ensures rest == [] && list.Values() == kept
  {
    assert |list.Values()| == |list.items| <= |kept|;
    assert kept + [] == kept;
  }

  /** A turn of a walk moves the first of the rest to what is kept, or drops it. */
  lemma TurnOfRow<T>(kept: seq<T>, rest: seq<T>) returns (more: seq<T>, left: seq<T>)
    requires rest != []
    ensures more == kept + [rest[0]] && left == rest[1..] && more + left == kept + rest
    ensures (kept + rest)[..|kept|] + (kept + rest)[|kept| + 1..] == kept + left
  {
    more, left := kept + [rest[0]], rest[1..];
  }

  class LinkedList<T> {
    var head: Item?<T>
    var tail: Item?<T>
    ghost var items: seq<Item<T>>

    ghost predicate Valid()
      reads this`head, this`tail, this`items, Elements(items)`prev, Elements(items)`next, Elements(items)`list
    {
      && NoRepeats(items)
      && head == At(items, 0) && tail == At(items, |items| - 1)
      && forall i :: 0 <= i < |items| ==> InPlace(items, i)
    }

    constructor ()
      ensures Valid() && items == []
    {
      head, tail, items := null, null, [];
    }

    /** Item `i` of a row is linked as its place in the row says. */
    ghost predicate InPlace(s: seq<Item<T>>, i: int)
      requires 0 <= i < |s|
      reads Elements(s)`prev, Elements(s)`next, Elements(s)`list
    {
      s[i].prev == At(s, i - 1) && s[i].next == At(s, i + 1) && s[i].list == this
    }

    method Add(item: Item?<T>, location: Location)
      requires Valid() && (item != null ==> item !in items)
      modifies this`head, this`tail, this`items, Elements(items)`prev, Elements(items)`next
      modifies Just(item)`prev, Just(item)`next, Just(item)`list
      ensures Valid()
      ensures item == null ==> items == old(items)
      ensures item != null ==> items == if location.AtHead? then [item] + old(items) else old(items) + [item]
    {
      if item != null {
        Link(item, location);
      }
    }

    method Link(item: Item<T>, location: Location)
      requires Valid() && item !in items
      modifies this`head, this`tail, this`items, Elements(items)`prev, Elements(items)`next
      modifies item`prev, item`next, item`list
      ensures Valid()
      ensures items == if location.AtHead? then [item] + old(items) else old(items) + [item]
    {
      ghost var s := items;
      item.list := this;
      if location.AtHead? {
        item.prev := null;
        item.next := head;
        head := item;
        items := [item] + s;
      } else {
        item.prev := tail;
        item.next := null;
        tail := item;
        items := s + [item];
      }
      if item.next != null {
        item.next.prev := item;
      }
      if item.prev != null {
        item.prev.next := item;
      }
      if head == null {
        head := item;
      }
      if tail == null {
        tail := item;
      }
      forall i | 0 <= i < |items| ensures InPlace(items, i) {
        var k := if location.AtHead? then i - 1 else i;
        assert 0 <= k < |s| ==> items[i] == s[k] && old(InPlace(items, k));
      }
    }

    /** Takes an item out; one that belongs to another list, or none, stays put. */
    method Remove(item: Item?<T>)
      requires Valid() && (item != null && item.list == this ==> item in items)
      modifies this`head, this`tail, this`items, Elements(items)`prev, Elements(items)`next, Elements(items)`list
      ensures Valid()
      ensures item == null || old(item.list) != this ==> items == old(items)
      ensures item != null && old(item.list) == this ==>
        items == Without<Item<T>>(old(items), item) && item.list == null
    {
      if item != null && item.list == this {
        ghost var k :| 0 <= k < |items| && items[k] == item;
        Unlink(item, k);
      }
    }

    method DropAt(at: Item<T>, ghost pos: nat)
      requires Valid() && pos < |items| && at == items[pos]
      modifies this`head, this`tail, this`items, Elements(items)`prev, Elements(items)`next, Elements(items)`list
      ensures Valid() && Elements(items) <= old(Elements(items)) && At(items, pos - 1) == old(At(items, pos - 1))
      ensures Values() == old(Values())[..pos] + old(Values())[pos + 1..]
    {
      Drop(at, pos);
    }

    /** Takes out the item that stands at some place. */
    method Drop(at: Item<T>, ghost pos: nat)
      requires Valid() && pos < |items| && at == items[pos]
      modifies this`head, this`tail, this`items, Elements(items)`prev, Elements(items)`next, Elements(items)`list
      ensures Valid() && items == old(items)[..pos] + old(items)[pos + 1..]
      ensures Values() == old(Values())[..pos] + old(Values())[pos + 1..]
    {
      CutAt(items, pos);
      ValuesOfCut(items, pos);
      assert InPlace(items, pos);
      Remove(at);
    }

    /** A deleting walk takes out the item it is at. */
    method DropInWalk(at: Item<T>, before: Item?<T>, ghost kept: seq<T>, ghost rest: seq<T>, ghost left: seq<T>)
      requires Valid() && Walked(this, kept, rest, before, at)
      requires rest != [] && left == rest[1..]
      modifies this`head, this`tail, this`items, Elements(items)`prev, Elements(items)`next, Elements(items)`list
      ensures Valid() && Elements(items) <= old(Elements(items))
      ensures Values() == kept + left && before == At(items, |kept| - 1)
    {
      WalkGoesOn(this, kept, rest, before, at);
      ghost var more, after := TurnOfRow(kept, rest);
      DropAt(at, |kept|);
    }

    /** A turn of a deleting walk: it takes out the item it is at, or keeps it, and
        goes on from the last item kept, or from the new head. */
    method WalkOn(at: Item<T>, before: Item?<T>, drop: bool, ghost kept: seq<T>, ghost rest: seq<T>)
      returns (prev: Item?<T>, item: Item?<T>, ghost more: seq<T>, ghost left: seq<T>)
      requires Valid() && Walked(this, kept, rest, before, at)
      modifies this`head, this`tail, this`items, Elements(items)`prev, Elements(items)`next, Elements(items)`list
      ensures Valid() && Elements(items) <= old(Elements(items))
      ensures rest != [] && more == (if drop then kept else kept + [at.data]) && left == rest[1..]
      ensures Walked(this, more, left, prev, item)
    {
      WalkGoesOn(this, kept, rest, before, at);
      prev, more, left := Settle(at, before, drop, kept, rest);
      item := Behind(prev, more, left);
    }

    method Settle(at: Item<T>, before: Item?<T>, drop: bool, ghost kept: seq<T>, ghost rest: seq<T>)
      returns (prev: Item?<T>, ghost more: seq<T>, ghost left: seq<T>)
      requires Valid() && Walked(this, kept, rest, before, at)
      requires rest != [] && at.data == rest[0] && |kept| < |items| && at == items[|kept|]
      modifies this`head, this`tail, this`items, Elements(items)`prev, Elements(items)`next, Elements(items)`list
      ensures Valid() && Elements(items) <= old(Elements(items))
      ensures more == (if drop then kept else kept + [at.data]) && left == rest[1..]
      ensures Values() == more + left && prev == At(items, |more| - 1)
    {
      prev := at;
      more, left := TurnOfRow(kept, rest);
      if drop {
        DropInWalk(at, before, kept, rest, left);
        prev, more := before, kept;
      }
    }

    /** A walk goes on behind the last item it kept, or from the head. */
    method Behind(prev: Item?<T>, ghost kept: seq<T>, ghost rest: seq<T>) returns (item: Item?<T>)
      requires Valid() && Values() == kept + rest && prev == At(items, |kept| - 1)
      ensures Valid() && items == old(items) && Walked(this, kept, rest, prev, item)
    {
      assert prev != null ==> InPlace(items, |kept| - 1);
      item := if prev != null then prev.next else head;
    }

    method Unlink(item: Item<T>, ghost k: nat)
      requires Valid() && k < |items| && items[k] == item
      modifies this`head, this`tail, this`items, Elements(items)`prev, Elements(items)`next, item`list
      ensures Valid() && items == Without(old(items), item) && item.list == null
      ensures items == old(items)[..k] + old(items)[k + 1..]
    {
      ghost var s := items;
      CutAt(s, k);
      AllHere();
      Bypass(item, s, k);
      item.list := null;
      items := s[..k] + s[k + 1..];
      CutInPlace(s, items, k);
    }

    lemma AllHere()
      requires Valid()
      ensures forall x :: x in items ==> x.list == this
    {
      forall x | x in items ensures x.list == this {
        var i :| 0 <= i < |items| && items[i] == x;
        assert InPlace(items, i);
      }
    }

    /** The neighbours of an item are linked past it. */
    method Bypass(item: Item<T>, ghost s: seq<Item<T>>, ghost k: nat)
      requires Valid() && s == items && k < |s| && s[k] == item
      modifies this`head, this`tail, Elements(s)`prev, Elements(s)`next
      ensures head == (if k == 0 then At(s, 1) else s[0])
      ensures tail == (if k == |s| - 1 then At(s, k - 1) else s[|s| - 1])
      ensures forall j :: 0 <= j < |s| && j != k ==> PassedBy(s, j, k)
    {
      assert InPlace(s, k);
      if item.prev != null {
        item.prev.next := item.next;
      }
      if item.next != null {
        item.next.prev := item.prev;
      }
      if head == item {
        head := item.next;
      }
      if tail == item {
        tail := item.prev;
      }
      forall j | 0 <= j < |s| && j != k ensures PassedBy(s, j, k) {
        assert old(InPlace(s, j));
      }
    }

    /** Item `j` of a row is linked as if item `k` were not there. */
    ghost predicate PassedBy(s: seq<Item<T>>, j: int, k: nat)
      requires 0 <= j < |s| && j != k
      reads Elements(s)`prev, Elements(s)`next
    {
      && s[j].prev == At(s, if j == k + 1 then k - 1 else j - 1)
      && s[j].next == At(s, if j + 1 == k then k + 1 else j + 1)
    }

    lemma CutInPlace(s: seq<Item<T>>, cut: seq<Item<T>>, k: nat)
      requires NoRepeats(s) && k < |s| && cut == s[..k] + s[k + 1..]
      requires forall j :: 0 <= j < |s| && j != k ==> PassedBy(s, j, k)
      requires forall x :: x in s && x != s[k] ==> x.list == this
      ensures forall i :: 0 <= i < |cut| ==> InPlace(cut, i)
    {
      forall i | 0 <= i < |cut| ensures InPlace(cut, i) {
        var j := if i < k then i else i + 1;
        assert PassedBy(s, j, k) && cut[i] == s[j] && s[j] in s && s[j] != s[k];
        AtCut(s, cut, k, i - 1);
        AtCut(s, cut, k, i + 1);
      }
    }

    lemma AtCut(s: seq<Item<T>>, cut: seq<Item<T>>, k: nat, i: int)
      requires k < |s| && cut == s[..k] + s[k + 1..]
      ensures At(cut, i) == At(s, if i < k then i else i + 1)
    {
    }

    /** What the items of the list carry, in order. */
    ghost function Values(): (vs: seq<T>)
      reads this`items
    {
      ValuesOf(items)
    }
  }
}
