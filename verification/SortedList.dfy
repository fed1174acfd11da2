/**
 The singly linked list with first and last nodes at hand, also used sorted by key.
 */
module SortedLists {
  import opened Options
  import opened Counting

  datatype Elem<T> = Elem(item: T, key: int)

  /** Where a key goes: before the first element with a larger key. */
  function Place<T>(c: seq<Elem<T>>, key: int, i: nat := 0): (r: nat)
    requires i <= |c|
    ensures i <= r <= |c| && (r < |c| ==> key < c[r].key) && forall j :: i <= j < r ==> c[j].key <= key
    decreases |c| - i
  {
    if i == |c| || key < c[i].key then i else Place(c, key, i + 1)
  }

  function Inserted<T>(c: seq<Elem<T>>, e: Elem<T>): seq<Elem<T>> {
    var p := Place(c, e.key);
    c[..p] + [e] + c[p..]
  }

  ghost predicate Sorted<T>(c: seq<Elem<T>>) {
    forall i, j :: 0 <= i < j < |c| ==> c[i].key <= c[j].key
  }

  /** Insertion keeps the list sorted, and puts the element after all with its key. */
  lemma InsertSorted<T>(c: seq<Elem<T>>, e: Elem<T>)
    requires Sorted(c)
    ensures Sorted(Inserted(c, e))
    ensures forall j :: Place(c, e.key) < j < |Inserted(c, e)| ==> e.key < Inserted(c, e)[j].key
  {
    var p, d := Place(c, e.key), Inserted(c, e);
    forall j | p < j < |d| ensures e.key < d[j].key { AtInserted(c, e, j); }
    forall i, j | 0 <= i < j < |d| ensures d[i].key <= d[j].key {
      AtInserted(c, e, i);
      AtInserted(c, e, j);
    }
  }

  lemma AtInserted<T>(c: seq<Elem<T>>, e: Elem<T>, i: int)
    requires 0 <= i <= |c|
    ensures |Inserted(c, e)| == |c| + 1
    ensures var p := Place(c, e.key);
            Inserted(c, e)[i] == if i < p then c[i] else if i == p then e else c[i - 1]
  {
  }

  /** It adds one element and loses none. */
  lemma InsertMembers<T>(c: seq<Elem<T>>, e: Elem<T>)
    ensures multiset(Inserted(c, e)) == multiset(c) + multiset{e}
  {
    var p := Place(c, e.key);
    assert c == c[..p] + c[p..];
  }

  class Node<T(!new)> {
    const elem: Elem<T>
    var next: Node?<T>

    constructor (elem: Elem<T>)
      ensures this.elem == elem && next == null
    {
      this.elem, next := elem, null;
    }
  }

  /** The elements along a spine of nodes. */
  ghost function Along<T(!new)>(spine: seq<Node<T>>): (c: seq<Elem<T>>)
    ensures |c| == |spine| && forall i :: 0 <= i < |c| ==> c[i] == spine[i].elem
  {
    seq(|spine|, i requires 0 <= i < |spine| => spine[i].elem)
  }

  lemma PutInside<T(!new)>(spine: seq<Node<T>>, i: int, x: Node<T>)
    requires 0 <= i <= |spine| && Distinct(spine) && x !in spine
    ensures Along(spine[..i] + [x] + spine[i..]) == Along(spine)[..i] + [x.elem] + Along(spine)[i..]
    ensures Distinct(spine[..i] + [x] + spine[i..])
  {
  }

  class List<T(!new)> {
    var first: Node?<T>
    var last: Node?<T>
    ghost var spine: seq<Node<T>>
    ghost var repr: set<object>

    ghost predicate Valid()
      reads this, repr
    {
      && this in repr && (forall i :: 0 <= i < |spine| ==> spine[i] in repr)
      && (first == null <==> spine == []) && (last == null <==> spine == [])
      && (spine != [] ==> first == spine[0] && last == spine[|spine| - 1] && spine[|spine| - 1].next == null)
      && (forall i :: 0 <= i < |spine| - 1 ==> spine[i].next == spine[i + 1])
      && Distinct(spine)
    }

    ghost function Contents(): seq<Elem<T>>
      reads this
    {
      Along(spine)
    }

    constructor ()
      ensures Valid() && Contents() == [] && fresh(repr)
    {
      first, last, spine, repr := null, null, [], {this};
    }

    method IsEmpty() returns (empty: bool)
      requires Valid()
      ensures empty <==> Contents() == []
    {
      return first == null;
    }

    method Append(item: T)
      requires Valid()
      modifies repr
      ensures Valid() && fresh(repr - old(repr)) && Contents() == old(Contents()) + [Elem(item, 0)]
    {
      AddLast(Elem(item, 0));
    }

    method AddLast(e: Elem<T>)
      requires Valid()
      modifies repr
      ensures Valid() && fresh(repr - old(repr)) && Contents() == old(Contents()) + [e]
    {
      var element := new Node(e);
      if first == null {
        first := element;
      } else {
        last.next := element;
      }
      last := element;
      spine, repr := spine + [element], repr + {element};
    }

    method Prepend(item: T)
      requires Valid()
      modifies repr
      ensures Valid() && fresh(repr - old(repr)) && Contents() == [Elem(item, 0)] + old(Contents())
    {
      AddFirst(Elem(item, 0));
    }

    method AddFirst(e: Elem<T>)
      requires Valid()
      modifies repr
      ensures Valid() && fresh(repr - old(repr)) && Contents() == [e] + old(Contents())
    {
      var element := new Node(e);
      if first == null {
        last := element;
      } else {
        element.next := first;
      }
      first := element;
      spine, repr := [element] + spine, repr + {element};
    }

    /** Puts the item before the first one with a larger key, walking from the front. */
    method SortedInsert(item: T, sortKey: int)
      requires Valid()
      modifies repr
      ensures Valid() && fresh(repr - old(repr)) && Contents() == Inserted(old(Contents()), Elem(item, sortKey))
    {
      var e := Elem(item, sortKey);
      if first == null {
        AddLast(e);
      } else if sortKey < first.elem.key {
        AddFirst(e);
      } else {
        var ptr;
        ghost var i;
        ptr, i := Walk(sortKey);
        if ptr.next == null { AddLast(e); } else { InsertAfter(ptr, i, e); }
      }
    }

    /** The last node before the place of the key. */
    method Walk(sortKey: int) returns (ptr: Node<T>, ghost i: int)
      requires Valid() && first != null && first.elem.key <= sortKey
      ensures 0 <= i < |spine| && ptr == spine[i] && Place(Contents(), sortKey) == i + 1
      ensures ptr.next == null <==> i == |spine| - 1
    {
      ptr := first;
      i := 0;
      while ptr.next != null && !(sortKey < ptr.next.elem.key)
        invariant 0 <= i < |spine| && ptr == spine[i]
        invariant Place(Contents(), sortKey) == Place(Contents(), sortKey, i + 1)
        decreases |spine| - i
      {
        assert i < |spine| - 1;
        ptr := ptr.next;
        i := i + 1;
      }
    }

    method InsertAfter(ptr: Node<T>, ghost i: int, e: Elem<T>)
      requires Valid() && 0 <= i < |spine| - 1 && ptr == spine[i]
      modifies repr
      ensures Valid() && fresh(repr - old(repr)) && Contents() == old(Contents())[..i + 1] + [e] + old(Contents())[i + 1..]
    {
      var element := new Node(e);
      element.next := ptr.next;
      ptr.next := element;
      ghost var was := spine;
      spine, repr := spine[..i + 1] + [element] + spine[i + 1..], repr + {element};
      PutInside(was, i + 1, element);
      forall j | 0 <= j < |spine| - 1 ensures spine[j].next == spine[j + 1] {
        if j < i { assert was[j].next == was[j + 1]; } else if j > i + 1 { assert was[j - 1].next == was[j]; }
      }
    }

    /** Takes the first element off, if there is one. */
    method SortedRemove() returns (r: Option<Elem<T>>)
      requires Valid()
      modifies this
      ensures Valid() && repr == old(repr) && (r == None <==> old(Contents()) == []) && (r == None ==> Contents() == [])
      ensures r.Some? ==> r.value == old(Contents())[0] && Contents() == old(Contents())[1..]
    {
      if first == null { return None; }
      r := Some(first.elem);
      assert first == last <==> |spine| == 1;
      if first == last {
        first, last := null, null;
        assert spine[1..] == [];
      } else {
        assert first.next == spine[1];
        first := first.next;
      }
      spine := spine[1..];
    }
  }
}
