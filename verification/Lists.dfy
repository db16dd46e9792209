/**
 kernel/list.cpp: an intrusive doubly linked list with a sentinel in front and a null
 pointer at the end.  The ghost field items is the list as a sequence; every operation
 is specified by what it does to that sequence.
 */
module Lists {

  /** A link; owner is the number of the slot whose record contains it, which the source finds by address. */
  class ListItem {
    const owner: nat
    var previous: ListItem?
    var next: ListItem?

    constructor (owner: nat)
      ensures previous == null && next == null && this.owner == owner
    {
      this.owner := owner;
      previous, next := null, null;
    }
  }

  class List {
    const head: ListItem
    ghost var items: seq<ListItem>

    /** The links run through the items in order, and back to the sentinel. */
    ghost predicate Valid()
      reads this, head, items
    {
      && head !in items
      && (forall i, j :: 0 <= i < j < |items| ==> items[i] != items[j])
      && head.next == (if items == [] then null else items[0])
      && (forall k {:trigger items[k].next} :: 0 <= k < |items| ==>
            items[k].next == if k + 1 < |items| then items[k + 1] else null)
      && (forall k {:trigger items[k].previous} :: 0 <= k < |items| ==>
            items[k].previous == if k == 0 then head else items[k - 1])
    }

    constructor ()
      ensures Valid() && items == [] && fresh(head)
    {
      head := new ListItem(0);
      items := [];
    }

    /** initialize: forgets the items without touching them. */
    method Initialize()
      modifies this, head
      ensures Valid() && items == []
    {
      head.next := null;
      head.previous := null;
      items := [];
    }

    method Size() returns (counter: nat)
      requires Valid()
      ensures counter == |items|
    {
      var temp := head.next;
      counter := 0;
      while temp != null
        invariant counter <= |items| && temp == if counter < |items| then items[counter] else null
        decreases |items| - counter
      {
        temp := temp.next;
        counter := counter + 1;
      }
    }

    method Empty() returns (r: bool)
      requires Valid()
      ensures r <==> items == []
    {
      var size := Size();
      r := size == 0;
    }

    method Back() returns (item: ListItem?)
      requires Valid()
      ensures item == if items == [] then null else items[|items| - 1]
    {
      var temp := head.next;
      if temp == null {
        return null;
      }
      ghost var k := 0;
      while temp.next != null
        invariant 0 <= k < |items| && temp == items[k]
        decreases |items| - k
      {
        temp := temp.next;
        k := k + 1;
      }
      return temp;
    }

    method PushBack(item: ListItem)
      requires Valid() && item != head && item !in items
      modifies this, head, items, item
      ensures Valid() && items == old(items) + [item]
    {
      var temp := Back();
      if temp == null {
        temp := head;
      }
      temp.next := item;
      item.previous := temp;
      item.next := null;
      items := items + [item];
    }

    method PopBack()
      requires Valid()
      modifies this, head, items
      ensures Valid() && items == if old(items) == [] then [] else old(items)[..|old(items)| - 1]
      ensures old(items) != [] ==> old(items)[|old(items)| - 1].next == null
      ensures old(items) != [] ==> old(items)[|old(items)| - 1].previous == null
    {
      var temp := Back();
      if temp != null {
        temp.previous.next := null;
        temp.previous, temp.next := null, null;
        items := items[..|items| - 1];
      }
    }

    method Front() returns (item: ListItem?)
      requires Valid()
      ensures item == if items == [] then null else items[0]
    {
      item := head.next;
    }

    method PushFront(item: ListItem)
      requires Valid() && item != head && item !in items
      modifies this, head, items, item
      ensures Valid() && items == [item] + old(items)
    {
      var temp := head.next;
      if temp != null {
        temp.previous := item;
      }
      head.next := item;
      item.previous := head;
      item.next := temp;
      items := [item] + items;
    }

    method PopFront()
      requires Valid()
      modifies this, head, items
      ensures Valid() && items == if old(items) == [] then [] else old(items)[1..]
      ensures old(items) != [] ==> old(items)[0].next == null && old(items)[0].previous == null
    {
      var temp := head.next;
      if temp != null {
        if temp.next != null {
          temp.next.previous := head;
        }
        head.next := temp.next;
        temp.previous, temp.next := null, null;
        items := items[1..];
      }
    }

    /** The item at a position; the first one for negative positions, null past the end. */
    method At(pos: int) returns (item: ListItem?)
      requires Valid()
      ensures item == if pos >= |items| || items == [] then null else if pos < 0 then items[0] else items[pos]
    {
      item := head.next;
      var i := 0;
      while i < pos && item != null
        invariant 0 <= i <= |items| && (i <= pos || i == 0) && item == if i < |items| then items[i] else null
        decreases |items| - i
      {
        i := i + 1;
        item := item.next;
      }
    }

    /** The first position of an item, or -1. */
    method Find(item: ListItem) returns (pos: int)
      requires Valid()
      ensures if item in items then 0 <= pos < |items| && items[pos] == item else pos == -1
    {
      pos := 0;
      var temp := head.next;
      while temp != null && temp != item
        invariant 0 <= pos <= |items| && temp == if pos < |items| then items[pos] else null
        invariant forall k :: 0 <= k < pos ==> items[k] != item
        decreases |items| - pos
      {
        temp := temp.next;
        pos := pos + 1;
      }
      if temp == null {
        pos := -1;
      }
    }

    /** Inserts before position pos; negative positions mean the front, and past the end nothing happens. */
    method Insert(pos: int, item: ListItem)
      requires Valid() && item != head && item !in items
      requires pos >= 0 || items != [] // on an empty list a negative position would follow a null pointer
      modifies this, head, items, item
      ensures Valid()
      ensures items == if pos > |old(items)| then old(items)
                       else if pos <= 0 then [item] + old(items)
                       else old(items)[..pos] + [item] + old(items)[pos..]
    {
      if pos == 0 {
        PushFront(item);
      } else {
        var length := Size();
        if pos == length {
          PushBack(item);
        } else if pos < length {
          var temp := At(pos);
          LinkBefore(temp, item, if pos < 0 then 0 else pos);
        }
      }
    }

    /** The four statements by which insert puts an item in front of another. */
    method LinkBefore(temp: ListItem, item: ListItem, ghost at: nat)
      requires Valid() && item != head && item !in items && at < |items| && items[at] == temp
      modifies this, head, items, item
      ensures Valid() && items == old(items)[..at] + [item] + old(items)[at..]
    {
      item.previous := temp.previous;
      item.next := temp;
      temp.previous.next := item;
      temp.previous := item;
      ghost var was := items;
      items := items[..at] + [item] + items[at..];
      assert forall k :: 0 <= k < |items| ==>
                items[k] == if k < at then was[k] else if k == at then item else was[k - 1];
      forall k | 0 <= k < |items| ensures items[k].next == if k + 1 < |items| then items[k + 1] else null {
        if k > at {
          assert was[k - 1].next == old(was[k - 1].next);
        } else if k + 1 < at {
          assert was[k].next == old(was[k].next);
        }
      }
      forall k | 0 <= k < |items| ensures items[k].previous == if k == 0 then head else items[k - 1] {
        if k > at + 1 {
          assert was[k - 1].previous == old(was[k - 1].previous);
        } else if k < at {
          assert was[k].previous == old(was[k].previous);
        }
      }
    }

    /** Removes the item at a position; negative positions mean the front, past the end nothing happens. */
    method Erase(pos: int)
      requires Valid()
      requires pos >= 0 || items != []
      modifies this, head, items
      ensures Valid()
      ensures items == if pos >= |old(items)| then old(items)
                       else if pos < 0 then old(items)[1..]
                       else old(items)[..pos] + old(items)[pos + 1..]
    {
      if pos == 0 {
        PopFront();
      } else {
        var length := Size();
        if pos < length {
          var temp := At(pos);
          ghost var at := if pos < 0 then 0 else pos;
          Unlink(temp, at);
        }
      }
    }

    /** The three statements by which both erase operations take an item out. */
    method Unlink(temp: ListItem, ghost at: nat)
      requires Valid() && at < |items| && items[at] == temp
      modifies this, head, items
      ensures Valid() && items == old(items)[..at] + old(items)[at + 1..]
      ensures temp.next == old(temp.next) && temp.previous == old(temp.previous)
    {
      temp.previous.next := temp.next;
      if temp.next != null {
        temp.next.previous := temp.previous;
      }
      ghost var was := items;
      items := items[..at] + items[at + 1..];
      assert forall k :: 0 <= k < |items| ==> items[k] == if k < at then was[k] else was[k + 1];
      forall k | 0 <= k < |items| ensures items[k].next == if k + 1 < |items| then items[k + 1] else null {
        if k >= at {
          assert was[k + 1].next == old(was[k + 1].next);
        } else if k + 1 < at {
          assert was[k].next == old(was[k].next);
        }
      }
      forall k | 0 <= k < |items| ensures items[k].previous == if k == 0 then head else items[k - 1] {
        if k > at {
          assert was[k + 1].previous == old(was[k + 1].previous);
        } else if k < at {
          assert was[k].previous == old(was[k].previous);
        }
      }
    }

    /** Removes an item if it is in the list. */
    method EraseItem(item: ListItem)
      requires Valid()
      modifies this, head, items
      ensures Valid()
      ensures if item in old(items)
              then exists k ::
                     0 <= k < |old(items)| && old(items)[k] == item && items == old(items)[..k] + old(items)[k + 1..]
              else items == old(items)
    {
      var temp := head.next;
      ghost var k := 0;
      while temp != null && temp != item
        invariant 0 <= k <= |items| && temp == if k < |items| then items[k] else null
        invariant forall j :: 0 <= j < k ==> items[j] != item
        decreases |items| - k
      {
        temp := temp.next;
        k := k + 1;
      }
      if temp != null {
        Unlink(temp, k);
      }
    }

    /** Looking up an item at a position and searching for it gives the position back. */
    method FindAt(pos: nat) returns (found: int)
      requires Valid() && pos < |items|
      ensures found == pos
    {
      var item := At(pos);
      found := Find(item);
    }
  }
}
