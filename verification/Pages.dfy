/**
 Cutting a sequence into pages: reading a file in blocks, listing a directory in
 fixed-size messages and wrapping text at the width of a screen come to this.
 */
module Pages {
  type Capacity = n: nat | n > 0 witness 1

  /** Full pages, then what is left; nothing at all is still one page. */
  function Paged<T>(items: seq<T>, capacity: Capacity): (pages: seq<seq<T>>)
    ensures pages != []
  {
    if |items| <= capacity then [items] else [items[..capacity]] + Paged(items[capacity..], capacity)
  }

  function Joined<T>(pages: seq<seq<T>>): seq<T> {
    if pages == [] then [] else pages[0] + Joined(pages[1..])
  }

  /** Concatenating the pages gives the items back, in order. */
  lemma {:induction false} PagesJoin<T>(items: seq<T>, capacity: Capacity)
    ensures Joined(Paged(items, capacity)) == items
  {
    var pages := Paged(items, capacity);
    if |items| <= capacity {
      assert Joined(pages[1..]) == [];
      assert pages[0] == items;
    } else {
      PagesJoin(items[capacity..], capacity);
      assert pages[1..] == Paged(items[capacity..], capacity);
      assert items == items[..capacity] + items[capacity..];
    }
  }

  /** Every page but the last is full, and the last is empty only when there is nothing at all. */
  lemma {:induction false} PagesAreFull<T>(items: seq<T>, capacity: Capacity)
    ensures var pages := Paged(items, capacity);
            && (forall i :: 0 <= i < |pages| - 1 ==> |pages[i]| == capacity)
            && |pages[|pages| - 1]| <= capacity
            && (pages[|pages| - 1] == [] <==> items == [])
  {
    if |items| > capacity {
      PagesAreFull(items[capacity..], capacity);
      var rest := Paged(items[capacity..], capacity);
      assert forall i :: 0 < i <= |rest| ==> Paged(items, capacity)[i] == rest[i - 1];
    }
  }

  /** There are max(1, ceil(n / capacity)) pages. */
  lemma {:induction false} PageCount<T>(items: seq<T>, capacity: Capacity)
    ensures (|Paged(items, capacity)| - 1) * capacity <= |items| <= |Paged(items, capacity)| * capacity
    ensures items != [] ==> (|Paged(items, capacity)| - 1) * capacity < |items|
    ensures items == [] ==> |Paged(items, capacity)| == 1
  {
    if |items| > capacity {
      PageCount(items[capacity..], capacity);
      var n := |Paged(items[capacity..], capacity)|;
      assert (n + 1 - 1) * capacity == (n - 1) * capacity + capacity;
      assert (n + 1) * capacity == n * capacity + capacity;
    }
  }

  /** A full page in front of some left-over items. */
  lemma {:induction false} PagedFront<T>(page: seq<T>, rest: seq<T>, capacity: Capacity)
    requires |page| == capacity && rest != []
    ensures Paged(page + rest, capacity) == [page] + Paged(rest, capacity)
  {
    assert (page + rest)[..capacity] == page && (page + rest)[capacity..] == rest;
  }

  /** One more item goes on the last page, or on a new one when that is full. */
  lemma {:induction false} PagedPush<T>(items: seq<T>, capacity: Capacity, item: T)
    ensures var pages := Paged(items, capacity);
            var last := |pages| - 1;
            Paged(items + [item], capacity)
            == if |pages[last]| >= capacity then pages + [[item]] else pages[last := pages[last] + [item]]
  {
    if |items| < capacity {
      assert Paged(items, capacity) == [items];
    } else if |items| == capacity {
      assert (items + [item])[..capacity] == items && (items + [item])[capacity..] == [item];
    } else {
      PagedPush(items[capacity..], capacity, item);
      assert (items + [item])[..capacity] == items[..capacity];
      assert (items + [item])[capacity..] == items[capacity..] + [item];
    }
  }
}
