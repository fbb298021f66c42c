/** src/utils/ordered_array.c: an array of addresses kept in the order of a caller-supplied comparison. */
module OrderedArrays {

  /** The place an insertion chooses: the first entry that is not less than the item. */
  ghost predicate InsertionPoint(s: seq<int>, less: (int, int) -> bool, item: int, p: nat) {
    && p <= |s|
    && (forall q :: 0 <= q < p ==> less(s[q], item))
    && (p < |s| ==> !less(s[p], item))
  }

  class OrderedArray {
    const items: array<int>
    var size: nat

    ghost predicate Valid()
      reads this
    {
      size <= items.Length
    }

    ghost function Contents(): seq<int>
      requires Valid()
      reads this, items
    {
      items[..size]
    }

    constructor (capacity: nat)
      ensures Valid() && fresh(items) && items.Length == capacity && Contents() == []
    {
      items := new int[capacity](_ => 0);
      size := 0;
    }

    method Lookup(i: nat) returns (x: int)
      requires Valid() && i < size
      ensures x == Contents()[i]
    {
      x := items[i];
    }

    method Insert(item: int, less: (int, int) -> bool) returns (p: nat)
      requires Valid() && size < items.Length
      modifies this, items
      ensures Valid()
      ensures InsertionPoint(old(Contents()), less, item, p)
      ensures Contents() == old(Contents())[..p] + [item] + old(Contents())[p..]
    {
      var i := 0;
      while i < size && less(items[i], item)
        invariant 0 <= i <= size
        invariant forall q :: 0 <= q < i ==> less(items[q], item)
      {
        i := i + 1;
      }
      p := i;
      ghost var was := Contents();
      if i == size {
        items[size] := item;
        size := size + 1;
      } else {
        var tmp := items[i];
        items[i] := item;
        while i < size
          invariant p <= i <= size == |was| < items.Length
          invariant forall k :: 0 <= k < p ==> items[k] == was[k]
          invariant items[p] == item
          invariant forall k :: p < k <= i ==> items[k] == was[k - 1]
          invariant i < size ==> tmp == was[i]
          invariant forall k :: i < k < size ==> items[k] == was[k]
        {
          i := i + 1;
          var tmp2 := items[i];
          items[i] := tmp;
          tmp := tmp2;
        }
        size := size + 1;
      }
    }

    /** The loop copies the slot past the end as well, as the source does; `size < items.Length` makes it exist. */
    method Remove(pos: nat)
      requires Valid() && pos < size < items.Length
      modifies this, items
      ensures Valid()
      ensures Contents() == old(Contents())[..pos] + old(Contents())[pos + 1..]
    {
      ghost var was := items[..];
      var i := pos;
      while i < size
        invariant pos <= i <= size == old(size)
        invariant forall k :: 0 <= k < pos ==> items[k] == was[k]
        invariant forall k :: pos <= k < i ==> items[k] == was[k + 1]
        invariant forall k :: i <= k < items.Length ==> items[k] == was[k]
      {
        items[i] := items[i + 1];
        i := i + 1;
      }
      size := size - 1;
    }
  }
}
