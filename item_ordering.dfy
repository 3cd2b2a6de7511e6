/**
 * `ItemsOrder::order_items`: the documentation items of a module sorted
 * stably, by name in alphabetical mode and by directive index otherwise.
 */
module ItemOrdering {
  import opened Text
  import opened Sorting
  import opened Export
  import opened DocItems

  /** The order `order_items` produces. */
  function OrderedItems(order: ItemsOrder, items: seq<DocItem>): (r: seq<DocItem>)
    ensures |r| == |items|
  {
    match order
    case Alphabetical => SortBy(items, Name, LexLe)
    case ByIndex => SortBy(items, Index, NatLe)
  }

  /** `order_items` takes the vector, sorts it in place and hands it back. */
  method OrderItems(order: ItemsOrder, items: seq<DocItem>) returns (r: seq<DocItem>)
    ensures r == OrderedItems(order, items)
  {
    var a := new DocItem[|items|](i requires 0 <= i < |items| => items[i]);
    assert a[..] == items;
    match order {
      case Alphabetical => SortInPlace(a, Name, LexLe);
      case ByIndex => SortInPlace(a, Index, NatLe);
    }
    r := a[..];
  }

  /**
   * The ordered items are a permutation of the input, sorted ascending by
   * name (alphabetical) or index (by index), and items with the same key
   * keep their input order.
   */
  lemma OrderedItemsSpec(order: ItemsOrder, items: seq<DocItem>)
    ensures var r := OrderedItems(order, items);
      && multiset(r) == multiset(items)
      && (order == Alphabetical ==>
            && (forall i, j :: 0 <= i < j < |r| ==> LexLe(Name(r[i]), Name(r[j])))
            && (forall n :: WithKey(r, Name, n) == WithKey(items, Name, n)))
      && (order == ByIndex ==>
            && (forall i, j :: 0 <= i < j < |r| ==> Index(r[i]) <= Index(r[j]))
            && (forall k :: WithKey(r, Index, k) == WithKey(items, Index, k)))
  {
    match order {
      case Alphabetical =>
        LexLeTotalPreorder();
        SortByPermutation(items, Name, LexLe);
        SortBySorted(items, Name, LexLe);
        forall n ensures WithKey(SortBy(items, Name, LexLe), Name, n) == WithKey(items, Name, n) {
          SortByStable(items, Name, LexLe, n);
        }
      case ByIndex =>
        NatLeTotalPreorder();
        SortByPermutation(items, Index, NatLe);
        SortBySorted(items, Index, NatLe);
        forall k ensures WithKey(SortBy(items, Index, NatLe), Index, k) == WithKey(items, Index, k) {
          SortByStable(items, Index, NatLe, k);
        }
    }
  }
}
