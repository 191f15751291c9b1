/** IEnumerableExtensions.IsEmpty: null-safe emptiness of an enumerable. */
module IEnumerableExtensions {
  import opened Wrappers

  /**
   * A non-null enumerable, tagged by the first interface test it passes:
   * ICollection<T>, the non-generic ICollection, or neither (enumerated
   * lazily). `items` is what enumerating it would produce; a collection's
   * Count is taken to be the number of items it enumerates.
   */
  datatype Enumerable<T> =
    | GenericCollection(items: seq<T>)
    | NonGenericCollection(items: seq<T>)
    | Lazy(items: seq<T>)

  /** Enumerable.Any(): whether the first MoveNext() yields an element. */
  function Any<T>(items: seq<T>): (r: bool)
    ensures r <==> exists x :: x in items
  {
    if items == [] then false
    else assert items[0] in items; true
  }

  /** A missing (null) enumerable counts as empty; otherwise one with no items. */
  function IsEmpty<T>(list: Option<Enumerable<T>>): (r: bool)
    ensures r <==> list.None? || list.value.items == []
  {
    match list
    case None => true
    case Some(GenericCollection(items)) => |items| == 0
    case Some(NonGenericCollection(items)) => |items| == 0
    case Some(Lazy(items)) => !Any(items)
  }
}
