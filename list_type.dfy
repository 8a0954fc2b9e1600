/**
 * `List<T, N>`: a fixed array of `N` items of which the first `count` are in
 * use, and its `TypeAdapter`, which sends `{"type": "list", "count",
 * "capacity", "items": [...]}` and reads the first `N` elements of `items`.
 *
 * How one item is written and read depends on `T`: text types (`c_str()` /
 * `set(const char*)`) go through their text, other types are converted
 * directly.  The model takes the two item conversions as parameters and
 * instantiates them for `StringBuffer` items.
 */
module FixedList {
  import opened Wrappers
  import opened JsonDoc
  import opened Primitives

  /** The `items` array of a list's JSON, in order. */
  function ItemsJson<T>(es: seq<T>, writeItem: T -> Json): (r: seq<Json>)
    ensures |r| == |es|
    ensures forall k :: 0 <= k < |es| ==> r[k] == writeItem(es[k])
  {
    seq(|es|, k requires 0 <= k < |es| => writeItem(es[k]))
  }

  /** The object `write_ws` (and `write_prefs`) fills. */
  function ListJson(count: nat, capacity: nat, items: seq<Json>): Json {
    JObj(map[
      "type" := JStr("list"),
      "count" := JNum(count),
      "capacity" := JNum(capacity),
      "items" := JArr(items)])
  }

  /** `in["items"].as<JsonArray>()`: the elements of an array, nothing for anything else. */
  function ArrayItems(j: Json): seq<Json> {
    if j.JArr? then j.items else []
  }

  /** The items `read` keeps: the first `n` elements of `items`, each converted by `readItem`. */
  function ReadItems<T>(input: Json, readItem: Json -> T, n: nat): (r: seq<T>)
    ensures var vs := ArrayItems(Get(input, "items"));
            && |r| == (if |vs| <= n then |vs| else n)
            && forall k :: 0 <= k < |r| ==> r[k] == readItem(vs[k])
  {
    var vs := ArrayItems(Get(input, "items"));
    var m := if |vs| <= n then |vs| else n;
    seq(m, k requires 0 <= k < m => readItem(vs[k]))
  }

  /**
   * A list's JSON reads back as the list, when its items survive their own
   * conversion and fit the capacity.
   */
  lemma {:induction false} ReadItemsOfListJson<T>(es: seq<T>, writeItem: T -> Json, readItem: Json -> T,
                                                  count: nat, n: nat)
    requires |es| <= n
    requires forall k :: 0 <= k < |es| ==> readItem(writeItem(es[k])) == es[k]
    ensures ReadItems(ListJson(count, n, ItemsJson(es, writeItem)), readItem, n) == es
  {
    var j := ListJson(count, n, ItemsJson(es, writeItem));
    assert ArrayItems(Get(j, "items")) == ItemsJson(es, writeItem);
  }

  class List<T(0)> {
    const items: array<T>
    var count: nat

    predicate Valid()
      reads this
    {
      count <= items.Length
    }

    /** The items in use, in insertion order: what `begin()`..`end()` visits. */
    function Elements(): seq<T>
      requires Valid()
      reads this, items
    {
      items[..count]
    }

    /** `List<T, N>()`: empty. */
    constructor (n: nat)
      ensures Valid() && items.Length == n && Elements() == [] && fresh(items)
    {
      items := new T[n];
      count := 0;
    }

    /** `size()`. */
    function Size(): (r: nat)
      requires Valid()
      reads this, items
      ensures r == |Elements()|
    {
      count
    }

    /** `capacity()`: always `N`. */
    function Capacity(): (r: nat)
      reads this
      ensures r == items.Length
    {
      items.Length
    }

    /** `isFull()`. */
    predicate IsFull()
      requires Valid()
      reads this, items
      ensures IsFull() <==> |Elements()| == Capacity()
    {
      count >= items.Length
    }

    /** `end() - begin()`: iteration stops after the last item in use. */
    function End(): (e: nat)
      requires Valid()
      reads this, items
      ensures e <= Capacity() && items[..e] == Elements()
    {
      count
    }

    /** `clear()`: no items, and (for a list with room) not full. */
    method Clear()
      requires Valid()
      modifies this
      ensures Valid() && Elements() == []
      ensures IsFull() <==> Capacity() == 0
    {
      count := 0;
    }

    /** `add(item)`: false and no change on a full list, otherwise the item is appended. */
    method Add(item: T) returns (ok: bool)
      requires Valid()
      modifies this, items
      ensures Valid()
      ensures ok <==> old(count) < items.Length
      ensures ok ==> Elements() == old(Elements()) + [item]
      ensures !ok ==> count == old(count) && items[..] == old(items[..])
    {
      if count >= items.Length {
        return false;
      }
      items[count] := item;
      count := count + 1;
      ok := true;
    }

    /** `write_ws` (also `write_prefs`): the items in insertion order. */
    method WriteWs(writeItem: T -> Json) returns (j: Json)
      requires Valid()
      ensures j == ListJson(count, items.Length, ItemsJson(Elements(), writeItem))
    {
      var arr: seq<Json> := [];
      var i := 0;
      while i < count
        invariant i <= count && |arr| == i
        invariant forall k :: 0 <= k < i ==> arr[k] == writeItem(items[k])
      {
        arr := arr + [writeItem(items[i])];
        i := i + 1;
      }
      assert arr == ItemsJson(Elements(), writeItem);
      j := ListJson(count, items.Length, arr);
    }

    /**
     * `TypeAdapter<List>::read`: without an `items` key, false and no
     * change; otherwise the list is cleared and refilled with the first `N`
     * elements (none when `items` is not an array), and the result is true.
     */
    method Read(input: Json, readItem: Json -> T) returns (ok: bool)
      requires Valid()
      modifies this, items
      ensures Valid()
      ensures !Has(input, "items") ==> !ok && count == old(count) && items[..] == old(items[..])
      ensures Has(input, "items") ==> ok && Elements() == ReadItems(input, readItem, items.Length)
    {
      if !Has(input, "items") {
        return false;
      }
      var arr := ArrayItems(Get(input, "items"));
      ghost var want := ReadItems(input, readItem, items.Length);
      Clear();
      var i := 0;
      while i < |arr|
        invariant Valid() && i <= |arr| && count <= i
        invariant count == (if i <= items.Length then i else items.Length)
        invariant Elements() == want[..count]
        decreases |arr| - i
      {
        if IsFull() {
          break;
        }
        var added := Add(readItem(arr[i]));
        i := i + 1;
      }
      ok := true;
    }
  }

  // ---------------------------------------------------------------------------
  // Lists of StringBuffer<M>
  // ---------------------------------------------------------------------------

  /** `writeListItem` for a text item: its text. */
  function TextItemJson(b: StringBuffer): Json {
    JStr(b.text)
  }

  /** `readListItem` for a text item: a default item `set` from `as<const char*>()`; a non-text element reads as "". */
  function TextItemOf(size: nat, v: Json): (b: StringBuffer)
    requires 0 < size
    ensures b.Valid() && b.size == size
    ensures !v.JStr? ==> b.text == ""
  {
    SetText(EmptyBuffer(size), AsCStr(v))
  }

  /** A list of text items of one capacity round-trips through `write_ws` and `read`. */
  lemma TextListRoundTrip(es: seq<StringBuffer>, size: nat, count: nat, n: nat)
    requires 0 < size && |es| <= n
    requires forall k :: 0 <= k < |es| ==> es[k].Valid() && es[k].size == size
    ensures ReadItems(ListJson(count, n, ItemsJson(es, TextItemJson)), v => TextItemOf(size, v), n) == es
  {
    forall k | 0 <= k < |es|
      ensures TextItemOf(size, TextItemJson(es[k])) == es[k]
    {
      SetTextKeeps(EmptyBuffer(size), es[k].text);
    }
    ReadItemsOfListJson(es, TextItemJson, v => TextItemOf(size, v), count, n);
  }
}
