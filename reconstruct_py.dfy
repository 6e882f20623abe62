/**
 * The Python reconstruction of a nested layout from its flattened form.
 *
 * Every layout item is a mutable dictionary. The first pass pops the
 * `parentId` key off each item, registers the item under its id, and
 * either appends it to the root list (no parent) or files it, under its
 * own id, in the waiting bucket of its parent. The second pass stores each
 * bucket as the `children` key of its parent item. Items are shared: the
 * objects in the root list, in the id index and in the buckets are the
 * same objects as in the input dictionary, so the children attached by the
 * second pass are visible from the returned roots at every depth.
 */
module ReconstructPy {
  import opened FlatTree

  /** A JSON-like value, for the item keys the reconstruction never reads. */
  datatype Json =
    | JNull
    | JBool(b: bool)
    | JNumber(n: int)
    | JString(s: string)
    | JArray(elems: seq<Json>)
    | JObject(fields: map<string, Json>)

  /** The `parentId` key of an item dictionary: missing, present with the
    * value None, or present with a parent id. */
  datatype ParentField = Absent | Null | Id(value: string)

  /** A layout item dictionary: its `parentId` key, its `children` key
    * (None when the key is missing) and every other key. */
  class LayoutItem {
    var parentId: ParentField
    var children: Option<map<string, LayoutItem>>
    var attributes: map<string, Json>

    constructor (parentId: ParentField, attributes: map<string, Json>)
      ensures this.parentId == parentId && this.attributes == attributes && children == None
    {
      this.parentId := parentId;
      this.attributes := attributes;
      children := None;
    }

    /** `item_data.pop('parentId', None)`: removes the key and yields its
      * value, None when it is missing. */
    method PopParentId() returns (parent: Option<string>)
      modifies this
      ensures parent == PoppedParent(old(parentId))
      ensures parentId == Absent && children == old(children) && attributes == old(attributes)
    {
      parent := PoppedParent(parentId);
      parentId := Absent;
    }
  }

  /** What `item_data.pop('parentId', None)` yields: a missing key and a
    * None value both give None. */
  function PoppedParent(f: ParentField): (r: Option<string>)
    ensures r.None? <==> !f.Id?
    ensures f.Id? ==> r == Some(f.value)
  {
    if f.Id? then Some(f.value) else None
  }

  /** The item objects of the flattened layout. */
  function Items(input: seq<(string, LayoutItem)>): set<LayoutItem>
  {
    set k | 0 <= k < |input| :: input[k].1
  }

  /** Dictionary keys are unique. */
  predicate DistinctKeys(input: seq<(string, LayoutItem)>)
  {
    forall i, j :: 0 <= i < j < |input| ==> input[i].0 != input[j].0
  }

  /** Every id names its own dictionary object, as in a decoded record. */
  predicate DistinctObjects(input: seq<(string, LayoutItem)>)
  {
    forall i, j :: 0 <= i < j < |input| ==> input[i].1 != input[j].1
  }

  /** The layout as the reconstruction sees it: each id with the parent its
    * item names now and the item object itself. */
  function Entries(input: seq<(string, LayoutItem)>): (es: seq<Entry<LayoutItem>>)
    reads Items(input)
    ensures |es| == |input|
    ensures forall k :: 0 <= k < |input| ==>
      es[k] == Entry(input[k].0, PoppedParent(input[k].1.parentId), input[k].1)
  {
    seq(|input|, k requires 0 <= k < |input| reads Items(input) =>
      Entry(input[k].0, PoppedParent(input[k].1.parentId), input[k].1))
  }

  lemma EntriesDistinct(input: seq<(string, LayoutItem)>)
    ensures DistinctKeys(input) ==> DistinctIds(Entries(input))
    ensures DistinctObjects(input) ==> DistinctItems(Entries(input))
  {
  }

  /**
   * The first pass. Pops `parentId` off every item and leaves the other keys
   * alone; registers every item in `allItems` under its id; appends the
   * parentless ones to `rootItems` in iteration order; files every other one
   * under its id in the bucket of its parent. The bucket dictionary is given
   * by its contents `waiting` and its key order `parentOrder`.
   */
  method GroupItems(input: seq<(string, LayoutItem)>)
    returns (rootItems: seq<LayoutItem>, allItems: map<string, LayoutItem>,
             waiting: map<string, map<string, LayoutItem>>, parentOrder: seq<string>)
    requires DistinctObjects(input)
    modifies Items(input)
    ensures forall k :: 0 <= k < |input| ==> input[k].1.parentId == Absent
    ensures forall k :: 0 <= k < |input| ==>
      input[k].1.children == old(input[k].1.children) && input[k].1.attributes == old(input[k].1.attributes)
    ensures var es := old(Entries(input));
      && allItems == Index(es, |es|)
      && rootItems == Roots(es, |es|)
      && parentOrder == ParentOrder(es, |es|)
      && waiting == Buckets(es, |es|)
  {
    ghost var es := Entries(input);
    rootItems, allItems, waiting, parentOrder := [], map[], map[], [];
    var i := 0;
    while i < |input|
      invariant 0 <= i <= |input|
      invariant forall k :: 0 <= k < i ==> es[k].item.parentId == Absent
      invariant forall k :: i <= k < |es| ==> PoppedParent(es[k].item.parentId) == es[k].parent
      invariant forall k :: 0 <= k < |es| ==>
        es[k].item.children == old(es[k].item.children) && es[k].item.attributes == old(es[k].item.attributes)
      invariant allItems == Index(es, i)
      invariant rootItems == Roots(es, i)
      invariant parentOrder == ParentOrder(es, i)
      invariant waiting == Buckets(es, i)
    {
      var itemId, item := input[i].0, input[i].1;
      var parentId := item.PopParentId();

      allItems := allItems[itemId := item];
      if parentId.None? {
        rootItems := rootItems + [item];
      } else {
        var p := parentId.value;
        BucketsKeys(es, i);
        if p !in waiting {
          waiting := waiting[p := map[]];
          parentOrder := parentOrder + [p];
        }
        waiting := waiting[p := waiting[p][itemId := item]];
      }
      i := i + 1;
    }
  }

  /**
   * The second pass. Walks the bucket dictionary in key order and stores each
   * bucket as the `children` key of the item its key names. A key with no
   * item raises KeyError: the walk stops there, with the buckets before it
   * already attached.
   */
  method AttachChildren(allItems: map<string, LayoutItem>,
                        waiting: map<string, map<string, LayoutItem>>, parentOrder: seq<string>)
    returns (outcome: Result<(), string>)
    requires forall p :: p in parentOrder ==> p in waiting
    requires forall x, y :: x in allItems && y in allItems && x != y ==> allItems[x] != allItems[y]
    modifies allItems.Values
    ensures var k := FirstMissing(parentOrder, allItems.Keys);
      && outcome == (if k == |parentOrder| then Ok(()) else Err(parentOrder[k]))
      && forall x :: x in allItems ==>
           allItems[x].children == if x in parentOrder[..k] then Some(waiting[x]) else old(allItems[x].children)
    ensures forall x :: x in allItems ==>
      allItems[x].parentId == old(allItems[x].parentId) && allItems[x].attributes == old(allItems[x].attributes)
  {
    var j := 0;
    while j < |parentOrder|
      invariant 0 <= j <= |parentOrder|
      invariant forall t :: 0 <= t < j ==> parentOrder[t] in allItems
      invariant forall x :: x in allItems ==>
        allItems[x].children == if x in parentOrder[..j] then Some(waiting[x]) else old(allItems[x].children)
      invariant forall x :: x in allItems ==>
        allItems[x].parentId == old(allItems[x].parentId) && allItems[x].attributes == old(allItems[x].attributes)
    {
      var p := parentOrder[j];
      if p !in allItems {
        FirstMissingAt(parentOrder, allItems.Keys, j);
        return Err(p);
      }
      allItems[p].children := Some(waiting[p]);
      assert parentOrder[..j + 1] == parentOrder[..j] + [p];
      j := j + 1;
    }
    FirstMissingAt(parentOrder, allItems.Keys, j);
    assert parentOrder[..j] == parentOrder;
    outcome := Ok(());
  }

  /**
   * The whole reconstruction: the first pass, then the second. On success
   * the result is the root list; every parent's `children` key holds its
   * bucket and every item has lost its `parentId` key. When some parent id
   * names no item, the second pass raises KeyError for the first such id in
   * bucket order.
   */
  method ReconstructTree(input: seq<(string, LayoutItem)>)
    returns (outcome: Result<seq<LayoutItem>, string>)
    requires DistinctKeys(input)
    requires DistinctObjects(input)
    modifies Items(input)
    ensures var es := old(Entries(input));
      var order := ParentOrder(es, |es|);
      var k := FirstMissing(order, Ids(es, |es|));
      && outcome == (if k == |order| then Ok(Roots(es, |es|)) else Err(order[k]))
      && forall t :: 0 <= t < |input| ==>
           input[t].1.children == if input[t].0 in order[..k] then Some(Bucket(es, |es|, input[t].0))
                                  else old(input[t].1.children)
    ensures forall t :: 0 <= t < |input| ==>
      input[t].1.parentId == Absent && input[t].1.attributes == old(input[t].1.attributes)
  {
    ghost var es := Entries(input);
    EntriesDistinct(input);
    var rootItems, allItems, waiting, parentOrder := GroupItems(input);
    IndexKeys(es, |es|);
    IndexInjective(es, |es|);
    BucketsKeys(es, |es|);
    forall t | 0 <= t < |es| ensures es[t].id in allItems && allItems[es[t].id] == input[t].1 {
      IndexAt(es, |es|, t);
    }
    label grouped:
    var attached := AttachChildren(allItems, waiting, parentOrder);
    ghost var k := FirstMissing(parentOrder, allItems.Keys);
    forall t | 0 <= t < |input|
      ensures input[t].1.children ==
        if input[t].0 in parentOrder[..k] then Some(Bucket(es, |es|, input[t].0)) else old(input[t].1.children)
    {
      var x := input[t].0;
      assert allItems[x].children == if x in parentOrder[..k] then Some(waiting[x]) else old@grouped(allItems[x].children);
    }
    if attached.Err? {
      return Err(attached.error);
    }
    outcome := Ok(rootItems);
  }

  /** The item reached from `o` by looking up the keys of `path` one after
    * the other in the `children` dictionaries, if every lookup succeeds. */
  ghost function Follow(o: LayoutItem, path: seq<string>): Option<LayoutItem>
    reads *
    decreases |path|
  {
    if path == [] then Some(o)
    else match Follow(o, path[..|path| - 1])
      case None => None
      case Some(q) =>
        var key := path[|path| - 1];
        if q.children.Some? && key in q.children.value then Some(q.children.value[key]) else None
  }

  /**
   * Sharing makes the tree visible from the roots: once every parent holds
   * its bucket as `children`, a chain of parent links that starts at a root
   * is a path of `children` keys from that root item, which is in the root
   * list, to the very item at the end of the chain, at any depth.
   */
  lemma {:induction false} ReachableFromRoots(es: seq<Entry<LayoutItem>>, ks: seq<nat>)
    requires DistinctIds(es)
    requires IsChain(es, ks)
    requires forall t {:trigger es[t].item.children} :: 0 <= t < |es| && es[t].id in ParentOrder(es, |es|) ==>
      es[t].item.children == Some(Bucket(es, |es|, es[t].id))
    ensures es[ks[0]].item in Roots(es, |es|)
    ensures Follow(es[ks[0]].item, IdsOf(es, ks[1..])) == Some(es[ks[|ks| - 1]].item)
  {
    RootsHold(es, |es|, ks[0]);
    if |ks| > 1 {
      var m := |ks| - 1;
      var init := ks[..m];
      assert IsChain(es, init);
      ReachableFromRoots(es, init);
      var parent, child := ks[m - 1], ks[m];
      assert ks[1..][..m - 1] == init[1..];
      assert IdsOf(es, ks[1..]) == IdsOf(es, init[1..]) + [es[child].id];
      assert es[child].parent == Some(es[parent].id);
      ChildInBucket(es, child);
      FollowChild(es, parent, child, es[ks[0]].item, IdsOf(es, init[1..]));
    }
  }

  /**
   * The state `ReconstructTree` leaves when it succeeds: no bucket key is
   * missing, so every bucket key has been reached and its item holds its
   * bucket. In that state every chain of parent links from a root is a
   * `children` path from that root, which is in the returned list, to the
   * chain's last item.
   */
  lemma ReachableAfterRebuild(es: seq<Entry<LayoutItem>>, ks: seq<nat>)
    requires DistinctIds(es)
    requires IsChain(es, ks)
    requires var order := ParentOrder(es, |es|);
      var k := FirstMissing(order, Ids(es, |es|));
      && k == |order|
      && forall t {:trigger es[t].item.children} :: 0 <= t < |es| && es[t].id in order[..k] ==>
           es[t].item.children == Some(Bucket(es, |es|, es[t].id))
    ensures es[ks[0]].item in Roots(es, |es|)
    ensures Follow(es[ks[0]].item, IdsOf(es, ks[1..])) == Some(es[ks[|ks| - 1]].item)
  {
    var order := ParentOrder(es, |es|);
    assert order[..|order|] == order;
    ReachableFromRoots(es, ks);
  }

  /** One more key leads from a parent, which holds its bucket, to a child. */
  lemma FollowChild(es: seq<Entry<LayoutItem>>, parent: nat, child: nat, root: LayoutItem, path: seq<string>)
    requires DistinctIds(es)
    requires parent < |es| && child < |es|
    requires es[child].parent == Some(es[parent].id)
    requires es[parent].item.children == Some(Bucket(es, |es|, es[parent].id))
    requires Follow(root, path) == Some(es[parent].item)
    ensures Follow(root, path + [es[child].id]) == Some(es[child].item)
  {
    ChildInBucket(es, child);
    assert (path + [es[child].id])[..|path|] == path;
  }
}
