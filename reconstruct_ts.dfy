/**
 * The TypeScript reconstruction of a nested layout from its flattened form.
 *
 * The retrieved items are only read. For each of them the first loop builds
 * a fresh client item holding the retrieved `active` and `size` and no
 * `children`, registers it under its id, and either pushes it onto the root
 * list (no `parentId`) or files it, under its id, in the waiting bucket of
 * its parent. The second loop sets each bucket as the `children` of the
 * client item its key names. The root list and the index share the client
 * objects, so the children set by the second loop are visible from the
 * returned roots at every depth.
 */
module ReconstructTs {
  import opened FlatTree

  /** A retrieved layout item: its optional `active`, `size` and
    * `parentId` properties. */
  datatype RetrievedItem = RetrievedItem(active: Option<bool>, size: Option<bool>, parentId: Option<string>)

  /** A client layout item: its optional `active`, `size` and `children`
    * properties. Nothing in the reconstruction writes `active` or `size`
    * after the object literal is built, so they are constant fields. */
  class ClientItem {
    const active: Option<bool>
    const size: Option<bool>
    var children: Option<map<string, ClientItem>>

    /** The object literal `{active: ..., size: ...}`. */
    constructor (active: Option<bool>, size: Option<bool>)
      ensures this.active == active && this.size == size && children == None
    {
      this.active := active;
      this.size := size;
      children := None;
    }
  }

  /** Object keys are unique. */
  predicate DistinctKeys(input: seq<(string, RetrievedItem)>)
  {
    forall i, j :: 0 <= i < j < |input| ==> input[i].0 != input[j].0
  }

  /** The layout with each id's client item taken from `made`. */
  function Joined(input: seq<(string, RetrievedItem)>, made: map<string, ClientItem>): (es: seq<Entry<ClientItem>>)
    requires forall k :: 0 <= k < |input| ==> input[k].0 in made
    ensures |es| == |input|
    ensures forall k :: 0 <= k < |input| ==> es[k] == Entry(input[k].0, input[k].1.parentId, made[input[k].0])
  {
    seq(|input|, k requires 0 <= k < |input| => Entry(input[k].0, input[k].1.parentId, made[input[k].0]))
  }

  /** With distinct ids, joining the layout with its own index gives the
    * layout back. */
  lemma JoinedIndex(input: seq<(string, RetrievedItem)>, es: seq<Entry<ClientItem>>)
    requires DistinctKeys(input)
    requires |es| == |input|
    requires forall k :: 0 <= k < |input| ==> es[k].id == input[k].0 && es[k].parent == input[k].1.parentId
    ensures DistinctIds(es)
    ensures forall k :: 0 <= k < |input| ==> input[k].0 in Index(es, |es|) && Index(es, |es|)[input[k].0] == es[k].item
    ensures es == Joined(input, Index(es, |es|))
  {
    forall k | 0 <= k < |input| ensures input[k].0 in Index(es, |es|) && Index(es, |es|)[input[k].0] == es[k].item {
      IndexAt(es, |es|, k);
    }
  }

  /** `c` is a client item built from `r`: it holds `r`'s `active` and
    * `size` and no `children`. */
  ghost predicate NewCopy(r: RetrievedItem, c: ClientItem)
    reads c
  {
    c.active == r.active && c.size == r.size && c.children == None
  }

  /**
   * The first loop. Builds one fresh client item per retrieved item, with no
   * `children`; registers it in `allItems` under its id; pushes the
   * parentless ones onto `rootItems` in iteration order; files every other
   * one under its id in the bucket of its parent. The bucket object is given
   * by its contents `waiting` and its key order `parentOrder`.
   */
  method CollectItems(input: seq<(string, RetrievedItem)>)
    returns (rootItems: seq<ClientItem>, allItems: map<string, ClientItem>,
             waiting: map<string, map<string, ClientItem>>, parentOrder: seq<string>)
    requires DistinctKeys(input)
    ensures forall k :: 0 <= k < |input| ==> input[k].0 in allItems && NewCopy(input[k].1, allItems[input[k].0])
    ensures forall k :: 0 <= k < |input| ==> input[k].0 in allItems && fresh(allItems[input[k].0])
    ensures var es := Joined(input, allItems);
      && DistinctIds(es) && DistinctItems(es)
      && allItems == Index(es, |es|)
      && rootItems == Roots(es, |es|)
      && parentOrder == ParentOrder(es, |es|)
      && waiting == Buckets(es, |es|)
  {
    ghost var es: seq<Entry<ClientItem>> := [];
    ghost var made: set<ClientItem> := {};
    rootItems, allItems, waiting, parentOrder := [], map[], map[], [];
    var i := 0;
    while i < |input|
      invariant 0 <= i <= |input| && |es| == i
      invariant fresh(made)
      invariant forall k {:trigger es[k]} :: 0 <= k < i ==>
        && es[k].id == input[k].0 && es[k].parent == input[k].1.parentId
        && es[k].item in made && es[k].item.active == input[k].1.active && es[k].item.size == input[k].1.size
        && es[k].item.children == None
      invariant DistinctItems(es)
      invariant allItems == Index(es, i)
      invariant rootItems == Roots(es, i)
      invariant parentOrder == ParentOrder(es, i)
      invariant waiting == Buckets(es, i)
    {
      var itemKeyId := input[i].0;
      var retrievedItemData := input[i].1;
      var parentId := retrievedItemData.parentId;
      var clientItemData := new ClientItem(retrievedItemData.active, retrievedItemData.size);
      ghost var before := es;
      made := made + {clientItemData};
      es := es + [Entry(itemKeyId, parentId, clientItemData)];
      SnocStep(before, Entry(itemKeyId, parentId, clientItemData));

      allItems := allItems[itemKeyId := clientItemData];
      if parentId.None? {
        rootItems := rootItems + [clientItemData];
      } else {
        var p := parentId.value;
        BucketsKeys(before, i);
        if p !in waiting {
          waiting := waiting[p := map[]];
          parentOrder := parentOrder + [p];
        }
        waiting := waiting[p := waiting[p][itemKeyId := clientItemData]];
      }
      i := i + 1;
    }
    JoinedIndex(input, es);
    forall k | 0 <= k < |input|
      ensures input[k].0 in allItems && NewCopy(input[k].1, allItems[input[k].0]) && fresh(allItems[input[k].0])
    {
      assert allItems[input[k].0] == es[k].item;
    }
  }

  /**
   * The second loop. Walks the bucket object in key order and sets each
   * bucket as the `children` of the client item its key names. A key with no
   * client item makes `allItems[parentKeyId]` undefined, and setting a
   * property on it throws a TypeError: the walk stops there, with the buckets
   * before it already set.
   */
  method AttachChildren(allItems: map<string, ClientItem>,
                        waiting: map<string, map<string, ClientItem>>, parentOrder: seq<string>)
    returns (outcome: Result<(), string>)
    requires forall p :: p in parentOrder ==> p in waiting
    requires forall x, y :: x in allItems && y in allItems && x != y ==> allItems[x] != allItems[y]
    modifies allItems.Values
    ensures var k := FirstMissing(parentOrder, allItems.Keys);
      && outcome == (if k == |parentOrder| then Ok(()) else Err(parentOrder[k]))
      && forall x :: x in allItems ==>
           allItems[x].children == if x in parentOrder[..k] then Some(waiting[x]) else old(allItems[x].children)
  {
    var j := 0;
    while j < |parentOrder|
      invariant 0 <= j <= |parentOrder|
      invariant forall t :: 0 <= t < j ==> parentOrder[t] in allItems
      invariant forall x :: x in allItems ==>
        allItems[x].children == if x in parentOrder[..j] then Some(waiting[x]) else old(allItems[x].children)
    {
      var parentKeyId := parentOrder[j];
      if parentKeyId !in allItems {
        FirstMissingAt(parentOrder, allItems.Keys, j);
        return Err(parentKeyId);
      }
      allItems[parentKeyId].children := Some(waiting[parentKeyId]);
      assert parentOrder[..j + 1] == parentOrder[..j] + [parentKeyId];
      j := j + 1;
    }
    FirstMissingAt(parentOrder, allItems.Keys, j);
    assert parentOrder[..j] == parentOrder;
    outcome := Ok(());
  }

  /**
   * `reconstructData`: the first loop, then the second. On success the
   * result is the root list; the client items are fresh copies of `active`
   * and `size`, and exactly the parents carry `children`, each its bucket.
   * When some parent id names no item, the second loop throws for the first
   * such id in bucket order. `made` is the client item built for each id.
   */
  method ReconstructData(flattenedData: seq<(string, RetrievedItem)>)
    returns (outcome: Result<seq<ClientItem>, string>, ghost made: map<string, ClientItem>)
    requires DistinctKeys(flattenedData)
    ensures forall k :: 0 <= k < |flattenedData| ==> flattenedData[k].0 in made && fresh(made[flattenedData[k].0])
    ensures forall k :: 0 <= k < |flattenedData| ==>
      && flattenedData[k].0 in made
      && made[flattenedData[k].0].active == flattenedData[k].1.active
      && made[flattenedData[k].0].size == flattenedData[k].1.size
    ensures var es := Joined(flattenedData, made);
      var order := ParentOrder(es, |es|);
      var k := FirstMissing(order, Ids(es, |es|));
      && DistinctIds(es) && DistinctItems(es)
      && outcome == (if k == |order| then Ok(Roots(es, |es|)) else Err(order[k]))
      && forall t :: 0 <= t < |es| ==>
           es[t].item.children == if es[t].id in order[..k] then Some(Bucket(es, |es|, es[t].id)) else None
  {
    var rootItems, allItems, waiting, parentOrder := CollectItems(flattenedData);
    made := allItems;
    ghost var es := Joined(flattenedData, allItems);
    IndexKeys(es, |es|);
    IndexInjective(es, |es|);
    BucketsKeys(es, |es|);
    forall t | 0 <= t < |es| ensures allItems[es[t].id] == es[t].item {
      IndexAt(es, |es|, t);
    }
    label collected:
    var attached := AttachChildren(allItems, waiting, parentOrder);
    ghost var k := FirstMissing(parentOrder, allItems.Keys);
    forall t | 0 <= t < |es|
      ensures es[t].item.children == if es[t].id in parentOrder[..k] then Some(Bucket(es, |es|, es[t].id)) else None
    {
      var x := es[t].id;
      assert allItems[x].children == if x in parentOrder[..k] then Some(waiting[x]) else old@collected(allItems[x].children);
    }
    forall t | 0 <= t < |flattenedData|
      ensures made[flattenedData[t].0].active == flattenedData[t].1.active
      ensures made[flattenedData[t].0].size == flattenedData[t].1.size
    {
      var x := flattenedData[t].0;
      assert old@collected(NewCopy(flattenedData[t].1, allItems[x]));
    }
    if attached.Err? {
      return Err(attached.error), made;
    }
    outcome := Ok(rootItems);
  }

  /** The client item reached from `o` by looking up the keys of `path` one
    * after the other in the `children` objects, if every lookup succeeds. */
  ghost function Follow(o: ClientItem, path: seq<string>): Option<ClientItem>
    reads *
    decreases |path|
  {
    if path == [] then Some(o)
    else match Follow(o, path[..|path| - 1])
      case None => None
      case Some(q) =>
        var key := path[|path| - 1];
        if q.children.Some? && key in q.children.value then Some(q.children.value[key]) else None
  }

  /**
   * Sharing makes the tree visible from the roots: once every parent holds
   * its bucket as `children`, a chain of parent links that starts at a root
   * is a path of `children` keys from that root's client item, which is in
   * the root list, to the client item at the end of the chain, so
   * grandchildren set on non-root items are reachable too.
   */
  lemma {:induction false} ReachableFromRoots(es: seq<Entry<ClientItem>>, ks: seq<nat>)
    requires DistinctIds(es)
    requires IsChain(es, ks)
    requires forall t {:trigger es[t].item.children} :: 0 <= t < |es| && es[t].id in ParentOrder(es, |es|) ==>
      es[t].item.children == Some(Bucket(es, |es|, es[t].id))
    ensures es[ks[0]].item in Roots(es, |es|)
    ensures Follow(es[ks[0]].item, IdsOf(es, ks[1..])) == Some(es[ks[|ks| - 1]].item)
  {
    RootsHold(es, |es|, ks[0]);
    if |ks| > 1 {
      var m := |ks| - 1;
      var init := ks[..m];
      assert IsChain(es, init);
      ReachableFromRoots(es, init);
      var parent, child := ks[m - 1], ks[m];
      assert ks[1..][..m - 1] == init[1..];
      assert IdsOf(es, ks[1..]) == IdsOf(es, init[1..]) + [es[child].id];
      assert es[child].parent == Some(es[parent].id);
      ChildInBucket(es, child);
      FollowChild(es, parent, child, es[ks[0]].item, IdsOf(es, init[1..]));
    }
  }

  /**
   * The state `ReconstructData` leaves when it succeeds: no bucket key is
   * missing, so every bucket key has been reached and its client item holds its
   * bucket. In that state every chain of parent links from a root is a
   * `children` path from that root, which is in the returned list, to the
   * chain's last client item.
   */
  lemma ReachableAfterRebuild(es: seq<Entry<ClientItem>>, ks: seq<nat>)
    requires DistinctIds(es)
    requires IsChain(es, ks)
    requires var order := ParentOrder(es, |es|);
      var k := FirstMissing(order, Ids(es, |es|));
      && k == |order|
      && forall t {:trigger es[t].item.children} :: 0 <= t < |es| && es[t].id in order[..k] ==>
           es[t].item.children == Some(Bucket(es, |es|, es[t].id))
    ensures es[ks[0]].item in Roots(es, |es|)
    ensures Follow(es[ks[0]].item, IdsOf(es, ks[1..])) == Some(es[ks[|ks| - 1]].item)
  {
    var order := ParentOrder(es, |es|);
    assert order[..|order|] == order;
    ReachableFromRoots(es, ks);
  }

  /** One more key leads from a parent, which holds its bucket, to a child. */
  lemma FollowChild(es: seq<Entry<ClientItem>>, parent: nat, child: nat, root: ClientItem, path: seq<string>)
    requires DistinctIds(es)
    requires parent < |es| && child < |es|
    requires es[child].parent == Some(es[parent].id)
    requires es[parent].item.children == Some(Bucket(es, |es|, es[parent].id))
    requires Follow(root, path) == Some(es[parent].item)
    ensures Follow(root, path + [es[child].id]) == Some(es[child].item)
  {
    ChildInBucket(es, child);
    assert (path + [es[child].id])[..|path|] == path;
  }
}
