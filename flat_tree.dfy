/**
 * The value-level description of a flattened layout tree, shared by the
 * Python and the TypeScript reconstruction.
 *
 * A flattened layout is a dictionary from item id to item, iterated in
 * insertion order. What the reconstruction needs from each item is its id,
 * the id of its parent, if it has one, and the item object that ends up in
 * the tree: an `Entry`. The functions below say what the first pass of the
 * reconstruction has built after meeting the first `n` entries: the id
 * index, the root items (in iteration order), the parent ids (in the order
 * their first child is met) and, per parent, the bucket of waiting
 * children. With `n == |es|` they describe the whole layout.
 */
module FlatTree {

  datatype Option<+T> = None | Some(value: T)

  datatype Result<+T, +E> = Ok(value: T) | Err(error: E)

  /** One item of the flattened layout: its id, its parent's id if any, and
    * the item object the tree is built from. */
  datatype Entry<+T> = Entry(id: string, parent: Option<string>, item: T)

  /** Dictionary keys are unique. */
  predicate DistinctIds<T>(es: seq<Entry<T>>)
  {
    forall i, j :: 0 <= i < j < |es| ==> es[i].id != es[j].id
  }

  /** Distinct ids carry distinct item objects. */
  ghost predicate DistinctItems<T>(es: seq<Entry<T>>)
  {
    forall i, j :: 0 <= i < j < |es| ==> es[i].item != es[j].item
  }

  // ---------------------------------------------------------------------
  // What the first pass builds
  // ---------------------------------------------------------------------

  /** The ids of the first `n` entries. */
  function Ids<T>(es: seq<Entry<T>>, n: nat): set<string>
    requires n <= |es|
  {
    set k | 0 <= k < n :: es[k].id
  }

  /** The id index after the first `n` entries: every id with its item. */
  function Index<T>(es: seq<Entry<T>>, n: nat): map<string, T>
    requires n <= |es|
  {
    if n == 0 then map[] else Index(es, n - 1)[es[n - 1].id := es[n - 1].item]
  }

  /** The ids of the parentless entries among the first `n`, in iteration
    * order. */
  function RootIds<T>(es: seq<Entry<T>>, n: nat): seq<string>
    requires n <= |es|
  {
    if n == 0 then []
    else RootIds(es, n - 1) + if es[n - 1].parent.None? then [es[n - 1].id] else []
  }

  /** The items of the parentless entries among the first `n`, in iteration
    * order: the root list. */
  function Roots<T>(es: seq<Entry<T>>, n: nat): seq<T>
    requires n <= |es|
  {
    if n == 0 then []
    else Roots(es, n - 1) + if es[n - 1].parent.None? then [es[n - 1].item] else []
  }

  /** The ids of the entries among the first `n` whose parent is `p`. */
  function ChildIds<T>(es: seq<Entry<T>>, n: nat, p: string): set<string>
    requires n <= |es|
  {
    set k | 0 <= k < n && es[k].parent == Some(p) :: es[k].id
  }

  /** The parent ids of the first `n` entries, in the order in which each
    * one's first child is met. */
  function ParentOrder<T>(es: seq<Entry<T>>, n: nat): seq<string>
    requires n <= |es|
  {
    if n == 0 then []
    else
      var order := ParentOrder(es, n - 1);
      var parent := es[n - 1].parent;
      if parent.Some? && parent.value !in order then order + [parent.value] else order
  }

  /** The waiting buckets after the first `n` entries: an entry with parent
    * `q` is filed, under its own id, in the bucket of `q`, which is created
    * empty when its first child is met. */
  function Buckets<T>(es: seq<Entry<T>>, n: nat): map<string, map<string, T>>
    requires n <= |es|
  {
    if n == 0 then map[]
    else
      var e := es[n - 1];
      var b := Buckets(es, n - 1);
      if e.parent.None? then b
      else
        var q := e.parent.value;
        var b' := if q in b then b else b[q := map[]];
        b'[q := b'[q][e.id := e.item]]
  }

  /** The bucket of `p` after the first `n` entries, empty when `p` has no
    * child among them. */
  function Bucket<T>(es: seq<Entry<T>>, n: nat, p: string): map<string, T>
    requires n <= |es|
  {
    if p in Buckets(es, n) then Buckets(es, n)[p] else map[]
  }

  /** `ks` lists entries from a root down to a descendant: the first has no
    * parent and each next one names the one before as its parent. */
  predicate IsChain<T>(es: seq<Entry<T>>, ks: seq<nat>)
  {
    && |ks| > 0
    && (forall t :: 0 <= t < |ks| ==> ks[t] < |es|)
    && es[ks[0]].parent.None?
    && Linked(es, ks)
  }

  /** Each entry of `ks` after the first names the one before as its
    * parent. */
  predicate Linked<T>(es: seq<Entry<T>>, ks: seq<nat>)
    requires forall t :: 0 <= t < |ks| ==> ks[t] < |es|
    decreases |ks|
  {
    |ks| <= 1 || (Linked(es, ks[..|ks| - 1]) && es[ks[|ks| - 1]].parent == Some(es[ks[|ks| - 2]].id))
  }

  /** The ids of the entries `ks`, in order. */
  function IdsOf<T>(es: seq<Entry<T>>, ks: seq<nat>): (r: seq<string>)
    requires forall t :: 0 <= t < |ks| ==> ks[t] < |es|
    ensures |r| == |ks|
  {
    if ks == [] then [] else IdsOf(es, ks[..|ks| - 1]) + [es[ks[|ks| - 1]].id]
  }

  /** The number of children among the first `n` entries of all the
    * parents in `ps`. */
  function BucketTotal<T>(es: seq<Entry<T>>, n: nat, ps: seq<string>): nat
    requires n <= |es|
  {
    if ps == [] then 0 else BucketTotal(es, n, ps[..|ps| - 1]) + |ChildIds(es, n, ps[|ps| - 1])|
  }

  /** The position of the first id of `order` that `known` lacks, or
    * |order| when it lacks none. */
  function FirstMissing(order: seq<string>, known: set<string>): (k: nat)
    ensures k <= |order|
    ensures forall j :: 0 <= j < k ==> order[j] in known
    ensures k < |order| ==> order[k] !in known
  {
    if order == [] then 0
    else if order[0] !in known then 0
    else 1 + FirstMissing(order[1..], known)
  }

  /** `FirstMissing` is the one position that meets its contract. */
  lemma FirstMissingAt(order: seq<string>, known: set<string>, k: nat)
    requires k <= |order|
    requires forall j :: 0 <= j < k ==> order[j] in known
    requires k < |order| ==> order[k] !in known
    ensures FirstMissing(order, known) == k
  {
  }

  // ---------------------------------------------------------------------
  // One step of the first pass
  // ---------------------------------------------------------------------

  lemma ChildIdsStep<T>(es: seq<Entry<T>>, n: nat, p: string)
    requires n < |es|
    ensures ChildIds(es, n + 1, p) ==
      ChildIds(es, n, p) + if es[n].parent == Some(p) then {es[n].id} else {}
  {
    assert ChildIds(es, n + 1, p) == ChildIds(es, n, p) + set k | k == n && es[k].parent == Some(p) :: es[k].id;
  }

  lemma IdsStep<T>(es: seq<Entry<T>>, n: nat)
    requires n < |es|
    ensures Ids(es, n + 1) == Ids(es, n) + {es[n].id}
  {
    assert Ids(es, n + 1) == Ids(es, n) + set k | k == n :: es[k].id;
  }

  /** With distinct ids, entry n's id is not among the ids before it. */
  lemma IdFresh<T>(es: seq<Entry<T>>, n: nat)
    requires DistinctIds(es)
    requires n < |es|
    ensures es[n].id !in Ids(es, n)
  {
  }

  lemma ChildIdsInIds<T>(es: seq<Entry<T>>, n: nat, p: string)
    requires n <= |es|
    ensures ChildIds(es, n, p) <= Ids(es, n)
  {
  }

  /** What the first pass builds from the first `n` entries depends on
    * those entries only. */
  lemma {:induction false} PrefixStable<T>(es: seq<Entry<T>>, fs: seq<Entry<T>>, n: nat)
    requires n <= |es| && n <= |fs|
    requires es[..n] == fs[..n]
    ensures Index(es, n) == Index(fs, n)
    ensures Roots(es, n) == Roots(fs, n)
    ensures ParentOrder(es, n) == ParentOrder(fs, n)
    ensures Buckets(es, n) == Buckets(fs, n)
  {
    if n > 0 {
      assert es[..n - 1] == es[..n][..n - 1];
      assert fs[..n - 1] == fs[..n][..n - 1];
      assert es[n - 1] == es[..n][n - 1];
      assert fs[n - 1] == fs[..n][n - 1];
      PrefixStable(es, fs, n - 1);
    }
  }

  /** Appending entry `e` to the layout is one more step of the first
    * pass. */
  lemma SnocStep<T>(es: seq<Entry<T>>, e: Entry<T>)
    ensures Index(es + [e], |es| + 1) == Index(es, |es|)[e.id := e.item]
    ensures Roots(es + [e], |es| + 1) == Roots(es, |es|) + if e.parent.None? then [e.item] else []
    ensures ParentOrder(es + [e], |es| + 1) ==
      if e.parent.Some? && e.parent.value !in ParentOrder(es, |es|) then ParentOrder(es, |es|) + [e.parent.value]
      else ParentOrder(es, |es|)
    ensures Buckets(es + [e], |es| + 1) ==
      if e.parent.None? then Buckets(es, |es|)
      else
        var q := e.parent.value;
        var b := Buckets(es, |es|);
        var b' := if q in b then b else b[q := map[]];
        b'[q := b'[q][e.id := e.item]]
  {
    PrefixStable(es, es + [e], |es|);
  }

  // ---------------------------------------------------------------------
  // The id index
  // ---------------------------------------------------------------------

  /** The index has exactly the ids met so far as its keys. */
  lemma {:induction false} IndexKeys<T>(es: seq<Entry<T>>, n: nat)
    requires n <= |es|
    ensures Index(es, n).Keys == Ids(es, n)
  {
    if n > 0 {
      IndexKeys(es, n - 1);
      IdsStep(es, n - 1);
    }
  }

  /** With distinct ids, every id met so far is mapped to its own item. */
  lemma {:induction false} IndexAt<T>(es: seq<Entry<T>>, n: nat, k: nat)
    requires DistinctIds(es)
    requires k < n <= |es|
    ensures es[k].id in Index(es, n) && Index(es, n)[es[k].id] == es[k].item
  {
    if k < n - 1 {
      IndexAt(es, n - 1, k);
    }
  }

  /** With distinct items, the index never gives two ids the same item. */
  lemma IndexInjective<T>(es: seq<Entry<T>>, n: nat)
    requires DistinctIds(es) && DistinctItems(es)
    requires n <= |es|
    ensures forall x, y :: x in Index(es, n) && y in Index(es, n) && x != y ==> Index(es, n)[x] != Index(es, n)[y]
  {
    IndexKeys(es, n);
    forall x, y | x in Index(es, n) && y in Index(es, n) && x != y
      ensures Index(es, n)[x] != Index(es, n)[y]
    {
      var i :| 0 <= i < n && es[i].id == x;
      var j :| 0 <= j < n && es[j].id == y;
      IndexAt(es, n, i);
      IndexAt(es, n, j);
    }
  }

  // ---------------------------------------------------------------------
  // The root list
  // ---------------------------------------------------------------------

  /** The root list holds the items the index gives to the root ids, in the
    * same order. */
  lemma {:induction false} RootsIndexed<T>(es: seq<Entry<T>>, n: nat)
    requires DistinctIds(es)
    requires n <= |es|
    ensures |Roots(es, n)| == |RootIds(es, n)|
    ensures forall j :: 0 <= j < |RootIds(es, n)| ==>
      RootIds(es, n)[j] in Index(es, n) && Index(es, n)[RootIds(es, n)[j]] == Roots(es, n)[j]
  {
    if n > 0 {
      RootsIndexed(es, n - 1);
      IdFresh(es, n - 1);
      IndexKeys(es, n - 1);
    }
  }

  /** Every parentless item is in the root list. */
  lemma {:induction false} RootsHold<T>(es: seq<Entry<T>>, n: nat, k: nat)
    requires k < n <= |es|
    requires es[k].parent.None?
    ensures es[k].item in Roots(es, n)
  {
    if k < n - 1 {
      RootsHold(es, n - 1, k);
    }
  }

  /** An id is a root id exactly when its entry has no parent. */
  lemma {:induction false} RootIdsMembership<T>(es: seq<Entry<T>>, n: nat, k: nat)
    requires DistinctIds(es)
    requires k < n <= |es|
    ensures es[k].id in RootIds(es, n) <==> es[k].parent.None?
  {
    if k < n - 1 {
      RootIdsMembership(es, n - 1, k);
      RootIdsInIds(es, n - 1);
    } else {
      RootIdsInIds(es, k);
      IdFresh(es, k);
    }
  }

  lemma {:induction false} RootIdsInIds<T>(es: seq<Entry<T>>, n: nat)
    requires n <= |es|
    ensures forall x :: x in RootIds(es, n) ==> x in Ids(es, n)
  {
    if n > 0 {
      RootIdsInIds(es, n - 1);
      IdsStep(es, n - 1);
    }
  }

  /** Roots keep iteration order: the roots among the first k items are
    * the first roots of the whole layout. */
  lemma {:induction false} RootIdsPrefix<T>(es: seq<Entry<T>>, k: nat, n: nat)
    requires k <= n <= |es|
    ensures RootIds(es, k) <= RootIds(es, n)
  {
    if k < n {
      RootIdsPrefix(es, k, n - 1);
    }
  }

  /** No id is a root twice. */
  lemma {:induction false} RootIdsDistinct<T>(es: seq<Entry<T>>, n: nat)
    requires DistinctIds(es)
    requires n <= |es|
    ensures forall a, b :: 0 <= a < b < |RootIds(es, n)| ==> RootIds(es, n)[a] != RootIds(es, n)[b]
  {
    if n > 0 {
      RootIdsDistinct(es, n - 1);
      RootIdsInIds(es, n - 1);
      IdFresh(es, n - 1);
    }
  }

  // ---------------------------------------------------------------------
  // The buckets
  // ---------------------------------------------------------------------

  lemma {:induction false} ParentOrderMembership<T>(es: seq<Entry<T>>, n: nat, p: string)
    requires n <= |es|
    ensures p in ParentOrder(es, n) <==> ChildIds(es, n, p) != {}
  {
    if n > 0 {
      ParentOrderMembership(es, n - 1, p);
      ChildIdsStep(es, n - 1, p);
    }
  }

  /** Each parent gets one bucket. */
  lemma {:induction false} ParentOrderDistinct<T>(es: seq<Entry<T>>, n: nat)
    requires n <= |es|
    ensures forall a, b :: 0 <= a < b < |ParentOrder(es, n)| ==> ParentOrder(es, n)[a] != ParentOrder(es, n)[b]
  {
    if n > 0 {
      ParentOrderDistinct(es, n - 1);
    }
  }

  /** The bucket dictionary has a key for exactly the parents met so far. */
  lemma {:induction false} BucketsKeys<T>(es: seq<Entry<T>>, n: nat)
    requires n <= |es|
    ensures forall p :: p in Buckets(es, n) <==> p in ParentOrder(es, n)
  {
    if n > 0 {
      BucketsKeys(es, n - 1);
    }
  }

  /** An item is waiting in the bucket of `p` exactly when its parent is
    * `p`, so it waits in at most one bucket. */
  lemma ChildIdsMembership<T>(es: seq<Entry<T>>, n: nat, k: nat, p: string)
    requires DistinctIds(es)
    requires k < n <= |es|
    ensures es[k].id in ChildIds(es, n, p) <==> es[k].parent == Some(p)
  {
  }

  /** A bucket exists exactly for a parent with at least one child. */
  lemma BucketsExist<T>(es: seq<Entry<T>>, n: nat, p: string)
    requires n <= |es|
    ensures p in Buckets(es, n) <==> exists k :: 0 <= k < n && es[k].parent == Some(p)
  {
    BucketsKeys(es, n);
    ParentOrderMembership(es, n, p);
    if exists k :: 0 <= k < n && es[k].parent == Some(p) {
      var k :| 0 <= k < n && es[k].parent == Some(p);
      assert es[k].id in ChildIds(es, n, p);
    }
  }

  /** The bucket of `p` is keyed by exactly the children of `p`. */
  lemma {:induction false} BucketKeys<T>(es: seq<Entry<T>>, n: nat, p: string)
    requires n <= |es|
    requires p in Buckets(es, n)
    ensures Buckets(es, n)[p].Keys == ChildIds(es, n, p)
  {
    var m := n - 1;
    ChildIdsStep(es, m, p);
    if p in Buckets(es, m) {
      BucketKeys(es, m, p);
    } else if es[m].parent == Some(p) {
      BucketsKeys(es, m);
      ParentOrderMembership(es, m, p);
    }
  }

  /** With distinct ids, each child waits in its parent's bucket as its
    * own item. */
  lemma {:induction false} BucketItems<T>(es: seq<Entry<T>>, n: nat, k: nat)
    requires DistinctIds(es)
    requires k < n <= |es|
    requires es[k].parent.Some?
    ensures es[k].parent.value in Buckets(es, n)
    ensures es[k].id in Buckets(es, n)[es[k].parent.value]
    ensures Buckets(es, n)[es[k].parent.value][es[k].id] == es[k].item
  {
    var m := n - 1;
    if k < m {
      BucketItems(es, m, k);
      IdFresh(es, m);
    }
  }

  /** A child's parent is among the bucket keys, and the child waits in
    * that bucket as its own item. */
  lemma ChildInBucket<T>(es: seq<Entry<T>>, c: nat)
    requires DistinctIds(es)
    requires c < |es|
    requires es[c].parent.Some?
    ensures es[c].parent.value in ParentOrder(es, |es|)
    ensures es[c].id in Bucket(es, |es|, es[c].parent.value)
    ensures Bucket(es, |es|, es[c].parent.value)[es[c].id] == es[c].item
  {
    var p := es[c].parent.value;
    assert es[c].id in ChildIds(es, |es|, p);
    ParentOrderMembership(es, |es|, p);
    BucketItems(es, |es|, c);
  }

  // ---------------------------------------------------------------------
  // Every item is placed exactly once
  // ---------------------------------------------------------------------

  /** Every item is a root or waits in exactly one bucket, never both, and
    * that bucket's parent has been met. */
  lemma Partition<T>(es: seq<Entry<T>>, n: nat, k: nat)
    requires DistinctIds(es)
    requires k < n <= |es|
    ensures es[k].id in RootIds(es, n) <==> forall p :: es[k].id !in ChildIds(es, n, p)
    ensures forall p, q :: es[k].id in ChildIds(es, n, p) && es[k].id in ChildIds(es, n, q) ==> p == q
    ensures forall p :: es[k].id in ChildIds(es, n, p) ==> p in ParentOrder(es, n)
  {
    RootIdsMembership(es, n, k);
    forall p ensures es[k].id in ChildIds(es, n, p) <==> es[k].parent == Some(p) {
      ChildIdsMembership(es, n, k, p);
    }
    forall p | es[k].id in ChildIds(es, n, p) ensures p in ParentOrder(es, n) {
      ParentOrderMembership(es, n, p);
    }
  }

  /** Meeting entry n adds one child to the total of the parents `ps`
    * exactly when its parent is one of them. */
  lemma {:induction false} BucketTotalStep<T>(es: seq<Entry<T>>, n: nat, ps: seq<string>)
    requires n < |es|
    requires es[n].id !in Ids(es, n)
    requires forall a, b :: 0 <= a < b < |ps| ==> ps[a] != ps[b]
    ensures BucketTotal(es, n + 1, ps) ==
      BucketTotal(es, n, ps) + if es[n].parent.Some? && es[n].parent.value in ps then 1 else 0
  {
    if ps != [] {
      var init, q := ps[..|ps| - 1], ps[|ps| - 1];
      BucketTotalStep(es, n, init);
      ChildIdsStep(es, n, q);
      ChildIdsInIds(es, n, q);
      assert ps == init + [q];
    }
  }

  /** The roots and the buckets together hold every item once: their
    * sizes add up to the number of items. */
  lemma {:induction false} PartitionCount<T>(es: seq<Entry<T>>, n: nat)
    requires DistinctIds(es)
    requires n <= |es|
    ensures |RootIds(es, n)| + BucketTotal(es, n, ParentOrder(es, n)) == n
  {
    if n > 0 {
      var m := n - 1;
      PartitionCount(es, m);
      ParentOrderDistinct(es, m);
      IdFresh(es, m);
      var order := ParentOrder(es, m);
      BucketTotalStep(es, m, order);
      var parent := es[m].parent;
      if parent.Some? && parent.value !in order {
        var q := parent.value;
        ParentOrderMembership(es, m, q);
        ChildIdsStep(es, m, q);
        assert (order + [q])[..|order|] == order;
      }
    }
  }
}
