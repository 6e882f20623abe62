# Rebuilding a nested layout from its flattened form

The StructNoSQL documentation recommends storing a tree of layout items
flat. Each item is stored under its own id, and a child names its parent in
a `parentId` attribute. On the client, the tree is rebuilt in two passes.
The documentation gives two versions of the rebuild:

- **Python.** The item dictionaries are rebuilt in place.
  - The first pass does four things for each item:
    - it pops `parentId` off the item;
    - it registers the item in `all_items`;
    - it appends the item to `root_items` when the item has no parent;
    - otherwise it files the item, under the item's own id, in the waiting
      bucket of its parent.
  - The second pass stores each bucket as the `children` key of its parent.
- **TypeScript (`reconstructData`).**
  - The function only reads the retrieved items.
  - For each item it builds a fresh client object that holds only `active`
    and `size`.
  - It then groups and attaches these client objects the same way the
    Python version does.

Both versions rely on sharing. The objects in the root list, in the id index
and in the buckets are the same objects, so children attached in the second
pass are visible from the returned roots at every depth.

The project has three modules:

- `FlatTree` (`flat_tree.dfy`) is shared by both versions. It holds:
  - the layout as a sequence of entries `Entry(id, parent, item)` in
    iteration order;
  - what the first pass builds from the first `n` entries: the id index
    (`Index`), the root list (`Roots`, `RootIds`), the bucket contents
    (`Buckets`, `Bucket`) and the bucket key order (`ParentOrder`);
  - `FirstMissing`, the position where the second pass fails;
  - the lemmas about all of these: partition, uniqueness, membership
    in both directions, and order.
- `ReconstructPy` (`reconstruct_py.dfy`) models the Python version.
  - The item dictionary is the class `LayoutItem`. Its mutable fields are
    `parentId`, `children` and the remaining keys.
  - The two passes are the methods `GroupItems` and `AttachChildren`, and
    `ReconstructTree` runs them one after the other.
  - Each method is proved against the `FlatTree` functions.
- `ReconstructTs` (`reconstruct_ts.dfy`) models the TypeScript version.
  - The retrieved item is a value, `RetrievedItem`.
  - The client item is the class `ClientItem`.
  - The two passes are `CollectItems` and `AttachChildren`, and
    `ReconstructData` runs them.

The input dictionary becomes a sequence of `(id, item)` pairs with distinct
ids. Its order is the order in which Python's `dict.items()` and
JavaScript's `for..in` visit it, and the root order depends on it. A
`parentId` that names no item is handled as an error path, not a
precondition:
- the second pass stops at the first bucket key, in bucket order, that has
  no item;
- the buckets before that key are already attached;
- the result is `Err(key)`.

This stands for Python's `KeyError`, which carries the missing key. It
also stands for the `TypeError` thrown by TypeScript's property assignment on
`undefined`, which does not carry the key. The TypeScript model reports the
key as `Err(key)` anyway. In TypeScript, which key fails first can also
differ from the model when bucket keys look like integers (see "## Left
out").

## Model

Source paths are relative to the repository root. `P` stands for
`docs/samples/nosql_best_practices/flattening_data/reconstruct_nested_data_from_flattened_data`.

| member | source | states |
|---|---|---|
| FlatTree.FirstMissing | docs/samples/nosql_best_practices/flattening_data/reconstruct_nested_data_from_flattened_data/code.py:40-44 | the failing position of the second pass: every bucket key before it names an item, and the key at it, if any, names none |
| FlatTree.FirstMissingAt | docs/samples/nosql_best_practices/flattening_data/reconstruct_nested_data_from_flattened_data/code.ts:37-40 | the failing position is unique: any position with that property is `FirstMissing` |
| FlatTree.IndexKeys | docs/samples/nosql_best_practices/flattening_data/reconstruct_nested_data_from_flattened_data/code.py:11-24 | the id index has exactly the ids of the input as its keys |
| FlatTree.IndexAt | docs/samples/nosql_best_practices/flattening_data/reconstruct_nested_data_from_flattened_data/code.py:24 | with distinct ids, the index maps every id to that id's own item |
| FlatTree.IndexInjective | docs/samples/nosql_best_practices/flattening_data/reconstruct_nested_data_from_flattened_data/code.ts:22-25 | with distinct items, no two ids share an item in the index |
| FlatTree.RootsIndexed | docs/samples/nosql_best_practices/flattening_data/reconstruct_nested_data_from_flattened_data/code.py:24-34 | the root list holds the same objects that the index gives to the root ids, in the same order |
| FlatTree.RootsHold | docs/samples/nosql_best_practices/flattening_data/reconstruct_nested_data_from_flattened_data/code.py:33-34 | every parentless item is in the root list |
| FlatTree.RootIdsMembership | docs/samples/nosql_best_practices/flattening_data/reconstruct_nested_data_from_flattened_data/code.py:33-34 | an id is a root id if and only if its item has no parent |
| FlatTree.RootIdsPrefix | docs/samples/nosql_best_practices/flattening_data/reconstruct_nested_data_from_flattened_data/code.ts:27-28 | roots keep iteration order: the roots among the first k items are a prefix of all the roots |
| FlatTree.RootIdsDistinct | docs/samples/nosql_best_practices/flattening_data/reconstruct_nested_data_from_flattened_data/code.py:33-34 | no id appears twice in the root list |
| FlatTree.ParentOrderMembership | docs/samples/nosql_best_practices/flattening_data/reconstruct_nested_data_from_flattened_data/code.py:36-37 | a parent id is a bucket key if and only if it has at least one child |
| FlatTree.ParentOrderDistinct | docs/samples/nosql_best_practices/flattening_data/reconstruct_nested_data_from_flattened_data/code.ts:30-32 | a bucket is created only on first use, so no bucket key appears twice in bucket order |
| FlatTree.BucketsKeys | docs/samples/nosql_best_practices/flattening_data/reconstruct_nested_data_from_flattened_data/code.py:36-38 | the bucket dictionary's keys are exactly the keys in its insertion order |
| FlatTree.BucketsExist | docs/samples/nosql_best_practices/flattening_data/reconstruct_nested_data_from_flattened_data/code.ts:29-33 | a bucket exists for p if and only if some item names p as its parent |
| FlatTree.ChildIdsMembership | docs/samples/nosql_best_practices/flattening_data/reconstruct_nested_data_from_flattened_data/code.py:35-38 | an item waits in the bucket of p if and only if its parent is p, so it waits in no other bucket |
| FlatTree.BucketKeys | docs/samples/nosql_best_practices/flattening_data/reconstruct_nested_data_from_flattened_data/code.py:38 | the bucket of p is keyed by exactly the ids of p's children |
| FlatTree.BucketItems | docs/samples/nosql_best_practices/flattening_data/reconstruct_nested_data_from_flattened_data/code.ts:33 | each child waits, under its own id and as its own item, in its parent's bucket |
| FlatTree.ChildInBucket | docs/samples/nosql_best_practices/flattening_data/reconstruct_nested_data_from_flattened_data/code.py:35-38 | a child's parent is a bucket key of the finished first pass, and the child waits in that bucket as its own item |
| FlatTree.Partition | docs/samples/nosql_best_practices/flattening_data/reconstruct_nested_data_from_flattened_data/code.py:33-38 | every item is either a root or waits in a bucket, never both; it waits in at most one bucket, and that bucket's key is in bucket order |
| FlatTree.PartitionCount | docs/samples/nosql_best_practices/flattening_data/reconstruct_nested_data_from_flattened_data/code.ts:27-34 | the number of roots plus the bucket sizes equals the number of input items |
| ReconstructPy.LayoutItem.PopParentId | docs/samples/nosql_best_practices/flattening_data/reconstruct_nested_data_from_flattened_data/code.py:14 | `pop('parentId', None)` returns the parent (None for a missing key or a None value), removes the key, and leaves every other key alone |
| ReconstructPy.GroupItems | docs/samples/nosql_best_practices/flattening_data/reconstruct_nested_data_from_flattened_data/code.py:11-38 | the first pass yields the id index, the root list, the buckets and their key order of the layout before the pops; every item loses `parentId`, and its `children` and other keys are unchanged |
| ReconstructPy.AttachChildren | docs/samples/nosql_best_practices/flattening_data/reconstruct_nested_data_from_flattened_data/code.py:40-44 | the second pass sets `children` to its bucket for exactly the bucket keys before the first missing one, and changes nothing else; it fails with that key, or succeeds when there is none |
| ReconstructPy.ReconstructTree | docs/samples/nosql_best_practices/flattening_data/reconstruct_nested_data_from_flattened_data/code.py:7-46 | the whole rebuild returns the roots in iteration order, or fails with the first bucket key that names no item; each item's `children` is exactly its bucket if its id is a bucket key reached, and is otherwise untouched; `parentId` is gone everywhere |
| ReconstructPy.ReachableFromRoots | docs/samples/nosql_best_practices/flattening_data/reconstruct_nested_data_from_flattened_data/code.py:40-44 | through sharing, once every parent holds its bucket as `children`, a chain of parent links that starts at a root is a path of `children` keys from that root in the root list to the chain's last item |
| ReconstructPy.ReachableAfterRebuild | docs/samples/nosql_best_practices/flattening_data/reconstruct_nested_data_from_flattened_data/code.py:24-44 | in the state `ReconstructTree` leaves on success, every chain of parent links from a root is a `children` path from that root in the returned list to the chain's last item |
| ReconstructPy.FollowChild | docs/samples/nosql_best_practices/flattening_data/reconstruct_nested_data_from_flattened_data/code.py:44 | a path that reaches a parent, extended by a child's id, reaches that child |
| ReconstructTs.ClientItem.constructor | docs/samples/nosql_best_practices/flattening_data/reconstruct_nested_data_from_flattened_data/code.ts:22-24 | the object literal holds `active` and `size` and has no `children` |
| ReconstructTs.JoinedIndex | docs/samples/nosql_best_practices/flattening_data/reconstruct_nested_data_from_flattened_data/code.ts:18-25 | the layout built from the retrieved items and the index has distinct ids, and its index maps each input key to its own client item |
| ReconstructTs.CollectItems | docs/samples/nosql_best_practices/flattening_data/reconstruct_nested_data_from_flattened_data/code.ts:18-35 | the first loop gives every key a fresh client item that copies only `active` and `size`; the items are distinct; the loop yields the index, roots, buckets and bucket order of that layout |
| ReconstructTs.AttachChildren | docs/samples/nosql_best_practices/flattening_data/reconstruct_nested_data_from_flattened_data/code.ts:37-40 | the second loop sets `children` to its bucket for exactly the bucket keys before the first missing one, and changes nothing else; it throws at that key, or finishes when there is none |
| ReconstructTs.ReconstructData | docs/samples/nosql_best_practices/flattening_data/reconstruct_nested_data_from_flattened_data/code.ts:13-42 | `reconstructData` returns the root client items in iteration order, or fails at the first bucket key with no item; every client item is fresh with the input's `active` and `size`; its `children` is its bucket for the parents reached and undefined otherwise |
| ReconstructTs.ReachableFromRoots | docs/samples/nosql_best_practices/flattening_data/reconstruct_nested_data_from_flattened_data/code.ts:25-41 | through sharing, a chain of parent links from a root is a path of `children` keys from that root's client item in the returned list to the chain's last client item, so grandchildren are reachable |
| ReconstructTs.ReachableAfterRebuild | docs/samples/nosql_best_practices/flattening_data/reconstruct_nested_data_from_flattened_data/code.ts:25-41 | in the state `ReconstructData` leaves on success, every chain of parent links from a root is a `children` path from that root's client item in the returned list to the chain's last client item |
| ReconstructTs.FollowChild | docs/samples/nosql_best_practices/flattening_data/reconstruct_nested_data_from_flattened_data/code.ts:39 | a path that reaches a parent, extended by a child's key, reaches that child |

## Left out

- The fetch of the flattened items is left out. It is `table_client.get_field` in `P/code.py:3-5`, and its `is not None` guard at line 6 belongs to it. The model starts from the retrieved dictionary.
- The call and `console.log` at `P/code.ts:43-44` are left out, and so is `print(root_items)` at `P/code.py:47`. They are I/O. `ReconstructTree` returns the roots instead of printing them.
- The StructNoSQL table client is not part of this model.
- JavaScript's `for..in` enumerates integer-like keys first, in numeric order, and other keys afterwards in insertion order.
  - The model takes the input sequence in its enumeration order, so the first loop at `P/code.ts:18` is modelled faithfully.
  - The second loop at `P/code.ts:37` also enumerates the bucket object. ReconstructTs.AttachChildren walks the bucket keys in first-insertion order (`ParentOrder`) instead, and does not move integer-like keys to the front.
  - When several bucket keys name no item, the model can therefore report a different key than the one TypeScript fails at. For `[("a", {parentId: "x"}), ("b", {parentId: "5"})]`, TypeScript throws while visiting `"5"`, but the model returns `Err("x")`.
  - The successful result is the same either way: the buckets are attached to distinct items, so their order does not matter.
- The order of children is not modelled.
  - Each bucket, and so each `children` value, is a Dafny `map`, which has no order.
  - In the source, a bucket is a Python dict (`P/code.py:38`) or a JavaScript object (`P/code.ts:33`) filled in input order. The rebuilt tree therefore lists each parent's children in input order, apart from JavaScript's integer-like keys.
  - The model states which children each parent has and which item each child is, but not the order in which they are listed.
- JavaScript objects used as dictionaries inherit `Object.prototype`. A key such as `__proto__`, `toString` or `hasOwnProperty` therefore behaves differently from other keys. The model treats every key as an ordinary key.
- The TypeScript model has no runtime `null` parentId. `RetrievedItem.parentId` is present or undefined, following the declared type. In the source, a `null` value would be filed under the bucket key `"null"`.
- ReconstructTs.ClientItem: `active` and `size` are constant fields. The reconstruction never writes them after the object literal is built, so the model does not state that the second loop leaves them alone: nothing can change them.
- ReconstructPy.ReconstructTree: requires each id to name its own dictionary object, as in a decoded JSON record. A Python input whose ids share an item object is not modelled.
- ReconstructTs.ReconstructData: the retrieved items are values, since the function only reads them. That `flattenedData` is unchanged therefore holds by construction, not by a proved frame.
- Item values are simplified. Python item keys other than `parentId` and `children` are JSON-like values with integer numbers. Floating point is not modelled.
- Python's `KeyError` and TypeScript's `TypeError` are modelled as `Err(key)` results. No exception propagates. The state the failed pass leaves behind is stated in full.
- The two reachability lemmas speak of chains of parent links that start at a root. Items on a parent cycle, and items below such a cycle, are reachable from no root. The model states nothing about them beyond their `children`.
