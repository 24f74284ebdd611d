/** Synchronisation of a request's child items with an incoming list, as the
    cancellation and return repositories perform it in `UpdateAsync`: items whose
    id the incoming list no longer carries are removed, items whose id matches are
    patched in place, and the remaining incoming items are attached to the request.

    The module is generic in the item type: `key` reads an item's id, `patch(e, x)`
    copies the updatable fields of incoming `x` onto existing `e`, and
    `adopt(x, parent)` re-parents a new item to the request `parent`. */
module ItemSync {
  import opened Common

  /** The set of ids carried by `items`. */
  function Keys<T>(items: seq<T>, key: T -> Id): (ks: set<Id>)
    ensures forall i :: 0 <= i < |items| ==> key(items[i]) in ks
    ensures forall k :: k in ks ==> exists i :: 0 <= i < |items| && key(items[i]) == k
  {
    if items == [] then {}
    else
      var ks := {key(items[0])} + Keys(items[1..], key);
      assert forall k :: k in Keys(items[1..], key) ==>
        exists i :: 1 <= i < |items| && key(items[i]) == k by {
        forall k | k in Keys(items[1..], key)
          ensures exists i :: 1 <= i < |items| && key(items[i]) == k
        {
          var j :| 0 <= j < |items[1..]| && key(items[1..][j]) == k;
          assert key(items[j + 1]) == k;
        }
      }
      ks
  }

  /** No two items share an id. */
  predicate UniqueKeys<T>(items: seq<T>, key: T -> Id) {
    |items| == 0 || (key(items[0]) !in Keys(items[1..], key) && UniqueKeys(items[1..], key))
  }

  /** Patching keeps the existing item's id and adopting keeps the incoming one's. */
  ghost predicate KeepsKeys<T(!new)>(key: T -> Id, patch: (T, T) -> T, adopt: (T, Id) -> T) {
    && (forall e, x :: key(patch(e, x)) == key(e))
    && (forall x, parent :: key(adopt(x, parent)) == key(x))
  }

  /** `FirstOrDefault(i => i.Id == k)`: the first item carrying id `k`. */
  function Lookup<T>(items: seq<T>, k: Id, key: T -> Id): (r: Option<T>)
    ensures r.None? <==> k !in Keys(items, key)
    ensures r.Some? ==> key(r.value) == k && r.value in items
  {
    if items == [] then None
    else if key(items[0]) == k then Some(items[0])
    else Lookup(items[1..], k, key)
  }

  /** In a list with unique ids, the item carrying an id is the one lookup finds. */
  lemma {:induction false} UniqueKeyLookup<T>(items: seq<T>, e: T, k: Id, key: T -> Id)
    requires UniqueKeys(items, key)
    requires e in items && key(e) == k
    ensures Lookup(items, k, key) == Some(e)
  {
    if items[0] != e {
      assert e in items[1..];
      assert key(e) in Keys(items[1..], key);
      UniqueKeyLookup(items[1..], e, k, key);
    }
  }

  /** What the item with id `key(x)` becomes once `x` has been merged into `items`. */
  function Merged<T>(items: seq<T>, x: T, parent: Id, key: T -> Id,
                     patch: (T, T) -> T, adopt: (T, Id) -> T): T
  {
    match Lookup(items, key(x), key)
    case Some(e) => patch(e, x)
    case None => adopt(x, parent)
  }

  /** The items whose id is in `keep`, in their original order. */
  function Retain<T>(items: seq<T>, keep: set<Id>, key: T -> Id): (r: seq<T>)
    ensures Keys(r, key) == Keys(items, key) * keep
    ensures forall i :: 0 <= i < |r| ==> r[i] in items
    ensures UniqueKeys(items, key) ==> UniqueKeys(r, key)
    ensures forall k :: k in keep ==> Lookup(r, k, key) == Lookup(items, k, key)
  {
    if items == [] then []
    else
      var rest := Retain(items[1..], keep, key);
      if key(items[0]) in keep then [items[0]] + rest else rest
  }

  /** Merges one incoming item: the first item with its id is patched in place,
      and when there is none the item is adopted and appended. */
  function Upsert<T(!new)>(items: seq<T>, x: T, parent: Id, key: T -> Id,
                           patch: (T, T) -> T, adopt: (T, Id) -> T): (r: seq<T>)
    requires KeepsKeys(key, patch, adopt)
    ensures Keys(r, key) == Keys(items, key) + {key(x)}
    ensures UniqueKeys(items, key) ==> UniqueKeys(r, key)
    ensures Lookup(r, key(x), key) == Some(Merged(items, x, parent, key, patch, adopt))
    ensures forall k :: k != key(x) ==> Lookup(r, k, key) == Lookup(items, k, key)
  {
    if items == [] then [adopt(x, parent)]
    else if key(items[0]) == key(x) then [patch(items[0], x)] + items[1..]
    else [items[0]] + Upsert(items[1..], x, parent, key, patch, adopt)
  }

  /** Merges the incoming items one after the other. */
  function Merge<T(!new)>(items: seq<T>, incoming: seq<T>, parent: Id, key: T -> Id,
                          patch: (T, T) -> T, adopt: (T, Id) -> T): (r: seq<T>)
    requires KeepsKeys(key, patch, adopt)
    ensures Keys(r, key) == Keys(items, key) + Keys(incoming, key)
    ensures UniqueKeys(items, key) ==> UniqueKeys(r, key)
    ensures forall k :: k !in Keys(incoming, key) ==> Lookup(r, k, key) == Lookup(items, k, key)
    decreases |incoming|
  {
    if incoming == [] then items
    else Merge(Upsert(items, incoming[0], parent, key, patch, adopt), incoming[1..], parent, key, patch, adopt)
  }

  /** The item list after `UpdateAsync`: a missing (null) incoming list removes every item. */
  function Sync<T(!new)>(existing: seq<T>, incoming: Option<seq<T>>, parent: Id, key: T -> Id,
                         patch: (T, T) -> T, adopt: (T, Id) -> T): (r: seq<T>)
    requires KeepsKeys(key, patch, adopt)
    ensures incoming.Some? ==> Keys(r, key) == Keys(incoming.value, key)
    ensures incoming.None? ==> r == []
    ensures UniqueKeys(existing, key) ==> UniqueKeys(r, key)
  {
    var xs := if incoming.Some? then incoming.value else [];
    Merge(Retain(existing, Keys(xs, key), key), xs, parent, key, patch, adopt)
  }

  /** With distinct incoming ids, each incoming item ends up merged exactly as
      `Merged` describes against the list it was merged into. */
  lemma {:induction false} MergeContents<T(!new)>(items: seq<T>, incoming: seq<T>, parent: Id, key: T -> Id,
                                                   patch: (T, T) -> T, adopt: (T, Id) -> T)
    requires KeepsKeys(key, patch, adopt)
    requires UniqueKeys(incoming, key)
    ensures forall i :: 0 <= i < |incoming| ==>
      Lookup(Merge(items, incoming, parent, key, patch, adopt), key(incoming[i]), key)
        == Some(Merged(items, incoming[i], parent, key, patch, adopt))
    decreases |incoming|
  {
    if incoming != [] {
      var x := incoming[0];
      var u := Upsert(items, x, parent, key, patch, adopt);
      var rest := incoming[1..];
      MergeContents(u, rest, parent, key, patch, adopt);
      assert Merge(items, incoming, parent, key, patch, adopt) == Merge(u, rest, parent, key, patch, adopt);
      forall i | 0 <= i < |incoming|
        ensures Lookup(Merge(u, rest, parent, key, patch, adopt), key(incoming[i]), key)
                  == Some(Merged(items, incoming[i], parent, key, patch, adopt))
      {
        if i == 0 {
          assert key(x) !in Keys(rest, key);
        } else {
          assert incoming[i] == rest[i - 1];
          assert key(incoming[i]) != key(x);
          assert Lookup(u, key(incoming[i]), key) == Lookup(items, key(incoming[i]), key);
        }
      }
    }
  }

  /** After synchronisation, with distinct incoming ids, each incoming item is in
      the list: patched onto the existing item with its id, or adopted when new. */
  lemma SyncContents<T(!new)>(existing: seq<T>, incoming: seq<T>, parent: Id, key: T -> Id,
                              patch: (T, T) -> T, adopt: (T, Id) -> T)
    requires KeepsKeys(key, patch, adopt)
    requires UniqueKeys(incoming, key)
    ensures forall i :: 0 <= i < |incoming| ==>
      Lookup(Sync(existing, Some(incoming), parent, key, patch, adopt), key(incoming[i]), key)
        == Some(Merged(existing, incoming[i], parent, key, patch, adopt))
  {
    var kept := Retain(existing, Keys(incoming, key), key);
    MergeContents(kept, incoming, parent, key, patch, adopt);
    forall i | 0 <= i < |incoming|
      ensures Merged(kept, incoming[i], parent, key, patch, adopt)
                == Merged(existing, incoming[i], parent, key, patch, adopt)
    {
      assert Lookup(kept, key(incoming[i]), key) == Lookup(existing, key(incoming[i]), key);
    }
  }

  /** A property of single items that patching and adoption both establish or
      keep holds of every synchronised item. */
  lemma {:induction false} SyncKeeps<T(!new)>(existing: seq<T>, incoming: Option<seq<T>>, parent: Id, key: T -> Id,
                                             patch: (T, T) -> T, adopt: (T, Id) -> T, inv: T -> bool)
    requires KeepsKeys(key, patch, adopt)
    requires forall e, x :: inv(e) ==> inv(patch(e, x))
    requires forall x :: inv(adopt(x, parent))
    requires forall i :: 0 <= i < |existing| ==> inv(existing[i])
    ensures forall i :: 0 <= i < |Sync(existing, incoming, parent, key, patch, adopt)| ==>
      inv(Sync(existing, incoming, parent, key, patch, adopt)[i])
  {
    var xs := if incoming.Some? then incoming.value else [];
    var kept := Retain(existing, Keys(xs, key), key);
    MergeKeeps(kept, xs, parent, key, patch, adopt, inv);
  }

  lemma {:induction false} MergeKeeps<T(!new)>(items: seq<T>, incoming: seq<T>, parent: Id, key: T -> Id,
                                              patch: (T, T) -> T, adopt: (T, Id) -> T, inv: T -> bool)
    requires KeepsKeys(key, patch, adopt)
    requires forall e, x :: inv(e) ==> inv(patch(e, x))
    requires forall x :: inv(adopt(x, parent))
    requires forall i :: 0 <= i < |items| ==> inv(items[i])
    ensures forall i :: 0 <= i < |Merge(items, incoming, parent, key, patch, adopt)| ==>
      inv(Merge(items, incoming, parent, key, patch, adopt)[i])
    decreases |incoming|
  {
    if incoming != [] {
      var u := Upsert(items, incoming[0], parent, key, patch, adopt);
      UpsertKeeps(items, incoming[0], parent, key, patch, adopt, inv);
      MergeKeeps(u, incoming[1..], parent, key, patch, adopt, inv);
    }
  }

  lemma {:induction false} UpsertKeeps<T(!new)>(items: seq<T>, x: T, parent: Id, key: T -> Id,
                                               patch: (T, T) -> T, adopt: (T, Id) -> T, inv: T -> bool)
    requires KeepsKeys(key, patch, adopt)
    requires forall e, x :: inv(e) ==> inv(patch(e, x))
    requires forall x :: inv(adopt(x, parent))
    requires forall i :: 0 <= i < |items| ==> inv(items[i])
    ensures forall i :: 0 <= i < |Upsert(items, x, parent, key, patch, adopt)| ==>
      inv(Upsert(items, x, parent, key, patch, adopt)[i])
    decreases |items|
  {
    if items != [] && key(items[0]) != key(x) {
      UpsertKeeps(items[1..], x, parent, key, patch, adopt, inv);
    }
  }
}
