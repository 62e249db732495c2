/** The per-shard store: tag-key ID => the tag key's index. Keys are never removed. */
module TagIndexStores {
  import opened Types
  import opened TagIndexes

  /** The store's contents: tag-key ID => the tag key's index. */
  type Store = map<TagKeyID, TagIndex>

  /** Every tag index in the store keeps the union invariant. */
  ghost predicate ValidStore(s: Store)
  {
    forall k :: k in s ==> s[k].Valid()
  }

  class TagIndexStore {
    var indexes: Store

    /** Every tag index in the store keeps the union invariant. */
    ghost predicate Valid()
      reads this
    {
      ValidStore(indexes)
    }

    /** NewTagIndexStore(): an empty store. */
    constructor()
      ensures Valid()
      ensures indexes == map[]
    {
      indexes := map[];
    }

    /** Get(tagKeyID): the tag key's index, if the key has one. */
    function Get(tagKeyID: TagKeyID): (r: Option<TagIndex>)
      reads this
      ensures r.Some? <==> tagKeyID in indexes
      ensures r.Some? ==> r.value == indexes[tagKeyID]
    {
      if tagKeyID in indexes then Some(indexes[tagKeyID]) else None
    }

    /** Put(tagKeyID, tagIndex): makes tagIndex the key's index; nothing else changes. */
    method Put(tagKeyID: TagKeyID, tagIndex: TagIndex)
      modifies this
      ensures indexes == old(indexes)[tagKeyID := tagIndex]
    {
      indexes := indexes[tagKeyID := tagIndex];
    }
  }
}
