/**
 * The per-shard tag inverted index: the facade over the tag-index store that answers
 * series lookups and group-by contexts and builds the index for new series.
 */
module InvertedIndexes {
  import opened Types
  import opened TagIndexes
  import opened TagIndexStores
  import opened Metadb
  import opened Query
  import opened BuildSpec

  /** The group-by context handed to the query layer. */
  datatype GroupingContext = GroupingContext(gCtx: GroupContext)

  /** Slot i of the context is the entry set created for the i-th requested tag key. */
  ghost predicate AlignedWith(g: GroupingContext, tagKeyIDs: seq<TagKeyID>)
  {
    && |g.gCtx.entrySets| == |tagKeyIDs|
    && forall i :: 0 <= i < |tagKeyIDs| ==> g.gCtx.entrySets[i] == Some(NewTagValuesEntrySet(tagKeyIDs[i]))
  }

  class InvertedIndex {
    const store: TagIndexStore
    const metadata: Metadata

    ghost predicate Valid()
      reads store
    {
      store.Valid()
    }

    /** newInvertedIndex(metadata): an index with an empty store. */
    constructor(metadata: Metadata)
      ensures Valid() && fresh(store)
      ensures this.metadata == metadata && store.indexes == map[]
    {
      this.metadata := metadata;
      store := new TagIndexStore();
    }

    /**
     * GetSeriesIDsByTagValueIDs: NotFound exactly when the tag key has no index;
     * otherwise the union of the sets of the requested tag values the index has.
     */
    function GetSeriesIDsByTagValueIDs(tagKeyID: TagKeyID, tagValueIDs: set<TagValueID>): (r: Result<set<SeriesID>>)
      reads store
      ensures r.Err? <==> tagKeyID !in store.indexes
      ensures r.Err? ==> r.error == ErrNotFound
      ensures r.Ok? ==>
                forall v, s :: v in tagValueIDs && v in store.indexes[tagKeyID].values && s in store.indexes[tagKeyID].values[v]
                  ==> s in r.value
      ensures r.Ok? ==>
                forall s :: s in r.value
                  ==> exists v :: v in tagValueIDs && v in store.indexes[tagKeyID].values && s in store.indexes[tagKeyID].values[v]
    {
      match store.Get(tagKeyID)
      case None => Err(ErrNotFound)
      case Some(tagIndex) => Ok(TagIndexes.GetSeriesIDsByTagValueIDs(tagIndex, tagValueIDs))
    }

    /**
     * GetSeriesIDsForTag: NotFound exactly when the tag key has no index; otherwise
     * every series under any value of the key.
     */
    function GetSeriesIDsForTag(tagKeyID: TagKeyID): (r: Result<set<SeriesID>>)
      reads store
      ensures r.Err? <==> tagKeyID !in store.indexes
      ensures r.Err? ==> r.error == ErrNotFound
      ensures r.Ok? ==> r.value == store.indexes[tagKeyID].allSeries
      ensures r.Ok? && Valid() ==> r.value == UnionOf(store.indexes[tagKeyID].values)
    {
      match store.Get(tagKeyID)
      case None => Err(ErrNotFound)
      case Some(tagIndex) => Ok(GetAllSeriesIDs(tagIndex))
    }

    /**
     * GetGroupingContext: NotFound, and no context, when any requested tag key has no
     * index; otherwise one entry set per requested key, in the requested order.
     */
    method GetGroupingContext(tagKeyIDs: seq<TagKeyID>) returns (r: Result<GroupingContext>)
      ensures r.Err? <==> exists i :: 0 <= i < |tagKeyIDs| && tagKeyIDs[i] !in store.indexes
      ensures r.Err? ==> r.error == ErrNotFound
      ensures r.Ok? ==> AlignedWith(r.value, tagKeyIDs)
    {
      var tagKeysLen := |tagKeyIDs|;
      var gCtx := NewGroupContext(tagKeysLen);
      for idx := 0 to tagKeysLen
        invariant |gCtx.entrySets| == tagKeysLen
        invariant forall i :: 0 <= i < idx ==> tagKeyIDs[i] in store.indexes
        invariant forall i :: 0 <= i < idx ==> gCtx.entrySets[i] == Some(NewTagValuesEntrySet(tagKeyIDs[i]))
      {
        var tagKeyID := tagKeyIDs[idx];
        if store.Get(tagKeyID).None? {
          return Err(ErrNotFound);
        }
        var tagValuesEntrySet := NewTagValuesEntrySet(tagKeyID);
        gCtx := SetTagValuesEntrySet(gCtx, idx, tagValuesEntrySet);
      }
      return Ok(GroupingContext(gCtx));
    }

    /**
     * buildInvertIndex: for each tag, in no particular order, resolve the key ID (skip the
     * tag on failure), make sure the key has an index, resolve the value ID (skip on
     * failure) and add the series under it. The store ends as Built describes.
     */
    method BuildInvertIndex(namespace: string, metricName: string, tags: map<string, string>, seriesID: SeriesID)
      requires Valid()
      modifies store
      ensures Valid()
      ensures store.indexes == Built(old(store.indexes), metadata, namespace, metricName, tags, seriesID)
    {
      ghost var initial := store.indexes;
      var pending := tags.Keys;
      ghost var done: map<string, string> := map[];
      BuiltNoTags(initial, metadata, namespace, metricName, seriesID);
      while pending != {}
        invariant pending <= tags.Keys
        invariant done.Keys == tags.Keys - pending
        invariant forall t :: t in done ==> done[t] == tags[t]
        invariant store.indexes == Built(initial, metadata, namespace, metricName, done, seriesID)
        decreases pending
      {
        var tagKey :| tagKey in pending;
        var tagValue := tags[tagKey];
        pending := pending - {tagKey};
        ghost var before := done;
        ghost var current := store.indexes;
        done := done[tagKey := tagValue];

        var keyID := metadata.genTagKeyID(namespace, metricName, tagKey);
        if keyID.Err? {
          assert store.indexes == Built(initial, metadata, namespace, metricName, done, seriesID) by {
            BuiltStepKeyFails(initial, metadata, namespace, metricName, before, seriesID, tagKey, tagValue);
          }
          continue;
        }
        var tagKeyID := keyID.value;
        var found := store.Get(tagKeyID);
        var tagIndex;
        if found.None? {
          tagIndex := NewTagIndex();
          store.Put(tagKeyID, tagIndex);
        } else {
          tagIndex := found.value;
        }
        assert tagIndex == Base(current, tagKeyID);
        var valueID := metadata.genTagValueID(tagKeyID, tagValue);
        if valueID.Err? {
          assert store.indexes == Built(initial, metadata, namespace, metricName, done, seriesID) by {
            BuiltStepValueFails(initial, metadata, namespace, metricName, before, seriesID, tagKey, tagValue, tagKeyID);
          }
          continue;
        }
        store.Put(tagKeyID, BuildInvertedIndex(tagIndex, valueID.value, seriesID));
        if found.None? {
          StoreUpdateTwice(current, tagKeyID, tagIndex, BuildInvertedIndex(tagIndex, valueID.value, seriesID));
        }
        assert store.indexes == Built(initial, metadata, namespace, metricName, done, seriesID) by {
          BuiltStepIndexes(initial, metadata, namespace, metricName, before, seriesID, tagKey, tagValue, tagKeyID, valueID.value);
        }
      }
      assert done == tags;
      BuiltValid(initial, metadata, namespace, metricName, tags, seriesID);
    }
  }
}
