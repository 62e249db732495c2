/** What a buildInvertIndex call guarantees about the store, proved on its specification. */
module BuildProperties {
  import opened Types
  import opened TagIndexes
  import opened TagIndexStores
  import opened Metadb
  import opened BuildSpec

  /**
   * Every tag whose key ID and value ID both resolve is indexed: afterwards the series is
   * found under that tag value of that key, and among all the key's series.
   */
  lemma BuiltIndexesResolvedTag(s: Store, md: Metadata, namespace: string, metricName: string, tags: map<string, string>,
                                seriesID: SeriesID, tagKey: string, tagKeyID: TagKeyID, tagValueID: TagValueID)
    requires tagKey in tags
    requires md.genTagKeyID(namespace, metricName, tagKey) == Ok(tagKeyID)
    requires md.genTagValueID(tagKeyID, tags[tagKey]) == Ok(tagValueID)
    ensures tagKeyID in Built(s, md, namespace, metricName, tags, seriesID)
    ensures seriesID in GetSeriesIDsByTagValueIDs(Built(s, md, namespace, metricName, tags, seriesID)[tagKeyID], {tagValueID})
    ensures seriesID in GetAllSeriesIDs(Built(s, md, namespace, metricName, tags, seriesID)[tagKeyID])
  {
    var added := AddedValues(md, namespace, metricName, tags, tagKeyID);
    assert tagKeyID in TouchedKeys(md, namespace, metricName, tags);
    assert tagValueID in added;
    BuiltAt(s, md, namespace, metricName, tags, seriesID, tagKeyID);
    LookupInsertAll(Base(s, tagKeyID), added, seriesID, tagValueID);
  }

  /**
   * A tag whose key ID resolves leaves its key with an index even when no value ID of
   * the key resolves; then the index is the one stored before, or a new empty one.
   */
  lemma BuiltKeepsKeyWithoutValue(s: Store, md: Metadata, namespace: string, metricName: string, tags: map<string, string>,
                                  seriesID: SeriesID, tagKey: string, tagKeyID: TagKeyID)
    requires tagKey in tags
    requires md.genTagKeyID(namespace, metricName, tagKey) == Ok(tagKeyID)
    requires forall t :: t in tags && md.genTagKeyID(namespace, metricName, t) == Ok(tagKeyID)
                         ==> md.genTagValueID(tagKeyID, tags[t]).Err?
    ensures tagKeyID in Built(s, md, namespace, metricName, tags, seriesID)
    ensures Built(s, md, namespace, metricName, tags, seriesID)[tagKeyID] == Base(s, tagKeyID)
  {
    assert tagKeyID in TouchedKeys(md, namespace, metricName, tags);
    assert AddedValues(md, namespace, metricName, tags, tagKeyID) == {};
    BuiltAt(s, md, namespace, metricName, tags, seriesID, tagKeyID);
    InsertAllNone(Base(s, tagKeyID), seriesID);
  }

  /**
   * A tag whose key ID cannot be generated is skipped and the other tags are indexed
   * exactly as if it were not there.
   */
  lemma BuiltSkipsFailedKey(s: Store, md: Metadata, namespace: string, metricName: string, tags: map<string, string>,
                            seriesID: SeriesID, tagKey: string)
    requires tagKey in tags
    requires md.genTagKeyID(namespace, metricName, tagKey).Err?
    ensures Built(s, md, namespace, metricName, tags, seriesID)
         == Built(s, md, namespace, metricName, tags - {tagKey}, seriesID)
  {
    var rest := tags - {tagKey};
    assert rest[tagKey := tags[tagKey]] == tags;
    BuiltStepKeyFails(s, md, namespace, metricName, rest, seriesID, tagKey, tags[tagKey]);
  }

  /**
   * The build only grows the store: no tag key, tag value or series is removed, and an
   * existing tag index keeps everything it had.
   */
  lemma BuiltOnlyGrows(s: Store, md: Metadata, namespace: string, metricName: string, tags: map<string, string>,
                       seriesID: SeriesID, tagKeyID: TagKeyID, tagValueID: TagValueID)
    requires tagKeyID in s
    ensures tagKeyID in Built(s, md, namespace, metricName, tags, seriesID)
    ensures s[tagKeyID].values.Keys <= Built(s, md, namespace, metricName, tags, seriesID)[tagKeyID].values.Keys
    ensures tagValueID in s[tagKeyID].values ==>
              s[tagKeyID].values[tagValueID] <= Built(s, md, namespace, metricName, tags, seriesID)[tagKeyID].values[tagValueID]
    ensures s[tagKeyID].allSeries <= Built(s, md, namespace, metricName, tags, seriesID)[tagKeyID].allSeries
  {
    var added := AddedValues(md, namespace, metricName, tags, tagKeyID);
    BuiltAt(s, md, namespace, metricName, tags, seriesID, tagKeyID);
    forall v | v in s[tagKeyID].values ensures v in Built(s, md, namespace, metricName, tags, seriesID)[tagKeyID].values {
      LookupInsertAll(s[tagKeyID], added, seriesID, v);
    }
    LookupInsertAll(s[tagKeyID], added, seriesID, tagValueID);
  }

  /**
   * The build adds nothing but the given series: every tag value's set and every
   * union grows by at most that series, and no key appears that the tags do not resolve to.
   */
  lemma BuiltAddsOnlyTheSeries(s: Store, md: Metadata, namespace: string, metricName: string, tags: map<string, string>,
                               seriesID: SeriesID, tagKeyID: TagKeyID, tagValueID: TagValueID)
    requires tagKeyID in Built(s, md, namespace, metricName, tags, seriesID)
    ensures tagKeyID in s || exists t :: t in tags && md.genTagKeyID(namespace, metricName, t) == Ok(tagKeyID)
    ensures Lookup(Built(s, md, namespace, metricName, tags, seriesID)[tagKeyID].values, tagValueID)
         <= Lookup(Base(s, tagKeyID).values, tagValueID) + {seriesID}
    ensures Built(s, md, namespace, metricName, tags, seriesID)[tagKeyID].allSeries <= Base(s, tagKeyID).allSeries + {seriesID}
  {
    BuiltAt(s, md, namespace, metricName, tags, seriesID, tagKeyID);
    LookupInsertAll(Base(s, tagKeyID), AddedValues(md, namespace, metricName, tags, tagKeyID), seriesID, tagValueID);
  }

  /** Building the same series with the same tags twice gives the store of building it once. */
  lemma BuiltIdempotent(s: Store, md: Metadata, namespace: string, metricName: string, tags: map<string, string>, seriesID: SeriesID)
    ensures Built(Built(s, md, namespace, metricName, tags, seriesID), md, namespace, metricName, tags, seriesID)
         == Built(s, md, namespace, metricName, tags, seriesID)
  {
    var once := Built(s, md, namespace, metricName, tags, seriesID);
    var twice := Built(once, md, namespace, metricName, tags, seriesID);
    forall k ensures (k in twice <==> k in once) && (k in twice ==> twice[k] == once[k]) {
      BuiltAt(s, md, namespace, metricName, tags, seriesID, k);
      BuiltAt(once, md, namespace, metricName, tags, seriesID, k);
      BaseOfBuilt(s, md, namespace, metricName, tags, seriesID, k);
      InsertAllIdempotent(Base(s, k), AddedValues(md, namespace, metricName, tags, k), seriesID);
    }
    StoresEqual(twice, once);
  }

  /**
   * Two build calls, for two series, lead to the same store whichever runs first, under one
   * metadata service whose answers do not depend on the order or number of requests. A
   * service that mints IDs in registration order is not such a service.
   */
  lemma BuildsCommute(s: Store, md: Metadata,
                      namespace1: string, metricName1: string, tags1: map<string, string>, seriesID1: SeriesID,
                      namespace2: string, metricName2: string, tags2: map<string, string>, seriesID2: SeriesID)
    ensures Built(Built(s, md, namespace1, metricName1, tags1, seriesID1), md, namespace2, metricName2, tags2, seriesID2)
         == Built(Built(s, md, namespace2, metricName2, tags2, seriesID2), md, namespace1, metricName1, tags1, seriesID1)
  {
    var s1 := Built(s, md, namespace1, metricName1, tags1, seriesID1);
    var s2 := Built(s, md, namespace2, metricName2, tags2, seriesID2);
    var s12 := Built(s1, md, namespace2, metricName2, tags2, seriesID2);
    var s21 := Built(s2, md, namespace1, metricName1, tags1, seriesID1);
    forall k ensures (k in s12 <==> k in s21) && (k in s12 ==> s12[k] == s21[k]) {
      var a1 := AddedValues(md, namespace1, metricName1, tags1, k);
      var a2 := AddedValues(md, namespace2, metricName2, tags2, k);
      BuiltAt(s, md, namespace1, metricName1, tags1, seriesID1, k);
      BuiltAt(s, md, namespace2, metricName2, tags2, seriesID2, k);
      BuiltAt(s1, md, namespace2, metricName2, tags2, seriesID2, k);
      BuiltAt(s2, md, namespace1, metricName1, tags1, seriesID1, k);
      BaseOfBuilt(s, md, namespace1, metricName1, tags1, seriesID1, k);
      BaseOfBuilt(s, md, namespace2, metricName2, tags2, seriesID2, k);
      InsertAllCommutes(Base(s, k), a1, seriesID1, a2, seriesID2);
    }
    StoresEqual(s12, s21);
  }
}
