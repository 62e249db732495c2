/**
 * What one buildInvertIndex call does to the store, stated without reference to the
 * order in which the tags are visited, and the properties of that effect.
 */
module BuildSpec {
  import opened Types
  import opened TagIndexes
  import opened TagIndexStores
  import opened Metadb

  /** The index of tag key `k`: the stored one, or a new empty one. */
  function Base(s: Store, k: TagKeyID): TagIndex
  {
    if k in s then s[k] else NewTagIndex()
  }

  /** The tag-key IDs that the keys of `tags` resolve to. */
  function TouchedKeys(md: Metadata, namespace: string, metricName: string, tags: map<string, string>): set<TagKeyID>
  {
    set t | t in tags && md.genTagKeyID(namespace, metricName, t).Ok? :: md.genTagKeyID(namespace, metricName, t).value
  }

  /** The tag-value IDs that the tags whose key resolves to `k` resolve to. */
  function AddedValues(md: Metadata, namespace: string, metricName: string, tags: map<string, string>, k: TagKeyID): set<TagValueID>
  {
    set t | t in tags && md.genTagKeyID(namespace, metricName, t) == Ok(k) && md.genTagValueID(k, tags[t]).Ok?
      :: md.genTagValueID(k, tags[t]).value
  }

  /**
   * The store after buildInvertIndex(namespace, metricName, tags, seriesID): every tag key
   * that resolves has an index (an existing one is kept), and the series is added under
   * every tag value that resolves.
   */
  function Built(s: Store, md: Metadata, namespace: string, metricName: string, tags: map<string, string>, seriesID: SeriesID): Store
  {
    map k | k in s.Keys + TouchedKeys(md, namespace, metricName, tags)
      :: InsertAll(Base(s, k), AddedValues(md, namespace, metricName, tags, k), seriesID)
  }

  lemma TouchedKeysAdd(md: Metadata, namespace: string, metricName: string, tags: map<string, string>, t: string, v: string)
    requires t !in tags
    ensures TouchedKeys(md, namespace, metricName, tags[t := v])
         == TouchedKeys(md, namespace, metricName, tags)
          + (var g := md.genTagKeyID(namespace, metricName, t); if g.Ok? then {g.value} else {})
  {
  }

  lemma AddedValuesAdd(md: Metadata, namespace: string, metricName: string, tags: map<string, string>, t: string, v: string, k: TagKeyID)
    requires t !in tags
    ensures AddedValues(md, namespace, metricName, tags[t := v], k)
         == AddedValues(md, namespace, metricName, tags, k)
          + (if md.genTagKeyID(namespace, metricName, t) == Ok(k) && md.genTagValueID(k, v).Ok?
             then {md.genTagValueID(k, v).value} else {})
  {
    var tags' := tags[t := v];
    forall t' | t' in tags ensures tags'[t'] == tags[t'] { }
  }

  /** A key the tags do not resolve to gains no tag values. */
  lemma AddedValuesUntouched(md: Metadata, namespace: string, metricName: string, tags: map<string, string>, k: TagKeyID)
    requires k !in TouchedKeys(md, namespace, metricName, tags)
    ensures AddedValues(md, namespace, metricName, tags, k) == {}
  {
  }

  /** Looking a key up after the build: its old index with the added values. */
  lemma BaseOfBuilt(s: Store, md: Metadata, namespace: string, metricName: string, tags: map<string, string>, seriesID: SeriesID, k: TagKeyID)
    ensures Base(Built(s, md, namespace, metricName, tags, seriesID), k)
         == InsertAll(Base(s, k), AddedValues(md, namespace, metricName, tags, k), seriesID)
  {
    if k !in Built(s, md, namespace, metricName, tags, seriesID) {
      AddedValuesUntouched(md, namespace, metricName, tags, k);
      InsertAllNone(NewTagIndex(), seriesID);
    }
  }

  /** A second update of the same key overrides the first. */
  lemma StoreUpdateTwice(m: Store, key: TagKeyID, first: TagIndex, second: TagIndex)
    ensures m[key := first][key := second] == m[key := second]
  {
    assert m[key := first][key := second].Keys == m[key := second].Keys;
  }

  /** Two stores that agree at `key` and at every other key are equal. */
  lemma StoresAgree(a: Store, b: Store, key: TagKeyID)
    requires key in a && key in b && a[key] == b[key]
    requires forall k :: k != key ==> (k in a <==> k in b) && (k in a ==> a[k] == b[k])
    ensures a == b
  {
    assert a.Keys == b.Keys;
  }

  /** Two stores with the same keys and the same index under every key are equal. */
  lemma StoresEqual(a: Store, b: Store)
    requires forall k :: (k in a <==> k in b) && (k in a ==> a[k] == b[k])
    ensures a == b
  {
    assert a.Keys == b.Keys;
  }

  /** Where the store after the build has an entry, and what the entry is. */
  lemma BuiltAt(s: Store, md: Metadata, namespace: string, metricName: string, tags: map<string, string>, seriesID: SeriesID, k: TagKeyID)
    ensures k in Built(s, md, namespace, metricName, tags, seriesID) <==> k in s || k in TouchedKeys(md, namespace, metricName, tags)
    ensures k in Built(s, md, namespace, metricName, tags, seriesID) ==>
              (Built(s, md, namespace, metricName, tags, seriesID)[k]
               == InsertAll(Base(s, k), AddedValues(md, namespace, metricName, tags, k), seriesID))
  {
  }

  /** One more tag leaves the entry of every key it does not resolve to as it was. */
  lemma BuiltStepOtherKey(s: Store, md: Metadata, namespace: string, metricName: string, tags: map<string, string>,
                          seriesID: SeriesID, tagKey: string, tagValue: string, k: TagKeyID)
    requires tagKey !in tags
    requires md.genTagKeyID(namespace, metricName, tagKey) != Ok(k)
    ensures k in Built(s, md, namespace, metricName, tags[tagKey := tagValue], seriesID)
        <==> k in Built(s, md, namespace, metricName, tags, seriesID)
    ensures k in Built(s, md, namespace, metricName, tags, seriesID) ==>
              (Built(s, md, namespace, metricName, tags[tagKey := tagValue], seriesID)[k]
               == Built(s, md, namespace, metricName, tags, seriesID)[k])
  {
    var tags' := tags[tagKey := tagValue];
    assert AddedValues(md, namespace, metricName, tags', k) == AddedValues(md, namespace, metricName, tags, k) by {
      AddedValuesAdd(md, namespace, metricName, tags, tagKey, tagValue, k);
    }
    assert k in TouchedKeys(md, namespace, metricName, tags') <==> k in TouchedKeys(md, namespace, metricName, tags) by {
      TouchedKeysAdd(md, namespace, metricName, tags, tagKey, tagValue);
    }
    BuiltAt(s, md, namespace, metricName, tags', seriesID, k);
    BuiltAt(s, md, namespace, metricName, tags, seriesID, k);
  }

  /** One more tag whose key resolves to `k` adds its resolved value, if any, to k's entry. */
  lemma BuiltStepSameKey(s: Store, md: Metadata, namespace: string, metricName: string, tags: map<string, string>,
                         seriesID: SeriesID, tagKey: string, tagValue: string, k: TagKeyID)
    requires tagKey !in tags
    requires md.genTagKeyID(namespace, metricName, tagKey) == Ok(k)
    ensures k in Built(s, md, namespace, metricName, tags[tagKey := tagValue], seriesID)
    ensures (var before := Base(Built(s, md, namespace, metricName, tags, seriesID), k);
             var g := md.genTagValueID(k, tagValue);
             Built(s, md, namespace, metricName, tags[tagKey := tagValue], seriesID)[k]
               == if g.Ok? then BuildInvertedIndex(before, g.value, seriesID) else before)
  {
    var tags' := tags[tagKey := tagValue];
    var g := md.genTagValueID(k, tagValue);
    var added := AddedValues(md, namespace, metricName, tags, k);
    var added' := AddedValues(md, namespace, metricName, tags', k);
    assert added' == added + (if g.Ok? then {g.value} else {}) by {
      AddedValuesAdd(md, namespace, metricName, tags, tagKey, tagValue, k);
    }
    assert k in TouchedKeys(md, namespace, metricName, tags') by {
      TouchedKeysAdd(md, namespace, metricName, tags, tagKey, tagValue);
    }
    assert Built(s, md, namespace, metricName, tags', seriesID)[k] == InsertAll(Base(s, k), added', seriesID) by {
      BuiltAt(s, md, namespace, metricName, tags', seriesID, k);
    }
    assert Base(Built(s, md, namespace, metricName, tags, seriesID), k) == InsertAll(Base(s, k), added, seriesID) by {
      BaseOfBuilt(s, md, namespace, metricName, tags, seriesID, k);
    }
    if g.Ok? {
      InsertAllOneMore(Base(s, k), added, g.value, seriesID);
    } else {
      assert added' == added;
    }
  }

  /** A tag whose key ID cannot be generated is skipped: it leaves the store as it was. */
  lemma BuiltStepKeyFails(s: Store, md: Metadata, namespace: string, metricName: string, tags: map<string, string>,
                          seriesID: SeriesID, tagKey: string, tagValue: string)
    requires tagKey !in tags
    requires md.genTagKeyID(namespace, metricName, tagKey).Err?
    ensures Built(s, md, namespace, metricName, tags[tagKey := tagValue], seriesID)
         == Built(s, md, namespace, metricName, tags, seriesID)
  {
    var b, b' := Built(s, md, namespace, metricName, tags, seriesID), Built(s, md, namespace, metricName, tags[tagKey := tagValue], seriesID);
    forall k ensures (k in b' <==> k in b) && (k in b ==> b'[k] == b[k]) {
      BuiltStepOtherKey(s, md, namespace, metricName, tags, seriesID, tagKey, tagValue, k);
    }
    assert b'.Keys == b.Keys;
  }

  /**
   * A tag whose key ID resolves but whose value ID cannot be generated still leaves its
   * key with an index: the stored one, or a new empty one.
   */
  lemma BuiltStepValueFails(s: Store, md: Metadata, namespace: string, metricName: string, tags: map<string, string>,
                            seriesID: SeriesID, tagKey: string, tagValue: string, tagKeyID: TagKeyID)
    requires tagKey !in tags
    requires md.genTagKeyID(namespace, metricName, tagKey) == Ok(tagKeyID)
    requires md.genTagValueID(tagKeyID, tagValue).Err?
    ensures (var b := Built(s, md, namespace, metricName, tags, seriesID);
             Built(s, md, namespace, metricName, tags[tagKey := tagValue], seriesID)
               == if tagKeyID in b then b else b[tagKeyID := NewTagIndex()])
  {
    var b, b' := Built(s, md, namespace, metricName, tags, seriesID), Built(s, md, namespace, metricName, tags[tagKey := tagValue], seriesID);
    var want := if tagKeyID in b then b else b[tagKeyID := NewTagIndex()];
    assert tagKeyID in b' && b'[tagKeyID] == want[tagKeyID] by {
      BuiltStepSameKey(s, md, namespace, metricName, tags, seriesID, tagKey, tagValue, tagKeyID);
    }
    forall k | k != tagKeyID ensures (k in b' <==> k in want) && (k in b' ==> b'[k] == want[k]) {
      BuiltStepOtherKey(s, md, namespace, metricName, tags, seriesID, tagKey, tagValue, k);
    }
    StoresAgree(b', want, tagKeyID);
  }

  /**
   * A tag whose key ID and value ID both resolve: its key's index (the stored one, or a
   * new empty one) gets the series under the value, by buildInvertedIndex.
   */
  lemma BuiltStepIndexes(s: Store, md: Metadata, namespace: string, metricName: string, tags: map<string, string>,
                         seriesID: SeriesID, tagKey: string, tagValue: string, tagKeyID: TagKeyID, tagValueID: TagValueID)
    requires tagKey !in tags
    requires md.genTagKeyID(namespace, metricName, tagKey) == Ok(tagKeyID)
    requires md.genTagValueID(tagKeyID, tagValue) == Ok(tagValueID)
    ensures Built(s, md, namespace, metricName, tags[tagKey := tagValue], seriesID)
         == Built(s, md, namespace, metricName, tags, seriesID)[tagKeyID :=
              BuildInvertedIndex(Base(Built(s, md, namespace, metricName, tags, seriesID), tagKeyID), tagValueID, seriesID)]
  {
    var b, b' := Built(s, md, namespace, metricName, tags, seriesID), Built(s, md, namespace, metricName, tags[tagKey := tagValue], seriesID);
    var want := b[tagKeyID := BuildInvertedIndex(Base(b, tagKeyID), tagValueID, seriesID)];
    assert tagKeyID in b' && b'[tagKeyID] == want[tagKeyID] by {
      BuiltStepSameKey(s, md, namespace, metricName, tags, seriesID, tagKey, tagValue, tagKeyID);
    }
    forall k | k != tagKeyID ensures (k in b' <==> k in want) && (k in b' ==> b'[k] == want[k]) {
      BuiltStepOtherKey(s, md, namespace, metricName, tags, seriesID, tagKey, tagValue, k);
    }
    StoresAgree(b', want, tagKeyID);
  }

  /** Building with no tags (a nil or empty map) leaves the store unchanged. */
  lemma BuiltNoTags(s: Store, md: Metadata, namespace: string, metricName: string, seriesID: SeriesID)
    ensures Built(s, md, namespace, metricName, map[], seriesID) == s
  {
    var b := Built(s, md, namespace, metricName, map[], seriesID);
    forall k | k in s ensures b[k] == s[k] {
      BuiltAt(s, md, namespace, metricName, map[], seriesID, k);
      assert AddedValues(md, namespace, metricName, map[], k) == {};
      InsertAllNone(s[k], seriesID);
    }
    assert b.Keys == s.Keys;
  }

  /** The build keeps the union invariant of every tag index in the store. */
  lemma BuiltValid(s: Store, md: Metadata, namespace: string, metricName: string, tags: map<string, string>, seriesID: SeriesID)
    requires ValidStore(s)
    ensures ValidStore(Built(s, md, namespace, metricName, tags, seriesID))
  {
    var b := Built(s, md, namespace, metricName, tags, seriesID);
    forall k | k in b ensures b[k].Valid() {
      BuiltAt(s, md, namespace, metricName, tags, seriesID, k);
      InsertAllValid(Base(s, k), AddedValues(md, namespace, metricName, tags, k), seriesID);
    }
  }
}
