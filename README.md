# Tag inverted index of a time-series shard

This project models the per-shard tag inverted index of LinDB (`invertedIndex` in
`tsdb/indexdb/inverted_index.go`) and proves properties of the model in Dafny.

The index keeps a store that maps a tag-key ID to a tag index. A tag index maps a
tag-value ID to the set of series IDs that carry that value. It also keeps the union of
all those series. The facade has four operations:

- `GetSeriesIDsByTagValueIDs` (`InvertedIndex.GetSeriesIDsByTagValueIDs`) returns the
  union of the series under the requested values of one tag key. If the key has no
  index, it fails with NotFound.
- `GetSeriesIDsForTag` (`InvertedIndex.GetSeriesIDsForTag`) returns every series under
  one tag key. If the key has no index, it fails with NotFound.
- `GetGroupingContext` (`InvertedIndex.GetGroupingContext`) checks the requested tag
  keys in order. If any key is missing, it fails with NotFound and returns no context.
  Otherwise it returns a context with one entry set per requested key, in the requested
  order.
- `buildInvertIndex` (`InvertedIndex.BuildInvertIndex`) is the write path. For each tag,
  in no particular order, it does the following:
  - It resolves the key ID through the metadata service. On failure it skips the tag.
  - It creates the key's tag index if the key has none yet.
  - It resolves the value ID. On failure it skips the tag, but the key keeps its index.
  - It adds the series under that value.

  The operation returns no error.

Files and modules:

- `types.dfy` (`Types`): 32-bit IDs, `Option`, `Result` and the error kinds.
- `tag_index.dfy` (`TagIndexes`): the tag index as a value.
  - Its union invariant is `Valid`.
  - Its operations are `BuildInvertedIndex`, `GetSeriesIDsByTagValueIDs` and
    `GetAllSeriesIDs`.
  - `InsertAll` inserts one series under a set of values at once.
- `tag_index_store.dfy` (`TagIndexStores`): the store, a class with a `Get` function and
  a `Put` method. Its contents have type `Store` and its invariant is `ValidStore`.
- `metadata.dfy` (`Metadb`): the metadata service, as two ID generators that can fail.
- `query.dfy` (`Query`): the group context and its entry sets.
- `build_spec.dfy` (`BuildSpec`): `Built`, the store that one build call leaves.
  - `Built` does not depend on the order in which the tags are visited, provided the
    metadata service's answers do not depend on the order or number of its requests.
  - Three step lemmas state what one loop iteration does, one per branch of the Go loop.
- `build_properties.dfy` (`BuildProperties`): properties of `Built`.
- `inverted_index.dfy` (`InvertedIndexes`): the `InvertedIndex` class.
  - `BuildInvertIndex` is proved to leave exactly the store `Built` describes.
- `scenario.dfy` (`Scenario`): a worked example with two series and lookups on them.
  It is proved on `Built`, and proved again through the `InvertedIndex` class's methods
  (`BuildExample`, `LookupExample`, `ExampleThroughFacade`).

The read operations are functions, so they cannot change the store.
`GetGroupingContext` is a method without a `modifies` clause, so it cannot change the
store either.

## Model

| member | source | states |
|---|---|---|
| `TagIndexes.BuildInvertedIndex` | tsdb/indexdb/inverted_index.go:103 | The series is added under the tag value. The value's set is created if absent. Every other value's set is unchanged, and the union of all series gains exactly the series. |
| `TagIndexes.BuildInvertedIndexValid` | tsdb/indexdb/inverted_index.go:103 | Inserting a series keeps the union invariant: allSeries is the union of the value sets. |
| `TagIndexes.BuildInvertedIndexIdempotent` | tsdb/indexdb/inverted_index.go:103 | Inserting the same (value, series) pair twice gives the same index as inserting it once. |
| `TagIndexes.GetSeriesIDsByTagValueIDs` | tsdb/indexdb/inverted_index.go:47 | A series is in the result if and only if it is under a requested value that has an entry. Requested values without an entry add nothing. On a valid index, the result is within the union of all series. |
| `TagIndexes.GetAllSeriesIDs` | tsdb/indexdb/inverted_index.go:56 | On a valid index, the result is the union of the series under every tag value. |
| `TagIndexes.AllTagValuesGiveAllSeries` | tsdb/indexdb/inverted_index.go:47-56 | Asking for every value of a valid index gives the same set as the all-series lookup. |
| `TagIndexes.GetSeriesIDsByTagValueIDsMonotonic` | tsdb/indexdb/inverted_index.go:47 | Asking for more tag values never gives fewer series. |
| `TagIndexStores.TagIndexStore.constructor` | tsdb/indexdb/inverted_index.go:37 | A new store (`NewTagIndexStore()`) holds no tag keys and is valid. |
| `TagIndexStores.TagIndexStore.Get` | tsdb/indexdb/inverted_index.go:43-44 | It finds an index if and only if the tag key has one, and then it is exactly the stored index. |
| `TagIndexStores.TagIndexStore.Put` | tsdb/indexdb/inverted_index.go:94 | The key maps to the given index afterwards and every other key keeps its index. An existing entry is overwritten, unlike an insert-if-absent put. At line 94 the key has no entry yet. `BuildInvertIndex` overwrites only to write the updated tag index back, as the Left-out line on `BuildInvertIndex` describes. |
| `TagIndexes.NewTagIndex` | tsdb/indexdb/inverted_index.go:93 | A new tag index has no tag values and no series, and keeps the union invariant. |
| `Query.NewGroupContext` | tsdb/indexdb/inverted_index.go:61 | The context has exactly n slots, all empty. |
| `Query.NewTagValuesEntrySet` | tsdb/indexdb/inverted_index.go:68 | The entry set is labelled with the tag key it was created for. |
| `Query.SetTagValuesEntrySet` | tsdb/indexdb/inverted_index.go:69 | Slot idx holds the entry set afterwards. The number of slots and every other slot are unchanged. |
| `InvertedIndexes.InvertedIndex.constructor` | tsdb/indexdb/inverted_index.go:34-39 | A new index keeps the given metadata service, has a fresh empty store and is valid. |
| `InvertedIndexes.InvertedIndex.GetSeriesIDsByTagValueIDs` | tsdb/indexdb/inverted_index.go:42-48 | It returns NotFound if and only if the tag key has no index. Otherwise, a series is in the result if and only if it is under a requested value of that key. |
| `InvertedIndexes.InvertedIndex.GetSeriesIDsForTag` | tsdb/indexdb/inverted_index.go:51-57 | It returns NotFound if and only if the tag key has no index. Otherwise it returns the key's maintained union, which on a valid index is the union of all its value sets. |
| `InvertedIndexes.InvertedIndex.GetGroupingContext` | tsdb/indexdb/inverted_index.go:59-76 | It fails with NotFound, and returns no context, if and only if some requested key has no index. On success the context has exactly one slot per requested key, and slot i holds the entry set created for the i-th requested key. |
| `InvertedIndexes.InvertedIndex.BuildInvertIndex` | tsdb/indexdb/inverted_index.go:80-105 | Whatever order the tags are visited in, the store ends equal to `Built` of the old store, and the union invariant still holds. |
| `BuildSpec.BuiltStepKeyFails` | tsdb/indexdb/inverted_index.go:84-90 | A tag whose key ID cannot be generated leaves the store unchanged. |
| `BuildSpec.BuiltStepValueFails` | tsdb/indexdb/inverted_index.go:91-102 | A tag whose key resolves but whose value does not leaves the store unchanged if the key already has an index. Otherwise it adds an empty index for the key. |
| `BuildSpec.BuiltStepIndexes` | tsdb/indexdb/inverted_index.go:91-103 | A tag whose key and value both resolve adds the series under that value, in the key's existing index or in a new empty one. |
| `BuildSpec.BuiltNoTags` | tsdb/indexdb/inverted_index.go:83 | A nil or empty tag map leaves the store unchanged. |
| `BuildSpec.BuiltValid` | tsdb/indexdb/inverted_index.go:91-103 | After a build, every tag index in the store still keeps the union invariant. |
| `BuildProperties.BuiltIndexesResolvedTag` | tsdb/indexdb/inverted_index.go:83-104 | For every tag whose key ID and value ID both resolve, the key has an index afterwards, and the series is found under that value and in the key's union. |
| `BuildProperties.BuiltKeepsKeyWithoutValue` | tsdb/indexdb/inverted_index.go:91-102 | A key that resolves has an index afterwards even if none of its values resolve. That index is the old one, or a new empty one. |
| `BuildProperties.BuiltSkipsFailedKey` | tsdb/indexdb/inverted_index.go:84-90 | A tag whose key ID fails is skipped. The other tags are indexed exactly as if it were absent. |
| `BuildProperties.BuiltOnlyGrows` | tsdb/indexdb/inverted_index.go:91-95 | An existing tag index is kept. None of its values and none of its series are removed. |
| `BuildProperties.BuiltAddsOnlyTheSeries` | tsdb/indexdb/inverted_index.go:83-104 | Each new key comes from a tag that resolves to it. Each value set and each union grows by at most the given series. |
| `BuildProperties.BuiltIdempotent` | tsdb/indexdb/inverted_index.go:103 | Under one fixed metadata service, building the same series with the same tags twice leaves the same store as building it once. |
| `BuildProperties.BuildsCommute` | tsdb/indexdb/inverted_index.go:80-105 | Under one fixed metadata service, two build calls for two series leave the same store in either order. |
| `Scenario.ExampleLookups` | tsdb/indexdb/inverted_index.go:42-57 | Build series 10 with {region: us, env: prod} and series 11 with {region: eu}, where region=1, us=100 and eu=101. Then values {100} give {10}, values {100, 101} give {10, 11}, and the whole of key 1 gives {10, 11}. |
| `Scenario.LookupExample` | tsdb/indexdb/inverted_index.go:42-57 | On an index whose store is the example store, the facade lookups return Ok({10}) for values {100}, Ok({10, 11}) for values {100, 101} and Ok({10, 11}) for the whole of key 1. |
| `Scenario.ExampleThroughFacade` | tsdb/indexdb/inverted_index.go:34-57 | A new index is created, both example series are built with `BuildInvertIndex`, and the three lookups then return Ok({10}), Ok({10, 11}) and Ok({10, 11}). |

## Left out

- `FlushInvertedIndexTo` (lines 108-130) is not modelled. Its body is commented out and it panics, so there is no behaviour to model. The ascending-key flush order it would need is not implemented in the code.
- The doc comments at lines 22-23 and 78-79 say that nil tags count as one empty key-value pair. The loop at line 83 does nothing for a nil or empty map. The model follows the loop (`BuildSpec.BuiltNoTags`), so no sentinel key is indexed.
- The tag index and the tag-index store are defined outside `inverted_index.go` and their implementations are not modelled; they are modelled by their observable behaviour:
  - a tag index is a map from value ID to a set of series plus a maintained union;
  - the store is a map from key ID to tag index;
  - roaring bitmaps are mathematical sets.
- InvertedIndexes.InvertedIndex.BuildInvertIndex: works on tag indexes as values. Go mutates the tag index in place through the pointer it got from the store. The model writes the updated index back with a second `Put`. Each key gets its own new tag index, so no two keys share one, and the resulting store is the same.
- The metadata service (`MetadataDatabase().GenTagKeyID`, `TagMetadata().GenTagValueID`, lines 84 and 96) is modelled as two functions that can fail, fixed for the whole lifetime of the index. The real service is stateful: it mints IDs, so the ID a new key or value gets can depend on the order of requests within one call and across calls, and a failure may be transient and succeed on a later call. None of that is modelled.
- BuildSpec.Built: its independence of the order in which tags are visited holds only for a metadata service whose answers do not depend on the order or number of requests.
- BuildProperties.BuiltIdempotent: holds only for a metadata service whose answers do not depend on the order or number of requests. A tag that fails on the first call and resolves on the second is not covered.
- BuildProperties.BuildsCommute: holds only for a metadata service whose answers do not depend on the order or number of requests. With a service that mints IDs in registration order, the two orders can assign different IDs.
- `query.NewTagValuesEntrySet` takes no argument in Go and holds nothing yet, because the `SetTagValues` call at line 71 is commented out. The model labels each entry set with the key it was created for, so that slot order can be observed.
- InvertedIndexes.InvertedIndex.GetSeriesIDsForTag: returns a snapshot of the key's series set as a value. In Go, `getAllSeriesIDs` hands out the tag index's maintained bitmap itself, as a read-only view. A caller's result therefore keeps growing with later builds, and a caller that writes to it corrupts the union. This sharing is not modelled.
- InvertedIndexes.InvertedIndex.GetGroupingContext: says that it fails when some key is missing. It does not say which key was checked first. The error value is the same whichever key is missing.
- Logging through `indexLogger` (lines 87-88 and 99-100) is left out. The errors it records are not returned to the caller, and the model does not return them either.
- Locking and concurrent writers and readers are left out. Nothing in this file synchronises. `BuildProperties.BuildsCommute` states only that sequential builds can run in any order.
- IDs are 32-bit (`Types.uint32`). No ID arithmetic is done, so nothing can wrap around.
