/**
 * A worked example: series 10 with tags {region: us, env: prod} and series 11 with
 * tags {region: eu}, where region has key ID 1, us value ID 100 and eu value ID 101.
 */
module Scenario {
  import opened Types
  import opened TagIndexes
  import opened Metadb
  import opened TagIndexStores
  import opened BuildSpec
  import opened InvertedIndexes

  /** A metadata service that knows the tag keys region and env and their values. */
  function ExampleMetadata(): Metadata
  {
    Metadata(
      (namespace: string, metricName: string, tagKey: string) =>
        if tagKey == "region" then Ok(1) else if tagKey == "env" then Ok(2) else Err(ErrMetadata),
      (tagKeyID: TagKeyID, tagValue: string) =>
        if tagKeyID == 1 && tagValue == "us" then Ok(100)
        else if tagKeyID == 1 && tagValue == "eu" then Ok(101)
        else if tagKeyID == 2 && tagValue == "prod" then Ok(200)
        else Err(ErrMetadata))
  }

  function FirstTags(): map<string, string> { map["region" := "us", "env" := "prod"] }

  function SecondTags(): map<string, string> { map["region" := "eu"] }

  /** The store both builds leave, as the build specification describes it. */
  function ExampleStore(): Store
  {
    Built(Built(map[], ExampleMetadata(), "db", "cpu", FirstTags(), 10), ExampleMetadata(), "db", "cpu", SecondTags(), 11)
  }

  /** Under region, series 10 is built with value us only. */
  lemma FirstAdds()
    ensures 1 in TouchedKeys(ExampleMetadata(), "db", "cpu", FirstTags())
    ensures AddedValues(ExampleMetadata(), "db", "cpu", FirstTags(), 1) == {100}
  {
    var md, tags := ExampleMetadata(), FirstTags();
    assert "region" in tags && tags["region"] == "us";
    assert md.genTagKeyID("db", "cpu", "region") == Ok(1);
    assert md.genTagValueID(1, "us") == Ok(100);
    forall t | t in tags && md.genTagKeyID("db", "cpu", t) == Ok(1) ensures t == "region" { }
  }

  /** Under region, series 11 is built with value eu only. */
  lemma SecondAdds()
    ensures AddedValues(ExampleMetadata(), "db", "cpu", SecondTags(), 1) == {101}
  {
    var md, tags := ExampleMetadata(), SecondTags();
    assert "region" in tags && tags["region"] == "eu";
    assert md.genTagKeyID("db", "cpu", "region") == Ok(1);
    assert md.genTagValueID(1, "eu") == Ok(101);
    forall t | t in tags ensures t == "region" { }
  }

  /** The region index after both series: us => {10}, eu => {11}, all => {10, 11}. */
  lemma ExampleRegionIndex()
    ensures var index := InsertAll(InsertAll(NewTagIndex(), {100}, 10), {101}, 11);
            && index.values == map[100 := {10}, 101 := {11}]
            && index.allSeries == {10, 11}
  {
    var index1 := InsertAll(NewTagIndex(), {100}, 10);
    var index := InsertAll(index1, {101}, 11);
    forall v ensures (v in index.values <==> v == 100 || v == 101)
                  && Lookup(index.values, v) == Lookup(map[100 := {10}, 101 := {11}], v) {
      LookupInsertAll(NewTagIndex(), {100}, 10, v);
      LookupInsertAll(index1, {101}, 11, v);
    }
    ValuesAgree(index.values, map[100 := {10}, 101 := {11}]);
  }

  /** The lookups of the worked example on the region index. */
  lemma RegionLookups(index: TagIndex)
    requires index.values == map[100 := {10}, 101 := {11}] && index.allSeries == {10, 11}
    ensures GetSeriesIDsByTagValueIDs(index, {100}) == {10}
    ensures GetSeriesIDsByTagValueIDs(index, {100, 101}) == {10, 11}
    ensures GetAllSeriesIDs(index) == {10, 11}
  {
    assert 10 in index.values[100] && 11 in index.values[101];
  }

  /** The lookups of the worked example, on the store both builds leave. */
  lemma ExampleLookups()
    ensures var both := ExampleStore();
            && 1 in both
            && GetSeriesIDsByTagValueIDs(both[1], {100}) == {10}
            && GetSeriesIDsByTagValueIDs(both[1], {100, 101}) == {10, 11}
            && GetAllSeriesIDs(both[1]) == {10, 11}
  {
    var md := ExampleMetadata();
    var first := Built(map[], md, "db", "cpu", FirstTags(), 10);
    var both := Built(first, md, "db", "cpu", SecondTags(), 11);
    FirstAdds();
    SecondAdds();
    BuiltAt(map[], md, "db", "cpu", FirstTags(), 10, 1);
    BuiltAt(first, md, "db", "cpu", SecondTags(), 11, 1);
    assert both[1] == InsertAll(InsertAll(NewTagIndex(), {100}, 10), {101}, 11);
    ExampleRegionIndex();
    RegionLookups(both[1]);
  }

  /** A new index over the example metadata service, with series 10 and then 11 built into it. */
  method BuildExample() returns (index: InvertedIndex)
    ensures fresh(index) && fresh(index.store)
    ensures index.metadata == ExampleMetadata()
    ensures index.Valid()
    ensures index.store.indexes == ExampleStore()
  {
    index := new InvertedIndex(ExampleMetadata());
    index.BuildInvertIndex("db", "cpu", FirstTags(), 10);
    index.BuildInvertIndex("db", "cpu", SecondTags(), 11);
  }

  /** The lookups of the worked example, asked through the facade of an index holding the example store. */
  method LookupExample(index: InvertedIndex) returns (byUs: Result<set<SeriesID>>, byRegion: Result<set<SeriesID>>, forTag: Result<set<SeriesID>>)
    requires index.store.indexes == ExampleStore()
    ensures byUs == Ok({10})
    ensures byRegion == Ok({10, 11})
    ensures forTag == Ok({10, 11})
  {
    ExampleLookups();
    byUs := index.GetSeriesIDsByTagValueIDs(1, {100});
    byRegion := index.GetSeriesIDsByTagValueIDs(1, {100, 101});
    forTag := index.GetSeriesIDsForTag(1);
  }

  /** The worked example end to end: build both series through the facade, then look them up. */
  method ExampleThroughFacade() returns (byUs: Result<set<SeriesID>>, byRegion: Result<set<SeriesID>>, forTag: Result<set<SeriesID>>)
    ensures byUs == Ok({10})
    ensures byRegion == Ok({10, 11})
    ensures forTag == Ok({10, 11})
  {
    var index := BuildExample();
    byUs, byRegion, forTag := LookupExample(index);
  }
}
