/**
 * The index of one tag key: tag-value ID => series IDs, plus the union of all its
 * series, kept up to date on every insertion.
 */
module TagIndexes {
  import opened Types

  datatype TagIndex = TagIndex(values: map<TagValueID, set<SeriesID>>, allSeries: set<SeriesID>)
  {
    /** The union invariant: allSeries is exactly the series under some tag value. */
    ghost predicate Valid()
    {
      allSeries == UnionOf(values)
    }
  }

  /** The series found under any tag value of `values`. */
  function UnionOf(values: map<TagValueID, set<SeriesID>>): (r: set<SeriesID>)
    ensures forall v, s :: v in values && s in values[v] ==> s in r
    ensures forall s :: s in r ==> exists v :: v in values && s in values[v]
  {
    set v, s | v in values && s in values[v] :: s
  }

  /** The series under tag value `v`, empty when `v` has no entry. */
  function Lookup(values: map<TagValueID, set<SeriesID>>, v: TagValueID): set<SeriesID>
  {
    if v in values then values[v] else {}
  }

  /** newTagIndex(): no tag values and no series. */
  function NewTagIndex(): (t: TagIndex)
    ensures t.Valid()
    ensures t.values == map[] && t.allSeries == {}
  {
    TagIndex(map[], {})
  }

  /**
   * buildInvertedIndex(tagValueID, seriesID): adds the series under the tag value,
   * creating the value's set when absent, and to the union of all series.
   */
  function BuildInvertedIndex(t: TagIndex, tagValueID: TagValueID, seriesID: SeriesID): (r: TagIndex)
    ensures r.values.Keys == t.values.Keys + {tagValueID}
    ensures r.values[tagValueID] == Lookup(t.values, tagValueID) + {seriesID}
    ensures forall v :: v in t.values && v != tagValueID ==> r.values[v] == t.values[v]
    ensures r.allSeries == t.allSeries + {seriesID}
  {
    TagIndex(t.values[tagValueID := Lookup(t.values, tagValueID) + {seriesID}], t.allSeries + {seriesID})
  }

  /** buildInvertedIndex keeps the union invariant. */
  lemma BuildInvertedIndexValid(t: TagIndex, tagValueID: TagValueID, seriesID: SeriesID)
    requires t.Valid()
    ensures BuildInvertedIndex(t, tagValueID, seriesID).Valid()
  {
    var r := BuildInvertedIndex(t, tagValueID, seriesID);
    forall s | s in UnionOf(r.values) ensures s in r.allSeries {
      var v :| v in r.values && s in r.values[v];
      if v != tagValueID { assert s in UnionOf(t.values); }
    }
    assert seriesID in r.values[tagValueID];
  }

  /** Inserting the same (tag value, series) pair twice is the same as inserting it once. */
  lemma BuildInvertedIndexIdempotent(t: TagIndex, tagValueID: TagValueID, seriesID: SeriesID)
    ensures BuildInvertedIndex(BuildInvertedIndex(t, tagValueID, seriesID), tagValueID, seriesID)
         == BuildInvertedIndex(t, tagValueID, seriesID)
  {
    var once := BuildInvertedIndex(t, tagValueID, seriesID);
    var twice := BuildInvertedIndex(once, tagValueID, seriesID);
    assert twice.values == once.values;
  }

  /**
   * getSeriesIDsByTagValueIDs(tagValueIDs): the union of the sets of the requested tag
   * values that have an entry; values without an entry contribute nothing.
   */
  function GetSeriesIDsByTagValueIDs(t: TagIndex, tagValueIDs: set<TagValueID>): (r: set<SeriesID>)
    ensures forall v, s :: v in tagValueIDs && v in t.values && s in t.values[v] ==> s in r
    ensures forall s :: s in r ==> exists v :: v in tagValueIDs && v in t.values && s in t.values[v]
    ensures t.Valid() ==> r <= t.allSeries
  {
    set v, s | v in tagValueIDs && v in t.values && s in t.values[v] :: s
  }

  /** getAllSeriesIDs(): the maintained union of all series under the tag key. */
  function GetAllSeriesIDs(t: TagIndex): (r: set<SeriesID>)
    ensures t.Valid() ==> r == UnionOf(t.values)
  {
    t.allSeries
  }

  /** Asking for every tag value of a valid index gives its whole series set. */
  lemma AllTagValuesGiveAllSeries(t: TagIndex, tagValueIDs: set<TagValueID>)
    requires t.Valid()
    requires t.values.Keys <= tagValueIDs
    ensures GetSeriesIDsByTagValueIDs(t, tagValueIDs) == GetAllSeriesIDs(t)
  {
    forall s | s in GetAllSeriesIDs(t) ensures s in GetSeriesIDsByTagValueIDs(t, tagValueIDs) {
      var v :| v in t.values && s in t.values[v];
    }
  }

  /** Asking for more tag values never gives fewer series. */
  lemma GetSeriesIDsByTagValueIDsMonotonic(t: TagIndex, fewer: set<TagValueID>, more: set<TagValueID>)
    requires fewer <= more
    ensures GetSeriesIDsByTagValueIDs(t, fewer) <= GetSeriesIDsByTagValueIDs(t, more)
  {
    forall s | s in GetSeriesIDsByTagValueIDs(t, fewer) ensures s in GetSeriesIDsByTagValueIDs(t, more) {
      var v :| v in fewer && v in t.values && s in t.values[v];
    }
  }

  /**
   * The index after inserting `seriesID` under every tag value of `tagValueIDs`
   * (the net effect of one build call on one tag key).
   */
  function InsertAll(t: TagIndex, tagValueIDs: set<TagValueID>, seriesID: SeriesID): (r: TagIndex)
  {
    TagIndex(
      map v | v in t.values.Keys + tagValueIDs :: Lookup(t.values, v) + (if v in tagValueIDs then {seriesID} else {}),
      if tagValueIDs == {} then t.allSeries else t.allSeries + {seriesID})
  }

  /** What InsertAll leaves under one tag value. */
  lemma LookupInsertAll(t: TagIndex, tagValueIDs: set<TagValueID>, seriesID: SeriesID, v: TagValueID)
    ensures v in InsertAll(t, tagValueIDs, seriesID).values <==> v in t.values || v in tagValueIDs
    ensures Lookup(InsertAll(t, tagValueIDs, seriesID).values, v)
         == Lookup(t.values, v) + (if v in tagValueIDs then {seriesID} else {})
  {
  }

  /** Two value maps with the same keys and the same sets under every key are equal. */
  lemma ValuesAgree(a: map<TagValueID, set<SeriesID>>, b: map<TagValueID, set<SeriesID>>)
    requires forall v :: (v in a <==> v in b) && Lookup(a, v) == Lookup(b, v)
    ensures a == b
  {
    assert a.Keys == b.Keys;
    forall v | v in a ensures a[v] == b[v] {
      assert Lookup(a, v) == Lookup(b, v);
    }
  }

  /** Inserting under no tag value changes nothing. */
  lemma InsertAllNone(t: TagIndex, seriesID: SeriesID)
    ensures InsertAll(t, {}, seriesID) == t
  {
    var r := InsertAll(t, {}, seriesID);
    assert r.values.Keys == t.values.Keys;
    forall v | v in t.values ensures r.values[v] == t.values[v] {
      assert Lookup(t.values, v) == t.values[v];
    }
    assert r.values == t.values;
  }

  /** Inserting under one more tag value is one more buildInvertedIndex call. */
  lemma InsertAllOneMore(t: TagIndex, tagValueIDs: set<TagValueID>, tagValueID: TagValueID, seriesID: SeriesID)
    ensures InsertAll(t, tagValueIDs + {tagValueID}, seriesID)
         == BuildInvertedIndex(InsertAll(t, tagValueIDs, seriesID), tagValueID, seriesID)
  {
    var all := InsertAll(t, tagValueIDs, seriesID);
    var lhs := InsertAll(t, tagValueIDs + {tagValueID}, seriesID);
    var rhs := BuildInvertedIndex(all, tagValueID, seriesID);
    forall v ensures (v in lhs.values <==> v in rhs.values) && Lookup(lhs.values, v) == Lookup(rhs.values, v) {
      LookupInsertAll(t, tagValueIDs + {tagValueID}, seriesID, v);
      LookupInsertAll(t, tagValueIDs, seriesID, v);
    }
    ValuesAgree(lhs.values, rhs.values);
  }

  /** InsertAll keeps the union invariant. */
  lemma InsertAllValid(t: TagIndex, tagValueIDs: set<TagValueID>, seriesID: SeriesID)
    requires t.Valid()
    ensures InsertAll(t, tagValueIDs, seriesID).Valid()
  {
    var r := InsertAll(t, tagValueIDs, seriesID);
    forall s | s in UnionOf(r.values) ensures s in r.allSeries {
      var v :| v in r.values && s in r.values[v];
      if s != seriesID { assert s in UnionOf(t.values); }
    }
    forall s | s in r.allSeries ensures s in UnionOf(r.values) {
      if s in t.allSeries {
        var v :| v in t.values && s in t.values[v];
        assert s in r.values[v];
      } else {
        var v :| v in tagValueIDs;
        assert s in r.values[v];
      }
    }
  }

  /** Two InsertAll calls for (possibly different) series commute. */
  lemma InsertAllCommutes(t: TagIndex, a: set<TagValueID>, sa: SeriesID, b: set<TagValueID>, sb: SeriesID)
    ensures InsertAll(InsertAll(t, a, sa), b, sb) == InsertAll(InsertAll(t, b, sb), a, sa)
  {
    var ta, tb := InsertAll(t, a, sa), InsertAll(t, b, sb);
    var ab, ba := InsertAll(ta, b, sb), InsertAll(tb, a, sa);
    assert ab.values == ba.values by {
      forall v ensures (v in ab.values <==> v in ba.values) && Lookup(ab.values, v) == Lookup(ba.values, v) {
        LookupInsertAll(t, a, sa, v);
        LookupInsertAll(t, b, sb, v);
        LookupInsertAll(ta, b, sb, v);
        LookupInsertAll(tb, a, sa, v);
      }
      ValuesAgree(ab.values, ba.values);
    }
  }

  /** Inserting the same series under the same tag values twice is inserting it once. */
  lemma InsertAllIdempotent(t: TagIndex, tagValueIDs: set<TagValueID>, seriesID: SeriesID)
    ensures InsertAll(InsertAll(t, tagValueIDs, seriesID), tagValueIDs, seriesID) == InsertAll(t, tagValueIDs, seriesID)
  {
    var once := InsertAll(t, tagValueIDs, seriesID);
    var twice := InsertAll(once, tagValueIDs, seriesID);
    assert twice.values == once.values by {
      forall v ensures (v in twice.values <==> v in once.values) && Lookup(twice.values, v) == Lookup(once.values, v) {
        LookupInsertAll(t, tagValueIDs, seriesID, v);
        LookupInsertAll(once, tagValueIDs, seriesID, v);
      }
      ValuesAgree(twice.values, once.values);
    }
  }
}
