/** The parts of the query package the grouping context is built from. */
module Query {
  import opened Types

  /**
   * A per-tag-key entry set. It holds no tag values yet; the model labels it with the
   * tag key it was created for, so that the slot a key lands in can be observed.
   */
  datatype TagValuesEntrySet = TagValuesEntrySet(tagKeyID: TagKeyID)

  /** A group-by context: one slot per requested tag key, empty until set. */
  datatype GroupContext = GroupContext(entrySets: seq<Option<TagValuesEntrySet>>)

  function NewTagValuesEntrySet(tagKeyID: TagKeyID): (e: TagValuesEntrySet)
    ensures e.tagKeyID == tagKeyID
  {
    TagValuesEntrySet(tagKeyID)
  }

  /** NewGroupContext(n): n empty slots. */
  function NewGroupContext(n: nat): (g: GroupContext)
    ensures |g.entrySets| == n
    ensures forall i :: 0 <= i < n ==> g.entrySets[i] == None
  {
    GroupContext(seq(n, _ => None))
  }

  /** SetTagValuesEntrySet(idx, e): fills slot idx and leaves every other slot alone. */
  function SetTagValuesEntrySet(g: GroupContext, idx: nat, e: TagValuesEntrySet): (r: GroupContext)
    requires idx < |g.entrySets|
    ensures |r.entrySets| == |g.entrySets|
    ensures r.entrySets[idx] == Some(e)
    ensures forall i :: 0 <= i < |g.entrySets| && i != idx ==> r.entrySets[i] == g.entrySets[i]
  {
    GroupContext(g.entrySets[idx := Some(e)])
  }
}
