/** The metadata collaborator that mints tag-key and tag-value IDs. */
module Metadb {
  import opened Types

  /**
   * GenTagKeyID(namespace, metricName, tagKey) and GenTagValueID(tagKeyID, tagValue),
   * each of which may fail. The service is an oracle fixed for the lifetime of the index that holds it.
   */
  datatype Metadata = Metadata(
    genTagKeyID: (string, string, string) -> Result<TagKeyID>,
    genTagValueID: (TagKeyID, string) -> Result<TagValueID>)
}
