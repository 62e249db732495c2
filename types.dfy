/** Identifiers, optional values and error results shared by the index modules. */
module Types {

  /** Go's uint32: series, tag-key and tag-value IDs are all 32-bit unsigned. */
  newtype uint32 = x: int | 0 <= x < 0x1_0000_0000

  type SeriesID = uint32
  type TagKeyID = uint32
  type TagValueID = uint32

  datatype Option<T> = None | Some(value: T)

  /** ErrNotFound is constants.ErrNotFound; ErrMetadata stands for any error of the metadata service. */
  datatype Error = ErrNotFound | ErrMetadata

  datatype Result<T> = Ok(value: T) | Err(error: Error)
}
