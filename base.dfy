/** Small shared vocabulary: optional values and bytes. */
module Base {

  /** Python's `None`-or-value. */
  datatype Option<T> = None | Some(value: T)

  /** One octet of a socket stream (Python `bytes` element). */
  type Byte = b: int | 0 <= b < 256

  /** The concatenation of a sequence of chunks (`b''.join(chunks)`). */
  function Flatten<T>(chunks: seq<seq<T>>): (r: seq<T>)
  {
    if chunks == [] then [] else Flatten(chunks[..|chunks| - 1]) + chunks[|chunks| - 1]
  }

  lemma FlattenAppend<T>(chunks: seq<seq<T>>, c: seq<T>)
    ensures Flatten(chunks + [c]) == Flatten(chunks) + c
  {
    assert (chunks + [c])[..|chunks|] == chunks;
  }
}
