/** The binary stream a channel writes and reads, seen as the sequence of (key, message) records it holds. */
module BinStream {
  datatype Record<M> = Record(key: int, msg: M)

  type BinStream<M> = seq<Record<M>>
}
