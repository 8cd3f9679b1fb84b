/** The mailbox, seen only through what it has been handed to send. */
module Mailbox {
  import opened BinStream

  /** One `send(dst, channel_id, progress, bin)`. */
  datatype Delivery<M> = Delivery(dst: nat, channelId: nat, progress: nat, bin: BinStream<M>)

  class Mailbox<M> {
    /** Every buffer handed to the transport, in the order of the calls; it only grows. */
    ghost var log: seq<Delivery<M>>

    constructor ()
      ensures log == []
    {
      log := [];
    }

    method Send(dst: nat, channelId: nat, progress: nat, bin: BinStream<M>)
      modifies this
      ensures log == old(log) + [Delivery(dst, channelId, progress, bin)]
    {
      log := log + [Delivery(dst, channelId, progress, bin)];
    }
  }
}
