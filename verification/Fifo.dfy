/** What p3-concurrent-channels/buffer.c promises, on the sequence of messages in
    the buffer.  RingBuffer.dfy proves the in-place ring against these functions;
    ChannelModel.dfy uses them. */
module Fifo {
  type Message = int

  /** The value buffer_remove returns for an empty buffer, `(void *) -1L`. */
  const BUFFER_EMPTY: Message := -1

  /** buffer_add: whether the value was added, and the new contents. */
  function Add(contents: seq<Message>, capacity: nat, data: Message): (bool, seq<Message>) {
    if |contents| >= capacity then (false, contents) else (true, contents + [data])
  }

  /** buffer_remove: the value returned, and the new contents. */
  function Remove(contents: seq<Message>): (Message, seq<Message>) {
    if contents == [] then (BUFFER_EMPTY, []) else (contents[0], contents[1..])
  }
}
