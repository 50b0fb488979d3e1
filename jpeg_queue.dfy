/** The hand-off between the JPEG encoder thread and the uploader in
    `Esp32Camera::Explain`: a FreeRTOS queue of `JpegChunk`s created with
    room for 40 entries, filled by the encoder's chunk callback and emptied
    by the uploader's receive loop. */
module JpegQueue {
  import opened Common

  /** `JpegChunk { data, len }`. The encoder copies `len` bytes into a
      freshly allocated buffer; a chunk whose `data` is null is the only
      end-of-stream marker the uploader recognises. */
  datatype JpegChunk = JpegChunk(data: Option<seq<Byte>>, len: nat)
  {
    /** The copy holds exactly `len` bytes. */
    predicate Valid() { data.Some? ==> |data.value| == len }
  }

  /** `xQueueCreate(40, sizeof(JpegChunk))`. */
  const QueueLength: nat := 40

  /** The queue together with the encoder thread that feeds it.
      `items` are the chunks in the queue, oldest first; `pending` are the
      chunks the encoder has still to send, in the order it will send them.
      A send while `items` is full blocks the encoder; a receive while
      `items` is empty blocks the uploader until the encoder sends. */
  class ChunkQueue {
    const capacity: nat
    var items: seq<JpegChunk>
    var pending: seq<JpegChunk>

    ghost predicate Valid()
      reads this
    {
      0 < capacity && |items| <= capacity
    }

    /** Everything still to be received, in FIFO order. */
    function Stream(): seq<JpegChunk>
      reads this
    {
      items + pending
    }

    constructor (capacity: nat, encoded: seq<JpegChunk>)
      requires 0 < capacity
      ensures Valid()
      ensures this.capacity == capacity && items == [] && pending == encoded
    {
      this.capacity := capacity;
      items := [];
      pending := encoded;
    }

    /** One `xQueueSend(jpeg_queue, &chunk, portMAX_DELAY)` of the encoder
        that finds a free slot. */
    method Produce()
      requires Valid() && pending != [] && |items| < capacity
      modifies this`items, this`pending
      ensures Valid()
      ensures items == old(items) + [old(pending)[0]] && pending == old(pending)[1..]
      ensures Stream() == old(Stream())
    {
      items := items + [pending[0]];
      pending := pending[1..];
    }

    /** `xQueueReceive(jpeg_queue, &chunk, portMAX_DELAY)`: when the queue is
        empty the encoder runs until it has sent the next chunk. `None` means
        neither side can move again: the queue is empty and the encoder has
        nothing left to send, so the receive blocks for ever. */
    method Receive() returns (c: Option<JpegChunk>)
      requires Valid()
      modifies this`items, this`pending
      ensures Valid()
      ensures old(Stream()) == [] ==> c == None && Stream() == []
      ensures old(Stream()) != [] ==> c == Some(old(Stream())[0]) && Stream() == old(Stream())[1..]
    {
      if items == [] {
        if pending == [] {
          return None;
        }
        Produce();
      }
      c := Some(items[0]);
      items := items[1..];
    }

    /** `encoder_thread_.join()` with no receiver: the encoder keeps sending
        while there is room. It finishes, and the join returns, exactly when
        everything it still has to send fits in the queue. */
    method JoinEncoder() returns (joined: bool)
      requires Valid()
      modifies this`items, this`pending
      ensures Valid() && Stream() == old(Stream())
      ensures joined <==> |old(Stream())| <= capacity
      ensures joined ==> pending == [] && items == old(Stream())
    {
      while pending != [] && |items| < capacity
        invariant Valid() && Stream() == old(Stream())
        decreases |pending|
      {
        Produce();
      }
      joined := pending == [];
    }
  }
}
