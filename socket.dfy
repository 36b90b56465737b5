/**
 * A client connection as the connection handler sees it. What the peer sends is a list of
 * chunks, each one what a single `recv` could be handed; an empty chunk, or the end of the
 * list, stands for the peer closing the connection, the read timing out or the read failing,
 * all of which end a read loop the same way. Nothing arrives after that point.
 */
module Socket {
  import opened Bytes

  /** The bytes the peer will still deliver: the chunks up to the first empty one. */
  function Available(chunks: seq<seq<byte>>): seq<byte> {
    if chunks == [] || chunks[0] == [] then [] else chunks[0] + Available(chunks[1..])
  }

  class Connection {
    /** Chunks not yet received. */
    var pending: seq<seq<byte>>
    /** Everything written with `sendall`. */
    var sent: seq<byte>
    var closed: bool

    constructor (chunks: seq<seq<byte>>)
      ensures pending == chunks && sent == [] && !closed
    {
      pending := chunks;
      sent := [];
      closed := false;
    }

    /**
     * `conn.recv(max)`: at most `max` of the bytes still to come, in order, and no bytes
     * only once the peer has nothing more to deliver.
     */
    method Recv(max: nat) returns (data: seq<byte>)
      requires max > 0
      modifies this
      ensures |data| <= max
      ensures data + Available(pending) == old(Available(pending))
      ensures data == [] <==> old(Available(pending)) == []
      ensures sent == old(sent) && closed == old(closed)
    {
      if pending == [] || pending[0] == [] {
        data := [];
        pending := [];
      } else {
        var c := pending[0];
        if |c| <= max {
          data := c;
          pending := pending[1..];
        } else {
          data := c[..max];
          pending := [c[max..]] + pending[1..];
          assert c == data + c[max..];
        }
      }
    }

    /** `conn.sendall(data)`. */
    method SendAll(data: seq<byte>)
      modifies this
      ensures sent == old(sent) + data
      ensures pending == old(pending) && closed == old(closed)
    {
      sent := sent + data;
    }

    /** `conn.close()`. */
    method Close()
      modifies this
      ensures closed
      ensures pending == old(pending) && sent == old(sent)
    {
      closed := true;
    }
  }
}
