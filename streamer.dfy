/** The file streamer: a buffered reader over an opened file, and the
    `fill_buf` / `write` / `consume` loop that copies it into the body. */
module Streamer {
  import opened Utf8
  import opened Http

  /** `BufReader` over an opened file. The file's unread bytes are split
      between the buffer and what the file has not delivered yet. */
  class BufReader {
    var buf: seq<byte>
    var pending: seq<byte>

    /** The bytes not yet consumed, in file order. */
    function Remaining(): seq<byte>
      reads this
    {
      buf + pending
    }

    /** `BufReader::new(file)`: an empty buffer over the whole file. */
    constructor (contents: seq<byte>)
      ensures Remaining() == contents
    {
      buf := [];
      pending := contents;
    }

    /** `fill_buf`: when the buffer is empty, one read of the file refills
        it with some positive number of bytes (any number the file chooses
        to deliver); the buffered bytes are returned. Empty means end of
        file. */
    method FillBuf() returns (chunk: seq<byte>)
      modifies this
      ensures Remaining() == old(Remaining())
      ensures chunk == buf
      ensures chunk == [] <==> Remaining() == []
    {
      if buf == [] && pending != [] {
        var n :| 0 < n <= |pending|;
        buf, pending := pending[..n], pending[n..];
        assert buf + pending == old(pending);
      }
      chunk := buf;
    }

    /** `consume(amt)`: marks up to `amt` buffered bytes as used. */
    method Consume(amt: nat)
      modifies this
      ensures amt <= |old(buf)| ==> Remaining() == old(Remaining())[amt..]
      ensures amt > |old(buf)| ==> Remaining() == old(Remaining())[|old(buf)|..]
    {
      var k := if amt <= |buf| then amt else |buf|;
      assert (buf + pending)[k..] == buf[k..] + pending;
      buf := buf[k..];
    }
  }

  /** The copy loop: every chunk read is written whole, in order, until an
      empty read; the body then holds exactly the file's remaining bytes. */
  method StreamFile(res: Response, reader: BufReader)
    requires res.phase == Fresh
    modifies res, reader
    ensures res.body == old(res.body) + old(reader.Remaining())
    ensures reader.Remaining() == []
    ensures res.phase == Ended
    ensures res.status == old(res.status) && res.headers == old(res.headers)
  {
    res.Start();
    while true
      invariant res.body + reader.Remaining() == old(res.body) + old(reader.Remaining())
      invariant res.phase == Streaming
      invariant res.status == old(res.status) && res.headers == old(res.headers)
      decreases |reader.Remaining()|
    {
      var chunk := reader.FillBuf();
      res.Write(chunk);
      var consumed := |chunk|;
      reader.Consume(consumed);
      if consumed == 0 {
        break;
      }
    }
    res.End();
  }
}
