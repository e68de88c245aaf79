/**
 The connection wrapper of web/network/auto_https_conn.go: it reads ahead once to look for a plain
 HTTP request, answers one with a redirect, and otherwise replays what it read.
 */
module ReplayConn {

  newtype byte = x: int | 0 <= x < 256

  const FIRST := 2048

  /** The wrapped connection: `rest` is what the peer has still to deliver. A read returns any number
      of the next bytes, and an error after the end, after closing, or at any time. */
  class Conn {
    var rest: seq<byte>
    var closed: bool

    constructor (stream: seq<byte>)
      ensures rest == stream && !closed
    {
      rest, closed := stream, false;
    }

    method Read(size: nat) returns (got: seq<byte>, failed: bool)
      modifies this`rest
      ensures old(rest) == got + rest && |got| <= size
      ensures closed ==> got == [] && failed
    {
      if closed {
        return [], true;
      }
      var n: nat :| n <= size && n <= |rest|;
      var e: bool :| true;
      got, failed := rest[..n], e;
      rest := rest[n..];
    }
  }

  ghost predicate StartsWithRequest(isRequest: seq<byte> -> bool, s: seq<byte>) {
    exists n: nat :: n <= |s| && isRequest(s[..n])
  }

  datatype Buffer = Unset | Filled(bytes: seq<byte>)

  class AutoHttpsConn {
    const conn: Conn
    /** Whether http.ReadRequest accepts the bytes. */
    const isRequest: seq<byte> -> bool
    var firstBuf: Buffer
    var bufStart: nat
    var readDone: bool

    constructor (c: Conn, parser: seq<byte> -> bool)
      ensures conn == c && isRequest == parser && Valid() && !readDone
    {
      conn, isRequest := c, parser;
      firstBuf, bufStart, readDone := Unset, 0, false;
    }

    predicate Valid()
      reads this
    {
      && (firstBuf.Filled? ==> readDone && bufStart <= |firstBuf.bytes|)
    }

    /** Read ahead and not yet handed out. */
    function Pending(): seq<byte>
      requires Valid()
      reads this
    {
      if firstBuf.Filled? then firstBuf.bytes[bufStart..] else []
    }

    /** Everything that a reader can still get. */
    function Stream(): seq<byte>
      requires Valid()
      reads this, conn
    {
      Pending() + conn.rest
    }

    method ReadRequest() returns (redirected: bool)
      requires Valid() && firstBuf == Unset && bufStart == 0 && readDone
      modifies this`firstBuf, conn
      ensures Valid()
      ensures redirected ==> conn.closed && firstBuf == Unset
      ensures !redirected ==> conn.closed == old(conn.closed) && firstBuf.Filled? && Stream() == old(conn.rest)
      ensures redirected ==> StartsWithRequest(isRequest, old(conn.rest))
    {
      var got, failed := conn.Read(FIRST);
      ghost var n := |got|;
      assert old(conn.rest)[..n] == got;
      firstBuf := Filled(got);
      if failed {
        return false;
      }
      if !isRequest(got) {
        return false;
      }
      conn.closed := true;
      firstBuf := Unset;
      return true;
    }

    /** Unless the connection is closed by a redirect, a read hands out the next bytes of the stream
        and keeps the others. */
    method Read(size: nat) returns (got: seq<byte>, failed: bool)
      requires Valid() && (!readDone ==> firstBuf == Unset && bufStart == 0)
      modifies this, conn
      ensures Valid() && readDone && |got| <= size
      ensures !conn.closed ==> old(Stream()) == got + Stream()
      ensures old(conn.closed) ==> conn.closed
      ensures old(readDone) ==> conn.closed == old(conn.closed)
      ensures conn.closed && !old(conn.closed) ==> got == [] && failed && Pending() == []
      ensures conn.closed && !old(conn.closed) ==> StartsWithRequest(isRequest, old(Stream()))
      ensures old(conn.closed) && old(Pending()) == [] && old(readDone) ==> got == [] && Pending() == []
    {
      if !readDone {
        readDone := true;
        var redirected := ReadRequest();
        assert old(Pending()) == [] && old(Stream()) == old(conn.rest);
      }
      if firstBuf.Filled? {
        got := Replay(size);
        return got, false;
      }
      got, failed := conn.Read(size);
    }

    /** The next bytes read ahead; the buffer is dropped with its last byte. */
    method Replay(size: nat) returns (got: seq<byte>)
      requires Valid() && firstBuf.Filled?
      modifies this`firstBuf, this`bufStart
      ensures Valid() && |got| <= size && old(Pending()) == got + Pending()
    {
      var left := firstBuf.bytes[bufStart..];
      var n := if size < |left| then size else |left|;
      got := left[..n];
      bufStart := bufStart + n;
      if bufStart >= |firstBuf.bytes| {
        firstBuf := Unset;
      }
    }

    /** Any sequence of reads: while no redirect happens, what comes out is a prefix of the stream,
        with nothing lost, repeated or reordered; after a redirect, nothing comes out at all. */
    method ReadAll(sizes: seq<nat>) returns (out: seq<byte>)
      requires Valid() && !readDone && firstBuf == Unset && bufStart == 0 && !conn.closed
      modifies this, conn
      ensures Valid()
      ensures !conn.closed ==> old(conn.rest) == out + Stream()
      ensures conn.closed ==> out == [] && StartsWithRequest(isRequest, old(conn.rest))
    {
      out := [];
      ghost var all := conn.rest;
      assert Stream() == all;
      for k := 0 to |sizes|
        invariant Valid() && (!readDone ==> firstBuf == Unset && bufStart == 0 && out == [] && !conn.closed)
        invariant !conn.closed ==> all == out + Stream()
        invariant conn.closed ==> readDone && out == [] && Pending() == []
        invariant conn.closed ==> StartsWithRequest(isRequest, all)
      {
        ghost var before := Stream();
        assert !readDone ==> all == [] + before == before;
        var got, failed := Read(sizes[k]);
        if !conn.closed {
          assert before == got + Stream();
        }
        out := out + got;
      }
    }
  }
}
