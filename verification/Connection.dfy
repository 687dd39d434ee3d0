/** The output side of a connection (src/net/TcpConnection.cpp) with the event mask of
    its channel (include/myself/net/Channel.h), against a kernel that may accept any
    number of bytes, ask to wait, interrupt, or fail.

    A ghost history, `enqueued`, holds everything handed to `Send` and `SendFile` so far. The
    invariant `Valid` says where each of those bytes is at any moment. */
module Connections {
  import opened Text
  import opened ByteBuffer
  import opened FileBodies

  // ---------------------------------------------------------------- channel

  const EPOLLIN: bv32 := 0x001
  const EPOLLPRI: bv32 := 0x002
  const EPOLLOUT: bv32 := 0x004
  const EPOLLET: bv32 := 0x8000_0000
  const READ_EVENT: bv32 := EPOLLIN | EPOLLPRI | EPOLLET
  const WRITE_EVENT: bv32 := EPOLLOUT | EPOLLET

  predicate WritingMask(events: bv32) { events & WRITE_EVENT != 0 }
  predicate ArmedMask(events: bv32) { events & EPOLLOUT != 0 }

  /** The two masks share the edge-trigger bit: "is writing" also holds of a channel that
      only reads, until write interest has been dropped once. */
  lemma MaskFacts(events: bv32)
    ensures ArmedMask(events) ==> WritingMask(events)
    ensures ArmedMask(events | WRITE_EVENT)
    ensures !WritingMask(events & !WRITE_EVENT)
    ensures WritingMask(READ_EVENT) && !ArmedMask(READ_EVENT)
  {}

  class Channel {
    var events: bv32

    constructor ()
      ensures events == 0
    {
      events := 0;
    }

    /** Channel::isWriting. */
    predicate IsWriting()
      reads this
    {
      WritingMask(events)
    }

    /** Will epoll report that the socket became writable? */
    predicate Armed()
      reads this
    {
      ArmedMask(events)
    }

    method EnableReading()
      modifies this
      ensures events == old(events) | READ_EVENT
    {
      events := events | READ_EVENT;
    }

    method EnableWriting()
      modifies this
      ensures Armed() && events == old(events) | WRITE_EVENT
    {
      events := events | WRITE_EVENT;
      MaskFacts(old(events));
    }

    method DisableWriting()
      modifies this
      ensures !IsWriting() && !Armed() && events == old(events) & !WRITE_EVENT
    {
      events := events & !WRITE_EVENT;
      MaskFacts(old(events));
      MaskFacts(events);
    }

    method DisableAll()
      modifies this
      ensures events == 0
    {
      events := 0;
    }
  }

  // ----------------------------------------------------------------- kernel

  /** What the kernel does on one call: take up to `most + 1` bytes, report zero,
      EAGAIN, EINTR, or another error. */
  datatype Outcome = Accepts(most: nat) | Nothing | WouldBlock | Interrupted | Fails

  datatype Errno = NoError | Again | Intr | Other

  /** A socket whose behaviour is a finite list of outcomes, EAGAIN from then on. */
  class Socket {
    var script: seq<Outcome>
    var wire: string         // bytes the peer will receive
    var halfClosed: bool     // SHUT_WR has been issued
    ghost var blocked: bool  // the last call answered EAGAIN
    ghost var failed: bool   // some write or sendfile failed, or a write took nothing
    ghost var readFailures: nat // how many preads have failed

    constructor (script: seq<Outcome>)
      ensures this.script == script && wire == "" && !halfClosed && !failed && readFailures == 0
    {
      this.script, wire, halfClosed := script, "", false;
      blocked, failed, readFailures := false, false, 0;
    }

    method NextOutcome() returns (o: Outcome)
      modifies this`script, this`blocked
      ensures if old(script) == [] then o == WouldBlock && script == []
              else o == old(script)[0] && script == old(script)[1..]
      ensures blocked <==> o == WouldBlock
    {
      if script == [] {
        o := WouldBlock;
      } else {
        o := script[0];
        script := script[1..];
      }
      blocked := o == WouldBlock;
    }

    /** The contract of write(2) and sendfile(2) on this socket: `available` is what
        could be sent; zero is returned for lack of data, or for Nothing on a write. */
    method Transfer(available: string, isFile: bool) returns (n: nat, errno: Errno)
      modifies this`script, this`blocked, this`failed, this`wire
      ensures n <= |available| && wire == old(wire) + available[..n]
      ensures old(failed) ==> failed
      ensures errno == Other || (n == 0 && errno == NoError && available != "") ==> failed || halfClosed
      ensures failed && !old(failed) ==> errno == Other || (n == 0 && errno == NoError && available != "")
      ensures errno != NoError ==> n == 0
      ensures errno == NoError && isFile ==> n > 0 || available == ""
      ensures halfClosed ==> errno == Other
      ensures blocked <==> errno == Again
      ensures errno == Again || errno == Other || |script| < |old(script)|
    {
      n, errno := 0, NoError;
      if halfClosed {
        blocked := false;
        return 0, Other;
      }
      var o := NextOutcome();
      match o {
        case Accepts(most) =>
          n := if most + 1 <= |available| then most + 1 else |available|;
          wire := wire + available[..n];
        case Nothing =>
          if isFile && available != "" {
            errno := Again;
            blocked := true;
          } else if available != "" {
            failed := true;
          }
        case WouldBlock => errno := Again;
        case Interrupted => errno := Intr;
        case Fails =>
          errno := Other;
          failed := true;
      }
    }

    method Write(data: string) returns (n: nat, errno: Errno)
      modifies this`script, this`blocked, this`failed, this`wire
      ensures n <= |data| && wire == old(wire) + data[..n]
      ensures old(failed) ==> failed
      ensures errno == Other || (n == 0 && errno == NoError && data != "") ==> failed || halfClosed
      ensures errno != NoError ==> n == 0
      ensures halfClosed ==> errno == Other
      ensures blocked <==> errno == Again
      ensures errno == Again || errno == Other || |script| < |old(script)|
    {
      n, errno := Transfer(data, false);
    }

    /** sendfile(2): it advances no further than the file really goes. */
    method SendFile(f: FileBody, offset: nat, count: nat) returns (n: nat, errno: Errno)
      modifies this`script, this`blocked, this`failed, this`wire
      ensures n <= |BytesFrom(f, offset, count)|
      ensures old(failed) ==> failed
      ensures errno == Other ==> failed || halfClosed
      ensures wire == old(wire) + BytesFrom(f, offset, count)[..n]
      ensures errno != NoError ==> n == 0
      ensures errno == NoError && n == 0 ==> BytesFrom(f, offset, count) == ""
      ensures halfClosed ==> errno == Other
      ensures blocked <==> errno == Again
      ensures errno == Again || errno == Other || |script| < |old(script)|
    {
      n, errno := Transfer(BytesFrom(f, offset, count), true);
    }

    /** pread(2) on a regular file: never EAGAIN, zero only at the end of the file. */
    method Pread(f: FileBody, offset: nat, count: nat) returns (data: string, errno: Errno)
      modifies this`script, this`readFailures
      ensures data <= BytesFrom(f, offset, count)
      ensures errno != NoError ==> data == ""
      ensures errno == NoError && data == "" ==> BytesFrom(f, offset, count) == ""
      ensures errno == Intr ==> |script| < |old(script)|
      ensures errno != Again && readFailures == old(readFailures) + if errno == Other then 1 else 0
    {
      var available := BytesFrom(f, offset, count);
      if script == [] {
        return available, NoError;
      }
      var o := script[0];
      script := script[1..];
      match o {
        case Accepts(most) =>
          return available[..if most + 1 <= |available| then most + 1 else |available|], NoError;
        case Interrupted => return "", Intr;
        case Fails =>
          readFailures := readFailures + 1;
          return "", Other;
        case _ => return available, NoError;
      }
    }

    method ShutdownWrite()
      modifies this`halfClosed
      ensures halfClosed
    {
      halfClosed := true;
    }
  }

  // -------------------------------------------------- where the bytes are

  /** What is on the wire, the first `pre` buffered bytes, the rest of the file and the
      other buffered bytes are, in this order, everything enqueued. */
  ghost predicate Placed(wire: string, buffered: string, pre: nat, fileRest: string, enqueued: string) {
    pre <= |buffered| && wire + buffered[..pre] + fileRest + buffered[pre..] == enqueued
  }

  lemma WireIsPrefix(wire: string, buffered: string, pre: nat, fileRest: string, enqueued: string)
    requires Placed(wire, buffered, pre, fileRest, enqueued)
    ensures wire <= enqueued && pre <= |buffered|
    ensures buffered == "" && fileRest == "" ==> wire == enqueued
  {
    assert wire + buffered[..pre] + fileRest + buffered[pre..] == wire + (buffered[..pre] + fileRest + buffered[pre..]);
  }

  /** Buffered bytes move to the wire: those before a file, or any when there is none. */
  lemma BufferToWire(wire: string, buffered: string, pre: nat, fileRest: string, enqueued: string, n: nat)
    requires Placed(wire, buffered, pre, fileRest, enqueued)
    requires n <= pre || (pre == 0 && fileRest == "" && n <= |buffered|)
    ensures Placed(wire + buffered[..n], buffered[n..], if n <= pre then pre - n else 0, fileRest, enqueued)
  {
    if n <= pre {
      assert buffered[..pre] == buffered[..n] + buffered[n..][..pre - n];
      assert buffered[n..][pre - n..] == buffered[pre..];
    } else {
      assert buffered[..0] == "" && buffered[0..] == buffered == buffered[..n] + buffered[n..];
      assert wire + "" + "" + buffered == wire + buffered;
    }
  }

  /** The same for a written part of the chunk handed to write(2). */
  lemma ChunkToWire(wire: string, buffered: string, pre: nat, fileRest: string, enqueued: string,
                    chunk: string, left: nat, n: nat)
    requires Placed(wire, buffered, pre, fileRest, enqueued) && n <= left <= |buffered| && chunk == buffered[..left]
    requires left == pre || (pre == 0 && fileRest == "")
    ensures Placed(wire + chunk[..n], buffered[n..], if pre > 0 then pre - n else 0, fileRest, enqueued)
    ensures wire <= wire + chunk[..n] <= enqueued && (n == 0 ==> wire + chunk[..n] == wire && buffered[n..] == buffered)
  {
    hide Placed;
    assert chunk[..n] == buffered[..n];
    BufferToWire(wire, buffered, pre, fileRest, enqueued, n);
    WireIsPrefix(wire + buffered[..n], buffered[n..], if n <= pre then pre - n else 0, fileRest, enqueued);
  }

  /** Once nothing is due before it, file bytes move to the wire. */
  lemma FileToWire(wire: string, buffered: string, fileRest: string, enqueued: string, n: nat, left: string)
    requires Placed(wire, buffered, 0, fileRest, enqueued) && n <= |fileRest| && fileRest == fileRest[..n] + left
    ensures Placed(wire + fileRest[..n], buffered, 0, left, enqueued)
  {
    assert buffered[..0] == "";
    assert wire + "" + fileRest == wire + fileRest[..n] + "" + left;
  }

  /** New data goes behind everything else. */
  lemma DataToBuffer(wire: string, buffered: string, pre: nat, fileRest: string, enqueued: string, data: string)
    requires Placed(wire, buffered, pre, fileRest, enqueued)
    ensures Placed(wire, buffered + data, pre, fileRest, enqueued + data)
  {
    assert (buffered + data)[..pre] == buffered[..pre] && (buffered + data)[pre..] == buffered[pre..] + data;
  }

  /** With nothing waiting, new data may go straight to the wire, in part. */
  lemma DataToWire(wire: string, enqueued: string, data: string, n: nat)
    requires Placed(wire, "", 0, "", enqueued) && n <= |data|
    ensures Placed(wire + data[..n], data[n..], 0, "", enqueued + data)
  {
    assert wire + "" + "" + "" == wire;
    assert data == data[..n] + data[n..] && data[n..][..0] == "" && data[n..][0..] == data[n..];
  }

  /** A file takes its place behind everything buffered so far. */
  lemma FileBehindBuffer(wire: string, buffered: string, enqueued: string, bytes: string)
    requires Placed(wire, buffered, 0, "", enqueued)
    ensures Placed(wire, buffered, |buffered|, bytes, enqueued + bytes)
  {
    assert buffered[..|buffered|] == buffered && buffered[|buffered|..] == "";
  }

  // ------------------------------------------------------------- connection

  class TcpConnection {
    const socket: Socket
    const channel: Channel
    const output: Buffer
    var closed: bool
    var shutdownAfterWrite: bool
    var pendingFile: Option<FileBody>
    var fileOffset: nat
    var fileRemaining: nat
    var preFileBytes: nat
    ghost var enqueued: string

    constructor (script: seq<Outcome>)
      ensures Valid() && !closed && enqueued == "" && socket.wire == "" && socket.readFailures == 0
      ensures !socket.failed && !socket.halfClosed && !shutdownAfterWrite && !Pending() && channel.events == READ_EVENT
      ensures fresh(socket) && fresh(channel) && fresh(output) && fresh(output.data)
    {
      socket := new Socket(script);
      channel := new Channel();
      output := new Buffer();
      closed, shutdownAfterWrite, pendingFile := false, false, None;
      fileOffset, fileRemaining, preFileBytes := 0, 0, 0;
      enqueued := "";
      new;
      channel.EnableReading();
      assert 0 | READ_EVENT == READ_EVENT;
    }

    /** The part of the pending file that is still to be sent. */
    ghost function FileRest(): string
      reads this
    {
      if pendingFile == None then "" else BytesFrom(pendingFile.value, fileOffset, fileRemaining)
    }

    ghost predicate Pending()
      reads this, output, output.data
      requires output.Valid()
    {
      output.Contents() != "" || pendingFile != None
    }

    ghost predicate Ordered()
      reads this, socket, output, output.data
    {
      && output.Valid()
      && (pendingFile == None ==> preFileBytes == 0)
      && Placed(socket.wire, output.Contents(), preFileBytes, FileRest(), enqueued)
    }

    /** WIRE ORDER and PROGRESS: an open connection has every enqueued byte in its place,
        and is armed for EPOLLOUT while any is unsent; a closed one has sent a prefix. */
    ghost predicate Core()
      reads this, socket, channel, output, output.data
    {
      && output.Valid()
      && socket.wire <= enqueued
      && if closed then pendingFile == None else Ordered() && (Pending() ==> channel.Armed())
    }

    /** The invariant between calls. CLEAN HALF-CLOSE: after SHUT_WR a connection that is
        still open has everything enqueued so far on the wire. */
    ghost predicate Valid()
      reads this, socket, channel, output, output.data
    {
      Core() && (!closed && socket.halfClosed ==> socket.wire == enqueued && !Pending() && !channel.IsWriting())
    }

    /** A connection closes itself only when the kernel failed it, or refused data after
        the half-close. */
    twostate predicate Blamed()
      reads this, socket
    {
      (old(socket.failed) ==> socket.failed)
      && (closed && !old(closed) ==> socket.failed || old(socket.halfClosed))
    }

    /** What every step may do to the history and to the wire. */
    twostate predicate Grows()
      reads this, socket
    {
      && Blamed() && (socket.halfClosed ==> old(socket.halfClosed || shutdownAfterWrite))
      && old(enqueued) <= enqueued && old(socket.wire) <= socket.wire
      && (old(closed) ==> closed && socket.wire == old(socket.wire) && enqueued == old(enqueued))
      && (old(socket.halfClosed) ==> socket.halfClosed && socket.wire == old(socket.wire))
    }

    /** The test the source relies on, the shared edge-trigger bit notwithstanding: an open
        connection that is not writing has nothing pending and everything on the wire. */
    lemma NotWritingMeansAllSent()
      requires Valid() && !closed && !channel.IsWriting()
      ensures !Pending() && socket.wire == enqueued
    {
      MaskFacts(channel.events);
      WireIsPrefix(socket.wire, output.Contents(), preFileBytes, FileRest(), enqueued);
    }

    method HandleClose()
      requires output.Valid() && socket.wire <= enqueued && (closed ==> pendingFile == None)
      modifies this`closed, this`pendingFile, this`fileRemaining, this`preFileBytes, channel
      ensures closed && Valid()
    {
      if closed {
        return;
      }
      closed := true;
      channel.DisableAll();
      pendingFile := None;
      fileRemaining := 0;
      preFileBytes := 0;
    }

    /** One write of up to `left` buffered bytes, and the bookkeeping after it. */
    method WriteChunk(left: nat) returns (n: nat, errno: Errno)
      requires Ordered() && left > 0
      requires left == if pendingFile == None then |output.Contents()| else preFileBytes
      modifies this`preFileBytes, socket`script, socket`blocked, socket`failed, socket`wire, output`readIndex, output`writeIndex
      ensures Ordered() && output.data == old(output.data) && n <= left
      ensures old(socket.wire) <= socket.wire && socket.wire <= enqueued
      ensures left - n == if pendingFile == None then |output.Contents()| else preFileBytes
      ensures n == 0 ==> preFileBytes == old(preFileBytes) && output.Contents() == old(output.Contents())
      ensures errno != NoError ==> n == 0
      ensures old(socket.failed) ==> socket.failed
      ensures n == 0 && errno in {NoError, Other} ==> socket.failed || socket.halfClosed
      ensures socket.halfClosed ==> errno == Other && socket.wire == old(socket.wire)
      ensures socket.blocked <==> errno == Again
      ensures errno == Again || errno == Other || |socket.script| < |old(socket.script)|
    {
      hide Placed, BytesFrom;
      WireIsPrefix(socket.wire, output.Contents(), preFileBytes, FileRest(), enqueued);
      ghost var wire, buffered := socket.wire, output.Contents();
      var chunk := output.Peek(left);
      n, errno := socket.Write(chunk);
      ChunkToWire(wire, buffered, preFileBytes, FileRest(), enqueued, chunk, left, n);
      output.Retrieve(n);
      if preFileBytes > 0 {
        preFileBytes := preFileBytes - n;
      }
    }

    /** Writes out the first `limit` buffered bytes: those before the pending file, or
        all of them when there is no file. */
    method FlushOutput(limit: nat) returns (done: bool)
      requires Ordered() && !closed && channel.Armed()
      requires limit == if pendingFile == None then |output.Contents()| else preFileBytes
      modifies this`closed, this`pendingFile, this`fileRemaining, this`preFileBytes
      modifies socket`script, socket`blocked, socket`failed, socket`wire, channel, output`readIndex, output`writeIndex
      ensures Core() && output.data == old(output.data)
      ensures old(socket.wire) <= socket.wire && (socket.halfClosed ==> socket.wire == old(socket.wire))
      ensures Blamed()
      ensures done ==> !closed && channel.Armed() && preFileBytes == 0
      ensures done ==> pendingFile == old(pendingFile) && fileRemaining == old(fileRemaining)
      ensures done && pendingFile == None ==> output.Contents() == ""
      ensures !done && !closed ==> socket.blocked && Pending() && !socket.halfClosed
    {
      hide Placed, BytesFrom, WritingMask, ArmedMask;
      var left := limit;
      while left > 0
        invariant Ordered() && !closed && channel.Armed() && output.data == old(output.data)
        invariant pendingFile == old(pendingFile) && fileRemaining == old(fileRemaining)
        invariant left == if pendingFile == None then |output.Contents()| else preFileBytes
        invariant old(socket.wire) <= socket.wire && (socket.halfClosed ==> socket.wire == old(socket.wire))
        invariant old(socket.failed) ==> socket.failed
        decreases |socket.script|, left
      {
        var n, errno := WriteChunk(left);
        if n > 0 {
          left := left - n;
          continue;
        }
        if errno == Intr {
          continue;
        }
        if errno == Again {
          return false;
        }
        HandleClose();
        return false;
      }
      WireIsPrefix(socket.wire, output.Contents(), preFileBytes, FileRest(), enqueued);
      return true;
    }

    /** Pushes the pending file as far as the kernel lets it go. A file that turns out
        shorter than announced counts as finished where it ends. */
    method SendPendingFile() returns (done: bool)
      requires Ordered() && !closed && channel.Armed()
      requires pendingFile != None && preFileBytes == 0
      modifies this`closed, this`pendingFile, this`fileOffset, this`fileRemaining, this`preFileBytes
      modifies socket`script, socket`blocked, socket`failed, socket`wire, channel
      ensures Core()
      ensures old(socket.wire) <= socket.wire && (socket.halfClosed ==> socket.wire == old(socket.wire))
      ensures Blamed()
      ensures done ==> !closed && channel.Armed() && pendingFile == None
      ensures !done && !closed ==> socket.blocked && Pending() && !socket.halfClosed
    {
      hide Placed, BytesFrom, WritingMask, ArmedMask;
      var file := pendingFile.value;
      while fileRemaining > 0
        invariant Ordered() && !closed && channel.Armed()
        invariant pendingFile == Some(file) && preFileBytes == 0
        invariant old(socket.wire) <= socket.wire && (socket.halfClosed ==> socket.wire == old(socket.wire))
        invariant old(socket.failed) ==> socket.failed
        decreases |socket.script|, fileRemaining
      {
        WireIsPrefix(socket.wire, output.Contents(), preFileBytes, FileRest(), enqueued);
        ghost var wire, rest := socket.wire, FileRest();
        var n, errno := socket.SendFile(file, fileOffset, fileRemaining);
        if n > 0 {
          BytesFromSplit(file, fileOffset, fileRemaining, n);
          fileOffset := fileOffset + n;
          fileRemaining := fileRemaining - n;
          FileToWire(wire, output.Contents(), rest, enqueued, n, FileRest());
          continue;
        }
        assert socket.wire == wire;
        if errno == NoError {
          NothingLeft(file, fileOffset, 0);
          fileRemaining := 0;
          break;
        }
        if errno == Intr {
          continue;
        }
        if errno == Again {
          return false;
        }
        HandleClose();
        return false;
      }
      NothingLeft(file, fileOffset, fileRemaining);
      pendingFile := None;
      fileRemaining := 0;
      WireIsPrefix(socket.wire, output.Contents(), preFileBytes, FileRest(), enqueued);
      return true;
    }

    /** The writable event: bytes before the file, the file, bytes after it. Leaving work
        behind means the kernel said EAGAIN; leaving none drops write interest and
        performs a deferred half-close. */
    method HandleWrite()
      requires Core()
      modifies this`closed, this`pendingFile, this`fileOffset, this`fileRemaining, this`preFileBytes
      modifies socket, channel, output`readIndex, output`writeIndex
      ensures Valid() && Grows() && output.data == old(output.data)
      ensures socket.readFailures == old(socket.readFailures)
      ensures shutdownAfterWrite == old(shutdownAfterWrite)
      ensures !closed ==> if Pending() then socket.blocked
                          else !channel.IsWriting() && (shutdownAfterWrite ==> socket.halfClosed)
    {
      hide Placed, BytesFrom, WritingMask, ArmedMask;
      if closed {
        return;
      }
      if preFileBytes > 0 {
        var flushed := FlushOutput(preFileBytes);
        if !flushed {
          return;
        }
        preFileBytes := 0;
      }
      if pendingFile != None {
        var sent := SendPendingFile();
        if !sent {
          return;
        }
      }
      if output.ReadableBytes() > 0 {
        var flushed := FlushOutput(output.ReadableBytes());
        if !flushed {
          return;
        }
      }
      EndWriting();
    }

    /** Nothing is left to write. */
    method EndWriting()
      requires Ordered() && !closed && !Pending()
      modifies socket`halfClosed, channel
      ensures Valid() && !channel.IsWriting()
      ensures socket.halfClosed == (old(socket.halfClosed) || shutdownAfterWrite)
    {
      hide Placed, WritingMask, ArmedMask;
      WireIsPrefix(socket.wire, output.Contents(), preFileBytes, FileRest(), enqueued);
      channel.DisableWriting();
      if shutdownAfterWrite {
        socket.ShutdownWrite();
      }
    }

    method SendInLoop(data: string)
      requires Valid() && !closed
      modifies this`closed, this`pendingFile, this`fileRemaining, this`preFileBytes, this`enqueued
      modifies socket`script, socket`blocked, socket`failed, socket`wire, channel, output, output.data
      ensures Valid() && Grows() && (output.data == old(output.data) || fresh(output.data))
      ensures enqueued == old(enqueued) + data
    {
      hide Placed;
      ghost var wire, history := socket.wire, enqueued;
      enqueued := enqueued + data;
      var remaining := data;
      MaskFacts(channel.events);
      if !channel.IsWriting() && output.ReadableBytes() == 0 {
        var n, errno := socket.Write(data);
        if errno == NoError {
          remaining := data[n..];
        } else if errno != Again && errno != Intr {
          HandleClose();
          return;
        }
        DataToWire(wire, history, data, n);
        assert data[0..] == data;
        if |remaining| > 0 {
          assert "" + remaining == remaining;
          output.Append(remaining);
          channel.EnableWriting();
        }
      } else {
        DataToBuffer(wire, output.Contents(), preFileBytes, FileRest(), history, data);
        if |remaining| > 0 {
          output.Append(remaining);
          channel.EnableWriting();
        }
        assert data == "" ==> old(output.Contents()) + data == old(output.Contents());
      }
      WireIsPrefix(socket.wire, output.Contents(), preFileBytes, FileRest(), enqueued);
    }

    method Send(data: string)
      requires Valid()
      modifies this`closed, this`pendingFile, this`fileRemaining, this`preFileBytes, this`enqueued
      modifies socket`script, socket`blocked, socket`failed, socket`wire, channel, output, output.data
      ensures Valid() && Grows() && (output.data == old(output.data) || fresh(output.data))
      ensures enqueued == old(enqueued) + if old(closed) then "" else data
    {
      if closed {
        return;
      }
      SendInLoop(data);
    }

    /** The buffered copy used while another file is still being sent. */
    method ReadWholeFile(f: FileBody) returns (data: string)
      modifies socket`script, socket`readFailures
      ensures data <= FileBytes(f)
      ensures old(socket.readFailures) <= socket.readFailures
      ensures socket.readFailures == old(socket.readFailures) ==> data == FileBytes(f)
    {
      data := "";
      ghost var all := FileBytes(f);
      var finished := false;
      hide BytesFrom, FileBytes;
      while |data| < f.length && !finished
        invariant |data| <= |all| && data == all[..|data|]
        invariant old(socket.readFailures) <= socket.readFailures
        invariant finished ==> socket.readFailures > old(socket.readFailures) || |data| == |all|
        decreases if finished then 0 else 1, f.length - |data|, |socket.script|
      {
        RegionTail(f, |data|);
        var part, errno := socket.Pread(f, f.offset + |data|, f.length - |data|);
        if part != "" {
          assert all[..|data|] + all[|data|..][..|part|] == all[..|data| + |part|];
          data := data + part;
        } else if errno != Intr {
          finished := true;
        }
      }
      RegionTail(f, |data|);
    }

    /** Sends a file region in its place in the stream: with sendfile when no other file
        is pending, otherwise copied into the buffer, which is exact unless one of its own
        preads fails. */
    method SendFile(file: Option<FileBody>)
      requires Valid()
      modifies this, socket, channel, output, output.data
      ensures Valid() && Grows() && (output.data == old(output.data) || fresh(output.data))
      ensures shutdownAfterWrite == old(shutdownAfterWrite)
      ensures old(socket.readFailures) <= socket.readFailures
      ensures var bytes := if old(closed) || file == None then "" else FileBytes(file.value);
        && enqueued <= old(enqueued) + bytes
        && (socket.readFailures == old(socket.readFailures) ==> enqueued == old(enqueued) + bytes)
    {
      hide Placed;
      if closed || file == None || file.value.length == 0 {
        return;
      }
      var f := file.value;
      if pendingFile != None {
        var data := ReadWholeFile(f);
        SendInLoop(data);
        return;
      }
      FileBehindBuffer(socket.wire, output.Contents(), enqueued, FileBytes(f));
      preFileBytes := output.ReadableBytes();
      pendingFile := file;
      fileOffset := f.offset;
      fileRemaining := f.length;
      enqueued := enqueued + FileBytes(f);
      channel.EnableWriting();
      HandleWrite();
    }

    /** Half-closes now or once everything is written. It can be put off although nothing
        is pending, exactly when the channel was never asked to write and still carries
        the edge-trigger bit that "is writing" mistakes for write interest. */
    method ShutdownWrite()
      requires Valid()
      modifies this`shutdownAfterWrite, socket`halfClosed
      ensures Valid()
      ensures !closed ==> socket.halfClosed || shutdownAfterWrite
      ensures !closed && !old(socket.halfClosed) ==>
        (socket.halfClosed <==> !channel.IsWriting() && !Pending())
      ensures !closed ==>
        ((socket.halfClosed || channel.Armed()) <==> old(socket.halfClosed) || channel.Armed() || !channel.IsWriting())
    {
      hide Placed;
      if !closed {
        MaskFacts(channel.events);
        WireIsPrefix(socket.wire, output.Contents(), preFileBytes, FileRest(), enqueued);
        if !channel.IsWriting() && output.ReadableBytes() == 0 && pendingFile == None {
          socket.ShutdownWrite();
        } else {
          shutdownAfterWrite := true;
        }
      }
    }

    method ForceClose()
      requires Valid()
      modifies this`closed, this`pendingFile, this`fileRemaining, this`preFileBytes, channel
      ensures closed && Valid()
    {
      HandleClose();
    }
  }

  /** The input on which a half-close stalls: a connection that never sent anything asks
      for SHUT_WR. It is neither issued nor is any writable event on its way. */
  method StalledHalfClose(script: seq<Outcome>) returns (c: TcpConnection)
    ensures c.Valid() && !c.closed && !c.Pending() && c.shutdownAfterWrite
    ensures !c.socket.halfClosed && !c.channel.Armed()
  {
    c := new TcpConnection(script);
    MaskFacts(READ_EVENT);
    c.ShutdownWrite();
  }
}
