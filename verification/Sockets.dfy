/** The sockets: one buffer per session, and a listener that creates sessions. */
module Sockets {
  import opened Events

  type Byte = b: int | 0 <= b < 256

  /** The default `buf_size` of a session. */
  const BUF_SIZE: nat := 20

  /** What a system call on a descriptor gives back. */
  datatype Transfer = Error | Done(bytes: seq<Byte>)

  /** A chunk followed by zeros up to the buffer size. */
  function Padded(chunk: seq<Byte>, size: nat): seq<Byte>
    requires |chunk| <= size
  {
    chunk + seq(size - |chunk|, _ => 0)
  }

  class SessionSocket {
    const id: SocketId
    const fd: Fd
    var buf: seq<Byte>

    constructor (id: SocketId, fd: Fd)
      ensures this.id == id && this.fd == fd && buf == seq(BUF_SIZE, _ => ' ' as int)
    {
      this.id, this.fd := id, fd;
      buf := seq(BUF_SIZE, _ => ' ' as int);
    }

    /**
     * `r` is what read() puts into the buffer, at most as much as asked for. Nothing of an earlier
     * content survives.
     */
    method SRead(r: Transfer) returns (thrown: bool)
      requires r.Done? ==> |r.bytes| <= |buf|
      modifies this
      ensures thrown == r.Error? && |buf| == old(|buf|)
      ensures r.Done? ==> buf == Padded(r.bytes, |buf|)
      ensures r.Error? ==> buf == Padded([], |buf|)
    {
      buf := seq(|buf|, _ => 0);
      match r {
        case Error =>
          thrown := true;
        case Done(bytes) =>
          buf := bytes + buf[|bytes|..];
          thrown := false;
      }
    }

    /** write() is given the whole buffer and takes a prefix of it, `taken` bytes long; -1 is an error. */
    method SWrite(taken: int) returns (thrown: bool, sent: seq<Byte>)
      requires -1 <= taken <= |buf|
      ensures thrown <==> taken < 0
      ensures sent <= buf && |sent| == if thrown then 0 else taken
    {
      thrown := taken < 0;
      sent := if thrown then [] else buf[..taken];
    }
  }

  class ServerSocket {
    const id: SocketId
    const fd: Fd
    var currentSession: SessionSocket?

    constructor (id: SocketId, fd: Fd)
      ensures this.id == id && this.fd == fd && currentSession == null
    {
      this.id, this.fd := id, fd;
      currentSession := null;
    }

    /** accept() has returned `child`, also if that is -1; the new session gets the identity `session`. */
    method SRead(child: Fd, session: SocketId)
      modifies this
      ensures currentSession != null && fresh(currentSession)
      ensures currentSession.id == session && currentSession.fd == child
      ensures currentSession.buf == seq(BUF_SIZE, _ => ' ' as int)
    {
      currentSession := new SessionSocket(session, child);
    }

    function GetCurrentSession(): SessionSocket?
      reads this
    {
      currentSession
    }
  }
}
