/**
 The operating system as the server sees it. Everything nondeterministic comes from a script, one entry
 per select; the kernel's own rules are imposed on whatever the script says, all but one: accept may hand out
 any free descriptor, not only the lowest. So the scripts include every possible environment.
 */
module Kernel {
  import opened CStrings

  /**
   What one read delivers. The request buffer has 65 bytes and is cleared beforehand, so it holds a C string
   exactly when the data is shorter or contains a NUL; a full buffer without one has no defined meaning in C.
   */
  type Packet = d: string | 1 <= |d| <= 65 && (|d| <= 64 || NUL in d) witness "q"

  datatype ReadResult = ReadError | Eof | Data(bytes: Packet)

  datatype Selection = Interrupted | Failed | Readable(fds: set<int>)

  /** The environment's part in one iteration: select's outcome, and what each later call would return. */
  datatype RoundInput = RoundInput(select: Selection, accept: int, incoming: map<int, ReadResult>, writeFails: set<int>)

  function ReadOf(now: RoundInput, fd: int): ReadResult {
    if fd in now.incoming then now.incoming[fd] else ReadError
  }

  /** What happens to one connection, and to which: a connection keeps its number for ever, an fd does not. */
  datatype Action = Opened(fd: int) | Received(r: ReadResult) | Sent(text: Text) | Closed
  datatype Event = Event(id: nat, action: Action) | BadFd(fd: int)

  /** The open client descriptors with the connection each one stands for, and all that happened. */
  datatype World = World(files: map<int, nat>, next: nat, trace: seq<Event>)

  predicate Acceptable(w: World, reserved: set<int>, fd: int) {
    fd >= 0 && fd !in w.files && fd !in reserved
  }

  function Accepted(w: World, fd: int): World {
    World(w.files[fd := w.next], w.next + 1, w.trace + [Event(w.next, Opened(fd))])
  }

  class Kernel {
    /** Descriptors that are not client connections: the wakeup pipe, the listening socket, the rest of the process. */
    const reserved: set<int>
    var script: seq<RoundInput>
    var now: RoundInput
    var files: map<int, nat>
    var next: nat
    var trace: seq<Event>

    constructor (reserved: set<int>, script: seq<RoundInput>)
      ensures this.reserved == reserved && this.script == script
      ensures Now() == World(map[], 0, [])
    {
      this.reserved, this.script := reserved, script;
      now := RoundInput(Failed, -1, map[], {});
      files, next, trace := map[], 0, [];
    }

    function Now(): World
      reads this
    {
      World(files, next, trace)
    }

    method Select(n: int, rset: set<int>) returns (nfds: int, ready: set<int>, interrupted: bool)
      requires script != []
      modifies this`script, this`now
      ensures now == old(script)[0] && script == old(script)[1..]
      ensures match now.select
              case Interrupted => nfds == -1 && interrupted
              case Failed => nfds == -1 && !interrupted
              case Readable(fds) => nfds == |ready| && ready == set fd | fd in rset && fd < n && fd in fds
    {
      now, script := script[0], script[1..];
      nfds, ready, interrupted := -1, {}, now.select.Interrupted?;
      if now.select.Readable? {
        ready := set fd | fd in rset && fd < n && fd in now.select.fds;
        nfds := |ready|;
      }
    }

    method Accept() returns (fd: int)
      modifies this`files, this`next, this`trace
      ensures if Acceptable(old(Now()), reserved, now.accept) then
                fd == now.accept && Now() == Accepted(old(Now()), now.accept)
              else
                fd == -1 && Now() == old(Now())
    {
      fd := -1;
      if Acceptable(Now(), reserved, now.accept) {
        fd := now.accept;
        trace := trace + [Event(next, Opened(fd))];
        files, next := files[fd := next], next + 1;
      }
    }

    method Read(fd: int, buf: array<char>) returns (num: int)
      requires buf.Length == 65
      modifies this`trace, buf
      ensures fd !in files ==> num == -1 && trace == old(trace) + [BadFd(fd)]
      ensures fd in files ==>
                var r := ReadOf(now, fd);
                && trace == old(trace) + [Event(files[fd], Received(r))]
                && num == (match r case ReadError => -1 case Eof => 0 case Data(d) => |d|)
                && (r.Data? ==> buf[..num] == r.bytes && buf[num..] == old(buf[num..]))
    {
      if fd !in files {
        trace := trace + [BadFd(fd)];
        return -1;
      }
      var r := ReadOf(now, fd);
      trace := trace + [Event(files[fd], Received(r))];
      match r
      case ReadError => num := -1;
      case Eof => num := 0;
      case Data(d) =>
        num := |d|;
        forall i | 0 <= i < |d| {
          buf[i] := d[i];
        }
    }

    method Write(fd: int, text: Text) returns (num: int)
      modifies this`trace
      ensures trace == old(trace) + [if fd in files then Event(files[fd], Sent(text)) else BadFd(fd)]
      ensures num == if fd in files && fd !in now.writeFails then |text| else -1
    {
      trace := trace + [if fd in files then Event(files[fd], Sent(text)) else BadFd(fd)];
      num := if fd in files && fd !in now.writeFails then |text| else -1;
    }

    method Close(fd: int)
      modifies this`trace, this`files
      ensures trace == old(trace) + [if fd in old(files) then Event(old(files)[fd], Closed) else BadFd(fd)]
      ensures files == old(files) - {fd}
    {
      trace := trace + [if fd in files then Event(files[fd], Closed) else BadFd(fd)];
      files := files - {fd};
    }
  }
}
