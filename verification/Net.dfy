/** A socket whose chunking and timing an adversary picks, and the buffered exact reader above it. */
module Net {
  import opened Bytes

  // Why a read raised. Closed stands for end of stream and for a reset; Expired for a deadline.
  datatype Error =
    | Closed
    | Expired
    | Extensions
    | TooBig
    | BadControl
    | NotBinary
    | NotContinuation

  datatype Result<+T> = Ok(value: T) | Err(error: Error)

  datatype Received = Chunk(data: Octets) | EndOfStream | Reset | TimedOut

  const READ_TIMEOUT: real := 15.0

  function Later(a: real, b: real): real {
    if a < b then b else a
  }

  /** The receiving half of a connected socket. `incoming` is every byte it will still yield before
      the stream ends; how `Recv` cuts it up, and how long each call waits, is not determined. */
  class Socket {
    var incoming: Octets
    var broken: bool            // the stream ends with a reset rather than an orderly close
    var timeout: Option<real>
    var now: real               // the monotonic clock, which only runs while a read waits
    var expired: bool           // some read on this socket has run into its deadline
    var open: bool

    constructor (incoming: Octets, broken: bool, now: real)
      ensures this.incoming == incoming && this.broken == broken && this.now == now
      ensures timeout == None && !expired && open
    {
      this.incoming, this.broken, this.now := incoming, broken, now;
      timeout, expired, open := None, false, true;
    }

    method Recv(limit: nat) returns (r: Received)
      requires limit > 0
      requires timeout.Some? ==> timeout.value > 0.0
      modifies this`incoming, this`now, this`expired
      ensures r.Chunk? ==> 0 < |r.data| <= limit && old(incoming) == r.data + incoming
      ensures !r.Chunk? ==> incoming == old(incoming)
      ensures r.EndOfStream? || r.Reset? ==> incoming == [] && (r.Reset? <==> broken)
      ensures expired == (old(expired) || r.TimedOut?)
      ensures old(now) <= now
      ensures timeout.Some? ==> now <= old(now) + timeout.value
      ensures r.TimedOut? ==> timeout.Some? && now == old(now) + timeout.value
    {
      var late: bool := *;
      if timeout.Some? && late {
        now, expired := now + timeout.value, true;
        return TimedOut;
      }
      var wait: real :| 0.0 <= wait && (timeout.Some? ==> wait <= timeout.value);
      now := now + wait;
      if incoming == [] {
        return if broken then Reset else EndOfStream;
      }
      var size: nat :| 1 <= size <= limit && size <= |incoming|;
      r := Chunk(incoming[..size]);
      incoming := incoming[size..];
    }

    method SetTimeout(seconds: real)
      modifies this`timeout
      ensures timeout == Some(seconds)
    {
      timeout := Some(seconds);
    }

    method Close()
      modifies this`open
      ensures !open
    {
      open := false;
    }
  }

  /** What reading `n` bytes off a stream gives when no deadline cuts in. */
  function Take(stream: Octets, n: nat): Result<Octets> {
    if n <= |stream| then Ok(stream[..n]) else Err(Closed)
  }

  class Conn {
    const sock: Socket
    var buf: Octets
    var deadline: Option<real>

    constructor (sock: Socket, initial: Octets)
      ensures this.sock == sock && buf == initial && deadline == None
    {
      this.sock, buf, deadline := sock, initial, None;
    }

    /** Everything this connection has yet to hand out: the buffer, then the unread socket. */
    ghost function Stream(): Octets
      reads this, sock
    {
      buf + sock.incoming
    }

    /** The clock has not run past the deadline since it stood at `since`. */
    ghost predicate OnTime(since: real)
      reads this, sock
    {
      since <= sock.now && (deadline.Some? ==> sock.now <= Later(since, deadline.value))
    }

    /** The deadline, if there is one, has been reached. */
    ghost predicate TimeIsUp()
      reads this, sock
    {
      deadline.Some? ==> deadline.value <= sock.now
    }

    /** A socket a read may start on: any timeout already set is a positive one. */
    ghost predicate Valid()
      reads this, sock
    {
      sock.timeout.Some? ==> sock.timeout.value > 0.0
    }

    method BeginRead()
      requires Valid()
      modifies this`deadline
      ensures Valid() && deadline == Some(sock.now + 15.0)
    {
      deadline := Some(sock.now + READ_TIMEOUT);
    }

    /** One receive: at most `limit` bytes join the end of the buffer, or the read fails. */
    method Extend(limit: nat) returns (r: Result<()>)
      requires Valid() && limit > 0
      modifies this`buf, sock`incoming, sock`now, sock`timeout, sock`expired
      ensures Valid() && OnTime(old(sock.now)) && (r == Err(Expired) ==> TimeIsUp())
      ensures sock.expired == (old(sock.expired) || r == Err(Expired))
      ensures Stream() == old(Stream())
      ensures r.Ok? ==> |old(buf)| < |buf| <= |old(buf)| + limit && |sock.incoming| < |old(sock.incoming)|
      ensures r.Err? ==> r.error in {Closed, Expired} && buf == old(buf) && sock.incoming == old(sock.incoming)
      ensures r == Err(Closed) ==> sock.incoming == []
    {
      if deadline.Some? {
        var remaining := deadline.value - sock.now;
        if remaining <= 0.0 {
          sock.expired := true;
          return Err(Expired);
        }
        sock.SetTimeout(remaining);
      }
      ghost var before := sock.incoming;
      var chunk := sock.Recv(limit);
      match chunk {
        case TimedOut => return Err(Expired);
        case EndOfStream => return Err(Closed);
        case Reset => return Err(Closed);
        case Chunk(data) =>
          assert (buf + data) + sock.incoming == buf + before;
          buf := buf + data;
          return Ok(());
      }
    }

    /** Hands out exactly `n` bytes or none at all. On success nothing beyond the n-th byte has left
        the socket, and what stays in the buffer is a suffix of what was there. */
    method RecvExact(n: nat) returns (r: Result<Octets>)
      requires Valid()
      modifies this`buf, sock`incoming, sock`now, sock`timeout, sock`expired
      ensures Valid() && OnTime(old(sock.now)) && (r == Err(Expired) ==> TimeIsUp())
      ensures r == Err(Expired) || r == Take(old(Stream()), n)
      ensures sock.expired == (old(sock.expired) || r == Err(Expired))
      ensures r.Ok? ==> Stream() == old(Stream())[n..] && buf == Leftover(old(buf), n)
      ensures r.Err? ==> Stream() == old(Stream()) && (buf == old(buf) || |buf| <= n)
      ensures r == Err(Closed) ==> sock.incoming == []
    {
      while |buf| < n
        invariant Valid() && OnTime(old(sock.now))
        invariant Stream() == old(Stream())
        invariant sock.expired == old(sock.expired)
        invariant buf == old(buf) || (|old(buf)| < |buf| <= n)
        decreases |sock.incoming|
      {
        var more := Extend(if 65536 < n - |buf| then 65536 else n - |buf|);
        if more.Err? {
          return Err(more.error);
        }
      }
      assert Stream()[..n] == buf[..n] && Stream()[n..] == buf[n..] + sock.incoming;
      r := Ok(buf[..n]);
      buf := buf[n..];
    }
  }
}
