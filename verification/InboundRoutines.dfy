/** The inbound side as it runs: the sliding body buffer, and the serve loop's handling of
    DATA frames and of what handlers have read. */
module InboundRoutines {
  import opened Wrappers
  import opened Base128
  import opened Inbound
  import SendRoutines

  datatype ReadError = NoError | ReadEmpty | AfterClose

  datatype WriteError = Written | WriteFull | WriteClosed

  /** buffer: a fixed array whose unread part slides to the front when room is needed. */
  class BodyBuffer {
    const buf: array<byte>
    var r: nat
    var w: nat
    var closed: bool

    ghost predicate Valid()
      reads this
    {
      r <= w <= buf.Length
    }

    ghost function Contents(): (s: seq<byte>)
      requires Valid()
      reads this, buf
      ensures |s| == w - r
    {
      buf[r..w]
    }

    constructor (size: nat)
      ensures Valid() && Contents() == [] && !closed && buf.Length == size && fresh(buf)
    {
      buf := new byte[size](_ => 0);
      r, w, closed := 0, 0, false;
    }

    /** Read into p: n bytes move, and there is an error when nothing is left to come, or
        nothing was there. */
    method Read(p: array<byte>) returns (n: nat, err: ReadError)
      requires Valid() && p != buf
      modifies this`r, p
      ensures Valid()
      ensures n == if p.Length < |old(Contents())| then p.Length else |old(Contents())|
      ensures p[..n] == old(Contents())[..n] && p[n..] == old(p[n..])
      ensures Contents() == old(Contents())[n..]
      ensures err == if Contents() != [] then NoError
                     else if closed then AfterClose else if n == 0 then ReadEmpty else NoError
    {
      n := if p.Length < w - r then p.Length else w - r;
      ghost var c := Contents();
      assert forall i :: 0 <= i < n ==> c[i] == buf[r + i];
      forall i | 0 <= i < n { p[i] := buf[r + i]; }
      assert p[..n] == c[..n];
      assert buf[r..w] == c && buf[r + n..w] == c[n..];
      assert p[n..] == old(p[n..]);
      r := r + n;
      err := NoError;
      if closed && r == w {
        err := AfterClose;
      } else if r == w && n == 0 {
        err := ReadEmpty;
      }
    }

    /** The unread part moves to the front of the array. */
    method Slide()
      requires Valid()
      modifies this`r, this`w, buf
      ensures Valid() && r == 0 && Contents() == old(Contents())
    {
      var k := w - r;
      forall i | 0 <= i < k { buf[i] := buf[r + i]; }
      assert buf[..k] == old(buf[r..w]);
      w, r := k, 0;
    }

    /** copy(buf[w:], p) */
    method PutBehind(p: seq<byte>) returns (n: nat)
      requires Valid()
      modifies this`w, buf
      ensures Valid() && n == (if |p| < buf.Length - old(w) then |p| else buf.Length - old(w))
      ensures Contents() == old(Contents()) + p[..n]
    {
      ghost var before := buf[r..w];
      n := if |p| < buf.Length - w then |p| else buf.Length - w;
      forall i | 0 <= i < n { buf[w + i] := p[i]; }
      assert buf[r..w] == before && buf[w..w + n] == p[..n];
      assert buf[r..w + n] == buf[r..w] + buf[w..w + n];
      w := w + n;
    }

    /** Write takes as much of p as there is room for in all, not only behind the unread part. */
    method Write(p: seq<byte>) returns (n: nat, err: WriteError)
      requires Valid()
      modifies this`r, this`w, buf
      ensures Valid()
      ensures closed ==> n == 0 && err == WriteClosed && Contents() == old(Contents())
      ensures !closed ==>
                && n == (if |old(Contents())| + |p| <= buf.Length then |p| else buf.Length - |old(Contents())|)
                && Contents() == old(Contents()) + p[..n]
                && err == if n < |p| then WriteFull else Written
    {
      if closed { return 0, WriteClosed; }
      if r > 0 && |p| > buf.Length - w { Slide(); }
      n := PutBehind(p);
      err := if n < |p| then WriteFull else Written;
    }

    method Close()
      modifies this`closed
      ensures closed
    {
      closed := true;
    }
  }

  /** flow.add agrees with the model's on windows that are not negative. */
  lemma AddAgrees(window: int32, n: int32)
    requires window >= 0 && n >= 0
    ensures SendRoutines.AsInt(SendRoutines.AddTo(window, n)) == AddWindow(window, n)
  {
    SendRoutines.AddIsExact(window, n);
  }

  /** A stream of the serve loop, with its share of the connection. */
  class ServerStream {
    const inflow: SendRoutines.Flow
    const conn: SendRoutines.Flow
    const body: BodyBuffer
    const declBodyBytes: int
    var state: State
    var bodyBytes: nat
    /** Read by the handler and not noted yet, and the history of the body. */
    ghost var unreported: nat
    ghost var admitted: seq<byte>
    ghost var readOut: seq<byte>

    ghost predicate Valid()
      reads this, inflow, conn, body
    {
      && body.Valid() && body.buf.Length == INITIAL_WINDOW
      && inflow != conn && inflow.conn == conn && conn.conn == null
    }

    ghost function View(): Stream
      requires Valid()
      reads this, inflow, conn, body, body.buf
    {
      Stream(state, inflow.n, body.Contents(), unreported, body.closed, declBodyBytes, bodyBytes, admitted, readOut)
    }

    constructor (connFlow: SendRoutines.Flow, declared: int, ended: bool)
      requires connFlow.conn == null
      ensures Valid() && conn == connFlow
      ensures View() == NEW_STREAM.(declared := declared, state := if ended then HalfClosedRemote else Open)
    {
      var f := new SendRoutines.Flow(INITIAL_WINDOW);
      f.SetConnFlow(connFlow);
      var b := new BodyBuffer(INITIAL_WINDOW);
      inflow, conn, body, declBodyBytes := f, connFlow, b, declared;
      state, bodyBytes, unreported, admitted, readOut := if ended then HalfClosedRemote else Open, 0, 0, [], [];
    }

    method EndBody(ended: bool)
      requires Valid()
      modifies this`state, body`closed
      ensures Valid() && View() == Ended(old(View()), ended) && conn.n == old(conn.n)
    {
      if ended {
        body.Close();
        state := HalfClosedRemote;
      }
    }

    /** DATA that is not empty, against both windows and into the body's buffer. */
    method TakeIn(data: seq<byte>) returns (o: Outcome)
      requires Valid() && StreamSafe(View()) && 0 <= conn.n && data != [] && state == Open
      modifies this`bodyBytes, this`admitted, inflow, conn, body, body.buf
      ensures Valid()
      ensures
        var s := old(View());
        if Min(s.window, old(conn.n)) < |data| then o == FlowControlError && View() == s && conn.n == old(conn.n)
        else
          var t := s.(window := s.window - |data|);
          && conn.n == old(conn.n) - |data|
          && if s.bodyClosed then o == StreamClosedError && View() == t
             else
               && |s.unread| + |data| <= INITIAL_WINDOW && o == Fine
               && View() == t.(unread := s.unread + data, seen := s.seen + |data|, admitted := s.admitted + data)
    {
      if inflow.Available() < |data| { return FlowControlError; }
      inflow.Take(|data|);
      var wrote, err := body.Write(data);
      if err != Written { return StreamClosedError; }
      assert wrote == |data|;
      assert data[..wrote] == data;
      bodyBytes := bodyBytes + |data|;
      admitted := admitted + data;
      return Fine;
    }

    /** processData. What AlwaysSafe says of the stream is required, and with it neither the
        full buffer nor the short write can happen. */
    method ProcessDataFrame(data: seq<byte>, ended: bool) returns (o: Outcome)
      requires Valid() && StreamSafe(View()) && 0 <= conn.n
      modifies this`state, this`bodyBytes, this`admitted, inflow, conn, body, body.buf
      ensures Valid()
      ensures (View(), conn.n, o) == ProcessData(old(View()), old(conn.n), data, ended)
    {
      if state != Open { return StreamClosedError; }
      if declBodyBytes != -1 && bodyBytes + |data| > declBodyBytes {
        body.Close();
        return StreamClosedError;
      }
      if |data| > 0 {
        o := TakeIn(data);
        if o != Fine { return; }
      }
      EndBody(ended);
      return Fine;
    }

    /** The handler's Read: what it gets, and what the serve loop is to be told. */
    method HandlerRead(p: array<byte>) returns (n: nat, err: ReadError)
      requires Valid() && p != body.buf
      modifies this`unreported, this`readOut, body`r, p
      ensures Valid() && View() == BodyRead(old(View()), p.Length) && conn.n == old(conn.n)
      ensures n == Min(p.Length, |old(View()).unread|) && p[..n] == old(View()).unread[..n]
    {
      n, err := body.Read(p);
      unreported := unreported + n;
      readOut := readOut + p[..n];
    }

    /** The handler closes the body; what it holds can still be read. */
    method CloseBody()
      requires Valid()
      modifies body`closed
      ensures Valid() && View() == old(View()).(bodyClosed := true)
    {
      body.Close();
    }

    /** noteBodyRead. With what AlwaysSafe says, no window update is refused. */
    method NoteBodyRead(n: nat) returns (ghost o: Outcome)
      requires Valid() && StreamSafe(View()) && n <= unreported && 0 <= conn.n <= INITIAL_WINDOW - Owed(View())
      modifies this`unreported, inflow, conn
      ensures Valid()
      ensures (View(), conn.n, o) == NoteRead(old(View()), old(conn.n), n) && o == Fine
      ensures conn.n == old(conn.n) + n
      ensures inflow.n == old(inflow.n) + if state == Open || state == HalfClosedLocal then n else 0
    {
      var ok := SendWindowUpdate(conn, n);
      assert ok;
      if state != HalfClosedRemote && state != Closed {
        ok := SendWindowUpdate(inflow, n);
        assert ok;
      }
      unreported := unreported - n;
      o := Fine;
    }
  }

  /** sendWindowUpdate: in steps that fit 31 bits. The updates themselves are not modelled,
      only what they add to the window. `ok` is false where the program panics, which is exactly
      when the window would pass 2^31-1. */
  method SendWindowUpdate(window: SendRoutines.Flow, n0: nat) returns (ok: bool)
    requires 0 <= window.n
    modifies window`n
    ensures ok == (old(window.n) + n0 <= MAX_WINDOW)
    ensures ok ==> window.n == old(window.n) + n0
  {
    var n: nat := n0;
    while n >= MAX_WINDOW
      invariant 0 <= window.n && window.n + n == old(window.n) + n0
    {
      ok := SendWindowUpdate32(window, MAX_WINDOW);
      if !ok { return; }
      n := n - MAX_WINDOW;
    }
    ok := SendWindowUpdate32(window, n);
  }

  method SendWindowUpdate32(window: SendRoutines.Flow, n: int32) returns (ok: bool)
    requires 0 <= n && 0 <= window.n
    modifies window`n
    ensures ok == (old(window.n) + n <= MAX_WINDOW)
    ensures window.n == if ok then old(window.n) + n else old(window.n)
  {
    if n == 0 { return true; }
    AddAgrees(window.n, n);
    ok := window.Add(n);
  }
}
