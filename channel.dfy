/**
 * The link between the library and its local RTIA, as seen from the library:
 * the messages the RTIA sends, how many of them have been read so far, and
 * how many more writes succeed before the socket fails. Reading past the queued replies, or writing once the budget is
 * spent, is a `NetworkError`. Every primitive returns the events it produced,
 * the link afterwards and its own result.
 */
module Channel {

  import opened Wrappers
  import opened Messages

  datatype Link = Link(inbox: seq<Msg>, read: nat, sendsLeft: nat)
  {
    /** Some message has arrived and not been read yet. */
    predicate Pending() { read < |inbox| }
  }

  datatype Run<+T> = Run(events: seq<Event>, link: Link, result: T)

  /** Writes one message; `false` is a `NetworkError` and writes nothing. */
  function SendOn(l: Link, m: Msg): (r: Run<bool>)
    ensures r.result <==> l.sendsLeft > 0
    ensures r.result ==> r.events == [Sent(m)] && r.link == Link(l.inbox, l.read, l.sendsLeft - 1)
    ensures !r.result ==> r.events == [] && r.link == l
  {
    if l.sendsLeft == 0 then Run([], l, false)
    else Run([Sent(m)], l.(sendsLeft := l.sendsLeft - 1), true)
  }

  /** Reads the next message in arrival order; `None` is a `NetworkError`. */
  function ReceiveOn(l: Link): (r: Run<Option<Msg>>)
    ensures r.result.Some? <==> l.Pending()
    ensures r.result.Some? ==>
      && r.result.value == l.inbox[l.read] && r.events == [Received(l.inbox[l.read])]
      && r.link == Link(l.inbox, l.read + 1, l.sendsLeft)
    ensures r.result.None? ==> r.events == [] && r.link == l
  {
    if !l.Pending() then Run([], l, None)
    else Run([Received(l.inbox[l.read])], l.(read := l.read + 1), Some(l.inbox[l.read]))
  }

  const SendRequestFailure := "NetworkError while sending request"
  const ReceiveReplyFailure := "NetworkError while receiving reply"

  /** The typed exception raised for a reply whose exception type is `kind`. */
  function ProcessException(kind: ExceptionKind): (e: RtiException)
    ensures e.kind == kind
  {
    RtiException(kind, "")
  }

  /**
   * One synchronous service call: write the request, read one reply, raise the
   * exception the reply names or return the reply. Link failures in either
   * phase become an `RTIinternalError` naming the phase.
   */
  function Exchange(l: Link, request: Msg): (r: Run<Result<Msg, RtiException>>)
    ensures r.link.inbox == l.inbox && l.read <= r.link.read <= l.read + 1
    ensures r.link.sendsLeft + 1 >= l.sendsLeft >= r.link.sendsLeft
    ensures r.result.Success? ==> r.link.read == l.read + 1 && r.link.sendsLeft + 1 == l.sendsLeft
  {
    var send := SendOn(l, request);
    if !send.result then Run(send.events, send.link, Failure(InternalError(SendRequestFailure)))
    else
      var recv := ReceiveOn(send.link);
      match recv.result
      case None => Run(send.events, recv.link, Failure(InternalError(ReceiveReplyFailure)))
      case Some(reply) =>
        Run(send.events + recv.events, recv.link,
            if ExceptionOf(reply) != NoException then Failure(ProcessException(ExceptionOf(reply)))
            else Success(reply))
  }

  /**
   * Tells the RTIA to end the callback stream it is serving: writes
   * `TICK_REQUEST_STOP` when the link can, and reads and ignores one reply
   * when one is queued.
   */
  function StopStream(l: Link): (r: Run<()>)
    ensures r.link.inbox == l.inbox && l.read <= r.link.read <= l.read + 1
    ensures r.link.sendsLeft + 1 >= l.sendsLeft >= r.link.sendsLeft
    ensures r.link.read > l.read ==> r.link.sendsLeft + 1 == l.sendsLeft
  {
    var send := SendOn(l, TickRequestStop);
    if !send.result then Run([], l, ())
    else
      var recv := ReceiveOn(send.link);
      Run(send.events + recv.events, recv.link, ())
  }

  /** A call either returns a reply free of exceptions after exactly one request and one reply, or raises. */
  lemma {:induction false} ExchangeIsOneRoundTrip(l: Link, request: Msg)
    ensures var r := Exchange(l, request);
      && (r.result.Success? <==>
            l.sendsLeft > 0 && l.Pending() && ExceptionOf(l.inbox[l.read]) == NoException)
      && (l.sendsLeft > 0 && l.Pending() ==>
            r.events == [Sent(request), Received(l.inbox[l.read])]
            && r.link == Link(l.inbox, l.read + 1, l.sendsLeft - 1))
      && (r.result.Success? ==> r.result.value == l.inbox[l.read])
      && (r.result.Failure? && l.sendsLeft > 0 && l.Pending() ==>
            r.result.error == ProcessException(ExceptionOf(l.inbox[l.read])))
      && (l.sendsLeft == 0 ==> r == Run([], l, Failure(InternalError(SendRequestFailure))))
      && (l.sendsLeft > 0 && !l.Pending() ==>
            r.result == Failure(InternalError(ReceiveReplyFailure)) && r.events == [Sent(request)]
            && r.link == l.(sendsLeft := l.sendsLeft - 1))
      && Alternating(Wire(r.events), true)
  {
    var r := Exchange(l, request);
    if l.sendsLeft > 0 && l.Pending() {
      var e := [Sent(request), Received(l.inbox[l.read])];
      assert r.events == e;
      assert Wire(e) == [Sent(request)] + Wire(e[1..]);
      assert e[1..] == [Received(l.inbox[l.read])];
      assert Wire(e[1..]) == [Received(l.inbox[l.read])] + Wire([]);
      assert Wire(e) == e;
      assert Alternating(e[1..][1..], true);
    } else if l.sendsLeft > 0 {
      assert r.events == [Sent(request)];
      assert Wire(r.events) == [Sent(request)] + Wire([]);
    }
  }

  // ---------------------------------------------------------------------------
  // Views of a trace

  /** The messages written, in order. */
  function SentMessages(t: seq<Event>): (s: seq<Msg>)
    ensures |s| <= |t|
  {
    if t == [] then [] else (if t[0].Sent? then [t[0].msg] else []) + SentMessages(t[1..])
  }

  /** The callbacks delivered to the federate ambassador, in order. */
  function Dispatches(t: seq<Event>): (s: seq<Msg>)
    ensures |s| <= |t|
  {
    if t == [] then [] else (if t[0].Dispatched? then [t[0].msg] else []) + Dispatches(t[1..])
  }

  /** The reads and writes, in order, without the deliveries. */
  function Wire(t: seq<Event>): (w: seq<Event>)
    ensures forall i :: 0 <= i < |w| ==> !w[i].Dispatched?
  {
    if t == [] then [] else (if t[0].Dispatched? then [] else [t[0]]) + Wire(t[1..])
  }

  /** Writes and reads strictly alternate, the first being a write exactly when `sendNext`. */
  predicate Alternating(w: seq<Event>, sendNext: bool)
  {
    w == [] || (w[0].Sent? == sendNext && Alternating(w[1..], !sendNext))
  }

  /** Each view of a trace that starts with `e` starts with what `e` contributes. */
  lemma {:induction false} ViewsCons(e: Event, t: seq<Event>)
    ensures Wire([e] + t) == (if e.Dispatched? then [] else [e]) + Wire(t)
    ensures Dispatches([e] + t) == (if e.Dispatched? then [e.msg] else []) + Dispatches(t)
    ensures SentMessages([e] + t) == (if e.Sent? then [e.msg] else []) + SentMessages(t)
  {
    assert ([e] + t)[1..] == t;
  }

  /**
   * The stop writes `TICK_REQUEST_STOP` when the link can, delivers nothing,
   * reads at most one message and only after its write.
   */
  lemma {:induction false} StopStreamTrace(l: Link)
    ensures var s := StopStream(l);
      && SentMessages(s.events) == (if l.sendsLeft > 0 then [TickRequestStop] else [])
      && Dispatches(s.events) == []
      && Alternating(Wire(s.events), true)
      && s.link.inbox == l.inbox && l.read <= s.link.read <= l.read + 1
  {
    var s := StopStream(l);
    if l.sendsLeft > 0 {
      var tail := if l.Pending() then [Received(l.inbox[l.read])] else [];
      assert s.events == [Sent(TickRequestStop)] + tail;
      ViewsCons(Sent(TickRequestStop), tail);
      if l.Pending() {
        ViewsCons(Received(l.inbox[l.read]), []);
        assert tail == [Received(l.inbox[l.read])] + [];
        assert Alternating([Received(l.inbox[l.read])], false);
      }
    }
  }

  /** Concatenation regroups freely; stated apart so that proofs about traces need not rediscover it. */
  lemma {:induction false} Regroup<T>(a: seq<T>, b: seq<T>, c: seq<T>)
    ensures a + (b + c) == a + b + c
  {
  }

  lemma {:induction false} SentMessagesAppend(a: seq<Event>, b: seq<Event>)
    ensures SentMessages(a + b) == SentMessages(a) + SentMessages(b)
  {
    if a != [] {
      assert (a + b)[1..] == a[1..] + b;
      SentMessagesAppend(a[1..], b);
    } else {
      assert a + b == b;
    }
  }

  lemma {:induction false} DispatchesAppend(a: seq<Event>, b: seq<Event>)
    ensures Dispatches(a + b) == Dispatches(a) + Dispatches(b)
  {
    if a != [] {
      assert (a + b)[1..] == a[1..] + b;
      DispatchesAppend(a[1..], b);
    } else {
      assert a + b == b;
    }
  }
}
