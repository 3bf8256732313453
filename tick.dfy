/**
 * The callback pump (`__tick_kernel`) as a function of the link: one
 * TICK_REQUEST, then one callback at a time, each acknowledged with
 * TICK_REQUEST_NEXT, until the RTIA's TICK_REQUEST reply ends the pump.
 * `RtiAmbassador.TickKernel` is proved to behave exactly as `Kernel`.
 */
module TickPump {

  import opened Wrappers
  import opened Messages
  import opened Channel

  /** The federate ambassador the callbacks are delivered to. */
  type FederateAmbassador = Msg -> CallbackOutcome

  const SendTickRequestFailure := "NetworkError in tick() while sending TICK_REQUEST"
  const ReceiveResponseFailure := "NetworkError in tick() while receiving response"
  const SendTickRequestNextFailure := "NetworkError in tick() while sending TICK_REQUEST_NEXT"

  /** What the pump yields for the TICK_REQUEST reply that ends it. */
  function TerminalResult(reply: Msg): (r: Result<bool, RtiException>)
    requires reply.TickRequest?
    ensures r.Success? <==> reply.exception == NoException
    ensures r.Success? ==> r.value == reply.multiple
    ensures r.Failure? ==> r.error.kind == reply.exception
  {
    if reply.exception != NoException then Failure(ProcessException(reply.exception))
    else Success(reply.multiple)
  }

  /**
   * The receive loop of the pump, from the first receive on: read a message;
   * the TICK_REQUEST reply ends the pump; any other message is delivered to the
   * federate ambassador and, when it is handled, acknowledged with
   * TICK_REQUEST_NEXT. An `RTIinternalError` from the ambassador stops the
   * RTIA's stream first; any other exception leaves at once.
   */
  function Pump(l: Link, fedAmb: FederateAmbassador): (r: Run<Result<bool, RtiException>>)
    ensures r.link.inbox == l.inbox && l.read <= r.link.read && r.link.sendsLeft <= l.sendsLeft
    decreases |l.inbox| - l.read
  {
    if !l.Pending() then Run([], l, Failure(InternalError(ReceiveResponseFailure)))
    else
      var m := l.inbox[l.read];
      var afterRead := l.(read := l.read + 1);
      if m.TickRequest? then Run([Received(m)], afterRead, TerminalResult(m))
      else
        match fedAmb(m)
        case Raised(e) =>
          if e.kind == RTIinternalError then
            var stop := StopStream(afterRead);
            Run([Received(m), Dispatched(m)] + stop.events, stop.link, Failure(e))
          else Run([Received(m), Dispatched(m)], afterRead, Failure(e))
        case Handled =>
          if l.sendsLeft == 0 then
            Run([Received(m), Dispatched(m)], afterRead, Failure(InternalError(SendTickRequestNextFailure)))
          else
            var rest := Pump(Link(l.inbox, l.read + 1, l.sendsLeft - 1), fedAmb);
            Run([Received(m), Dispatched(m), Sent(TickRequestNext)] + rest.events, rest.link, rest.result)
  }

  /** The whole pump: the opening TICK_REQUEST, then the receive loop. */
  function Kernel(l: Link, multiple: bool, minimum: TickTime, maximum: TickTime,
                  fedAmb: FederateAmbassador): (r: Run<Result<bool, RtiException>>)
    ensures r.link.inbox == l.inbox && l.read <= r.link.read && r.link.sendsLeft <= l.sendsLeft
  {
    if l.sendsLeft == 0 then Run([], l, Failure(InternalError(SendTickRequestFailure)))
    else
      var rest := Pump(l.(sendsLeft := l.sendsLeft - 1), fedAmb);
      Run([Sent(TickRequest(multiple, minimum, maximum, NoException))] + rest.events, rest.link, rest.result)
  }

  // ---------------------------------------------------------------------------
  // The first steps of a trace, seen through the views

  /** A message read and delivered, then the rest of the trace. */
  lemma {:induction false} DeliveredViews(m: Msg, t: seq<Event>)
    ensures Wire([Received(m), Dispatched(m)] + t) == [Received(m)] + Wire(t)
    ensures Dispatches([Received(m), Dispatched(m)] + t) == [m] + Dispatches(t)
    ensures SentMessages([Received(m), Dispatched(m)] + t) == SentMessages(t)
  {
    assert [Received(m), Dispatched(m)] + t == [Received(m)] + ([Dispatched(m)] + t);
    ViewsCons(Received(m), [Dispatched(m)] + t);
    ViewsCons(Dispatched(m), t);
  }

  /** A message read, delivered and acknowledged, then the rest of the trace. */
  lemma {:induction false} AcknowledgedViews(m: Msg, t: seq<Event>)
    ensures Wire([Received(m), Dispatched(m), Sent(TickRequestNext)] + t)
         == [Received(m), Sent(TickRequestNext)] + Wire(t)
    ensures Dispatches([Received(m), Dispatched(m), Sent(TickRequestNext)] + t) == [m] + Dispatches(t)
    ensures SentMessages([Received(m), Dispatched(m), Sent(TickRequestNext)] + t)
         == [TickRequestNext] + SentMessages(t)
  {
    var t' := [Sent(TickRequestNext)] + t;
    assert [Received(m), Dispatched(m), Sent(TickRequestNext)] + t == [Received(m), Dispatched(m)] + t';
    DeliveredViews(m, t');
    ViewsCons(Sent(TickRequestNext), t);
  }

  /** One event in front of an alternating trace that starts on the other side. */
  lemma {:induction false} AlternatingCons(e: Event, w: seq<Event>, sendNext: bool)
    requires e.Sent? == sendNext && Alternating(w, !sendNext)
    ensures Alternating([e] + w, sendNext)
  {
    assert ([e] + w)[1..] == w;
  }

  // ---------------------------------------------------------------------------
  // Draining a run of callbacks

  /** Every message of `cs` is a callback that the federate ambassador handles without raising. */
  predicate Accepted(cs: seq<Msg>, fedAmb: FederateAmbassador)
  {
    cs == [] || (!cs[0].TickRequest? && fedAmb(cs[0]) == Handled && Accepted(cs[1..], fedAmb))
  }

  /** The next `|cs|` messages to be read from `inbox` at position `read` are `cs`. */
  predicate Upcoming(inbox: seq<Msg>, read: nat, cs: seq<Msg>)
  {
    read + |cs| <= |inbox| && forall k :: 0 <= k < |cs| ==> inbox[read + k] == cs[k]
  }

  lemma {:induction false} UpcomingTail(inbox: seq<Msg>, read: nat, cs: seq<Msg>)
    requires cs != [] && Upcoming(inbox, read, cs)
    ensures read < |inbox| && inbox[read] == cs[0] && Upcoming(inbox, read + 1, cs[1..])
  {
    assert inbox[read + 0] == cs[0];
    forall k | 0 <= k < |cs| - 1 ensures inbox[read + 1 + k] == cs[1..][k] {
      assert inbox[read + (k + 1)] == cs[k + 1];
    }
  }

  lemma {:induction false} UpcomingCons(inbox: seq<Msg>, read: nat, cs: seq<Msg>)
    requires read < |inbox| && Upcoming(inbox, read + 1, cs)
    ensures Upcoming(inbox, read, [inbox[read]] + cs)
  {
    var cs' := [inbox[read]] + cs;
    forall k | 0 <= k < |cs'| ensures inbox[read + k] == cs'[k] {
      if k > 0 {
        assert inbox[read + 1 + (k - 1)] == cs[k - 1];
      }
    }
  }

  /** The trace of draining `cs`: each callback read, delivered, then acknowledged. */
  function Drained(cs: seq<Msg>): seq<Event>
  {
    if cs == [] then []
    else [Received(cs[0]), Dispatched(cs[0]), Sent(TickRequestNext)] + Drained(cs[1..])
  }

  function Nexts(n: nat): (s: seq<Msg>)
    ensures |s| == n && forall i :: 0 <= i < n ==> s[i] == TickRequestNext
  {
    seq(n, _ => TickRequestNext)
  }

  /** Each callback is read, then delivered, then acknowledged, before the next one is read. */
  lemma {:induction false} DrainedOrder(cs: seq<Msg>)
    ensures |Drained(cs)| == 3 * |cs|
    ensures forall i :: 0 <= i < |cs| ==>
      Drained(cs)[3 * i] == Received(cs[i]) && Drained(cs)[3 * i + 1] == Dispatched(cs[i])
      && Drained(cs)[3 * i + 2] == Sent(TickRequestNext)
  {
    if cs != [] {
      DrainedOrder(cs[1..]);
      forall i | 0 <= i < |cs|
        ensures Drained(cs)[3 * i] == Received(cs[i]) && Drained(cs)[3 * i + 1] == Dispatched(cs[i])
          && Drained(cs)[3 * i + 2] == Sent(TickRequestNext)
      {
        if i > 0 {
          assert cs[i] == cs[1..][i - 1];
          assert Drained(cs)[3 * i] == Drained(cs[1..])[3 * (i - 1)];
          assert Drained(cs)[3 * i + 1] == Drained(cs[1..])[3 * (i - 1) + 1];
          assert Drained(cs)[3 * i + 2] == Drained(cs[1..])[3 * (i - 1) + 2];
        }
      }
    }
  }

  /** Draining delivers every callback exactly once, in arrival order. */
  lemma {:induction false} DrainedDispatches(cs: seq<Msg>)
    ensures Dispatches(Drained(cs)) == cs
  {
    if cs != [] {
      AcknowledgedViews(cs[0], Drained(cs[1..]));
      DrainedDispatches(cs[1..]);
      assert [cs[0]] + cs[1..] == cs;
    }
  }

  /** Draining writes exactly one TICK_REQUEST_NEXT per callback and nothing else. */
  lemma {:induction false} DrainedSends(cs: seq<Msg>)
    ensures SentMessages(Drained(cs)) == Nexts(|cs|)
  {
    if cs != [] {
      AcknowledgedViews(cs[0], Drained(cs[1..]));
      DrainedSends(cs[1..]);
      assert [TickRequestNext] + Nexts(|cs| - 1) == Nexts(|cs|);
    }
  }

  /** One accepted callback: read, delivered, acknowledged, then the pump goes on. */
  lemma {:induction false} PumpAcceptsOne(l: Link, fedAmb: FederateAmbassador)
    requires l.Pending() && !l.inbox[l.read].TickRequest? && fedAmb(l.inbox[l.read]) == Handled && l.sendsLeft > 0
    ensures var r := Pump(Link(l.inbox, l.read + 1, l.sendsLeft - 1), fedAmb);
      Pump(l, fedAmb)
        == Run([Received(l.inbox[l.read]), Dispatched(l.inbox[l.read]), Sent(TickRequestNext)] + r.events,
               r.link, r.result)
  {
  }

  /** Two runs chained: a prefix of events, then a run that itself starts with a prefix. */
  lemma {:induction false} Chain<R>(k: Run<R>, first: seq<Event>, p: Run<R>, second: seq<Event>, r: Run<R>)
    requires k == Run(first + p.events, p.link, p.result)
    requires p == Run(second + r.events, r.link, r.result)
    ensures k == Run(first + second + r.events, r.link, r.result)
  {
    Regroup(first, second, r.events);
  }

  /** Once a run of accepted callbacks has been drained, the pump goes on from the link `after` it. */
  lemma {:induction false} PumpAfterCallbacks(l: Link, cs: seq<Msg>, after: Link, fedAmb: FederateAmbassador)
    requires Accepted(cs, fedAmb) && Upcoming(l.inbox, l.read, cs) && |cs| <= l.sendsLeft
    requires after == Link(l.inbox, l.read + |cs|, l.sendsLeft - |cs|)
    ensures var r := Pump(after, fedAmb);
      Pump(l, fedAmb) == Run(Drained(cs) + r.events, r.link, r.result)
    decreases |cs|
  {
    if cs != [] {
      var l' := Link(l.inbox, l.read + 1, l.sendsLeft - 1);
      var r := Pump(after, fedAmb);
      UpcomingTail(l.inbox, l.read, cs);
      assert Pump(l', fedAmb) == Run(Drained(cs[1..]) + r.events, r.link, r.result) by {
        PumpAfterCallbacks(l', cs[1..], after, fedAmb);
      }
      var head := [Received(cs[0]), Dispatched(cs[0]), Sent(TickRequestNext)];
      PumpAcceptsOne(l, fedAmb);
      assert Drained(cs) == head + Drained(cs[1..]);
      Chain(Pump(l, fedAmb), head, Pump(l', fedAmb), Drained(cs[1..]), r);
    }
  }

  // ---------------------------------------------------------------------------
  // Properties of every run of the receive loop

  /** Reads and writes of the receive loop alternate, starting with a read. */
  lemma {:induction false} PumpAlternates(l: Link, fedAmb: FederateAmbassador)
    ensures Alternating(Wire(Pump(l, fedAmb).events), false)
    decreases |l.inbox| - l.read
  {
    if l.Pending() {
      var m := l.inbox[l.read];
      var afterRead := l.(read := l.read + 1);
      if m.TickRequest? {
        ViewsCons(Received(m), []);
        assert [Received(m)] + [] == [Received(m)];
        AlternatingCons(Received(m), [], false);
      } else {
        match fedAmb(m)
        case Raised(e) =>
          var t := if e.kind == RTIinternalError then StopStream(afterRead).events else [];
          StopStreamTrace(afterRead);
          assert Pump(l, fedAmb).events == [Received(m), Dispatched(m)] + t;
          DeliveredViews(m, t);
          AlternatingCons(Received(m), Wire(t), false);
        case Handled =>
          if l.sendsLeft == 0 {
            assert [Received(m), Dispatched(m)] + [] == [Received(m), Dispatched(m)];
            DeliveredViews(m, []);
            AlternatingCons(Received(m), [], false);
          } else {
            var next := Link(l.inbox, l.read + 1, l.sendsLeft - 1);
            var w := Wire(Pump(next, fedAmb).events);
            PumpAlternates(next, fedAmb);
            AcknowledgedViews(m, Pump(next, fedAmb).events);
            AlternatingCons(Sent(TickRequestNext), w, true);
            AlternatingCons(Received(m), [Sent(TickRequestNext)] + w, false);
            assert [Received(m), Sent(TickRequestNext)] + w == [Received(m)] + ([Sent(TickRequestNext)] + w);
          }
      }
    }
  }

  /** `d` is what the loop may deliver from `inbox` at `read`: the next messages, in arrival order, none of them the reply. */
  predicate InArrivalOrder(inbox: seq<Msg>, read: nat, d: seq<Msg>)
  {
    Upcoming(inbox, read, d) && forall i :: 0 <= i < |d| ==> !d[i].TickRequest?
  }

  lemma {:induction false} InArrivalOrderCons(inbox: seq<Msg>, read: nat, d: seq<Msg>)
    requires read < |inbox| && !inbox[read].TickRequest? && InArrivalOrder(inbox, read + 1, d)
    ensures InArrivalOrder(inbox, read, [inbox[read]] + d)
  {
    UpcomingCons(inbox, read, d);
    var d' := [inbox[read]] + d;
    forall i | 0 <= i < |d'| ensures !d'[i].TickRequest? {
      if i > 0 {
        assert d'[i] == d[i - 1];
      }
    }
  }

  /** The loop delivers callbacks in arrival order, skips none, and never delivers the TICK_REQUEST reply. */
  lemma {:induction false} PumpDeliversInOrder(l: Link, fedAmb: FederateAmbassador)
    requires l.read <= |l.inbox|
    ensures InArrivalOrder(l.inbox, l.read, Dispatches(Pump(l, fedAmb).events))
    decreases |l.inbox| - l.read
  {
    if l.Pending() {
      var m := l.inbox[l.read];
      var afterRead := l.(read := l.read + 1);
      if m.TickRequest? {
        ViewsCons(Received(m), []);
        assert [Received(m)] + [] == [Received(m)];
      } else {
        match fedAmb(m)
        case Raised(e) =>
          var t := if e.kind == RTIinternalError then StopStream(afterRead).events else [];
          StopStreamTrace(afterRead);
          assert Pump(l, fedAmb).events == [Received(m), Dispatched(m)] + t;
          DeliveredViews(m, t);
          InArrivalOrderCons(l.inbox, l.read, []);
          assert [m] + [] == [m];
        case Handled =>
          if l.sendsLeft == 0 {
            assert [Received(m), Dispatched(m)] + [] == [Received(m), Dispatched(m)];
            DeliveredViews(m, []);
            InArrivalOrderCons(l.inbox, l.read, []);
            assert [m] + [] == [m];
          } else {
            var next := Link(l.inbox, l.read + 1, l.sendsLeft - 1);
            PumpDeliversInOrder(next, fedAmb);
            AcknowledgedViews(m, Pump(next, fedAmb).events);
            InArrivalOrderCons(l.inbox, l.read, Dispatches(Pump(next, fedAmb).events));
          }
      }
    }
  }

  /** The loop writes only TICK_REQUEST_NEXT, except possibly one TICK_REQUEST_STOP, which is its last write. */
  predicate AcknowledgementsOnly(s: seq<Msg>)
  {
    forall i :: 0 <= i < |s| ==> s[i] == TickRequestNext || (s[i] == TickRequestStop && i == |s| - 1)
  }

  lemma {:induction false} AcknowledgementsCons(s: seq<Msg>)
    requires AcknowledgementsOnly(s)
    ensures AcknowledgementsOnly([TickRequestNext] + s)
  {
    var s' := [TickRequestNext] + s;
    forall i | 0 <= i < |s'| ensures s'[i] == TickRequestNext || (s'[i] == TickRequestStop && i == |s'| - 1) {
      if i > 0 {
        assert s'[i] == s[i - 1];
      }
    }
  }

  lemma {:induction false} PumpWritesAcknowledgements(l: Link, fedAmb: FederateAmbassador)
    ensures AcknowledgementsOnly(SentMessages(Pump(l, fedAmb).events))
    decreases |l.inbox| - l.read
  {
    if l.Pending() {
      var m := l.inbox[l.read];
      var afterRead := l.(read := l.read + 1);
      if m.TickRequest? {
        ViewsCons(Received(m), []);
        assert [Received(m)] + [] == [Received(m)];
      } else {
        match fedAmb(m)
        case Raised(e) =>
          var t := if e.kind == RTIinternalError then StopStream(afterRead).events else [];
          StopStreamTrace(afterRead);
          assert Pump(l, fedAmb).events == [Received(m), Dispatched(m)] + t;
          DeliveredViews(m, t);
        case Handled =>
          if l.sendsLeft == 0 {
            assert [Received(m), Dispatched(m)] + [] == [Received(m), Dispatched(m)];
            DeliveredViews(m, []);
          } else {
            var next := Link(l.inbox, l.read + 1, l.sendsLeft - 1);
            PumpWritesAcknowledgements(next, fedAmb);
            AcknowledgedViews(m, Pump(next, fedAmb).events);
            AcknowledgementsCons(SentMessages(Pump(next, fedAmb).events));
          }
      }
    }
  }

  /** `e` is the exception that message `m` accounts for: the reply's own exception, or the one the federate ambassador raised on it. */
  predicate Blames(m: Msg, e: RtiException, fedAmb: FederateAmbassador)
  {
    if m.TickRequest? then m.exception != NoException && e == ProcessException(m.exception)
    else fedAmb(m) == Raised(e)
  }

  /** Every message from `from` up to `to` is a callback the federate ambassador handled. */
  predicate HandledRun(inbox: seq<Msg>, from: nat, to: nat, fedAmb: FederateAmbassador)
    requires to <= |inbox|
  {
    forall j :: from <= j < to ==> !inbox[j].TickRequest? && fedAmb(inbox[j]) == Handled
  }

  /**
   * What the receive loop's result can be, and where it comes from: a failure
   * that is not a `NetworkError` is blamed on the first message read that is
   * not a handled callback, never on the reply a stop reads after it.
   */
  predicate Explained(l: Link, r: Run<Result<bool, RtiException>>, fedAmb: FederateAmbassador)
  {
    && r.link.inbox == l.inbox && l.read <= r.link.read
    && (r.result.Success? ==>
          && l.read < r.link.read <= |l.inbox|
          && l.inbox[r.link.read - 1].TickRequest?
          && l.inbox[r.link.read - 1].exception == NoException
          && r.result.value == l.inbox[r.link.read - 1].multiple)
    && (r.result.Failure? ==>
          || r.result.error == InternalError(ReceiveResponseFailure)
          || r.result.error == InternalError(SendTickRequestNextFailure)
          || exists i :: l.read <= i < r.link.read && i < |l.inbox| && Blames(l.inbox[i], r.result.error, fedAmb)
               && HandledRun(l.inbox, l.read, i, fedAmb))
  }

  /**
   * The loop succeeds only on a TICK_REQUEST reply free of exceptions, with
   * that reply's `multiple` flag; it fails only with a read or acknowledgement
   * `NetworkError` reported as an internal error naming that phase, with the
   * exception a reply carries, or with one the federate ambassador raised.
   */
  lemma {:induction false} PumpOutcome(l: Link, fedAmb: FederateAmbassador)
    ensures Explained(l, Pump(l, fedAmb), fedAmb)
    decreases |l.inbox| - l.read
  {
    if l.Pending() {
      var m := l.inbox[l.read];
      if m.TickRequest? {
        if Pump(l, fedAmb).result.Failure? {
          assert Blames(l.inbox[l.read], Pump(l, fedAmb).result.error, fedAmb);
        }
      } else {
        match fedAmb(m)
        case Raised(e) =>
          StopStreamTrace(l.(read := l.read + 1));
          assert Blames(l.inbox[l.read], e, fedAmb);
        case Handled =>
          if l.sendsLeft > 0 {
            var next := Link(l.inbox, l.read + 1, l.sendsLeft - 1);
            PumpOutcome(next, fedAmb);
            assert Pump(l, fedAmb).link == Pump(next, fedAmb).link;
            assert Pump(l, fedAmb).result == Pump(next, fedAmb).result;
          }
      }
    }
  }

  // ---------------------------------------------------------------------------
  // What one call of the pump does

  /** A link that can write: the opening TICK_REQUEST, then the receive loop. */
  lemma {:induction false} KernelOpens(l: Link, multiple: bool, minimum: TickTime, maximum: TickTime, fedAmb: FederateAmbassador)
    requires l.sendsLeft > 0
    ensures var p := Pump(l.(sendsLeft := l.sendsLeft - 1), fedAmb);
      Kernel(l, multiple, minimum, maximum, fedAmb)
        == Run([Sent(TickRequest(multiple, minimum, maximum, NoException))] + p.events, p.link, p.result)
  {
  }

  /** A link that cannot write fails before anything is read or delivered, naming the TICK_REQUEST write. */
  lemma {:induction false} KernelCannotOpen(l: Link, multiple: bool, minimum: TickTime, maximum: TickTime,
                         fedAmb: FederateAmbassador)
    requires l.sendsLeft == 0
    ensures Kernel(l, multiple, minimum, maximum, fedAmb)
         == Run([], l, Failure(InternalError(SendTickRequestFailure)))
  {
  }

  /**
   * The pump writes exactly one TICK_REQUEST, carrying the given `multiple`,
   * `minimum` and `maximum`, before it reads anything; every later write is a
   * TICK_REQUEST_NEXT, except possibly one final TICK_REQUEST_STOP.
   */
  lemma {:induction false} KernelWritesOneTickRequest(l: Link, multiple: bool, minimum: TickTime, maximum: TickTime,
                                   fedAmb: FederateAmbassador)
    requires l.sendsLeft > 0
    ensures var k := Kernel(l, multiple, minimum, maximum, fedAmb);
      && k.events != [] && k.events[0] == Sent(TickRequest(multiple, minimum, maximum, NoException))
      && SentMessages(k.events) != []
      && SentMessages(k.events)[0] == TickRequest(multiple, minimum, maximum, NoException)
      && AcknowledgementsOnly(SentMessages(k.events)[1..])
  {
    var opening := Sent(TickRequest(multiple, minimum, maximum, NoException));
    var p := Pump(l.(sendsLeft := l.sendsLeft - 1), fedAmb);
    KernelOpens(l, multiple, minimum, maximum, fedAmb);
    PumpWritesAcknowledgements(l.(sendsLeft := l.sendsLeft - 1), fedAmb);
    ViewsCons(opening, p.events);
    assert ([opening.msg] + SentMessages(p.events))[1..] == SentMessages(p.events);
  }

  /** Reads and writes of the whole pump alternate, starting with the TICK_REQUEST write. */
  lemma {:induction false} KernelAlternates(l: Link, multiple: bool, minimum: TickTime, maximum: TickTime,
                         fedAmb: FederateAmbassador)
    ensures Alternating(Wire(Kernel(l, multiple, minimum, maximum, fedAmb).events), true)
  {
    if l.sendsLeft > 0 {
      var opening := Sent(TickRequest(multiple, minimum, maximum, NoException));
      var p := Pump(l.(sendsLeft := l.sendsLeft - 1), fedAmb);
      KernelOpens(l, multiple, minimum, maximum, fedAmb);
      PumpAlternates(l.(sendsLeft := l.sendsLeft - 1), fedAmb);
      ViewsCons(opening, p.events);
      AlternatingCons(opening, Wire(p.events), true);
    }
  }

  /** The pump delivers callbacks in arrival order, skips none, and never delivers the TICK_REQUEST reply. */
  lemma {:induction false} KernelDeliversInOrder(l: Link, multiple: bool, minimum: TickTime, maximum: TickTime,
                              fedAmb: FederateAmbassador)
    requires l.read <= |l.inbox|
    ensures InArrivalOrder(l.inbox, l.read, Dispatches(Kernel(l, multiple, minimum, maximum, fedAmb).events))
  {
    if l.sendsLeft > 0 {
      var opening := Sent(TickRequest(multiple, minimum, maximum, NoException));
      var p := Pump(l.(sendsLeft := l.sendsLeft - 1), fedAmb);
      KernelOpens(l, multiple, minimum, maximum, fedAmb);
      PumpDeliversInOrder(l.(sendsLeft := l.sendsLeft - 1), fedAmb);
      ViewsCons(opening, p.events);
      assert [] + Dispatches(p.events) == Dispatches(p.events);
    } else {
      assert Upcoming(l.inbox, l.read, []);
    }
  }

  /**
   * The pump succeeds only with the `multiple` flag of a TICK_REQUEST reply
   * free of exceptions, and fails only with a `NetworkError` reported as an
   * internal error naming its phase, with the exception a reply carries, or
   * with one the federate ambassador raised.
   */
  lemma {:induction false} KernelOutcome(l: Link, multiple: bool, minimum: TickTime, maximum: TickTime,
                      fedAmb: FederateAmbassador)
    ensures var k := Kernel(l, multiple, minimum, maximum, fedAmb);
      || k.result == Failure(InternalError(SendTickRequestFailure))
      || Explained(l, k, fedAmb)
  {
    if l.sendsLeft > 0 {
      KernelOpens(l, multiple, minimum, maximum, fedAmb);
      PumpOutcome(l.(sendsLeft := l.sendsLeft - 1), fedAmb);
    }
  }

  /** After the opening request and a run of accepted callbacks, the pump goes on from the link `after` them. */
  lemma {:induction false} KernelAfterCallbacks(l: Link, cs: seq<Msg>, after: Link, multiple: bool, minimum: TickTime, maximum: TickTime,
                             fedAmb: FederateAmbassador)
    requires Accepted(cs, fedAmb) && Upcoming(l.inbox, l.read, cs) && l.sendsLeft > |cs|
    requires after == Link(l.inbox, l.read + |cs|, l.sendsLeft - 1 - |cs|)
    ensures var r := Pump(after, fedAmb);
      Kernel(l, multiple, minimum, maximum, fedAmb)
        == Run([Sent(TickRequest(multiple, minimum, maximum, NoException))] + Drained(cs) + r.events, r.link, r.result)
  {
    var l1 := l.(sendsLeft := l.sendsLeft - 1);
    KernelOpens(l, multiple, minimum, maximum, fedAmb);
    PumpAfterCallbacks(l1, cs, after, fedAmb);
    Chain(Kernel(l, multiple, minimum, maximum, fedAmb), [Sent(TickRequest(multiple, minimum, maximum, NoException))],
          Pump(l1, fedAmb), Drained(cs), Pump(after, fedAmb));
  }

  /** The deliveries of a trace that starts with the opening request and a drained run. */
  lemma {:induction false} OpenedDispatches(opening: Msg, cs: seq<Msg>, tail: seq<Event>)
    ensures Dispatches([Sent(opening)] + Drained(cs) + tail) == cs + Dispatches(tail)
  {
    var o := [Sent(opening)];
    assert Dispatches(o + Drained(cs)) == cs by {
      DrainedDispatches(cs);
      ViewsCons(Sent(opening), Drained(cs));
    }
    DispatchesAppend(o + Drained(cs), tail);
  }

  /** The writes of a trace that starts with the opening request and a drained run. */
  lemma {:induction false} OpenedSends(opening: Msg, cs: seq<Msg>, tail: seq<Event>)
    ensures SentMessages([Sent(opening)] + Drained(cs) + tail) == [opening] + Nexts(|cs|) + SentMessages(tail)
  {
    var o := [Sent(opening)];
    assert SentMessages(o + Drained(cs)) == [opening] + Nexts(|cs|) by {
      DrainedSends(cs);
      ViewsCons(Sent(opening), Drained(cs));
    }
    SentMessagesAppend(o + Drained(cs), tail);
  }

  /** The deliveries and writes of a trace that starts with the opening request and a drained run. */
  lemma {:induction false} ViewsOfOpenedRun(opening: Msg, cs: seq<Msg>, tail: seq<Event>)
    ensures Dispatches([Sent(opening)] + Drained(cs) + tail) == cs + Dispatches(tail)
    ensures SentMessages([Sent(opening)] + Drained(cs) + tail) == [opening] + Nexts(|cs|) + SentMessages(tail)
  {
    OpenedDispatches(opening, cs, tail);
    OpenedSends(opening, cs, tail);
  }

  lemma {:induction false} ViewsEndingOnReply(opening: Msg, cs: seq<Msg>, reply: Msg)
    ensures Dispatches([Sent(opening)] + Drained(cs) + [Received(reply)]) == cs
    ensures SentMessages([Sent(opening)] + Drained(cs) + [Received(reply)]) == [opening] + Nexts(|cs|)
  {
    var tail := [Received(reply)];
    ViewsOfOpenedRun(opening, cs, tail);
    assert Dispatches(tail) == [] && SentMessages(tail) == [] by {
      ViewsCons(Received(reply), []);
      assert [Received(reply)] + [] == tail;
    }
    assert cs + [] == cs;
    assert [opening] + Nexts(|cs|) + [] == [opening] + Nexts(|cs|);
  }

  /** The TICK_REQUEST reply ends the receive loop. */
  lemma {:induction false} PumpReadsReply(l: Link, fedAmb: FederateAmbassador)
    requires l.Pending() && l.inbox[l.read].TickRequest?
    ensures Pump(l, fedAmb) == Run([Received(l.inbox[l.read])], l.(read := l.read + 1), TerminalResult(l.inbox[l.read]))
  {
  }

  /** N accepted callbacks, then the TICK_REQUEST reply, as seen by the receive loop. */
  lemma {:induction false} PumpDeliversCallbacks(l: Link, cs: seq<Msg>, fedAmb: FederateAmbassador)
    requires Accepted(cs, fedAmb) && Upcoming(l.inbox, l.read, cs) && l.sendsLeft >= |cs|
    requires l.read + |cs| < |l.inbox| && l.inbox[l.read + |cs|].TickRequest?
    ensures Pump(l, fedAmb) == Run(Drained(cs) + [Received(l.inbox[l.read + |cs|])],
                                   Link(l.inbox, l.read + |cs| + 1, l.sendsLeft - |cs|),
                                   TerminalResult(l.inbox[l.read + |cs|]))
  {
    var after := Link(l.inbox, l.read + |cs|, l.sendsLeft - |cs|);
    PumpReadsReply(after, fedAmb);
    PumpAfterCallbacks(l, cs, after, fedAmb);
  }

  /** What the pump does, given what its receive loop does. */
  lemma {:induction false} KernelFromPump(l: Link, multiple: bool, minimum: TickTime, maximum: TickTime, fedAmb: FederateAmbassador,
                       events: seq<Event>, link: Link, result: Result<bool, RtiException>)
    requires l.sendsLeft > 0 && Pump(l.(sendsLeft := l.sendsLeft - 1), fedAmb) == Run(events, link, result)
    ensures Kernel(l, multiple, minimum, maximum, fedAmb)
         == Run([Sent(TickRequest(multiple, minimum, maximum, NoException))] + events, link, result)
  {
  }

  /**
   * N accepted callbacks followed by the TICK_REQUEST reply: the opening
   * request, then each callback read, delivered and acknowledged in turn,
   * then the reply; the result is the reply's `multiple` flag, or the
   * exception the reply carries.
   */
  lemma {:induction false} KernelDeliversCallbacks(l: Link, cs: seq<Msg>, multiple: bool, minimum: TickTime, maximum: TickTime,
                                fedAmb: FederateAmbassador)
    requires Accepted(cs, fedAmb) && Upcoming(l.inbox, l.read, cs) && l.sendsLeft > |cs|
    requires l.read + |cs| < |l.inbox| && l.inbox[l.read + |cs|].TickRequest?
    ensures Kernel(l, multiple, minimum, maximum, fedAmb)
         == Run([Sent(TickRequest(multiple, minimum, maximum, NoException))]
                  + (Drained(cs) + [Received(l.inbox[l.read + |cs|])]),
                Link(l.inbox, l.read + |cs| + 1, l.sendsLeft - 1 - |cs|),
                TerminalResult(l.inbox[l.read + |cs|]))
  {
    var l1 := l.(sendsLeft := l.sendsLeft - 1);
    var reply := l.inbox[l.read + |cs|];
    var events := Drained(cs) + [Received(reply)];
    var link := Link(l.inbox, l.read + |cs| + 1, l.sendsLeft - 1 - |cs|);
    assert Pump(l1, fedAmb) == Run(events, link, TerminalResult(reply)) by {
      PumpDeliversCallbacks(l1, cs, fedAmb);
    }
    KernelFromPump(l, multiple, minimum, maximum, fedAmb, events, link, TerminalResult(reply));
  }

  /**
   * In the same situation the federate ambassador is invoked exactly N times,
   * on the N callbacks in arrival order, and exactly N TICK_REQUEST_NEXT are
   * written after the opening request, each after its callback's delivery.
   */
  lemma {:induction false} KernelCountsCallbacks(l: Link, cs: seq<Msg>, multiple: bool, minimum: TickTime, maximum: TickTime,
                              fedAmb: FederateAmbassador)
    requires Accepted(cs, fedAmb) && Upcoming(l.inbox, l.read, cs) && l.sendsLeft > |cs|
    requires l.read + |cs| < |l.inbox| && l.inbox[l.read + |cs|].TickRequest?
    ensures var k := Kernel(l, multiple, minimum, maximum, fedAmb);
      && Dispatches(k.events) == cs
      && SentMessages(k.events) == [TickRequest(multiple, minimum, maximum, NoException)] + Nexts(|cs|)
  {
    var opening := TickRequest(multiple, minimum, maximum, NoException);
    KernelDeliversCallbacks(l, cs, multiple, minimum, maximum, fedAmb);
    Regroup([Sent(opening)], Drained(cs), [Received(l.inbox[l.read + |cs|])]);
    ViewsEndingOnReply(TickRequest(multiple, minimum, maximum, NoException), cs, l.inbox[l.read + |cs|]);
  }

  // ---------------------------------------------------------------------------
  // How the pump fails after a run of accepted callbacks

  /** A callback on which the federate ambassador raises: only an `RTIinternalError` stops the RTIA's stream. */
  lemma {:induction false} PumpCallbackRaises(l: Link, fedAmb: FederateAmbassador)
    requires l.Pending() && !l.inbox[l.read].TickRequest? && fedAmb(l.inbox[l.read]).Raised?
    ensures var m := l.inbox[l.read];
      var e := fedAmb(m).error;
      var p := Pump(l, fedAmb);
      && p.result == Failure(e)
      && Dispatches(p.events) == [m]
      && SentMessages(p.events) == (if e.kind == RTIinternalError && l.sendsLeft > 0 then [TickRequestStop] else [])
  {
    var m := l.inbox[l.read];
    var e := fedAmb(m).error;
    var afterRead := l.(read := l.read + 1);
    var t := if e.kind == RTIinternalError then StopStream(afterRead).events else [];
    StopStreamTrace(afterRead);
    assert Pump(l, fedAmb).events == [Received(m), Dispatched(m)] + t;
    DeliveredViews(m, t);
    assert [m] + [] == [m];
  }

  /** A callback handled when the link can no longer write: the acknowledgement fails. */
  lemma {:induction false} PumpCannotAcknowledge(l: Link, fedAmb: FederateAmbassador)
    requires l.Pending() && !l.inbox[l.read].TickRequest? && fedAmb(l.inbox[l.read]) == Handled
    requires l.sendsLeft == 0
    ensures var p := Pump(l, fedAmb);
      && p.result == Failure(InternalError(SendTickRequestNextFailure))
      && Dispatches(p.events) == [l.inbox[l.read]]
      && SentMessages(p.events) == []
  {
    var m := l.inbox[l.read];
    assert Pump(l, fedAmb).events == [Received(m), Dispatched(m)] + [];
    DeliveredViews(m, []);
    assert [m] + [] == [m];
  }

  /**
   * N accepted callbacks, then one on which the federate ambassador raises
   * `e`: the pump delivers the N + 1 callbacks in arrival order, acknowledges
   * only the first N, and raises `e`. For an `RTIinternalError` it writes
   * TICK_REQUEST_STOP exactly once, as its last write, when the link can still
   * write; for any other exception it writes no stop.
   */
  lemma {:induction false} KernelCallbackRaises(l: Link, cs: seq<Msg>, multiple: bool, minimum: TickTime,
                                                maximum: TickTime, fedAmb: FederateAmbassador)
    requires Accepted(cs, fedAmb) && Upcoming(l.inbox, l.read, cs) && l.sendsLeft > |cs|
    requires l.read + |cs| < |l.inbox| && !l.inbox[l.read + |cs|].TickRequest?
    requires fedAmb(l.inbox[l.read + |cs|]).Raised?
    ensures var bad := l.inbox[l.read + |cs|];
      var e := fedAmb(bad).error;
      var k := Kernel(l, multiple, minimum, maximum, fedAmb);
      && k.result == Failure(e)
      && Dispatches(k.events) == cs + [bad]
      && SentMessages(k.events)
         == [TickRequest(multiple, minimum, maximum, NoException)] + Nexts(|cs|)
            + (if e.kind == RTIinternalError && l.sendsLeft > |cs| + 1 then [TickRequestStop] else [])
  {
    var after := Link(l.inbox, l.read + |cs|, l.sendsLeft - 1 - |cs|);
    KernelAfterCallbacks(l, cs, after, multiple, minimum, maximum, fedAmb);
    PumpCallbackRaises(after, fedAmb);
    ViewsOfOpenedRun(TickRequest(multiple, minimum, maximum, NoException), cs, Pump(after, fedAmb).events);
  }

  /**
   * N accepted callbacks, then nothing more from the RTIA: the read that
   * follows fails and is reported as an internal error naming the receive.
   */
  lemma {:induction false} KernelReceiveFails(l: Link, cs: seq<Msg>, multiple: bool, minimum: TickTime,
                                              maximum: TickTime, fedAmb: FederateAmbassador)
    requires Accepted(cs, fedAmb) && Upcoming(l.inbox, l.read, cs) && l.sendsLeft > |cs|
    requires l.read + |cs| == |l.inbox|
    ensures var k := Kernel(l, multiple, minimum, maximum, fedAmb);
      && k.result == Failure(InternalError(ReceiveResponseFailure))
      && Dispatches(k.events) == cs
      && SentMessages(k.events) == [TickRequest(multiple, minimum, maximum, NoException)] + Nexts(|cs|)
  {
    var after := Link(l.inbox, l.read + |cs|, l.sendsLeft - 1 - |cs|);
    KernelAfterCallbacks(l, cs, after, multiple, minimum, maximum, fedAmb);
    assert Pump(after, fedAmb).events == [];
    ViewsOfOpenedRun(TickRequest(multiple, minimum, maximum, NoException), cs, []);
    assert cs + [] == cs;
    assert [TickRequest(multiple, minimum, maximum, NoException)] + Nexts(|cs|) + []
        == [TickRequest(multiple, minimum, maximum, NoException)] + Nexts(|cs|);
  }

  /**
   * N accepted callbacks when the link can write only the opening request and
   * N acknowledgements, then one more accepted callback: it is delivered, and
   * its acknowledgement fails and is reported as an internal error naming the
   * TICK_REQUEST_NEXT write.
   */
  lemma {:induction false} KernelAcknowledgeFails(l: Link, cs: seq<Msg>, multiple: bool, minimum: TickTime,
                                                  maximum: TickTime, fedAmb: FederateAmbassador)
    requires Accepted(cs, fedAmb) && Upcoming(l.inbox, l.read, cs) && l.sendsLeft == |cs| + 1
    requires l.read + |cs| < |l.inbox| && !l.inbox[l.read + |cs|].TickRequest?
    requires fedAmb(l.inbox[l.read + |cs|]) == Handled
    ensures var k := Kernel(l, multiple, minimum, maximum, fedAmb);
      && k.result == Failure(InternalError(SendTickRequestNextFailure))
      && Dispatches(k.events) == cs + [l.inbox[l.read + |cs|]]
      && SentMessages(k.events) == [TickRequest(multiple, minimum, maximum, NoException)] + Nexts(|cs|)
  {
    var after := Link(l.inbox, l.read + |cs|, l.sendsLeft - 1 - |cs|);
    KernelAfterCallbacks(l, cs, after, multiple, minimum, maximum, fedAmb);
    PumpCannotAcknowledge(after, fedAmb);
    ViewsOfOpenedRun(TickRequest(multiple, minimum, maximum, NoException), cs, Pump(after, fedAmb).events);
    assert [TickRequest(multiple, minimum, maximum, NoException)] + Nexts(|cs|) + []
        == [TickRequest(multiple, minimum, maximum, NoException)] + Nexts(|cs|);
  }

  // ---------------------------------------------------------------------------
  // The entry points

  /** Which library the ambassador was built as: `LEGACY_LIBRTI` or `HLA13NG_LIBRTI`. */
  datatype LibraryBuild = Legacy | NextGeneration

  /** The arguments an entry point hands to the pump. */
  datatype PumpArguments = PumpArguments(multiple: bool, minimum: TickTime, maximum: TickTime)

  /**
   * `tick()`: the legacy build asks for at most one callback without waiting;
   * the newer build asks for every available callback, waiting without bound.
   */
  function TickArguments(build: LibraryBuild): (a: PumpArguments)
    ensures build == Legacy ==> a == PumpArguments(false, ZeroTime, ZeroTime)
    ensures build == NextGeneration ==> a == PumpArguments(true, ZeroTime, InfiniteTime)
  {
    match build
    case Legacy => PumpArguments(false, ZeroTime, ZeroTime)
    case NextGeneration => PumpArguments(true, ZeroTime, InfiniteTime)
  }

  /** `tick2()`: one callback, waiting without bound for it. */
  const Tick2Arguments := PumpArguments(false, InfiniteTime, ZeroTime)

  /** The pump run with `a`, its result replaced by `RTI_FALSE` unless it raised. */
  function PumpIgnoringResult(l: Link, a: PumpArguments, fedAmb: FederateAmbassador): (r: Run<Result<bool, RtiException>>)
    ensures r.result.Success? ==> r.result.value == false
    ensures r.result.Failure? <==> Kernel(l, a.multiple, a.minimum, a.maximum, fedAmb).result.Failure?
    ensures r.link.inbox == l.inbox && l.read <= r.link.read && r.link.sendsLeft <= l.sendsLeft
  {
    var k := Kernel(l, a.multiple, a.minimum, a.maximum, fedAmb);
    Run(k.events, k.link, if k.result.Success? then Success(false) else k.result)
  }

  /** `tick()`. */
  function Tick(l: Link, build: LibraryBuild, fedAmb: FederateAmbassador): (r: Run<Result<bool, RtiException>>)
    ensures r.result.Success? ==> r.result.value == false
    ensures r.link.inbox == l.inbox && l.read <= r.link.read && r.link.sendsLeft <= l.sendsLeft
  {
    PumpIgnoringResult(l, TickArguments(build), fedAmb)
  }

  /** `tick2()`. */
  function Tick2(l: Link, fedAmb: FederateAmbassador): (r: Run<Result<bool, RtiException>>)
    ensures r.result.Success? ==> r.result.value == false
    ensures r.link.inbox == l.inbox && l.read <= r.link.read && r.link.sendsLeft <= l.sendsLeft
  {
    PumpIgnoringResult(l, Tick2Arguments, fedAmb)
  }

  /** `tick(minimum, maximum)`. */
  function TickWithin(l: Link, minimum: TickTime, maximum: TickTime, fedAmb: FederateAmbassador)
    : (r: Run<Result<bool, RtiException>>)
    ensures r.link.inbox == l.inbox && l.read <= r.link.read && r.link.sendsLeft <= l.sendsLeft
    ensures l.sendsLeft > 0 ==> r.events != [] && r.events[0] == Sent(TickRequest(true, minimum, maximum, NoException))
  {
    Kernel(l, true, minimum, maximum, fedAmb)
  }

  /**
   * `tick()` and `tick2()` behave on the link exactly as the pump run with
   * their arguments, raise what it raises, and otherwise return `RTI_FALSE`
   * whatever the pump returned.
   */
  lemma {:induction false} TickAndTick2ReturnFalse(l: Link, build: LibraryBuild, fedAmb: FederateAmbassador)
    ensures var a := TickArguments(build);
      var k := Kernel(l, a.multiple, a.minimum, a.maximum, fedAmb);
      var t := Tick(l, build, fedAmb);
      && t.events == k.events && t.link == k.link
      && (t.result.Success? <==> k.result.Success?)
      && (t.result.Success? ==> t.result.value == false)
      && (t.result.Failure? ==> t.result == k.result)
    ensures var k := Kernel(l, false, InfiniteTime, ZeroTime, fedAmb);
      var t := Tick2(l, fedAmb);
      && t.events == k.events && t.link == k.link
      && (t.result.Success? <==> k.result.Success?)
      && (t.result.Success? ==> t.result.value == false)
      && (t.result.Failure? ==> t.result == k.result)
  {
  }

  /**
   * `tick(minimum, maximum)` asks for every available callback between the
   * two bounds and returns the `multiple` flag of the RTIA's final reply.
   */
  lemma {:induction false} TickWithinReturnsReplyFlag(l: Link, minimum: TickTime, maximum: TickTime,
                                                      fedAmb: FederateAmbassador)
    requires l.sendsLeft > 0
    ensures var t := TickWithin(l, minimum, maximum, fedAmb);
      && SentMessages(t.events) != []
      && SentMessages(t.events)[0] == TickRequest(true, minimum, maximum, NoException)
      && (t.result.Success? ==>
            l.read < t.link.read <= |l.inbox| && l.inbox[t.link.read - 1].TickRequest?
            && t.result.value == l.inbox[t.link.read - 1].multiple)
  {
    KernelWritesOneTickRequest(l, true, minimum, maximum, fedAmb);
    KernelOutcome(l, true, minimum, maximum, fedAmb);
  }
}
