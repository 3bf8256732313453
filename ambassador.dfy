/**
 * The federate's `RTIambassador`: the link to the local RTIA (the messages it
 * will send, how many have been read, how many more writes succeed), the log
 * of what happened on it, the federate ambassador callbacks go to, and
 * whether the connection is open. Only an open connection carries requests.
 * Every method is proved to leave the log and the link exactly as the
 * function that specifies it says.
 */
module Ambassador {

  import opened Wrappers
  import opened Messages
  import opened Channel
  import opened TickPump
  import opened Packing
  import opened Regions

  /** The `RTIinternalError` a service raises for a NULL tag. */
  function NullTagError(service: string): (e: RtiException)
    ensures e.kind == RTIinternalError
  {
    InternalError("Calling " + service + " with Tag NULL")
  }

  /** A `const char*` tag: refused when NULL, the empty string being a valid tag. */
  function TagRefusal(tag: CString, service: string): (e: Option<RtiException>)
    ensures e.None? <==> tag.CStr?
    ensures e.Some? ==> e.value == NullTagError(service)
  {
    if tag.NullString? then Some(NullTagError(service)) else None
  }

  const EmptyFederateName := "Incorrect or empty federate name"
  const EmptyFederationName := "Incorrect or empty federation name"

  /** `joinFederationExecution` refuses a NULL or empty federate name, then a NULL or empty federation name. */
  function JoinRefusal(yourName: CString, executionName: CString): (e: Option<RtiException>)
    ensures e.None? <==> yourName.CStr? && yourName.chars != [] && executionName.CStr? && executionName.chars != []
    ensures e.Some? ==> e.value.kind == RTIinternalError
    ensures (yourName.NullString? || yourName.chars == []) ==> e == Some(InternalError(EmptyFederateName))
  {
    if yourName.NullString? || yourName.chars == [] then Some(InternalError(EmptyFederateName))
    else if executionName.NullString? || executionName.chars == [] then Some(InternalError(EmptyFederationName))
    else None
  }

  /**
   * `sendInteractionWithRegion` refuses a NULL tag, and then a region the
   * library did not create; the parameters are packed first, which writes nothing.
   */
  function InteractionRefusal(tag: CString, region: Region): (e: Option<RtiException>)
    ensures e.None? <==> tag.CStr? && region.RegionImp?
    ensures tag.NullString? ==> e == Some(NullTagError("sendInteractionWithRegion"))
    ensures tag.CStr? && region.ForeignRegion? ==> e == Some(RegionNotKnownError)
  {
    if tag.NullString? then TagRefusal(tag, "sendInteractionWithRegion")
    else match GetHandle(region)
      case Failure(err) => Some(err)
      case Success(_) => None
  }

  /** The tag a region registration carries: none for a NULL tag, which is no error there. */
  function OptionalTag(tag: CString): (t: Option<string>)
    ensures t.None? <==> tag.NullString?
    ensures t.Some? ==> t.value == tag.chars
  {
    match tag
    case NullString => None
    case CStr(chars) => Some(chars)
  }

  /** The unimplemented services and the text each one raises. */
  const GetRegionUnimplemented := "unimplemented service getRegion"
  const LocalDeleteUnimplemented := "unimplemented service localDeleteObjectInstance"
  const FlushQueueUnimplemented := "Unimplemented Service flushQueueRequest"
  const RetractUnimplemented := "Unimplemented Service retract"
  const RequestUpdateWithRegionUnimplemented := "unimplemented service requestClassAttributeValueUpdateWithRegion"

  /**
   * Where the ambassador's connection to its RTIA stands. The constructor
   * ends with the OPEN_CONNEXION exchange: until it succeeds the link is
   * `Connecting`, and a failure leaves no usable ambassador, as the C++
   * constructor then throws. After CLOSE_CONNEXION the link is `Closed` and
   * nothing may use it again, the destructor deleting the socket.
   */
  datatype Phase = Connecting | Connected | Closed

  /** A handle the RTI gave for an event it may later retract. */
  datatype EventRetractionHandle = EventRetractionHandle(serialNumber: nat, sendingFederate: FederateHandle)

  class RtiAmbassador {
    /** What the RTIA will send, in arrival order. */
    const inbox: seq<Msg>
    /** How many messages of `inbox` have been read. */
    var read: nat
    /** How many more writes succeed before the socket fails. */
    var sendsLeft: nat
    /** Everything written, read and delivered so far. */
    var log: seq<Event>
    /** The federate ambassador registered at join time. */
    var fedAmb: FederateAmbassador
    const build: LibraryBuild
    /** Whether the link may carry requests. */
    var phase: Phase

    function LinkState(): Link
      reads this
    {
      Link(inbox, read, sendsLeft)
    }

    constructor (build: LibraryBuild, inbox: seq<Msg>, sendsLeft: nat, fedAmb: FederateAmbassador)
      ensures LinkState() == Link(inbox, 0, sendsLeft) && log == []
      ensures this.fedAmb == fedAmb && this.build == build && phase == Connecting
    {
      this.phase := Connecting;
      this.build := build;
      this.inbox := inbox;
      this.read := 0;
      this.sendsLeft := sendsLeft;
      this.log := [];
      this.fedAmb := fedAmb;
    }

    // -------------------------------------------------------------------------
    // The link primitives

    /** `Message::send` on the socket; `false` stands for its `NetworkError`. */
    method Send(m: Msg) returns (ok: bool)
      requires phase != Closed
      modifies this
      ensures var s := SendOn(old(LinkState()), m);
        ok == s.result && LinkState() == s.link && log == old(log) + s.events
      ensures fedAmb == old(fedAmb) && phase == old(phase)
    {
      if sendsLeft == 0 {
        ok := false;
      } else {
        sendsLeft := sendsLeft - 1;
        log := log + [Sent(m)];
        ok := true;
      }
    }

    /** `M_Factory::receive` on the socket; `None` stands for its `NetworkError`. */
    method Receive() returns (m: Option<Msg>)
      requires phase != Closed
      modifies this
      ensures var r := ReceiveOn(old(LinkState()));
        m == r.result && LinkState() == r.link && log == old(log) + r.events
      ensures fedAmb == old(fedAmb) && phase == old(phase)
    {
      if read < |inbox| {
        m := Some(inbox[read]);
        log := log + [Received(inbox[read])];
        read := read + 1;
      } else {
        m := None;
      }
    }

    /** Hands one callback to the federate ambassador. */
    method CallFederateAmbassador(m: Msg) returns (outcome: CallbackOutcome)
      requires phase != Closed
      modifies this
      ensures outcome == fedAmb(m) && log == old(log) + [Dispatched(m)]
      ensures LinkState() == old(LinkState()) && fedAmb == old(fedAmb) && phase == old(phase)
    {
      outcome := fedAmb(m);
      log := log + [Dispatched(m)];
    }

    /** Ends the RTIA's callback stream after a failed callback. */
    method SendTickRequestStop()
      requires phase != Closed
      modifies this
      ensures var s := StopStream(old(LinkState()));
        LinkState() == s.link && log == old(log) + s.events
      ensures fedAmb == old(fedAmb) && phase == old(phase)
    {
      var ok := Send(TickRequestStop);
      if ok {
        var _ := Receive();
      }
    }

    /** One synchronous request and its reply. */
    method ExecuteService(request: Msg) returns (r: Result<Msg, RtiException>)
      requires phase != Closed
      modifies this
      ensures var x := Exchange(old(LinkState()), request);
        r == x.result && LinkState() == x.link && log == old(log) + x.events
      ensures fedAmb == old(fedAmb) && phase == old(phase)
    {
      var ok := Send(request);
      if !ok {
        return Failure(InternalError(SendRequestFailure));
      }
      var reply := Receive();
      match reply
      case None =>
        r := Failure(InternalError(ReceiveReplyFailure));
      case Some(m) =>
        r := if ExceptionOf(m) != NoException then Failure(ProcessException(ExceptionOf(m))) else Success(m);
    }

    // -------------------------------------------------------------------------
    // The callback pump and its entry points

    /**
     * `__tick_kernel`: request callbacks, then read and deliver them one by
     * one, acknowledging each, until the RTIA's TICK_REQUEST reply arrives.
     */
    method TickKernel(multiple: bool, minimum: TickTime, maximum: TickTime) returns (r: Result<bool, RtiException>)
      requires phase == Connected
      modifies this
      ensures var k := Kernel(old(LinkState()), multiple, minimum, maximum, old(fedAmb));
        log == old(log) + k.events && LinkState() == k.link && r == k.result
      ensures fedAmb == old(fedAmb) && phase == old(phase)
    {
      ghost var k := Kernel(LinkState(), multiple, minimum, maximum, fedAmb);
      var ok := Send(TickRequest(multiple, minimum, maximum, NoException));
      if !ok {
        return Failure(InternalError(SendTickRequestFailure));
      }
      Regroup(old(log), [Sent(TickRequest(multiple, minimum, maximum, NoException))],
              Pump(LinkState(), fedAmb).events);
      while true
        invariant fedAmb == old(fedAmb) && phase == old(phase)
        invariant old(log) + k.events == log + Pump(LinkState(), fedAmb).events
        invariant k.link == Pump(LinkState(), fedAmb).link && k.result == Pump(LinkState(), fedAmb).result
        decreases |inbox| - read
      {
        ghost var before := LinkState();
        ghost var logBefore := log;
        ghost var p := Pump(before, fedAmb);
        var received := Receive();
        if received.None? {
          assert p == Run([], before, Failure(InternalError(ReceiveResponseFailure)));
          assert logBefore + p.events == log;
          return Failure(InternalError(ReceiveResponseFailure));
        }
        var m := received.value;
        ghost var afterRead := LinkState();
        assert afterRead == before.(read := before.read + 1) && m == before.inbox[before.read];
        if m.TickRequest? {
          assert p == Run([Received(m)], afterRead, TerminalResult(m));
          if m.exception != NoException {
            return Failure(ProcessException(m.exception));
          }
          return Success(m.multiple);
        }
        var outcome := CallFederateAmbassador(m);
        assert log == logBefore + [Received(m), Dispatched(m)];
        if outcome.Raised? {
          if outcome.error.kind == RTIinternalError {
            ghost var stop := StopStream(afterRead);
            assert p == Run([Received(m), Dispatched(m)] + stop.events, stop.link, Failure(outcome.error));
            SendTickRequestStop();
            Regroup(logBefore, [Received(m), Dispatched(m)], stop.events);
          } else {
            assert p == Run([Received(m), Dispatched(m)], afterRead, Failure(outcome.error));
          }
          return Failure(outcome.error);
        }
        ok := Send(TickRequestNext);
        if !ok {
          assert p == Run([Received(m), Dispatched(m)], afterRead, Failure(InternalError(SendTickRequestNextFailure)));
          return Failure(InternalError(SendTickRequestNextFailure));
        }
        ghost var rest := Pump(LinkState(), fedAmb);
        assert LinkState() == Link(before.inbox, before.read + 1, before.sendsLeft - 1);
        PumpAcceptsOne(before, fedAmb);
        assert log == logBefore + [Received(m), Dispatched(m), Sent(TickRequestNext)];
        Regroup(logBefore, [Received(m), Dispatched(m), Sent(TickRequestNext)], rest.events);
      }
    }

    /** `tick()`: the build's pump arguments; `RTI_FALSE` unless the pump raises. */
    method Tick() returns (r: Result<bool, RtiException>)
      requires phase == Connected
      modifies this
      ensures var t := TickPump.Tick(old(LinkState()), build, old(fedAmb));
        log == old(log) + t.events && LinkState() == t.link && r == t.result
      ensures fedAmb == old(fedAmb) && phase == old(phase)
    {
      var a := TickArguments(build);
      r := TickKernel(a.multiple, a.minimum, a.maximum);
      if r.Success? {
        r := Success(false);
      }
    }

    /** `tick2()`: one callback, waiting for it; `RTI_FALSE` unless the pump raises. */
    method Tick2() returns (r: Result<bool, RtiException>)
      requires phase == Connected
      modifies this
      ensures var t := TickPump.Tick2(old(LinkState()), old(fedAmb));
        log == old(log) + t.events && LinkState() == t.link && r == t.result
      ensures fedAmb == old(fedAmb) && phase == old(phase)
    {
      r := TickKernel(Tick2Arguments.multiple, Tick2Arguments.minimum, Tick2Arguments.maximum);
      if r.Success? {
        r := Success(false);
      }
    }

    /** `tick(minimum, maximum)`: every available callback; the pump's own result. */
    method TickWithin(minimum: TickTime, maximum: TickTime) returns (r: Result<bool, RtiException>)
      requires phase == Connected
      modifies this
      ensures var t := TickPump.TickWithin(old(LinkState()), minimum, maximum, old(fedAmb));
        log == old(log) + t.events && LinkState() == t.link && r == t.result
      ensures fedAmb == old(fedAmb) && phase == old(phase)
    {
      r := TickKernel(true, minimum, maximum);
    }

    // -------------------------------------------------------------------------
    // Services with local checks: a refused call raises before writing anything

    /**
     * The constructor's last step, OPEN_CONNEXION: one exchange carrying the
     * library's message-format version; a failure is raised to whoever
     * created the ambassador.
     */
    method OpenConnexion(versionMajor: nat, versionMinor: nat) returns (r: Result<Msg, RtiException>)
      requires phase == Connecting
      modifies this
      ensures var x := Exchange(old(LinkState()), Service(Messages.OpenConnexion, NoException, Version(versionMajor, versionMinor)));
        r == x.result && LinkState() == x.link && log == old(log) + x.events
      ensures phase == (if r.Success? then Connected else Closed)
      ensures fedAmb == old(fedAmb)
    {
      r := ExecuteService(Service(Messages.OpenConnexion, NoException, Version(versionMajor, versionMinor)));
      phase := if r.Success? then Connected else Closed;
    }

    /** The destructor's CLOSE_CONNEXION call; whatever its outcome, the link is not used again. */
    method CloseConnexion() returns (r: Result<Msg, RtiException>)
      requires phase == Connected
      modifies this
      ensures var x := Exchange(old(LinkState()), Service(Messages.CloseConnexion, NoException, NoBody));
        r == x.result && LinkState() == x.link && log == old(log) + x.events
      ensures phase == Closed
      ensures fedAmb == old(fedAmb)
    {
      r := ExecuteService(Service(Messages.CloseConnexion, NoException, NoBody));
      phase := Closed;
    }

    /**
     * `joinFederationExecution`: both names must be present and non-empty;
     * the federate ambassador is registered before the request is sent, so
     * it stays registered even when the call then fails.
     */
    method JoinFederationExecution(yourName: CString, executionName: CString, fedamb: FederateAmbassador)
      returns (r: Result<Msg, RtiException>)
      requires phase == Connected
      modifies this
      ensures JoinRefusal(yourName, executionName).Some? ==>
        && r == Failure(JoinRefusal(yourName, executionName).value)
        && log == old(log) && LinkState() == old(LinkState()) && fedAmb == old(fedAmb)
      ensures phase == old(phase)
      ensures JoinRefusal(yourName, executionName).None? ==>
        var x := Exchange(old(LinkState()),
                          Service(Messages.JoinFederationExecution, NoException, Join(yourName.chars, executionName.chars)));
        && r == x.result && LinkState() == x.link && log == old(log) + x.events && fedAmb == fedamb
    {
      var refusal := JoinRefusal(yourName, executionName);
      if refusal.Some? {
        return Failure(refusal.value);
      }
      fedAmb := fedamb;
      r := ExecuteService(Service(Messages.JoinFederationExecution, NoException, Join(yourName.chars, executionName.chars)));
    }

    /** `registerFederationSynchronizationPoint` for all federates: an empty federate set is sent. */
    method RegisterFederationSynchronizationPoint(pointLabel: string, tag: CString) returns (r: Result<Msg, RtiException>)
      requires phase == Connected
      modifies this
      ensures tag.NullString? ==>
        && r == Failure(NullTagError("registerFederationSynchronizationPoint"))
        && log == old(log) && LinkState() == old(LinkState())
      ensures tag.CStr? ==>
        var x := Exchange(old(LinkState()),
                          Service(Messages.RegisterFederationSynchronizationPoint, NoException, SyncPoint(pointLabel, tag.chars, [])));
        r == x.result && LinkState() == x.link && log == old(log) + x.events
      ensures fedAmb == old(fedAmb) && phase == old(phase)
    {
      var refusal := TagRefusal(tag, "registerFederationSynchronizationPoint");
      if refusal.Some? {
        return Failure(refusal.value);
      }
      r := ExecuteService(Service(Messages.RegisterFederationSynchronizationPoint, NoException, SyncPoint(pointLabel, tag.chars, [])));
    }

    /** `registerFederationSynchronizationPoint` for a set of federates, copied into the request in order. */
    method RegisterFederationSynchronizationPointFor(pointLabel: string, tag: CString, federates: seq<FederateHandle>)
      returns (r: Result<Msg, RtiException>)
      requires phase == Connected
      modifies this
      ensures tag.NullString? ==>
        && r == Failure(NullTagError("registerFederationSynchronizationPoint"))
        && log == old(log) && LinkState() == old(LinkState())
      ensures tag.CStr? ==>
        var x := Exchange(old(LinkState()),
                          Service(Messages.RegisterFederationSynchronizationPoint, NoException, SyncPoint(pointLabel, tag.chars, federates)));
        r == x.result && LinkState() == x.link && log == old(log) + x.events
      ensures fedAmb == old(fedAmb) && phase == old(phase)
    {
      var refusal := TagRefusal(tag, "registerFederationSynchronizationPoint");
      if refusal.Some? {
        return Failure(refusal.value);
      }
      var req := new Request();
      AssignFederateSet(federates, req);
      r := ExecuteService(Service(Messages.RegisterFederationSynchronizationPoint, NoException,
                                  SyncPoint(pointLabel, tag.chars, req.federateSet[..])));
    }

    /**
     * `deleteObjectInstance`, with a time (`Some`) or without (`None`); the
     * timed form yields the event-retraction handle of the reply.
     */
    method DeleteObjectInstance(obj: ObjectHandle, time: Option<FedTime>, tag: CString)
      returns (r: Result<Msg, RtiException>)
      requires phase == Connected
      modifies this
      ensures tag.NullString? ==>
        && r == Failure(NullTagError("deleteObjectInstance"))
        && log == old(log) && LinkState() == old(LinkState())
      ensures tag.CStr? ==>
        var x := Exchange(old(LinkState()), Service(Messages.DeleteObjectInstance, NoException, DeleteObject(obj, time, tag.chars)));
        r == x.result && LinkState() == x.link && log == old(log) + x.events
      ensures fedAmb == old(fedAmb) && phase == old(phase)
    {
      var refusal := TagRefusal(tag, "deleteObjectInstance");
      if refusal.Some? {
        return Failure(refusal.value);
      }
      r := ExecuteService(Service(Messages.DeleteObjectInstance, NoException, DeleteObject(obj, time, tag.chars)));
    }

    /** `negotiatedAttributeOwnershipDivestiture`: the attribute set is copied in order. */
    method NegotiatedAttributeOwnershipDivestiture(obj: ObjectHandle, attrs: seq<AttributeHandle>, tag: CString)
      returns (r: Result<Msg, RtiException>)
      requires phase == Connected
      modifies this
      ensures tag.NullString? ==>
        && r == Failure(NullTagError("negotiatedAttributeOwnershipDivestiture"))
        && log == old(log) && LinkState() == old(LinkState())
      ensures tag.CStr? ==>
        var x := Exchange(old(LinkState()),
                          Service(Messages.NegotiatedAttributeOwnershipDivestiture, NoException, AttributeList(obj, attrs, tag.chars)));
        r == x.result && LinkState() == x.link && log == old(log) + x.events
      ensures fedAmb == old(fedAmb) && phase == old(phase)
    {
      var refusal := TagRefusal(tag, "negotiatedAttributeOwnershipDivestiture");
      if refusal.Some? {
        return Failure(refusal.value);
      }
      var req := new Request();
      AssignAttributes(attrs, req);
      r := ExecuteService(Service(Messages.NegotiatedAttributeOwnershipDivestiture, NoException,
                                  AttributeList(obj, req.attributes[..], tag.chars)));
    }

    /** `attributeOwnershipAcquisition`: the desired attributes are packed in order. */
    method AttributeOwnershipAcquisition(obj: ObjectHandle, desired: seq<AttributeHandle>, tag: CString)
      returns (r: Result<Msg, RtiException>)
      requires phase == Connected
      modifies this
      ensures tag.NullString? ==>
        && r == Failure(NullTagError("attributeOwnershipAcquisition"))
        && log == old(log) && LinkState() == old(LinkState())
      ensures tag.CStr? ==>
        var x := Exchange(old(LinkState()),
                          Service(Messages.AttributeOwnershipAcquisition, NoException, AttributeList(obj, desired, tag.chars)));
        r == x.result && LinkState() == x.link && log == old(log) + x.events
      ensures fedAmb == old(fedAmb) && phase == old(phase)
    {
      var refusal := TagRefusal(tag, "attributeOwnershipAcquisition");
      if refusal.Some? {
        return Failure(refusal.value);
      }
      var req := new Request();
      AssignAttributes(desired, req);
      r := ExecuteService(Service(Messages.AttributeOwnershipAcquisition, NoException,
                                  AttributeList(obj, req.attributes[..], tag.chars)));
    }

    /**
     * `sendInteractionWithRegion`, with a time (`Some`) or without (`None`):
     * the parameters travel in reverse order, each handle still beside its
     * value; a NULL tag and then a foreign region are refused.
     */
    method SendInteractionWithRegion(interaction: InteractionClassHandle,
                                     parameters: seq<(ParameterHandle, ParameterValue)>,
                                     time: Option<FedTime>, tag: CString, region: Region)
      returns (r: Result<Msg, RtiException>)
      requires phase == Connected
      modifies this
      ensures InteractionRefusal(tag, region).Some? ==>
        && r == Failure(InteractionRefusal(tag, region).value)
        && log == old(log) && LinkState() == old(LinkState())
      ensures InteractionRefusal(tag, region).None? ==>
        var body := Interaction(interaction, Reversed(Firsts(parameters)), Reversed(Seconds(parameters)),
                                time, tag.chars, region.handle);
        var x := Exchange(old(LinkState()), Service(SendInteraction, NoException, body));
        r == x.result && LinkState() == x.link && log == old(log) + x.events
      ensures fedAmb == old(fedAmb) && phase == old(phase)
    {
      var req := new Request();
      AssignParameterValues(parameters, req);
      var refusal := TagRefusal(tag, "sendInteractionWithRegion");
      if refusal.Some? {
        return Failure(refusal.value);
      }
      match GetHandle(region)
      case Failure(e) =>
        return Failure(e);
      case Success(handle) =>
        var body := Interaction(interaction, req.parameters[..], req.values[..], time, tag.chars, handle);
        r := ExecuteService(Service(SendInteraction, NoException, body));
    }

    /**
     * `deleteRegion`: a null region is `RegionNotKnown`, and so (as intended,
     * not as the pointer cast is written) is a region the library did not create.
     */
    method DeleteRegion(region: RegionPtr) returns (r: Result<Msg, RtiException>)
      requires phase == Connected
      modifies this
      ensures RegionHandleOf(region).Failure? ==>
        r == Failure(RegionNotKnownError) && log == old(log) && LinkState() == old(LinkState())
      ensures RegionHandleOf(region).Success? ==>
        var x := Exchange(old(LinkState()), Service(DdmDeleteRegion, NoException, Messages.Region(region.region.handle)));
        r == x.result && LinkState() == x.link && log == old(log) + x.events
      ensures fedAmb == old(fedAmb) && phase == old(phase)
    {
      if region.NullRegion? {
        return Failure(RegionNotKnownError);
      }
      match RegionHandleOf(region)
      case Failure(e) =>
        return Failure(e);
      case Success(handle) =>
        r := ExecuteService(Service(DdmDeleteRegion, NoException, Messages.Region(handle)));
    }

    /**
     * `registerObjectInstanceWithRegion` with a tag (a NULL one is simply not
     * sent) or without one (`NullString`): the first `nb` attributes in order
     * (as intended, see `AssignAttributesToSlotZero`) and the handles of the
     * first `nb` regions; a region the library did not create is refused.
     */
    method RegisterObjectInstanceWithRegion(objectClass: ObjectClassHandle, tag: CString,
                                            attrs: seq<AttributeHandle>, regions: seq<RegionPtr>, nb: nat)
      returns (r: Result<Msg, RtiException>)
      requires phase == Connected && nb <= |attrs| && nb <= |regions|
      modifies this
      ensures RegionHandles(regions[..nb]).Failure? ==>
        r == Failure(RegionNotKnownError) && log == old(log) && LinkState() == old(LinkState())
      ensures RegionHandles(regions[..nb]).Success? ==>
        var body := RegisterObject(objectClass, OptionalTag(tag), attrs[..nb], RegionHandles(regions[..nb]).value);
        var x := Exchange(old(LinkState()), Service(DdmRegisterObject, NoException, body));
        r == x.result && LinkState() == x.link && log == old(log) + x.events
      ensures fedAmb == old(fedAmb) && phase == old(phase)
    {
      var req := new Request();
      AssignAttributes(attrs[..nb], req);
      var handles := BuildRegionHandles(regions, nb);
      RegionHandlesAllOrNothing(regions[..nb]);
      match handles
      case Failure(e) =>
        return Failure(e);
      case Success(hs) =>
        var body := RegisterObject(objectClass, OptionalTag(tag), req.attributes[..], hs);
        r := ExecuteService(Service(DdmRegisterObject, NoException, body));
    }

    // -------------------------------------------------------------------------
    // Services that always refuse, touching neither the link nor the phase

    method GetRegion(token: RegionHandle) returns (r: Result<Region, RtiException>)
      ensures r == Failure(InternalError(GetRegionUnimplemented))
    {
      r := Failure(InternalError(GetRegionUnimplemented));
    }

    method LocalDeleteObjectInstance(obj: ObjectHandle) returns (r: Result<(), RtiException>)
      ensures r == Failure(InternalError(LocalDeleteUnimplemented))
    {
      r := Failure(InternalError(LocalDeleteUnimplemented));
    }

    method FlushQueueRequest(time: FedTime) returns (r: Result<(), RtiException>)
      ensures r == Failure(InternalError(FlushQueueUnimplemented))
    {
      r := Failure(InternalError(FlushQueueUnimplemented));
    }

    method Retract(handle: EventRetractionHandle) returns (r: Result<(), RtiException>)
      ensures r == Failure(InternalError(RetractUnimplemented))
    {
      r := Failure(InternalError(RetractUnimplemented));
    }

    method RequestClassAttributeValueUpdateWithRegion(objectClass: ObjectClassHandle, attrs: seq<AttributeHandle>,
                                                      region: Region)
      returns (r: Result<(), RtiException>)
      ensures r == Failure(InternalError(RequestUpdateWithRegionUnimplemented))
    {
      r := Failure(InternalError(RequestUpdateWithRegionUnimplemented));
    }
  }
}
