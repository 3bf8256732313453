/**
 * The message envelope exchanged between the federate-side library and its
 * local RTIA process, and the exception catalogue the library raises.
 * Field encodings on the wire are not modelled: a message is a tagged value.
 */
module Messages {

  import opened Wrappers

  type FederateHandle = nat
  type ObjectHandle = nat
  type ObjectClassHandle = nat
  type InteractionClassHandle = nat
  type AttributeHandle = nat
  type ParameterHandle = nat
  type RegionHandle = nat
  /** A federation time, carried as an opaque token. */
  type FedTime = nat
  type AttributeValue = seq<char>
  type ParameterValue = seq<char>

  /** A tick bound: the constants the entry points pass, or a caller-supplied token. */
  datatype TickTime = ZeroTime | InfiniteTime | TickTimeToken(token: nat)

  /** The exception type a reply carries; `NoException` marks a normal reply. */
  datatype ExceptionKind =
    | NoException
    | RTIinternalError
    | RegionNotKnown
    | FederateNotExecutionMember
    | ObjectNotKnown
    | SaveInProgress
    | RestoreInProgress
    | ConcurrentAccessAttempted
    | FederateInternalError
    | OtherException(code: nat)

  /** An exception raised to the federate: its kind and its reason text. */
  datatype RtiException = RtiException(kind: ExceptionKind, reason: string)

  function InternalError(reason: string): (e: RtiException)
    ensures e.kind == RTIinternalError && e.reason == reason
  {
    RtiException(RTIinternalError, reason)
  }

  /** A `const char*` argument: the null pointer, or the characters before its terminator. */
  datatype CString = NullString | CStr(chars: NulFree)

  /** The characters a C string can hold: none of them is its terminator. */
  type NulFree = s: string | '\0' !in s

  /** Service identifiers of the requests the model issues; `OtherService` covers the rest of the catalogue, callbacks included. */
  datatype ServiceId =
    | OpenConnexion
    | CloseConnexion
    | JoinFederationExecution
    | RegisterFederationSynchronizationPoint
    | DeleteObjectInstance
    | NegotiatedAttributeOwnershipDivestiture
    | AttributeOwnershipAcquisition
    | SendInteraction
    | DdmDeleteRegion
    | DdmRegisterObject
    | OtherService(code: nat)

  /** The kind-specific payload of a service message. */
  datatype Body =
    | NoBody
    | Version(major: nat, minor: nat)
    | Join(federateName: string, federationName: string)
    | SyncPoint(syncLabel: string, tag: string, federates: seq<FederateHandle>)
    | DeleteObject(obj: ObjectHandle, time: Option<FedTime>, tag: string)
    | AttributeList(owner: ObjectHandle, attributes: seq<AttributeHandle>, tag: string)
    | Interaction(interaction: InteractionClassHandle, parameters: seq<ParameterHandle>,
                  values: seq<ParameterValue>, sentAt: Option<FedTime>, interactionTag: string,
                  region: RegionHandle)
    | Region(handle: RegionHandle)
    | RegisterObject(objectClass: ObjectClassHandle, objectTag: Option<string>,
                     registered: seq<AttributeHandle>, regions: seq<RegionHandle>)

  /**
   * A message on the link. `TickRequest` is both the request that opens a
   * callback pump and the reply that ends it; every other message that
   * reaches the pump is a callback for the federate ambassador.
   */
  datatype Msg =
    | TickRequest(multiple: bool, minTick: TickTime, maxTick: TickTime, exception: ExceptionKind)
    | TickRequestNext
    | TickRequestStop
    | Service(service: ServiceId, exception: ExceptionKind, body: Body)

  function ExceptionOf(m: Msg): ExceptionKind
  {
    match m
    case TickRequest(_, _, _, e) => e
    case Service(_, e, _) => e
    case _ => NoException
  }

  /** What the federate ambassador does with one callback. */
  datatype CallbackOutcome = Handled | Raised(error: RtiException)

  /** One observable step: a message written, a message read, a callback delivered. */
  datatype Event = Sent(msg: Msg) | Received(msg: Msg) | Dispatched(msg: Msg)
}
