# CERTI libRTI (HLA 1.3): RTIambassador core, modelled in Dafny

This project models the federate-side core of CERTI's HLA 1.3 `RTIambassador`. A federate calls it, and it talks to the federate's local RTIA process over a socket. Three parts are modelled.

**The callback pump `__tick_kernel`.** It writes one `TICK_REQUEST(multiple, min, max)` to the RTIA. Then it reads messages one by one:
- every message that is not a `TICK_REQUEST` is a callback, delivered to the federate ambassador and acknowledged with `TICK_REQUEST_NEXT`;
- the RTIA's `TICK_REQUEST` reply ends the pump.

Its entry points `tick()`, `tick2()` and `tick(min, max)` are modelled too.

**The request-packing helpers.** They fill the arrays of a request message: attribute lists, handle/value pair sets (stored in reverse order), and the federate set. Also here are `build_region_handles` and `hla_strdup`.

**The local argument checks.** Some services raise before anything is written to the RTIA. Others are unimplemented and always raise.

The link to the RTIA is a value `Link(inbox, read, sendsLeft)`:
- `inbox` is everything the RTIA will send, in arrival order;
- `read` is how many of those messages have been consumed;
- `sendsLeft` is how many more writes succeed.

Reading past the inbox, or writing once the budget is spent, is the socket's `NetworkError`. Every operation on the link is a function that returns a `Run`. A `Run` holds three things:
- the events it produced (`Sent`, `Received`, `Dispatched`, where `Dispatched` means a callback was delivered to the federate ambassador);
- the link afterwards;
- the result, where `Failure` is an exception raised to the federate.

The `RtiAmbassador` class holds the link, the event log, the federate ambassador and the connection's phase: `Connecting` until the `OPEN_CONNEXION` exchange succeeds, `Connected` while services may be called, and `Closed` after `CLOSE_CONNEXION` or a failed open, when nothing may use the link again. Each of its methods is proved to change them exactly as its specifying function says. The federate ambassador is a total function from a callback to `Handled` or `Raised(exception)`.

Modules:
- `Wrappers`: `Option`, `Result`.
- `Messages`: the message envelope, handles and exception catalogue.
- `Channel`: the link primitives, the synchronous service exchange, the stop signal, and views of a trace.
- `TickPump`: the pump as the functions `Pump`/`Kernel`, with its properties, and the entry points.
- `Packing`: the request arrays and `hla_strdup`.
- `Regions`: region handles and `build_region_handles`.
- `Ambassador`: the `RtiAmbassador` class.

All source paths below are in `libRTI/hla-1_3/RTIambassador.cc`.

## Model

| member | source | states |
|---|---|---|
| Channel.ProcessException | libRTI/hla-1_3/RTIambassador.cc:411-415 | the exception raised for a reply carries exactly the kind the reply names |
| Channel.ExchangeIsOneRoundTrip | libRTI/hla-1_3/RTIambassador.cc:586-587 | a service call succeeds iff the write succeeds, a reply is queued and the reply is free of exceptions; it then returns that reply. Whenever the write succeeds and a reply is queued, exactly one write and one read happen and that reply is consumed, also when it carries an exception, which is then raised. A failed write raises `RTIinternalError` naming the send, with nothing written or read; a missing reply raises `RTIinternalError` naming the receive, after the one write. Writes and reads alternate |
| Channel.SendOn | libRTI/hla-1_3/RTIambassador.cc:389 | a write succeeds iff the budget allows it, then records exactly that message and spends one write; a failed write changes nothing |
| Channel.ReceiveOn | libRTI/hla-1_3/RTIambassador.cc:401 | a read succeeds iff a message is waiting, then returns and records the next one in arrival order and advances by one; otherwise nothing changes |
| Channel.Exchange | libRTI/hla-1_3/RTIambassador.cc:586-587 | one service call moves the link forward: same inbox, at most one read and one write, and exactly one of each when it succeeds |
| Channel.StopStream | libRTI/hla-1_3/RTIambassador.cc:423-427 | the stop moves the link forward: at most one write and one read, and a read only after a successful write |
| Channel.StopStreamTrace | libRTI/hla-1_3/RTIambassador.cc:423-427 | the stop writes `TICK_REQUEST_STOP` iff the link can write, delivers nothing, and reads at most one message, and only after its write |
| TickPump.TerminalResult | libRTI/hla-1_3/RTIambassador.cc:410-416 | the pump's reply yields its `multiple` flag iff it is free of exceptions, and otherwise raises the kind it carries |
| TickPump.Pump | libRTI/hla-1_3/RTIambassador.cc:399-441 | the receive loop only moves forward: same inbox, read position never behind, write budget never above where it started |
| TickPump.Kernel | libRTI/hla-1_3/RTIambassador.cc:378-445 | the whole pump only moves the link forward in the same way |
| TickPump.PumpAlternates | libRTI/hla-1_3/RTIambassador.cc:399-441 | in every run of the loop, reads and writes on the link strictly alternate, starting with a read |
| TickPump.PumpDeliversInOrder | libRTI/hla-1_3/RTIambassador.cc:399-421 | the loop delivers, in arrival order and without gaps, a run of the messages from the read position, never the `TICK_REQUEST` reply; how many it delivers is stated by `KernelDeliversCallbacks`, `KernelCountsCallbacks` and `KernelCallbackRaises` |
| TickPump.PumpWritesAcknowledgements | libRTI/hla-1_3/RTIambassador.cc:419-440 | the loop writes only `TICK_REQUEST_NEXT`, except possibly one `TICK_REQUEST_STOP`, which is then its last write |
| TickPump.PumpOutcome | libRTI/hla-1_3/RTIambassador.cc:399-441 | the loop succeeds only on a `TICK_REQUEST` reply free of exceptions, returning that reply's `multiple`. It fails only with an internal error naming the read or the acknowledgement, with the exception a reply carries, or with one the federate ambassador raised on a callback it read. Such an exception is blamed on the first message read that is not a handled callback, never on the reply a stop reads after it |
| TickPump.KernelOpens | libRTI/hla-1_3/RTIambassador.cc:380-399 | a link that can write gets the opening `TICK_REQUEST` first, and then exactly the receive loop's run |
| TickPump.KernelCannotOpen | libRTI/hla-1_3/RTIambassador.cc:388-396 | a failed `TICK_REQUEST` write raises `RTIinternalError` naming that write, having read and delivered nothing |
| TickPump.KernelWritesOneTickRequest | libRTI/hla-1_3/RTIambassador.cc:380-389 | the pump's first event and first write is one `TICK_REQUEST` carrying the given `multiple`, `minimum` and `maximum`; every later write is `TICK_REQUEST_NEXT` or a final `TICK_REQUEST_STOP` |
| TickPump.KernelAlternates | libRTI/hla-1_3/RTIambassador.cc:378-441 | across the whole pump, writes and reads strictly alternate, starting with the `TICK_REQUEST` write |
| TickPump.KernelDeliversInOrder | libRTI/hla-1_3/RTIambassador.cc:399-421 | the whole pump delivers, in arrival order and without gaps, a run of the messages from the read position, never the reply |
| TickPump.KernelOutcome | libRTI/hla-1_3/RTIambassador.cc:388-441 | the pump returns the `multiple` flag of an exception-free reply, or raises one of the following: a `NetworkError` reported as `RTIinternalError` naming its phase, the reply's exception, or the federate ambassador's |
| TickPump.KernelAfterCallbacks | libRTI/hla-1_3/RTIambassador.cc:399-441 | after the opening request and N accepted callbacks, the pump is those events followed by the loop's run from the link after them |
| TickPump.KernelDeliversCallbacks | libRTI/hla-1_3/RTIambassador.cc:399-441 | N handled callbacks, then a `TICK_REQUEST` reply, give exactly this trace: the request; each callback read, delivered and acknowledged in turn; the reply. The result is the reply's flag or its exception |
| TickPump.KernelCountsCallbacks | libRTI/hla-1_3/RTIambassador.cc:399-441 | in that situation the federate ambassador is invoked exactly N times, on the N callbacks in arrival order; exactly the request and then N `TICK_REQUEST_NEXT` are written |
| TickPump.PumpCallbackRaises | libRTI/hla-1_3/RTIambassador.cc:419-428 | a callback on which the federate ambassador raises is delivered once and the same exception propagates. One `TICK_REQUEST_STOP` is written iff the exception is `RTIinternalError` and the link can write; nothing else is written |
| TickPump.PumpCannotAcknowledge | libRTI/hla-1_3/RTIambassador.cc:430-440 | a handled callback whose acknowledgement cannot be written raises `RTIinternalError` naming `TICK_REQUEST_NEXT` |
| TickPump.KernelCallbackRaises | libRTI/hla-1_3/RTIambassador.cc:419-428 | after N accepted callbacks, a raising callback k: the pump delivers the N callbacks and k, writes the request, N acknowledgements and a stop only for `RTIinternalError` (no acknowledgement for k), and re-raises the exception |
| TickPump.KernelReceiveFails | libRTI/hla-1_3/RTIambassador.cc:400-407 | after N accepted callbacks with nothing further queued, the pump raises `RTIinternalError` naming the receive |
| TickPump.KernelAcknowledgeFails | libRTI/hla-1_3/RTIambassador.cc:430-440 | after N accepted callbacks, a handled callback with no write budget left raises `RTIinternalError` naming `TICK_REQUEST_NEXT` |
| TickPump.TickArguments | libRTI/hla-1_3/RTIambassador.cc:357-368 | `tick()` passes (false, 0, 0) in the legacy build and (true, 0, +inf) in the newer build |
| TickPump.PumpIgnoringResult | libRTI/hla-1_3/RTIambassador.cc:357-375 | the pump run whose success is reported as `RTI_FALSE`: it fails exactly when the pump fails, and only moves the link forward |
| TickPump.Tick | libRTI/hla-1_3/RTIambassador.cc:357-368 | `tick()` never returns `RTI_TRUE`, and only moves the link forward |
| TickPump.Tick2 | libRTI/hla-1_3/RTIambassador.cc:371-375 | `tick2()` never returns `RTI_TRUE`, and only moves the link forward |
| TickPump.TickWithin | libRTI/hla-1_3/RTIambassador.cc:448-451 | `tick(min, max)` first writes `TICK_REQUEST(true, min, max)` when it can write, and only moves the link forward |
| TickPump.TickAndTick2ReturnFalse | libRTI/hla-1_3/RTIambassador.cc:357-375 | `tick()` and `tick2()` (false, +inf, 0) behave on the link exactly as the pump and raise what it raises, and otherwise return `RTI_FALSE` whatever the pump returned |
| TickPump.TickWithinReturnsReplyFlag | libRTI/hla-1_3/RTIambassador.cc:448-451 | `tick(min, max)` first writes `TICK_REQUEST(true, min, max)`, and on success returns the `multiple` flag of the reply that ended the pump |
| Packing.Resized | libRTI/hla-1_3/RTIambassador.cc:116 | resizing a request array to n keeps the first entries and fills the rest |
| Packing.PairsStayAligned | libRTI/hla-1_3/RTIambassador.cc:122-148 | reversing the packed handles and values and zipping them back gives exactly the input pairs, so no handle is separated from its value |
| Packing.Request.SetAttributesSize | libRTI/hla-1_3/RTIambassador.cc:116 | the attribute array becomes a fresh array resized to n; the other arrays are untouched |
| Packing.Request.SetParametersSize | libRTI/hla-1_3/RTIambassador.cc:140 | the parameter array becomes a fresh array resized to n; the other arrays are untouched |
| Packing.Request.SetValuesSize | libRTI/hla-1_3/RTIambassador.cc:127 | the value array becomes a fresh array resized to n; the other arrays are untouched |
| Packing.Request.SetFederateSetSize | libRTI/hla-1_3/RTIambassador.cc:646 | the federate-set array becomes a fresh array resized to n; the other arrays are untouched |
| Packing.AssignAttributes | libRTI/hla-1_3/RTIambassador.cc:113-120 | the attribute array holds exactly the given handles, in index order; nothing else changes |
| Packing.AssignAttributeValues | libRTI/hla-1_3/RTIambassador.cc:122-134 | attributes and values both have the pair count; slot i holds the handle and the value of input pair n-1-i |
| Packing.AssignParameterValues | libRTI/hla-1_3/RTIambassador.cc:136-148 | parameters and values both have the pair count; slot i holds the handle and the value of input pair n-1-i |
| Packing.AssignFederateSet | libRTI/hla-1_3/RTIambassador.cc:646-649 | the federate-set array holds exactly the given federates, in index order |
| Packing.SlotZeroPacking | libRTI/hla-1_3/RTIambassador.cc:1594-1597 | as written: nb slots, slot 0 holding the last attribute, every other slot keeping its old handle or the fill value 0 |
| Packing.AssignAttributesToSlotZero | libRTI/hla-1_3/RTIambassador.cc:1594-1597 | as written: the array is resized to nb and only slot 0 is written, ending with the last attribute |
| Packing.SlotZeroLosesAttributes | libRTI/hla-1_3/RTIambassador.cc:1594-1597 | with any attributes, slot 0 holds the last one and every other slot holds the fill value, not its attribute |
| Packing.SlotZeroCounterexample | libRTI/hla-1_3/RTIambassador.cc:1614-1617 | attributes [7, 8] are packed as [8, 0] |
| Packing.BeforeNul | libRTI/hla-1_3/RTIambassador.cc:100-103 | the characters `strncpy` copies: the longest prefix free of NUL, which is followed by a NUL when shorter than the string |
| Packing.HlaStrdup | libRTI/hla-1_3/RTIambassador.cc:96-111 | a fresh buffer of length len+1: the string up to its first NUL, padded with NULs; for a string without NUL, the string followed by one NUL |
| Regions.GetHandle | libRTI/hla-1_3/RTIambassador.cc:85-94 | a region passed by reference yields its handle iff the library created it, and otherwise `RegionNotKnown` |
| Regions.RegionHandleOf | libRTI/hla-1_3/RTIambassador.cc:76-80 | corrected cast: a region pointer yields a handle iff it points to a library region, that handle being the region's own, and otherwise `RegionNotKnown` |
| Regions.PointerCastAsWritten | libRTI/hla-1_3/RTIambassador.cc:76-80 | the pointer cast as written yields the region's own handle iff the pointer points to a library region; for a null or foreign region it dereferences null |
| Regions.CastAsWrittenDiffers | libRTI/hla-1_3/RTIambassador.cc:76-80 | the pointer cast as written agrees with the corrected one on library regions, and dereferences null exactly where `RegionNotKnown` was meant |
| Regions.ForeignRegionCounterexample | libRTI/hla-1_3/RTIambassador.cc:1568-1572 | a foreign region makes the written cast dereference null instead of raising `RegionNotKnown` |
| Regions.RegionHandles | libRTI/hla-1_3/RTIambassador.cc:70-83 | one handle per region when every region is the library's, and otherwise `RegionNotKnown` |
| Regions.RegionHandlesAllOrNothing | libRTI/hla-1_3/RTIambassador.cc:70-83 | all handles in order, one per region, iff every region is the library's; otherwise `RegionNotKnown` |
| Regions.BuildRegionHandles | libRTI/hla-1_3/RTIambassador.cc:70-83 | the vector of nb handles, filled by index, equals the all-or-nothing specification on the first nb regions |
| Ambassador.NullTagError | libRTI/hla-1_3/RTIambassador.cc:619-621 | a NULL tag raises `RTIinternalError` |
| Ambassador.TagRefusal | libRTI/hla-1_3/RTIambassador.cc:1045-1047 | a tag is refused iff it is NULL (an empty tag is accepted), with the service's `Tag NULL` error |
| Ambassador.JoinRefusal | libRTI/hla-1_3/RTIambassador.cc:570-576 | join is refused iff either name is NULL or empty, always with `RTIinternalError`, the federate name being checked first |
| Ambassador.InteractionRefusal | libRTI/hla-1_3/RTIambassador.cc:1759-1765 | an interaction with region is refused iff its tag is NULL (checked first) or its region is foreign (`RegionNotKnown`) |
| Ambassador.OptionalTag | libRTI/hla-1_3/RTIambassador.cc:1590-1592 | a NULL tag is simply not set on the request |
| Ambassador.RtiAmbassador.constructor | libRTI/hla-1_3/RTIambassador.cc:158-337 | a new ambassador has an empty log and a link with nothing read, and is still `Connecting` |
| Ambassador.RtiAmbassador.OpenConnexion | libRTI/hla-1_3/RTIambassador.cc:329-334 | only a `Connecting` ambassador opens: one `OPEN_CONNEXION` exchange carrying the version numbers, whose result, log and link are `Exchange`'s; it ends `Connected` on success and `Closed` on failure, as no ambassador survives a throwing constructor |
| Ambassador.RtiAmbassador.Send | libRTI/hla-1_3/RTIambassador.cc:389 | one write changes the log and link as `SendOn` says |
| Ambassador.RtiAmbassador.Receive | libRTI/hla-1_3/RTIambassador.cc:401 | one read changes the log and link as `ReceiveOn` says |
| Ambassador.RtiAmbassador.CallFederateAmbassador | libRTI/hla-1_3/RTIambassador.cc:421 | the callback is logged as delivered, and the federate ambassador's outcome is returned |
| Ambassador.RtiAmbassador.SendTickRequestStop | libRTI/hla-1_3/RTIambassador.cc:425 | the stop changes the log and link as `StopStream` says |
| Ambassador.RtiAmbassador.ExecuteService | libRTI/hla-1_3/RTIambassador.cc:587 | the call's result, log and link are `Exchange`'s |
| Ambassador.RtiAmbassador.TickKernel | libRTI/hla-1_3/RTIambassador.cc:378-445 | the `while(1)` pump leaves the log, the link and the result exactly as `Kernel` |
| Ambassador.RtiAmbassador.Tick | libRTI/hla-1_3/RTIambassador.cc:357-368 | exactly as `TickPump.Tick` for the ambassador's build |
| Ambassador.RtiAmbassador.Tick2 | libRTI/hla-1_3/RTIambassador.cc:371-375 | exactly as `TickPump.Tick2` |
| Ambassador.RtiAmbassador.TickWithin | libRTI/hla-1_3/RTIambassador.cc:448-451 | exactly as `TickPump.TickWithin` |
| Ambassador.RtiAmbassador.CloseConnexion | libRTI/hla-1_3/RTIambassador.cc:343-354 | only a `Connected` ambassador closes: one `CLOSE_CONNEXION` exchange, whose result, log and link are `Exchange`'s, after which the ambassador is `Closed` whatever the outcome and no service may use the link |
| Ambassador.RtiAmbassador.JoinFederationExecution | libRTI/hla-1_3/RTIambassador.cc:562-592 | a refused join raises and leaves log, link and federate ambassador unchanged. Otherwise the federate ambassador is registered, even if the call then fails, and one exchange carries both names |
| Ambassador.RtiAmbassador.RegisterFederationSynchronizationPoint | libRTI/hla-1_3/RTIambassador.cc:610-628 | a NULL tag raises with nothing written; otherwise one exchange with an empty federate set |
| Ambassador.RtiAmbassador.RegisterFederationSynchronizationPointFor | libRTI/hla-1_3/RTIambassador.cc:630-656 | a NULL tag raises with nothing written; otherwise one exchange carrying the federate set in order |
| Ambassador.RtiAmbassador.DeleteObjectInstance | libRTI/hla-1_3/RTIambassador.cc:1037-1068 | both overloads: a NULL tag raises with nothing written; otherwise one exchange carrying object, time (if any) and tag |
| Ambassador.RtiAmbassador.NegotiatedAttributeOwnershipDivestiture | libRTI/hla-1_3/RTIambassador.cc:1163-1182 | a NULL tag raises with nothing written; otherwise one exchange carrying the attributes in order |
| Ambassador.RtiAmbassador.AttributeOwnershipAcquisition | libRTI/hla-1_3/RTIambassador.cc:1186-1199 | a NULL tag raises with nothing written; otherwise one exchange carrying the attributes in order |
| Ambassador.RtiAmbassador.SendInteractionWithRegion | libRTI/hla-1_3/RTIambassador.cc:1749-1790 | both overloads: a NULL tag, then a foreign region, raise with nothing written. Otherwise one exchange carrying the parameter handles and values reversed, and the region's handle |
| Ambassador.RtiAmbassador.DeleteRegion | libRTI/hla-1_3/RTIambassador.cc:1560-1577 | a null or foreign region raises `RegionNotKnown` with nothing written (the corrected cast); otherwise one exchange carrying its handle |
| Ambassador.RtiAmbassador.RegisterObjectInstanceWithRegion | libRTI/hla-1_3/RTIambassador.cc:1581-1624 | both overloads: any region among the first nb that is not the library's raises `RegionNotKnown` with nothing written. Otherwise one exchange carrying the first nb attributes in order (the corrected packing) and their region handles |
| Ambassador.RtiAmbassador.GetRegion | libRTI/hla-1_3/RTIambassador.cc:499-502 | always raises `RTIinternalError("unimplemented service getRegion")`; changes nothing |
| Ambassador.RtiAmbassador.LocalDeleteObjectInstance | libRTI/hla-1_3/RTIambassador.cc:1072-1079 | always raises its unimplemented-service error; changes nothing |
| Ambassador.RtiAmbassador.FlushQueueRequest | libRTI/hla-1_3/RTIambassador.cc:1378-1386 | always raises its unimplemented-service error; changes nothing |
| Ambassador.RtiAmbassador.Retract | libRTI/hla-1_3/RTIambassador.cc:1468-1479 | always raises its unimplemented-service error; changes nothing |
| Ambassador.RtiAmbassador.RequestClassAttributeValueUpdateWithRegion | libRTI/hla-1_3/RTIambassador.cc:1794-1805 | always raises its unimplemented-service error; changes nothing |

## Left out

- `NetworkError` reason suffix: the pump appends the socket's own `NetworkError` reason to its internal-error text. The model keeps only the fixed text that names the phase.
- Out-of-memory: `bad_alloc` in `hla_strdup` is not modelled, so allocation always succeeds.
- The bodies of `executeService`, `processException`, `callFederateAmbassador`, `sendTickRequestStop` and `M_Factory::receive`/`send` are not part of this model. They are stated as follows:
  - `executeService`: one write and one read, raising the exception a reply names;
  - `processException`: always raises the kind the reply names, with an empty reason;
  - `sendTickRequestStop`: writes `TICK_REQUEST_STOP` when the link can, and reads one reply when one is queued. A stop whose write fails is modelled as doing nothing, so its own error is not modelled.
- The constructor's process bootstrap (lines 158-328): environment lookup, socket setup, fork/exec and the accept timeout. This is operating-system I/O.
- Ambassador.RtiAmbassador.constructor: does not perform the `OPEN_CONNEXION` exchange of lines 329-334; the modelled link starts before it. That exchange is the separate method `OpenConnexion`, which a caller runs on the new ambassador, because a Dafny constructor cannot raise the exception the C++ constructor throws when the exchange fails. Until it succeeds the ambassador is `Connecting` and no service may be called; a failure leaves it `Closed`.
- Ambassador.RtiAmbassador.constructor: takes the federate ambassador that callbacks go to. In the source none is registered until `joinFederationExecution` (line 578), and `callFederateAmbassador`, which would receive a callback arriving before join, is not part of this model; the constructor's argument stands for whatever the library holds then.
- Ambassador.RtiAmbassador.CloseConnexion: returns the exchange's failure to its caller. In the source the exchange runs inside the destructor (lines 343-354), where an exception cannot reach the federate as a result: the declaration of `~RTIambassador` is not part of this model, and if it has no exception specification it is implicitly `noexcept` under C++11, so the program would terminate. The deletion of `privateRefs` (line 353) is modelled only as the `Closed` phase.
- Ambassador.RtiAmbassador.OpenConnexion: the version numbers come from `CERTI_Message`, which is not part of this model, so they are parameters.
- Real-time scheduling and affinity calls (lines 453-488): these are foreign OS calls.
- `RTIfedTime` and tick times: these are floating-point values. Tick bounds are opaque tokens with zero and infinity as constants, and federation times are opaque numbers.
- Wire encoding of message fields, and the integer widths of array sizes: a message is a tagged value and sizes are unbounded.
- Reply fields are not decoded into return values. These are the federate handle of a join, the event-retraction handle of the timed forms and the object handle of a registration; each service returns the reply itself.
- The other services: the remaining ~90 services are the same single `executeService` exchange and are represented by the ones modelled. `getRegionToken` (lines 492-495) is `GetHandle`.
- `delete region` after a successful `deleteRegion`: memory management is not modelled.
- Synchronization-point label: a NULL label passed to the synchronization-point services is undefined behaviour in the source (a string built from a null pointer). The model takes a label string.
- Re-entrancy: the federate ambassador is a pure function of the callback, so a callback cannot call back into the ambassador.
- `Debug`/`PrettyDebug` logging.
- Request array types: the request arrays are Dafny arrays of unbounded naturals, not the message classes' own `std::vector` fields.

## Findings

| source | as written | input that shows it | evidently intended | confidence | as-written member | corrected member |
|---|---|---|---|---|---|---|
| libRTI/hla-1_3/RTIambassador.cc:76-80 | `dynamic_cast<RegionImp*>(region)->getHandle()` inside `try { } catch (std::bad_cast)`. A pointer cast yields null and never throws, so a foreign (or null) region is dereferenced as null. The same cast appears in `deleteRegion` (lines 1568-1572) | a `Region*` pointing to a region not created by the library | raise `RegionNotKnown` | not executed | Regions.ForeignRegionCounterexample | Regions.BuildRegionHandles |
| libRTI/hla-1_3/RTIambassador.cc:1594-1597 | `req.setAttributes(attrs[i], 0)` writes every attribute into slot 0. The same code appears in the second overload (lines 1614-1617) | attributes [7, 8] with nb = 2 are packed as [8, 0] | `setAttributes(attrs[i], i)`, giving [7, 8] | not executed | Packing.SlotZeroCounterexample | Ambassador.RtiAmbassador.RegisterObjectInstanceWithRegion |
