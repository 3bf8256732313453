/**
 * Region arguments. A region handed to the library is either one it created
 * (a `RegionImp`, which knows its handle) or some other implementation of the
 * `Region` interface. A reference is cast with `dynamic_cast<const
 * RegionImp&>`, which throws `bad_cast` on a foreign region; a pointer is cast
 * with `dynamic_cast<RegionImp*>`, which yields the null pointer instead.
 */
module Regions {

  import opened Wrappers
  import opened Messages

  datatype Region = RegionImp(handle: RegionHandle) | ForeignRegion

  /** A `Region*` argument. */
  datatype RegionPtr = NullRegion | PointsTo(region: Region)

  const RegionNotKnownError := RtiException(RegionNotKnown, "")

  /** `get_handle`: the handle of a region passed by reference, or `RegionNotKnown` for a foreign one. */
  function GetHandle(region: Region): (r: Result<RegionHandle, RtiException>)
    ensures r.Success? <==> region.RegionImp?
    ensures r.Success? ==> r.value == region.handle
    ensures r.Failure? ==> r.error == RegionNotKnownError
  {
    match region
    case RegionImp(h) => Success(h)
    case ForeignRegion => Failure(RegionNotKnownError)
  }

  /** What `dynamic_cast<RegionImp*>(p)->getHandle()` does. */
  datatype PointerCast = Handle(h: RegionHandle) | NullDereference

  /**
   * The pointer cast of `build_region_handles` and `deleteRegion` as
   * written: a foreign region, like the null pointer, casts to null, which is
   * then dereferenced. No `bad_cast` is thrown, so their `RegionNotKnown`
   * handlers are never reached.
   */
  function PointerCastAsWritten(p: RegionPtr): (c: PointerCast)
    ensures c.Handle? <==> p.PointsTo? && p.region.RegionImp?
    ensures c.Handle? ==> c.h == p.region.handle
  {
    if p.PointsTo? && p.region.RegionImp? then Handle(p.region.handle) else NullDereference
  }

  /** The evident intent: a foreign region, or none, is `RegionNotKnown`. */
  function RegionHandleOf(p: RegionPtr): (r: Result<RegionHandle, RtiException>)
    ensures r.Success? <==> p.PointsTo? && p.region.RegionImp?
    ensures r.Success? ==> r.value == p.region.handle
    ensures r.Failure? ==> r.error == RegionNotKnownError
  {
    match p
    case NullRegion => Failure(RegionNotKnownError)
    case PointsTo(region) => GetHandle(region)
  }

  /**
   * The cast as written and the intended one agree on every region the
   * library created, and differ on every other pointer: where the intent is
   * `RegionNotKnown`, the code dereferences null.
   */
  lemma CastAsWrittenDiffers(p: RegionPtr)
    ensures RegionHandleOf(p).Success? <==> PointerCastAsWritten(p).Handle?
    ensures RegionHandleOf(p).Success? ==> RegionHandleOf(p).value == PointerCastAsWritten(p).h
    ensures RegionHandleOf(p).Failure? <==> PointerCastAsWritten(p) == NullDereference
  {
  }

  lemma ForeignRegionCounterexample()
    ensures PointerCastAsWritten(PointsTo(ForeignRegion)) == NullDereference
    ensures RegionHandleOf(PointsTo(ForeignRegion)) == Failure(RegionNotKnownError)
  {
  }

  /** The handles of `regions`, or `RegionNotKnown` as soon as one of them is not the library's. */
  function RegionHandles(regions: seq<RegionPtr>): (r: Result<seq<RegionHandle>, RtiException>)
    ensures r.Success? ==> |r.value| == |regions|
    ensures r.Failure? ==> r.error == RegionNotKnownError
  {
    if regions == [] then Success([])
    else match RegionHandleOf(regions[0])
      case Failure(e) => Failure(e)
      case Success(h) =>
        match RegionHandles(regions[1..])
        case Failure(e) => Failure(e)
        case Success(hs) => Success([h] + hs)
  }

  /** All or nothing: every region's handle in order, or `RegionNotKnown` when any region is foreign. */
  lemma {:induction false} RegionHandlesAllOrNothing(regions: seq<RegionPtr>)
    ensures var r := RegionHandles(regions);
      && (r.Success? <==> forall i :: 0 <= i < |regions| ==> RegionHandleOf(regions[i]).Success?)
      && (r.Success? ==> |r.value| == |regions|)
      && (r.Success? ==> forall i :: 0 <= i < |regions| ==> RegionHandleOf(regions[i]) == Success(r.value[i]))
      && (r.Failure? ==> r.error == RegionNotKnownError)
  {
    if regions != [] {
      RegionHandlesAllOrNothing(regions[1..]);
      var r := RegionHandles(regions);
      if r.Success? {
        forall i | 0 <= i < |regions| ensures RegionHandleOf(regions[i]) == Success(r.value[i]) {
          if i > 0 {
            assert regions[i] == regions[1..][i - 1];
          }
        }
      }
      if forall i :: 0 <= i < |regions| ==> RegionHandleOf(regions[i]).Success? {
        forall i | 0 <= i < |regions| - 1 ensures RegionHandleOf(regions[1..][i]).Success? {
          assert regions[1..][i] == regions[i + 1];
        }
      }
    }
  }

  /**
   * `build_region_handles` with the intended cast: a vector of `nb` handles,
   * slot `i` holding region `i`'s, filled in index order; a foreign region
   * abandons the vector with `RegionNotKnown`.
   */
  method BuildRegionHandles(regions: seq<RegionPtr>, nb: nat) returns (r: Result<seq<RegionHandle>, RtiException>)
    requires nb <= |regions|
    ensures r == RegionHandles(regions[..nb])
  {
    var vect := new RegionHandle[nb];
    var i := 0;
    while i < nb
      invariant 0 <= i <= nb
      invariant forall j :: 0 <= j < i ==> RegionHandleOf(regions[j]) == Success(vect[j])
    {
      match RegionHandleOf(regions[i])
      case Failure(e) =>
        RegionHandlesAllOrNothing(regions[..nb]);
        assert regions[..nb][i] == regions[i];
        return Failure(e);
      case Success(h) =>
        vect[i] := h;
      i := i + 1;
    }
    RegionHandlesAllOrNothing(regions[..nb]);
    var expected := RegionHandles(regions[..nb]);
    assert forall j :: 0 <= j < nb ==> regions[..nb][j] == regions[j];
    assert expected.value == vect[..] by {
      forall j | 0 <= j < nb ensures expected.value[j] == vect[j] {
        assert regions[..nb][j] == regions[j];
      }
    }
    r := Success(vect[..]);
  }
}
