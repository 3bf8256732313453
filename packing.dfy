/**
 * Filling the arrays of a request before it is sent: handle lists, the
 * handle/value pairs of attribute and parameter sets, the federate set of a
 * synchronization point, and the copy of a string into a freshly allocated
 * NUL-terminated buffer (`hla_strdup`).
 */
module Packing {

  import opened Messages

  /** `s` resized to `n` elements as `std::vector::resize` does: the first `n` kept, the rest `fill`. */
  function Resized<T>(s: seq<T>, n: nat, fill: T): (r: seq<T>)
    ensures |r| == n
    ensures forall i :: 0 <= i < n ==> r[i] == (if i < |s| then s[i] else fill)
  {
    if n <= |s| then s[..n] else s + seq(n - |s|, _ => fill)
  }

  /** The elements of `s` in the opposite order. */
  function Reversed<T>(s: seq<T>): (r: seq<T>)
    ensures |r| == |s|
  {
    if s == [] then [] else Reversed(s[1..]) + [s[0]]
  }

  /** Slot `i` of the reversal holds the element `i` places from the end. */
  lemma {:induction false} ReversedAt<T>(s: seq<T>, i: nat)
    requires i < |s|
    ensures Reversed(s)[i] == s[|s| - 1 - i]
  {
    if i < |s| - 1 {
      ReversedAt(s[1..], i);
    }
  }

  /** The first components of a sequence of pairs. */
  function Firsts<H, V>(pairs: seq<(H, V)>): (r: seq<H>)
    ensures |r| == |pairs| && forall i :: 0 <= i < |pairs| ==> r[i] == pairs[i].0
  {
    seq(|pairs|, i requires 0 <= i < |pairs| => pairs[i].0)
  }

  /** The second components of a sequence of pairs. */
  function Seconds<H, V>(pairs: seq<(H, V)>): (r: seq<V>)
    ensures |r| == |pairs| && forall i :: 0 <= i < |pairs| ==> r[i] == pairs[i].1
  {
    seq(|pairs|, i requires 0 <= i < |pairs| => pairs[i].1)
  }

  /** Two sequences of equal length read slot by slot as pairs. */
  function Zipped<H, V>(hs: seq<H>, vs: seq<V>): (r: seq<(H, V)>)
    requires |hs| == |vs|
    ensures |r| == |hs| && Firsts(r) == hs && Seconds(r) == vs
  {
    seq(|hs|, i requires 0 <= i < |hs| => (hs[i], vs[i]))
  }

  /**
   * Reversing the handles and the values separately keeps them aligned: read
   * back slot by slot and in reverse, the packed arrays are the input pairs.
   */
  lemma PairsStayAligned<H, V>(pairs: seq<(H, V)>)
    ensures Reversed(Zipped(Reversed(Firsts(pairs)), Reversed(Seconds(pairs)))) == pairs
  {
    var z := Zipped(Reversed(Firsts(pairs)), Reversed(Seconds(pairs)));
    forall i | 0 <= i < |pairs| ensures Reversed(z)[i] == pairs[i] {
      var j := |pairs| - 1 - i;
      ReversedAt(z, i);
      ReversedAt(Firsts(pairs), j);
      ReversedAt(Seconds(pairs), j);
    }
  }

  /** Copies `a` into a new array resized to `n`, as `std::vector::resize` does. */
  method ResizeArray<T>(a: array<T>, n: nat, fill: T) returns (b: array<T>)
    ensures fresh(b) && b[..] == Resized(a[..], n, fill)
  {
    b := new T[n](_ => fill);
    var i := 0;
    while i < n && i < a.Length
      invariant 0 <= i <= n && (i <= a.Length)
      invariant forall j :: 0 <= j < n ==> b[j] == (if j < i then a[j] else fill)
    {
      b[i] := a[i];
      i := i + 1;
    }
  }

  /**
   * The request under construction. Each list is a vector that a
   * `set...Size` call resizes and a `set...(value, index)` call writes one
   * slot of.
   */
  class Request {
    var attributes: array<AttributeHandle>
    var parameters: array<ParameterHandle>
    var values: array<string>
    var federateSet: array<FederateHandle>

    /** Separate vectors, never shared. */
    predicate Valid()
      reads this
    {
      attributes != parameters && attributes != federateSet && parameters != federateSet
    }

    constructor()
      ensures Valid()
      ensures attributes[..] == [] && parameters[..] == [] && values[..] == [] && federateSet[..] == []
    {
      attributes := new AttributeHandle[0];
      parameters := new ParameterHandle[0];
      values := new string[0];
      federateSet := new FederateHandle[0];
    }

    method SetAttributesSize(n: nat)
      requires Valid()
      modifies this
      ensures Valid() && fresh(attributes)
      ensures attributes[..] == Resized(old(attributes[..]), n, 0)
      ensures parameters == old(parameters) && values == old(values) && federateSet == old(federateSet)
    {
      attributes := ResizeArray(attributes, n, 0);
    }

    method SetParametersSize(n: nat)
      requires Valid()
      modifies this
      ensures Valid() && fresh(parameters)
      ensures parameters[..] == Resized(old(parameters[..]), n, 0)
      ensures attributes == old(attributes) && values == old(values) && federateSet == old(federateSet)
    {
      parameters := ResizeArray(parameters, n, 0);
    }

    method SetValuesSize(n: nat)
      requires Valid()
      modifies this
      ensures Valid() && fresh(values)
      ensures values[..] == Resized(old(values[..]), n, "")
      ensures attributes == old(attributes) && parameters == old(parameters) && federateSet == old(federateSet)
    {
      values := ResizeArray(values, n, "");
    }

    method SetFederateSetSize(n: nat)
      requires Valid()
      modifies this
      ensures Valid() && fresh(federateSet)
      ensures federateSet[..] == Resized(old(federateSet[..]), n, 0)
      ensures attributes == old(attributes) && parameters == old(parameters) && values == old(values)
    {
      federateSet := ResizeArray(federateSet, n, 0);
    }
  }

  /** `assignAHVToRequest`: the attribute list, in the given order. */
  method AssignAttributes(ahv: seq<AttributeHandle>, req: Request)
    requires req.Valid()
    modifies req
    ensures req.Valid() && fresh(req.attributes)
    ensures req.attributes[..] == ahv
    ensures req.parameters == old(req.parameters) && req.values == old(req.values)
    ensures req.federateSet == old(req.federateSet)
  {
    req.SetAttributesSize(|ahv|);
    var attributes := req.attributes;
    var i := 0;
    while i < |ahv|
      invariant 0 <= i <= |ahv| && attributes.Length == |ahv|
      invariant forall j :: 0 <= j < i ==> attributes[j] == ahv[j]
      modifies attributes
    {
      attributes[i] := ahv[i];
      i := i + 1;
    }
  }

  /**
   * `assignAHVPSToRequest`: attribute and value sizes both set to the number
   * of pairs; slot `i` holds the pair `size - 1 - i`, so both arrays are the
   * input in reverse order, still aligned.
   */
  method AssignAttributeValues(pairs: seq<(AttributeHandle, AttributeValue)>, req: Request)
    requires req.Valid()
    modifies req
    ensures req.Valid() && fresh(req.attributes) && fresh(req.values)
    ensures req.attributes[..] == Reversed(Firsts(pairs))
    ensures req.values[..] == Reversed(Seconds(pairs))
    ensures req.parameters == old(req.parameters) && req.federateSet == old(req.federateSet)
  {
    var size := |pairs|;
    req.SetAttributesSize(size);
    req.SetValuesSize(size);
    var attributes, values := req.attributes, req.values;
    var i := 0;
    while i < size
      invariant 0 <= i <= size && attributes.Length == size && values.Length == size
      invariant forall j :: 0 <= j < i ==>
        attributes[j] == pairs[size - 1 - j].0 && values[j] == pairs[size - 1 - j].1
      modifies attributes, values
    {
      attributes[i] := pairs[size - 1 - i].0;
      values[i] := pairs[size - 1 - i].1;
      i := i + 1;
    }
    forall j | 0 <= j < size
      ensures req.attributes[j] == Reversed(Firsts(pairs))[j] && req.values[j] == Reversed(Seconds(pairs))[j]
    {
      ReversedAt(Firsts(pairs), j);
      ReversedAt(Seconds(pairs), j);
    }
  }

  /**
   * `assignPHVPSToRequest`: parameter and value sizes both set to the number
   * of pairs; slot `i` holds the pair `size - 1 - i`.
   */
  method AssignParameterValues(pairs: seq<(ParameterHandle, ParameterValue)>, req: Request)
    requires req.Valid()
    modifies req
    ensures req.Valid() && fresh(req.parameters) && fresh(req.values)
    ensures req.parameters[..] == Reversed(Firsts(pairs))
    ensures req.values[..] == Reversed(Seconds(pairs))
    ensures req.attributes == old(req.attributes) && req.federateSet == old(req.federateSet)
  {
    var size := |pairs|;
    req.SetParametersSize(size);
    req.SetValuesSize(size);
    var parameters, values := req.parameters, req.values;
    var i := 0;
    while i < size
      invariant 0 <= i <= size && parameters.Length == size && values.Length == size
      invariant forall j :: 0 <= j < i ==>
        parameters[j] == pairs[size - 1 - j].0 && values[j] == pairs[size - 1 - j].1
      modifies parameters, values
    {
      parameters[i] := pairs[size - 1 - i].0;
      values[i] := pairs[size - 1 - i].1;
      i := i + 1;
    }
    forall j | 0 <= j < size
      ensures req.parameters[j] == Reversed(Firsts(pairs))[j] && req.values[j] == Reversed(Seconds(pairs))[j]
    {
      ReversedAt(Firsts(pairs), j);
      ReversedAt(Seconds(pairs), j);
    }
  }

  /** The federate set of a synchronization point, copied in index order. */
  method AssignFederateSet(federates: seq<FederateHandle>, req: Request)
    requires req.Valid()
    modifies req
    ensures req.Valid() && fresh(req.federateSet)
    ensures req.federateSet[..] == federates
    ensures req.attributes == old(req.attributes) && req.parameters == old(req.parameters)
    ensures req.values == old(req.values)
  {
    req.SetFederateSetSize(|federates|);
    var federateSet := req.federateSet;
    var i := 0;
    while i < |federates|
      invariant 0 <= i <= |federates| && federateSet.Length == |federates|
      invariant forall j :: 0 <= j < i ==> federateSet[j] == federates[j]
      modifies federateSet
    {
      federateSet[i] := federates[i];
      i := i + 1;
    }
  }

  // ---------------------------------------------------------------------------
  // The attribute list of registerObjectInstanceWithRegion

  /**
   * What the attribute vector holds after the loop of
   * `registerObjectInstanceWithRegion` as written: resized to `n`, then every
   * handle written to slot 0, so slot 0 keeps the last one.
   */
  function SlotZeroPacking(before: seq<AttributeHandle>, attrs: seq<AttributeHandle>): (r: seq<AttributeHandle>)
    ensures |r| == |attrs|
    ensures attrs != [] ==> r[0] == attrs[|attrs| - 1]
    ensures forall i :: 1 <= i < |r| ==> r[i] == (if i < |before| then before[i] else 0)
  {
    var resized := Resized(before, |attrs|, 0);
    if attrs == [] then resized else resized[0 := attrs[|attrs| - 1]]
  }

  /** The loop of `registerObjectInstanceWithRegion` as written: `setAttributes(attrs[i], 0)`. */
  method AssignAttributesToSlotZero(attrs: seq<AttributeHandle>, req: Request)
    requires req.Valid()
    modifies req
    ensures req.Valid() && fresh(req.attributes)
    ensures req.attributes[..] == SlotZeroPacking(old(req.attributes[..]), attrs)
    ensures req.parameters == old(req.parameters) && req.values == old(req.values)
    ensures req.federateSet == old(req.federateSet)
  {
    req.SetAttributesSize(|attrs|);
    var attributes := req.attributes;
    ghost var resized := attributes[..];
    var i := 0;
    while i < |attrs|
      invariant 0 <= i <= |attrs| && attributes.Length == |attrs|
      invariant attributes[..] == (if i == 0 then resized else resized[0 := attrs[i - 1]])
      modifies attributes
    {
      attributes[0] := attrs[i];
      i := i + 1;
    }
  }

  /**
   * On a fresh request, every slot but the first holds the default handle
   * 0, and the first holds the last attribute: `[7, 8]` is sent as `[8, 0]`.
   */
  lemma SlotZeroLosesAttributes(attrs: seq<AttributeHandle>)
    requires attrs != []
    ensures var r := SlotZeroPacking([], attrs);
      |r| == |attrs| && r[0] == attrs[|attrs| - 1] && forall i :: 1 <= i < |r| ==> r[i] == 0
  {
  }

  lemma SlotZeroCounterexample()
    ensures SlotZeroPacking([], [7, 8]) == [8, 0] != [7, 8]
  {
    assert Resized([], 2, 0) == [0, 0];
  }

  // ---------------------------------------------------------------------------
  // hla_strdup

  /** The characters of `s` before its first NUL: what `strncpy` reads of `s.c_str()`. */
  function BeforeNul(s: string): (p: string)
    ensures |p| <= |s| && p == s[..|p|] && '\0' !in p
    ensures |p| < |s| ==> s[|p|] == '\0'
  {
    if s == [] || s[0] == '\0' then [] else [s[0]] + BeforeNul(s[1..])
  }

  /**
   * `hla_strdup`: a new buffer of `|s| + 1` characters. `strncpy` copies `s`
   * up to its first NUL and pads the first `|s|` slots with NUL; the last
   * slot is set to NUL.
   */
  method HlaStrdup(s: string) returns (result: array<char>)
    ensures fresh(result)
    ensures result.Length == |s| + 1
    ensures result[..] == BeforeNul(s) + seq(|s| + 1 - |BeforeNul(s)|, _ => '\0')
    ensures '\0' !in s ==> result[..] == s + ['\0']
  {
    var len := |s|;
    result := new char[len + 1];
    var i := 0;
    while i < len && s[i] != '\0'
      invariant 0 <= i <= |BeforeNul(s)|
      invariant forall j :: 0 <= j < i ==> result[j] == s[j]
    {
      result[i] := s[i];
      i := i + 1;
    }
    assert i == |BeforeNul(s)|;
    var k := i;
    while k < len
      invariant i <= k <= len
      invariant forall j :: 0 <= j < i ==> result[j] == s[j]
      invariant forall j :: i <= j < k ==> result[j] == '\0'
    {
      result[k] := '\0';
      k := k + 1;
    }
    result[len] := '\0';
  }
}
