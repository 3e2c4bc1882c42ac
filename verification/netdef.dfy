/** Network definitions as the binding exposes them: an id and one of
    thirteen device kinds. The library reports a kind as a numeric type
    code; `NetdefGetType` maps the twelve codes it knows to their own
    variants and every other code to `None`. */
module Netdefs {
  import Common
  import Retrieval

  /** Device kinds, with `None` as the catch-all for codes the binding does
      not know. */
  datatype NetdefType =
    | None
    | Ethernet
    | Wifi
    | Modem
    | Bridge
    | Bond
    | Vlan
    | Tunnel
    | Port
    | Vrf
    | Nm
    | Dummy
    | Veth

  /** One network definition: its id and its kind, nothing else. */
  datatype Netdef = Netdef(id: Common.Bytes, kind: NetdefType)

  /** The library's numeric type codes for the twelve kinds the binding
      matches on. Their values come from generated bindings, so the model
      takes them as a parameter. */
  datatype DefTypeCodes = DefTypeCodes(
    ethernet: int, wifi: int, modem: int, bridge: int, bond: int, vlan: int,
    tunnel: int, port: int, vrf: int, nm: int, dummy: int, veth: int)

  /** The codes in the order of the match arms. */
  function KnownCodes(c: DefTypeCodes): (codes: seq<int>)
    ensures |codes| == 12
  {
    [c.ethernet, c.wifi, c.modem, c.bridge, c.bond, c.vlan,
     c.tunnel, c.port, c.vrf, c.nm, c.dummy, c.veth]
  }

  /** The kinds in the order of the match arms. */
  const KnownKinds: seq<NetdefType> :=
    [Ethernet, Wifi, Modem, Bridge, Bond, Vlan, Tunnel, Port, Vrf, Nm, Dummy, Veth]

  /** Distinct enumeration constants, as a C enum's named kinds are. */
  predicate DistinctCodes(c: DefTypeCodes)
  {
    forall i, j :: 0 <= i < j < 12 ==> KnownCodes(c)[i] != KnownCodes(c)[j]
  }

  /** The kind of a library type code: a code matching no arm is `None`,
      so the mapping never fails. */
  function NetdefGetType(c: DefTypeCodes, code: int): (k: NetdefType)
    ensures k == None <==> code !in KnownCodes(c)
  {
    if code == c.ethernet then Ethernet
    else if code == c.wifi then Wifi
    else if code == c.modem then Modem
    else if code == c.bridge then Bridge
    else if code == c.bond then Bond
    else if code == c.vlan then Vlan
    else if code == c.tunnel then Tunnel
    else if code == c.port then Port
    else if code == c.vrf then Vrf
    else if code == c.nm then Nm
    else if code == c.dummy then Dummy
    else if code == c.veth then Veth
    else None
  }

  /** As with a Rust `match`, the first arm whose code equals `code` decides
      the kind. */
  lemma FirstMatchingArmDecides(c: DefTypeCodes, code: int, i: nat)
    requires i < 12 && KnownCodes(c)[i] == code
    requires forall j :: 0 <= j < i ==> KnownCodes(c)[j] != code
    ensures NetdefGetType(c, code) == KnownKinds[i]
  {
    var s := KnownCodes(c);
    assert s[0] == c.ethernet && s[1] == c.wifi && s[2] == c.modem && s[3] == c.bridge;
    assert s[4] == c.bond && s[5] == c.vlan && s[6] == c.tunnel && s[7] == c.port;
    assert s[8] == c.vrf && s[9] == c.nm && s[10] == c.dummy && s[11] == c.veth;
  }

  /** The twelve matched kinds are exactly the variants other than `None`,
      each once. */
  lemma KnownKindsAreTheOthers(k: NetdefType)
    ensures k in KnownKinds <==> k != None
    ensures forall i, j :: 0 <= i < j < 12 ==> KnownKinds[i] != KnownKinds[j]
  {
  }

  /** With distinct codes, each known code maps to its own kind. */
  lemma KnownCodeMapsToItsKind(c: DefTypeCodes, i: nat)
    requires DistinctCodes(c)
    requires i < 12
    ensures NetdefGetType(c, KnownCodes(c)[i]) == KnownKinds[i]
  {
    FirstMatchingArmDecides(c, KnownCodes(c)[i], i);
  }

  /** With distinct codes, two codes of the same known kind are the same
      code: no two library kinds are conflated. */
  lemma NetdefGetTypeInjective(c: DefTypeCodes, a: int, b: int)
    requires DistinctCodes(c)
    requires NetdefGetType(c, a) == NetdefGetType(c, b) != None
    ensures a == b
  {
    var i :| 0 <= i < 12 && KnownCodes(c)[i] == a;
    var j :| 0 <= j < 12 && KnownCodes(c)[j] == b;
    KnownCodeMapsToItsKind(c, i);
    KnownCodeMapsToItsKind(c, j);
    KnownKindsAreTheOthers(None);
  }

  /** The library code of a known kind. */
  function CodeOf(c: DefTypeCodes, k: NetdefType): int
    requires k != None
  {
    match k
    case Ethernet => c.ethernet
    case Wifi => c.wifi
    case Modem => c.modem
    case Bridge => c.bridge
    case Bond => c.bond
    case Vlan => c.vlan
    case Tunnel => c.tunnel
    case Port => c.port
    case Vrf => c.vrf
    case Nm => c.nm
    case Dummy => c.dummy
    case Veth => c.veth
  }

  /** Mapping a kind's code back gives the kind, and every known code is the
      code of the kind it maps to. */
  lemma CodeOfRoundTrip(c: DefTypeCodes, k: NetdefType, code: int)
    requires DistinctCodes(c)
    ensures k != None ==> NetdefGetType(c, CodeOf(c, k)) == k
    ensures code in KnownCodes(c) ==> CodeOf(c, NetdefGetType(c, code)) == code
  {
    if k != None {
      KnownKindsAreTheOthers(k);
      var i :| 0 <= i < 12 && KnownKinds[i] == k;
      assert CodeOf(c, k) == KnownCodes(c)[i];
      KnownCodeMapsToItsKind(c, i);
    }
  }

  /** A netdef as the library holds it: the copy call that yields its id,
      and its numeric type code. */
  datatype RawNetdef = RawNetdef(copyId: Retrieval.CopyFn, typeCode: int)

  /** The id retrieval ends with bytes, so `from_raw_netdef`'s `expect` does
      not abort. */
  predicate IdRetrievable(raw: RawNetdef)
  {
    Retrieval.Outcome(raw.copyId).Copied?
  }

  /** `Netdef::from_raw_netdef`: the id from the bounded retrieval and the
      kind from the type code. */
  function FromRawNetdef(c: DefTypeCodes, raw: RawNetdef): (n: Netdef)
    requires IdRetrievable(raw)
    ensures n.id == Retrieval.Outcome(raw.copyId).data
    ensures Common.NUL !in n.id && |n.id| < Retrieval.MaxSize
    ensures n.kind == None <==> raw.typeCode !in KnownCodes(c)
    ensures n.kind == NetdefGetType(c, raw.typeCode)
  {
    Netdef(Retrieval.Outcome(raw.copyId).data, NetdefGetType(c, raw.typeCode))
  }
}
