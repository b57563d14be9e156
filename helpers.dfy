/**
 * helpers.go: the type-tag coercion of a request value into a PDU, the wrapper
 * that resolves the SNMP target and opens the session, and the sanitizer that
 * turns OctetString results into strings.
 */
module Helpers {
  import opened Wrappers
  import opened Snmp
  import opened Http

  // ---------------------------------------------------------------- ToSnmpPDU

  /** The wire-format type tags ToSnmpPDU recognises. */
  predicate KnownTag(tag: string)
  {
    tag in {"i", "u", "t", "a", "o", "s", "x", "b"}
  }

  /** Tags whose payload is a JSON number converted to a Go int. */
  predicate NumericTag(tag: string)
  {
    tag in {"i", "u", "t"}
  }

  /**
   * The type assertions of ToSnmpPDU succeed: a number for i/u/t, a byte
   * slice for a/o, a string for s/x/b; an unknown tag asserts nothing.
   */
  predicate PayloadFits(tag: string, value: Value)
  {
    if NumericTag(tag) then value.Number?
    else if tag in {"a", "o"} then value.Bytes?
    else if tag in {"s", "x", "b"} then value.Str?
    else true
  }

  /** Go's int(f) for a float64 f in range: the integer part, rounding toward zero. */
  function Trunc(x: real): (n: int)
    ensures 0.0 <= x ==> n as real <= x < n as real + 1.0
    ensures x < 0.0 ==> n as real - 1.0 < x <= n as real
  {
    if x >= 0.0 then x.Floor else -((-x).Floor)
  }

  /** The payload shape a PDU of the given type carries when it is built by ToSnmpPDU. */
  predicate WellTyped(p: Pdu)
  {
    if p.asnType in {Integer, Uinteger32, TimeTicks} then p.value.Int?
    else if p.asnType in {IPAddress, ObjectIdentifier} then p.value.Bytes?
    else if p.asnType in {OctetString, BitString} then p.value.Str?
    else p.asnType == UnknownType && p.value == Nil
  }

  /**
   * ToSnmpPDU: the tag alone decides the ASN.1 type; a recognised tag keeps
   * the OID and the payload (numbers truncated to an int), an unrecognised one
   * yields the zero PDU and drops the OID.
   */
  function ToSnmpPDU(oid: string, typeString: string, value: Value): (p: Pdu)
    requires PayloadFits(typeString, value)
    ensures p.asnType == Integer <==> typeString == "i"
    ensures p.asnType == Uinteger32 <==> typeString == "u"
    ensures p.asnType == TimeTicks <==> typeString == "t"
    ensures p.asnType == IPAddress <==> typeString == "a"
    ensures p.asnType == ObjectIdentifier <==> typeString == "o"
    ensures p.asnType == OctetString <==> typeString == "s" || typeString == "x"
    ensures p.asnType == BitString <==> typeString == "b"
    ensures KnownTag(typeString) ==> p.name == oid
    ensures NumericTag(typeString) ==> p.value == Int(Trunc(value.x))
    ensures KnownTag(typeString) && !NumericTag(typeString) ==> p.value == value
    ensures !KnownTag(typeString) ==> p == ZeroPdu
    ensures WellTyped(p)
  {
    if typeString == "i" then Pdu(oid, Integer, Int(Trunc(value.x)))
    else if typeString == "u" then Pdu(oid, Uinteger32, Int(Trunc(value.x)))
    else if typeString == "t" then Pdu(oid, TimeTicks, Int(Trunc(value.x)))
    else if typeString == "a" then Pdu(oid, IPAddress, Bytes(value.b))
    else if typeString == "o" then Pdu(oid, ObjectIdentifier, Bytes(value.b))
    else if typeString == "s" || typeString == "x" then Pdu(oid, OctetString, Str(value.s))
    else if typeString == "b" then Pdu(oid, BitString, Str(value.s))
    else ZeroPdu
  }

  /** Two recognised tags give the same ASN.1 type only when they are equal or are "s" and "x". */
  lemma TagTypeInjective(o1: string, t1: string, v1: Value, o2: string, t2: string, v2: Value)
    requires PayloadFits(t1, v1) && PayloadFits(t2, v2)
    requires KnownTag(t1) && KnownTag(t2)
    requires ToSnmpPDU(o1, t1, v1).asnType == ToSnmpPDU(o2, t2, v2).asnType
    ensures t1 == t2 || {t1, t2} == {"s", "x"}
  {
  }

  // ---------------------------------------------------------------- AddSnmpContext

  /** The version switch of AddSnmpContext: "v1", "v2" and "v2c" are the only labels accepted. */
  function VersionOf(versionLabel: string): (v: Option<SnmpVersion>)
    ensures v == Some(Version1) <==> versionLabel == "v1"
    ensures v == Some(Version2c) <==> versionLabel == "v2" || versionLabel == "v2c"
    ensures v != Some(Version3)
  {
    if versionLabel == "v1" then Some(Version1)
    else if versionLabel == "v2" || versionLabel == "v2c" then Some(Version2c)
    else None
  }

  /** The fields of the gosnmp client (gosnmp.Default) that the wrapper assigns per request. */
  class Client {
    var target: string
    var community: string
    var version: SnmpVersion
  }

  /** What the wrapper does, in order: write a response, call Connect, or invoke the wrapped handler. */
  datatype Step = Wrote(response: Response) | Connect | Next

  /**
   * AddSnmpContext for one request: the version label is checked first, the
   * community second; only then are the client's fields set and Connect called,
   * and the wrapped handler runs exactly when Connect succeeds. `connectError`
   * is what Connect returns.
   */
  method AddSnmpContext(g: Client, vars: map<string, string>, community: string, connectError: Option<string>)
    returns (steps: seq<Step>)
    modifies g
    ensures VersionOf(Var(vars, "snmp_version")).None? ==>
      steps == [Wrote(Plain(StatusBadRequest, "Unknown SNMP version"))] && unchanged(g)
    ensures VersionOf(Var(vars, "snmp_version")).Some? && community == "" ==>
      steps == [Wrote(Plain(StatusBadRequest, "SNMP Community undefined"))] && unchanged(g)
    ensures VersionOf(Var(vars, "snmp_version")).Some? && community != "" ==>
      && g.target == Var(vars, "target")
      && g.community == community
      && Some(g.version) == VersionOf(Var(vars, "snmp_version"))
      && steps == [Connect] + (if connectError.Some? then [Wrote(Plain(StatusBadGateway, connectError.value))] else [Next])
    ensures (Connect in steps) <==> steps[0] == Connect
    ensures (Next in steps) <==> steps == [Connect, Next]
  {
    var sversionLabel := Var(vars, "snmp_version");
    var starget := Var(vars, "target");
    var sversion: SnmpVersion;
    if sversionLabel == "v1" {
      sversion := Version1;
    } else if sversionLabel == "v2" || sversionLabel == "v2c" {
      sversion := Version2c;
    } else {
      steps := [Wrote(Plain(StatusBadRequest, "Unknown SNMP version"))];
      return;
    }

    if community == "" {
      steps := [Wrote(Plain(StatusBadRequest, "SNMP Community undefined"))];
      return;
    }

    g.target := starget;
    g.community := community;
    g.version := sversion;

    steps := [Connect];
    if connectError.Some? {
      steps := steps + [Wrote(Plain(StatusBadGateway, connectError.value))];
      return;
    }
    steps := steps + [Next];
  }

  // ---------------------------------------------------------------- SanitizeResultVariables

  /** Go's string(b): the string whose characters have the codes of the bytes, in order. */
  function BytesToString(b: seq<byte>): (s: string)
    ensures |s| == |b|
    ensures forall i :: 0 <= i < |b| ==> s[i] as int == b[i] as int
  {
    seq(|b|, i requires 0 <= i < |b| => (b[i] as int) as char)
  }

  /** The inverse of BytesToString, for strings of byte-sized characters. */
  function StringToBytes(s: string): (b: seq<byte>)
    requires forall i :: 0 <= i < |s| ==> s[i] as int < 256
    ensures |b| == |s|
  {
    seq(|s|, i requires 0 <= i < |s| => s[i] as int as byte)
  }

  lemma BytesRoundTrip(b: seq<byte>)
    ensures forall i :: 0 <= i < |BytesToString(b)| ==> BytesToString(b)[i] as int < 256
    ensures StringToBytes(BytesToString(b)) == b
  {
  }

  /** The type assertion of the sanitizer holds: every OctetString entry carries a byte slice. */
  predicate OctetsAreBytes(s: seq<Pdu>)
  {
    forall i :: 0 <= i < |s| && s[i].asnType == OctetString ==> s[i].value.Bytes?
  }

  /** One entry as the sanitizer leaves it. */
  function SanitizeOne(p: Pdu): Pdu
    requires p.asnType == OctetString ==> p.value.Bytes?
  {
    if p.asnType == OctetString then p.(value := Str(BytesToString(p.value.b))) else p
  }

  /** The whole list as the sanitizer leaves it. */
  function Sanitized(s: seq<Pdu>): seq<Pdu>
    requires OctetsAreBytes(s)
  {
    seq(|s|, i requires 0 <= i < |s| => SanitizeOne(s[i]))
  }

  /**
   * SanitizeResultVariables rewrites the caller's slice in place, entry by
   * entry; the source does not copy it.
   */
  method SanitizeResultVariables(pdus: array<Pdu>)
    requires OctetsAreBytes(pdus[..])
    modifies pdus
    ensures pdus[..] == Sanitized(old(pdus[..]))
  {
    ghost var before := pdus[..];
    for i := 0 to pdus.Length
      invariant forall k :: 0 <= k < i ==> pdus[k] == SanitizeOne(before[k])
      invariant forall k :: i <= k < pdus.Length ==> pdus[k] == before[k]
    {
      if pdus[i].asnType == OctetString {
        pdus[i] := pdus[i].(value := Str(BytesToString(pdus[i].value.b)));
      }
    }
  }

  /**
   * The sanitizer keeps length, names and types, leaves every entry that is not
   * an OctetString unchanged and turns each OctetString payload into the string
   * of its bytes.
   */
  lemma SanitizedEntries(s: seq<Pdu>)
    requires OctetsAreBytes(s)
    ensures |Sanitized(s)| == |s|
    ensures forall i :: 0 <= i < |s| ==>
      && Sanitized(s)[i].name == s[i].name
      && Sanitized(s)[i].asnType == s[i].asnType
      && (s[i].asnType != OctetString ==> Sanitized(s)[i] == s[i])
      && (s[i].asnType == OctetString ==> Sanitized(s)[i].value == Str(BytesToString(s[i].value.b)))
  {
  }

  /** Undoes the sanitizer: OctetString strings become byte slices again. */
  function Unsanitized(s: seq<Pdu>): seq<Pdu>
  {
    seq(|s|, i requires 0 <= i < |s| =>
      if s[i].asnType == OctetString && s[i].value.Str? && (forall k :: 0 <= k < |s[i].value.s| ==> s[i].value.s[k] as int < 256)
      then s[i].(value := Bytes(StringToBytes(s[i].value.s)))
      else s[i])
  }

  /** Sanitizing loses nothing: the original byte payloads can be recovered. */
  lemma SanitizeLossless(s: seq<Pdu>)
    requires OctetsAreBytes(s)
    ensures Unsanitized(Sanitized(s)) == s
  {
    forall i | 0 <= i < |s| ensures Unsanitized(Sanitized(s))[i] == s[i] {
      if s[i].asnType == OctetString {
        BytesRoundTrip(s[i].value.b);
      }
    }
  }

  /**
   * The sanitizer is not idempotent: its output admits a second pass exactly
   * when the list holds no OctetString entry at all, since every OctetString
   * payload is a string afterwards and the byte-slice assertion would fail.
   */
  lemma SanitizeAgainIff(s: seq<Pdu>)
    requires OctetsAreBytes(s)
    ensures OctetsAreBytes(Sanitized(s)) <==> forall i :: 0 <= i < |s| ==> s[i].asnType != OctetString
  {
    if !forall i :: 0 <= i < |s| ==> s[i].asnType != OctetString {
      var i :| 0 <= i < |s| && s[i].asnType == OctetString;
      assert Sanitized(s)[i].value.Str?;
    }
  }
}
