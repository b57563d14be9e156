/**
 * The values of the SNMP client library (gosnmp) that the translation layer
 * produces and consumes: ASN.1 BER type codes, dynamically typed payloads,
 * PDUs, and the packets a Get or Set answers with.
 */
module Snmp {
  newtype byte = x: int | 0 <= x < 256

  /** gosnmp's Asn1BER: the BER tag of a value, one byte. */
  newtype Asn1BER = x: int | 0 <= x < 256

  // Universal tags of X.690 and the application tags of the SNMP SMI, as gosnmp numbers them.
  const UnknownType: Asn1BER := 0x00
  const Integer: Asn1BER := 0x02
  const BitString: Asn1BER := 0x03
  const OctetString: Asn1BER := 0x04
  const Null: Asn1BER := 0x05
  const ObjectIdentifier: Asn1BER := 0x06
  const IPAddress: Asn1BER := 0x40
  const Counter32: Asn1BER := 0x41
  const Gauge32: Asn1BER := 0x42
  const TimeTicks: Asn1BER := 0x43
  const Uinteger32: Asn1BER := 0x47
  const NoSuchObject: Asn1BER := 0x80
  const NoSuchInstance: Asn1BER := 0x81
  const EndOfMibView: Asn1BER := 0x82

  /**
   * A Go `interface{}` as it occurs here: nil, a JSON number (float64), a Go
   * int, a byte slice, or a string.
   */
  datatype Value =
    | Nil
    | Number(x: real)
    | Int(i: int)
    | Bytes(b: seq<byte>)
    | Str(s: string)

  /** gosnmp.SnmpPDU: an OID (its Name), a type and a payload. */
  datatype Pdu = Pdu(name: string, asnType: Asn1BER, value: Value)

  /** The zero value `gosnmp.SnmpPDU{}`. */
  const ZeroPdu: Pdu := Pdu("", UnknownType, Nil)

  /** gosnmp.SnmpVersion. */
  datatype SnmpVersion = Version1 | Version2c | Version3

  /** The parts of gosnmp.SnmpPacket the handlers read. */
  datatype Packet = Packet(variables: seq<Pdu>, error: nat, errorIndex: nat)

  /** What a Get or Set call returns: a non-nil error, or the answering packet. */
  datatype Reply = Failed(message: string) | Answered(packet: Packet)
}
