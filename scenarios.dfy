/**
 * Worked requests, checked against the contracts of the handlers and helpers
 * alone: what a client of these operations can conclude.
 */
module Scenarios {
  import opened Wrappers
  import opened Snmp
  import opened Http
  import opened Helpers
  import opened Oids
  import opened Handlers

  /** GET /{oid} with no body asks for exactly that OID. */
  method SingleOidScenario(reply: Reply)
    requires reply.Answered? ==> OctetsAreBytes(reply.packet.variables)
  {
    var vars := map["snmp_version" := "v2c", "target" := "10.0.0.1", "oid" := "1.3.6.1.2.1.1.1.0"];
    var resp, calls := GetHandler(vars, 0, FieldsRequest([], []), None, reply);
    assert calls == [Get(["1.3.6.1.2.1.1.1.0"]), Close];
  }

  /** The bare GET route with a body that does not decode answers 400 and makes no Get. */
  method OidsMissingScenario(reply: Reply)
    requires reply.Answered? ==> OctetsAreBytes(reply.packet.variables)
  {
    var vars := map["snmp_version" := "v1", "target" := "10.0.0.1"];
    var resp, calls := GetHandler(vars, 12, FieldsRequest([], []), None, reply);
    assert resp == Plain(400, "oids missing") && calls == [Close];
  }

  /**
   * Fields ["7","8"] at indexes ["1","2"]: the loop as written would write
   * slot 4 of a four-slot slice.
   */
  lemma CrossProductScenarioOverruns()
    ensures !InBounds(|["7", "8"]|, |["1", "2"]|)
    ensures WritePos(1, 1, 2) == 2 * 2
  {
  }

  /** Four fields at two indexes: the loop as written stays in range but never fills the last slot. */
  lemma CrossProductScenarioGap()
    ensures InBounds(4, 2)
    ensures StrideResult("1.3", ["1", "2", "3", "4"], ["5", "6"])[7] == ""
    ensures StrideResult("1.3", ["1", "2", "3", "4"], ["5", "6"]) != CrossProduct("1.3", ["1", "2", "3", "4"], ["5", "6"])
  {
    AsWrittenLeavesLastSlot("1.3", ["1", "2", "3", "4"], ["5", "6"]);
  }

  /** The corrected loop gives the index-major list of the design for fields ["7","8"] at indexes ["1","2"]. */
  method CrossProductScenario()
  {
    var base := "1.3.6.1.2.1.2.2.1";
    var fields, indexes := ["7", "8"], ["1", "2"];
    var oids := CrossOids(base, fields, indexes);
    CrossProductAt(base, fields, indexes, 0, 0);
    CrossProductAt(base, fields, indexes, 0, 1);
    CrossProductAt(base, fields, indexes, 1, 0);
    CrossProductAt(base, fields, indexes, 1, 1);
    assert |oids| == 4;
    assert oids[0] == TableOid(base, "7", "1") == "1.3.6.1.2.1.2.2.1.7.1";
    assert oids[1] == TableOid(base, "8", "1") == "1.3.6.1.2.1.2.2.1.8.1";
    assert oids[2] == TableOid(base, "7", "2") == "1.3.6.1.2.1.2.2.1.7.2";
    assert oids[3] == TableOid(base, "8", "2") == "1.3.6.1.2.1.2.2.1.8.2";
  }

  /**
   * POST to a row OID `prefix.1` (for instance 1.3.6.1.2.1.17.4.3.1.1) at some index with
   * ["2","i",3]: createAndGo on column 1 first, then column 2 set to the Integer 3.
   */
  method CreateRowScenario(prefix: string, index: string)
  {
    RowSplitOf(prefix, "1");
    var pdus := CreateRowPdus(prefix + "." + "1", index, [SetValue("2", "i", Number(3.0))]);
    assert pdus[0] == Pdu(TableOid(prefix, "1", index), Integer, Int(4));
    assert Trunc(3.0) == 3;
    assert pdus[1] == Pdu(TableOid(prefix, "2", index), Integer, Int(3));
  }

  /** DELETE of a row whose status column answers NoSuchInstance: 404 and no Set. */
  method DeleteAbsentScenario(setReply: Reply)
  {
    var vars := map["row_oid" := "1.3.6.1.2.1.17.4.3.1.1", "index" := "5"];
    var getReply := Answered(Packet([Pdu("1.3.6.1.2.1.17.4.3.1.1.5", NoSuchInstance, Nil)], 0, 0));
    var resp, calls := DeleteHandler(vars, getReply, setReply);
    assert resp == Plain(404, "Entry does not exist");
    assert forall c :: c in calls ==> !c.Set?;
  }

  /** An unknown version label is refused before the community check and before any Connect. */
  method UnknownVersionScenario(g: Client, connectError: Option<string>)
    modifies g
  {
    var steps := AddSnmpContext(g, map["snmp_version" := "v3", "target" := "10.0.0.1"], "", connectError);
    assert steps == [Wrote(Plain(400, "Unknown SNMP version"))];
    assert Connect !in steps;
  }

  /** The tag "i" with the JSON number 4.0 gives the Integer 4. */
  lemma IntegerTagScenario()
    ensures ToSnmpPDU("1.3.6.1.2.1.1.7.0", "i", Number(4.0)) == Pdu("1.3.6.1.2.1.1.7.0", Integer, Int(4))
    ensures ToSnmpPDU("1.3.6.1.2.1.1.7.0", "q", Number(4.0)) == ZeroPdu
  {
    assert Trunc(4.0) == 4;
  }
}
