/**
 * The request handlers of main.go. Each handler takes the decoded request
 * (path variables, body fields) and the replies the SNMP agent would give as
 * inputs, and returns the response it writes and the client calls it makes,
 * in order. The session's deferred Close is always the last call.
 */
module Handlers {
  import opened Wrappers
  import opened Snmp
  import opened Http
  import opened Helpers
  import opened Oids

  /** GetFieldsRequest: the decoded body of a fields-by-indexes Get (fields left empty when decoding fails). */
  datatype FieldsRequest = FieldsRequest(indexes: seq<string>, fields: seq<string>)

  /** One `[oid, type, value]` entry of SetEntryRequest, its first two elements asserted to be strings. */
  datatype SetValue = SetValue(name: string, tag: string, payload: Value)

  /** A call on the SNMP client session. */
  datatype Call = Get(oids: seq<string>) | Set(pdus: seq<Pdu>) | Close

  // RowStatus values of the SNMPv2 textual conventions (RFC 2579, section 2).
  const CreateAndGo := 4
  const Destroy := 6

  const PostMethod := "POST"

  /** Every entry passes the type assertions of ToSnmpPDU. */
  predicate ValuesFit(values: seq<SetValue>)
  {
    forall k :: 0 <= k < |values| ==> PayloadFits(values[k].tag, values[k].payload)
  }

  /** The JSON-encoded, sanitized variable list of a reply (the caller's slice is sanitized in place). */
  method EncodeSanitized(variables: seq<Pdu>) returns (body: Chunk)
    requires OctetsAreBytes(variables)
    ensures body == Json(Sanitized(variables))
  {
    var a := new Pdu[|variables|](i requires 0 <= i < |variables| => variables[i]);
    assert a[..] == variables;
    SanitizeResultVariables(a);
    body := Json(a[..]);
  }

  // ---------------------------------------------------------------- GetHandler

  /**
   * What GetHandler does once its OID list is resolved: an empty list is
   * answered 400 without a Get; otherwise one Get, then a 500 with the
   * error or the sanitized variables.
   */
  function GetOutcome(oids: seq<string>, reply: Reply): (Response, seq<Call>)
    requires reply.Answered? ==> OctetsAreBytes(reply.packet.variables)
  {
    if |oids| == 0 then (Plain(StatusBadRequest, "Nothing to get"), [Close])
    else if reply.Failed? then (Plain(StatusInternalServerError, reply.message), [Get(oids), Close])
    else (Response(StatusOK, [Json(Sanitized(reply.packet.variables))]), [Get(oids), Close])
  }

  /**
   * GetHandler. The route decides the OID list: `{oid}` with an empty body
   * gets that OID alone, `{oid}` with a body the fields-by-indexes loop as
   * written, `{base_oid}/{index}` the fields at that index, and the bare route
   * the body's OID list, a body that does not decode being answered 400.
   */
  method GetHandler(vars: map<string, string>, contentLength: int, fieldsBody: FieldsRequest,
                    oidsBody: Option<seq<string>>, reply: Reply)
    returns (resp: Response, calls: seq<Call>)
    requires "oid" in vars && contentLength != 0 ==> InBounds(|fieldsBody.fields|, |fieldsBody.indexes|)
    requires reply.Answered? ==> OctetsAreBytes(reply.packet.variables)
    ensures "oid" in vars && contentLength == 0 ==>
      (resp, calls) == GetOutcome([vars["oid"]], reply)
    ensures "oid" in vars && contentLength != 0 ==>
      (resp, calls) == GetOutcome(StrideResult(vars["oid"], fieldsBody.fields, fieldsBody.indexes), reply)
    ensures "oid" !in vars && "base_oid" in vars ==>
      (resp, calls) == GetOutcome(RowOids(vars["base_oid"], fieldsBody.fields, Var(vars, "index")), reply)
    ensures "oid" !in vars && "base_oid" !in vars && oidsBody.None? ==>
      resp == Plain(StatusBadRequest, "oids missing") && calls == [Close]
    ensures "oid" !in vars && "base_oid" !in vars && oidsBody.Some? ==>
      (resp, calls) == GetOutcome(oidsBody.value, reply)
    ensures |calls| >= 1 && calls[|calls| - 1] == Close
    ensures forall c :: c in calls && c.Get? ==> |c.oids| > 0
  {
    var oids: seq<string>;
    if "oid" in vars {
      var oid := vars["oid"];
      if contentLength == 0 {
        oids := [oid];
      } else {
        oids := CrossOidsAsWritten(oid, fieldsBody.fields, fieldsBody.indexes);
      }
    } else if "base_oid" in vars {
      var baseOid := vars["base_oid"];
      var index := Var(vars, "index");
      oids := FieldsAtIndex(baseOid, fieldsBody.fields, index);
      assert oids == RowOids(baseOid, fieldsBody.fields, index);
    } else {
      if oidsBody.None? {
        resp, calls := Plain(StatusBadRequest, "oids missing"), [Close];
        return;
      }
      oids := oidsBody.value;
    }

    if |oids| <= 0 {
      resp, calls := Plain(StatusBadRequest, "Nothing to get"), [Close];
      return;
    }

    calls := [Get(oids), Close];
    if reply.Failed? {
      resp := Plain(StatusInternalServerError, reply.message);
      return;
    }
    var body := EncodeSanitized(reply.packet.variables);
    resp := Response(StatusOK, [body]);
  }

  // ---------------------------------------------------------------- SetHandler

  /** The addressing modes of PUT and SET: the OID verbatim, `base.suffix`, or `base.field.index`. */
  function SetTarget(baseOid: string, index: string, name: string): string
  {
    if baseOid == "" then name
    else if index == "" then baseOid + "." + name
    else TableOid(baseOid, name, index)
  }

  /** The PDUs of a PUT or SET request, one per entry. */
  function SetRequest(baseOid: string, index: string, values: seq<SetValue>): seq<Pdu>
    requires ValuesFit(values)
  {
    seq(|values|, k requires 0 <= k < |values| =>
      ToSnmpPDU(SetTarget(baseOid, index, values[k].name), values[k].tag, values[k].payload))
  }

  /** The PDUs of a POST: the createAndGo row status first, then one PDU per entry in the row's table. */
  function CreateRowRequest(rowOid: string, index: string, values: seq<SetValue>): seq<Pdu>
    requires ValuesFit(values)
  {
    [ToSnmpPDU(TableOid(RowPrefix(rowOid), RowField(rowOid), index), "i", Number(CreateAndGo as real))]
    + seq(|values|, k requires 0 <= k < |values| =>
        ToSnmpPDU(TableOid(RowPrefix(rowOid), values[k].name, index), values[k].tag, values[k].payload))
  }

  /** The PUT/SET loops of SetHandler: one PDU per entry, addressed by the mode the path variables select. */
  method SetPdus(baseOid: string, index: string, values: seq<SetValue>) returns (pdus: seq<Pdu>)
    requires ValuesFit(values)
    ensures |pdus| == |values|
    ensures baseOid == "" ==> forall k :: 0 <= k < |values| ==>
      pdus[k] == ToSnmpPDU(values[k].name, values[k].tag, values[k].payload)
    ensures baseOid != "" && index == "" ==> forall k :: 0 <= k < |values| ==>
      pdus[k] == ToSnmpPDU(baseOid + "." + values[k].name, values[k].tag, values[k].payload)
    ensures baseOid != "" && index != "" ==> forall k :: 0 <= k < |values| ==>
      pdus[k] == ToSnmpPDU(TableOid(baseOid, values[k].name, index), values[k].tag, values[k].payload)
    ensures pdus == SetRequest(baseOid, index, values)
  {
    var a := new Pdu[|values|](_ => ZeroPdu);
    if baseOid == "" {
      for i := 0 to |values|
        invariant forall k :: 0 <= k < i ==> a[k] == ToSnmpPDU(values[k].name, values[k].tag, values[k].payload)
      {
        a[i] := ToSnmpPDU(values[i].name, values[i].tag, values[i].payload);
      }
    } else if index == "" {
      for i := 0 to |values|
        invariant forall k :: 0 <= k < i ==> a[k] == ToSnmpPDU(baseOid + "." + values[k].name, values[k].tag, values[k].payload)
      {
        a[i] := ToSnmpPDU(baseOid + "." + values[i].name, values[i].tag, values[i].payload);
      }
    } else {
      for i := 0 to |values|
        invariant forall k :: 0 <= k < i ==> a[k] == ToSnmpPDU(TableOid(baseOid, values[k].name, index), values[k].tag, values[k].payload)
      {
        a[i] := ToSnmpPDU(baseOid + "." + values[i].name + "." + index, values[i].tag, values[i].payload);
      }
    }
    pdus := a[..];
  }

  /**
   * The POST branch of SetHandler: the row OID is cut at its last '.', the
   * row-status PDU (Integer 4, createAndGo) goes first, and entry k becomes
   * PDU k+1 in the same table at the same index.
   */
  method CreateRowPdus(rowOid: string, index: string, values: seq<SetValue>) returns (pdus: seq<Pdu>)
    requires ValuesFit(values)
    ensures |pdus| == |values| + 1
    ensures pdus[0] == Pdu(TableOid(RowPrefix(rowOid), RowField(rowOid), index), Integer, Int(CreateAndGo))
    ensures '.' in rowOid ==> pdus[0].name == rowOid + "." + index
    ensures '.' !in rowOid ==> pdus[0].name == "." + rowOid + "." + index
    ensures forall k :: 0 <= k < |values| ==>
      pdus[k + 1] == ToSnmpPDU(TableOid(RowPrefix(rowOid), values[k].name, index), values[k].tag, values[k].payload)
    ensures pdus == CreateRowRequest(rowOid, index, values)
  {
    var a := new Pdu[|values| + 1](_ => ZeroPdu);
    var rowOidArr := Strings.Split(rowOid, '.');
    var rowFieldOid := rowOidArr[|rowOidArr| - 1];
    var baseOid := Strings.Join(rowOidArr[..|rowOidArr| - 1], '.');

    a[0] := ToSnmpPDU(baseOid + "." + rowFieldOid + "." + index, "i", Number(4.0));

    for i := 0 to |values|
      invariant a[0] == ToSnmpPDU(TableOid(baseOid, rowFieldOid, index), "i", Number(4.0))
      invariant forall k :: 0 <= k < i ==>
        a[k + 1] == ToSnmpPDU(TableOid(baseOid, values[k].name, index), values[k].tag, values[k].payload)
    {
      a[i + 1] := ToSnmpPDU(baseOid + "." + values[i].name + "." + index, values[i].tag, values[i].payload);
    }
    pdus := a[..];
    RowSplitRejoins(rowOid);
    assert Trunc(4.0) == 4;
  }

  /** How SetHandler answers the Set reply: a transport error or a non-zero ErrorIndex is a 500 without JSON. */
  function SetOutcome(reply: Reply): Response
    requires reply.Answered? && reply.packet.errorIndex == 0 ==> OctetsAreBytes(reply.packet.variables)
  {
    if reply.Failed? then Plain(StatusInternalServerError, reply.message)
    else if reply.packet.errorIndex != 0 then
      Response(StatusInternalServerError, [SetErrorReport(reply.packet.error, reply.packet.errorIndex)])
    else Response(StatusOK, [Json(Sanitized(reply.packet.variables))])
  }

  /**
   * SetHandler. POST creates a row; every other method writes through the
   * mode its path variables select. Set is called exactly once, even with no
   * entries.
   */
  method SetHandler(httpMethod: string, vars: map<string, string>, values: seq<SetValue>, reply: Reply)
    returns (resp: Response, calls: seq<Call>)
    requires ValuesFit(values)
    requires reply.Answered? && reply.packet.errorIndex == 0 ==> OctetsAreBytes(reply.packet.variables)
    ensures httpMethod == PostMethod ==>
      calls == [Set(CreateRowRequest(Var(vars, "row_oid"), Var(vars, "index"), values)), Close]
    ensures httpMethod != PostMethod ==>
      calls == [Set(SetRequest(Var(vars, "base_oid"), Var(vars, "index"), values)), Close]
    ensures resp == SetOutcome(reply)
    ensures reply.Answered? && reply.packet.errorIndex != 0 ==>
      resp.status == StatusInternalServerError && forall c :: c in resp.body ==> !c.Json?
  {
    var baseOid := Var(vars, "base_oid");
    var index := Var(vars, "index");

    var pdus: seq<Pdu>;
    if httpMethod == PostMethod {
      var rowOid := Var(vars, "row_oid");
      pdus := CreateRowPdus(rowOid, index, values);
    } else {
      pdus := SetPdus(baseOid, index, values);
    }

    calls := [Set(pdus), Close];
    if reply.Failed? {
      resp := Plain(StatusInternalServerError, reply.message);
      return;
    }
    if reply.packet.errorIndex != 0 {
      resp := Response(StatusInternalServerError, [SetErrorReport(reply.packet.error, reply.packet.errorIndex)]);
      return;
    }
    var body := EncodeSanitized(reply.packet.variables);
    resp := Response(StatusOK, [body]);
  }

  // ---------------------------------------------------------------- DeleteHandler

  /** The OID DeleteHandler reads and destroys: the row-status column at the index. */
  function DeleteOid(vars: map<string, string>): string
  {
    Var(vars, "row_oid") + "." + Var(vars, "index")
  }

  /**
   * How DeleteHandler answers its Set reply. A non-zero ErrorIndex sets the
   * status to 500 but, since the handler does not return there, the success
   * text is still written after the error report.
   */
  function DeleteOutcome(reply: Reply): Response
  {
    if reply.Failed? then Plain(StatusInternalServerError, reply.message)
    else if reply.packet.errorIndex != 0 then
      Response(StatusInternalServerError,
               [SetErrorReport(reply.packet.error, reply.packet.errorIndex), Text("Entry deleted successfully")])
    else Plain(StatusOK, "Entry deleted successfully")
  }

  /**
   * DeleteHandler: Get the row-status column; a first variable that is not an
   * Integer means the row is absent (404, no Set); otherwise Set it to 6
   * (destroy).
   */
  method DeleteHandler(vars: map<string, string>, getReply: Reply, setReply: Reply)
    returns (resp: Response, calls: seq<Call>)
    requires getReply.Answered? ==> |getReply.packet.variables| >= 1
    ensures getReply.Failed? ==>
      resp == Plain(StatusInternalServerError, getReply.message) && calls == [Get([DeleteOid(vars)]), Close]
    ensures getReply.Answered? && getReply.packet.variables[0].asnType != Integer ==>
      resp == Plain(StatusNotFound, "Entry does not exist") && calls == [Get([DeleteOid(vars)]), Close]
    ensures getReply.Answered? && getReply.packet.variables[0].asnType == Integer ==>
      && calls == [Get([DeleteOid(vars)]), Set([Pdu(DeleteOid(vars), Integer, Int(Destroy))]), Close]
      && resp == DeleteOutcome(setReply)
    ensures (exists c :: c in calls && c.Set?) <==>
      getReply.Answered? && getReply.packet.variables[0].asnType == Integer
  {
    var rowOid := Var(vars, "row_oid");
    var index := Var(vars, "index");
    var oid := rowOid + "." + index;

    var pdus := [Pdu(oid, Integer, Int(6))];

    calls := [Get([oid])];
    if getReply.Failed? {
      resp, calls := Plain(StatusInternalServerError, getReply.message), calls + [Close];
      return;
    }
    var gpdus := getReply.packet.variables;
    if gpdus[0].asnType != Integer {
      resp, calls := Plain(StatusNotFound, "Entry does not exist"), calls + [Close];
      return;
    }

    calls := calls + [Set(pdus)];
    assert calls[1].Set?;
    if setReply.Failed? {
      resp, calls := Plain(StatusInternalServerError, setReply.message), calls + [Close];
      return;
    }
    var body: seq<Chunk> := [];
    var status := StatusOK;
    if setReply.packet.errorIndex != 0 {
      status := StatusInternalServerError;
      body := body + [SetErrorReport(setReply.packet.error, setReply.packet.errorIndex)];
    }
    body := body + [Text("Entry deleted successfully")];
    resp, calls := Response(status, body), calls + [Close];
  }
}
