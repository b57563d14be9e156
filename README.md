# rest-snmp: the request-to-SNMP translation layer in Dafny

rest-snmp is an HTTP front end for SNMP v1/v2c. This model covers the part of
it that turns a request into SNMP operations. That part has four pieces:

- OID composition: the handlers build dotted OIDs from path variables and body
  fields. The forms are a single OID, fields at one row index, a fields × indexes
  cross product, `base.suffix`, `base.field.index`, and row creation from a row
  OID cut at its last `.`.
- PDU coercion: `ToSnmpPDU` turns a wire type tag and a loosely typed value into
  a typed PDU.
- Session wrapper: `AddSnmpContext` resolves the SNMP version, checks the
  community string, configures the shared client, connects, and then runs the
  wrapped handler.
- Result sanitization: `SanitizeResultVariables` rewrites OctetString results
  from bytes to strings, in place.

Modules:

- `Snmp` holds the client library's values. ASN.1 BER type codes are a byte, as
  in gosnmp. `Value` is the Go `interface{}` payload: nil, a JSON number, an int,
  bytes or a string. It also has `Pdu`, `Packet` and the replies of Get and Set.
- `Http` holds the response a handler writes: a status plus the chunks written,
  in order. It also has the router's path-variable lookup.
- `Strings` holds Go's `strings.Split` and `strings.Join` for one separator, with
  their round trip.
- `Helpers` models helpers.go.
- `Oids` models the OID loops of main.go.
- `Handlers` models `GetHandler`, `SetHandler` and `DeleteHandler`.
- `Scenarios` replays worked requests through the contracts.

How the handlers are modelled:

- Each handler is a method. It takes the decoded request and the SNMP agent's
  replies as inputs.
- It returns the `Response` and the session calls it made, in order:
  `Get(oids)`, `Set(pdus)` and the deferred `Close`.
- OID and PDU slices are arrays. They are allocated at the size `make` gives them
  and filled by index in loops, as the source does.
- The sanitizer rewrites the caller's array in place.
- The wrapper assigns the fields of a `Client` object, which stands for the
  gosnmp.Default struct the source configures.

Modelling choices:

- JSON numbers are `real`. Go's `int(f)` truncates toward zero, and `Trunc`
  models that truncation explicitly.
- A Go string becomes a Dafny string with one character per byte. `string(b)`
  maps each byte to the character with the same code.
- The RowStatus values 4 (createAndGo) and 6 (destroy) are those of the RowStatus
  textual convention in RFC 2579, section 2.

Where the design and the code disagree, the model follows the code:

- **Cross product.** The design promises the index-major fields × indexes list.
  The loop writes row `i` from position `i*(|indexes|+1)`. It therefore yields
  that list only when there are no fields, at most one index, or exactly one more
  field than indexes; see the Findings table. Every write stays inside the slice
  only when there are no fields, at most one index, or at least one more field
  than indexes. Otherwise Go panics.
- **Unrecognised tags.** The design calls for an explicit "unsupported type"
  outcome. The code returns the zero PDU (empty name, type 0, nil value) and
  submits it in the Set.
- **Sanitizer idempotence.** The design calls the sanitizer idempotent. The code
  is not: after one pass every OctetString holds a string, so a second pass fails
  the byte-slice assertion. `SanitizeAgainIff` states exactly when a second pass
  is possible.
- **Leading separator.** The design says composition never produces a leading
  separator. Row creation with a row OID that has no `.` produces
  `"." + rowOid + "." + index`.
- **Delete with a non-zero ErrorIndex.** The handler writes status 500 and the
  error report, but it does not return. It then also writes "Entry deleted
  successfully".

## Model

| member | source | states |
|---|---|---|
| `Helpers.ToSnmpPDU` | helpers.go:12-48 | Each ASN.1 type arises from exactly its tags: i→Integer, u→Uinteger32, t→TimeTicks, a→IPAddress, o→ObjectIdentifier, s or x→OctetString, b→BitString. A recognised tag keeps the OID as the name. A numeric tag stores the truncated integer and any other tag keeps the payload. An unknown tag gives the zero PDU and drops the OID. Every result carries the payload shape its type calls for. |
| `Helpers.Trunc` | helpers.go:20-26 | `int(float64)` is the integer part, rounding toward zero: 0 ≤ x − n < 1 for x ≥ 0, and 0 ≤ n − x < 1 for x < 0. |
| `Helpers.TagTypeInjective` | helpers.go:17-38 | Two recognised tags that give the same ASN.1 type are equal, or are "s" and "x". |
| `Helpers.VersionOf` | helpers.go:59-68 | "v1" gives Version1. "v2" and "v2c" give Version2c. Every other label is rejected, and Version3 is never chosen. |
| `Helpers.AddSnmpContext` | helpers.go:51-90 | An unknown version answers 400 "Unknown SNMP version" and leaves the client untouched. An empty community then answers 400 "SNMP Community undefined" and leaves it untouched. Otherwise the client gets the request's target, community and version, and Connect follows. A Connect error answers 502 with its message. The wrapped handler runs exactly once, exactly when Connect succeeds. |
| `Helpers.BytesToString` | helpers.go:98 | `string(b)` has one character per byte, each with that byte's code. |
| `Helpers.BytesRoundTrip` | helpers.go:98 | Converting bytes to a string and back returns the same bytes. |
| `Helpers.SanitizeResultVariables` | helpers.go:94-102 | It requires every OctetString entry to hold bytes. It rewrites the caller's array in place to the sanitized list. |
| `Helpers.SanitizedEntries` | helpers.go:96-100 | Sanitizing keeps length, names and types. Entries that are not OctetStrings stay unchanged. An OctetString's value becomes the string of its bytes. |
| `Helpers.SanitizeLossless` | helpers.go:97-98 | Turning OctetString strings back into bytes recovers the original list. |
| `Helpers.SanitizeAgainIff` | helpers.go:97-98 | The sanitized list admits a second pass if and only if the list has no OctetString entry, so the sanitizer is not idempotent. |
| `Strings.Split` | main.go:170 | A split always has at least one piece. |
| `Strings.JoinSplit` | main.go:170-172 | Joining the pieces of a split with the same separator gives back the string. |
| `Strings.SplitManyIff` | main.go:170-171 | A split has two or more pieces if and only if the separator occurs in the string. |
| `Strings.SplitAppend` | main.go:170 | Splitting `a.b` gives the pieces of `a` followed by the pieces of `b`. |
| `Oids.TableOidSplits` | main.go:85 | `base.field.index` with dot-free field and index splits back into the pieces of base, then field, then index. |
| `Oids.CrossProductLength` | main.go:67 | The intended cross product has \|fields\|·\|indexes\| entries, the size `make` allocates. |
| `Oids.CrossProductAt` | main.go:67-72 | In the intended cross product, slot i·\|fields\|+j is `oid.fields[j].indexes[i]`, so it is index-major. |
| `Oids.StridePosInBounds` | main.go:70 | Under `InBounds`, the write position i·(\|indexes\|+1)+j lies inside the slice. |
| `Oids.InBoundsIff` | main.go:67-70 | Every write position of the loop lies inside the slice if and only if there are no fields, at most one index, or at least \|indexes\|+1 fields. |
| `Oids.CrossOidsAsWritten` | main.go:63-72 | The loop as written, under the in-bounds precondition, returns a slice of length \|fields\|·\|indexes\|. The slice is the zero-filled one after row i has been written from position i·(\|indexes\|+1). |
| `Oids.WriteRowAt` | main.go:69-71 | The inner loop over the fields writes field j at the index to slot start+j. After it, the slice is the old one with that row written from start, and nothing else changes. |
| `Oids.AsWrittenIsCrossProductIff` | main.go:67-72 | When the writes stay in bounds, the loop as written yields the index-major cross product if and only if there are no fields, at most one index, or exactly \|indexes\|+1 fields. |
| `Oids.AsWrittenLeavesLastSlot` | main.go:67-72 | With at least two indexes and at least \|indexes\|+2 fields, the last slot stays "", so the result is not the cross product. |
| `Oids.CrossOids` | main.go:67-72 | The loop with row offset i·\|fields\| returns exactly the index-major cross product. |
| `Oids.FieldsAtIndex` | main.go:81-86 | The result has one OID per field, in field order: `base.fields[i].index`. It equals the cross product over the single index. |
| `Oids.RowSplitRejoins` | main.go:169-175 | The row field has no `.`. Prefix "." field is the row OID when the row OID contains a `.`. Otherwise the prefix is "" and the field is the whole row OID. |
| `Oids.RowSplitOf` | main.go:169-172 | Cutting `prefix.field` with a dot-free field gives back that prefix and that field. |
| `Handlers.EncodeSanitized` | main.go:118-122 | The JSON body is the sanitized variable list, produced by sanitizing a copy of the reply in place. |
| `Handlers.GetHandler` | main.go:43-123 | The route decides the OID list: `{oid}` with no body gives exactly [oid]; `{oid}` with a body gives the cross-product loop as written; `{base_oid}/{index}` gives the fields at that index; the bare route gives the body's list. On the bare route a body that does not decode answers 400 "oids missing" with no Get. An empty list answers 400 "Nothing to get" with no Get. Otherwise there is exactly one Get with that list, answered 500 with the error or 200 with the sanitized variables. Get never receives an empty list. Close is always the last call. |
| `Handlers.SetPdus` | main.go:185-213 | One PDU per entry, in order. With no base the OID is used verbatim. With a base and no index it is `base.suffix`. Otherwise it is `base.field.index`. |
| `Handlers.CreateRowPdus` | main.go:167-183 | There are \|values\|+1 PDUs. The first is Integer 4 (createAndGo) at `prefix.last.index`. That is `rowOid.index` when the row OID contains a `.`, and `.rowOid.index` when it does not. PDU k+1 is entry k at `prefix.field.index`. |
| `Handlers.SetHandler` | main.go:151-236 | POST sends the row-creation PDUs and every other method sends the mode-selected PDUs, in one Set followed by Close. A transport error answers 500 with the message. A non-zero ErrorIndex answers 500 with the error and index and no JSON. Otherwise it answers 200 with the sanitized variables. |
| `Handlers.DeleteHandler` | main.go:239-293 | The handler gets `rowOid.index` first. A Get error answers 500. A first variable that is not an Integer answers 404 "Entry does not exist". Otherwise it sends exactly one Set, of Integer 6 (destroy) at that OID, and a Set happens if and only if the row exists. A non-zero ErrorIndex gives status 500 with the error report followed by "Entry deleted successfully". |
| `Scenarios.CrossProductScenarioOverruns` | main.go:67-70 | For fields ["7","8"] at indexes ["1","2"] the loop is out of bounds: it writes slot 4 of a 4-slot slice. |
| `Scenarios.CrossProductScenarioGap` | main.go:67-72 | For four fields at two indexes the loop stays in bounds, leaves slot 7 empty, and differs from the cross product. |
| `Scenarios.IntegerTagScenario` | helpers.go:18-20 | Tag "i" with 4.0 gives Integer 4. An unknown tag gives the zero PDU. |

## Findings

| source | as written | input that shows it | evidently intended | confidence | as-written member | corrected member |
|---|---|---|---|---|---|---|
| main.go:67-72 | the cross-product loop writes `oids[i*(numIndexes+1)+j]` | fields ["7","8"], indexes ["1","2"]: the loop writes slot 4 of a 4-slot slice and Go panics (`Scenarios.CrossProductScenarioOverruns`); fields ["1","2","3","4"], indexes ["5","6"]: slot 3 is overwritten and slot 7 stays "" (`Scenarios.CrossProductScenarioGap`) | `oids[i*len(fields)+j]`, the index-major cross product the design describes | high; not executed | `Oids.CrossOidsAsWritten`, with `Oids.AsWrittenIsCrossProductIff` | `Oids.CrossOids` |

`Handlers.GetHandler` models the handler as written, so it calls
`Oids.CrossOidsAsWritten`. `Oids.CrossOids` is the corrected loop, proved to
yield `Oids.CrossProduct`. By `Oids.AsWrittenIsCrossProductIff`, the two agree
exactly in the cases listed in that row.

## Left out

- HTTP server setup, route registration, negroni and graceful shutdown (main.go:295-363) are process plumbing. The route table (main.go:306-319) is used only to decide which path variables each handler sees. The model takes those variables as a map.
- `WalkHandler` (main.go:126-148) forwards `WalkAll` to the client and sanitizes the result. It adds nothing beyond `SanitizeResultVariables`, so it is not modelled.
- JSON decoding and encoding are not modelled. Decoded bodies are inputs. A fields body that fails to decode is whatever partial structure the decoder left. The OID-list body is `None` when decoding fails. A JSON chunk stands for the encoder's output.
- Response headers (Content-Type) and write-error logging are not modelled. `log.Printf` and `log.Println` are left out.
- gosnmp's `Connect`, `Get`, `Set`, `WalkAll` and `Conn.Close` are foreign network calls. Their results are inputs, and the handlers record the calls they make.
- The per-request mutation of the shared `gosnmp.Default` pointer (helpers.go:76-79) is a cross-request data race. Concurrency is out of scope, so the model configures one `Client` object per call.
- ToSnmpPDU: the type assertions `typeString.(string)`, `value.(float64)`, `value.([]byte)` and `value.(string)` panic on a wrong shape. The model states them as the precondition `PayloadFits`, and gives each Set entry the shape of three elements whose first two are strings. JSON decoding never yields a byte slice, so a request with tag "a" or "o" always fails that assertion. The model does not capture this, because it lets a byte-slice payload in.
- Trunc: float64 rounding, overflow, NaN and infinities are not modelled, because JSON numbers are exact reals here.
- Oids.CrossOidsAsWritten and GetHandler: an out-of-range write panics in Go. The model states this as the precondition `InBounds` rather than as an outcome.
- DeleteHandler: Go panics when the Get answers with no variables. The model requires at least one variable.
- SanitizeResultVariables: Go panics when an OctetString entry does not hold bytes. The model states this as a precondition.
- The `Error` and `ErrorIndex` fields of a packet are bytes in gosnmp. Here they are natural numbers, and the `%v` formatting of the report is kept abstract as one chunk.
