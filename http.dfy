/** What a handler writes to its http.ResponseWriter, and the router's path variables. */
module Http {
  import opened Snmp

  const StatusOK := 200
  const StatusBadRequest := 400
  const StatusNotFound := 404
  const StatusInternalServerError := 500
  const StatusBadGateway := 502

  /** One write to the response body. */
  datatype Chunk =
    | Text(s: string)                         // w.Write of a literal or an error message
    | SetErrorReport(error: nat, index: nat)  // "Set error: %v, Index: %v"
    | Json(variables: seq<Pdu>)               // the JSON encoding of a variable list

  /** The status the client sees (the first WriteHeader, else 200) and the body chunks in order. */
  datatype Response = Response(status: int, body: seq<Chunk>)

  function Plain(status: int, message: string): Response
  {
    Response(status, [Text(message)])
  }

  /** `mux.Vars(r)[key]`: the path variable, or "" when the route has none of that name. */
  function Var(vars: map<string, string>, key: string): string
  {
    if key in vars then vars[key] else ""
  }
}
