/**
 * The wire contract between the editor extension and the backend: the JSON request and
 * response shapes of backend/app/schemas.py, how the backend reads a JSON request body
 * into them, and how `/complete` frames its streamed answer with the `[[END]]` sentinel.
 */
module BackendContract {
  import opened Wrappers

  /** The sentinel that ends a streamed completion. */
  const EndSentinel: string := "[[END]]"

  /** A JSON value as it appears in the request bodies. */
  datatype Json = JNull | JString(str: string) | JInt(num: int)

  /** A JSON object: its fields in the order `JSON.stringify` writes them. */
  type Payload = seq<(string, Json)>

  /** Answer of `/complete` and `/retry`: does the proof check, the candidate code, the log. */
  datatype CompletionResponse = CompletionResponse(ok: bool, code: string, log: string)

  /** Answer of `/validate`. */
  datatype ValidationResponse = ValidationResponse(ok: bool, log: string)

  /** Body of `/complete` as the backend reads it. The schema has no `max_tokens` field. */
  datatype CompletionRequest = CompletionRequest(fileText: string, cursorLine: int, cursorCol: int)

  /** Body of `/retry` as the backend reads it; `user_note` is optional and defaults to `None`. */
  datatype RetryRequest = RetryRequest(fileText: string, errorLog: string, userNote: Option<string>)

  /** The value of the first field named `key`, if any. */
  function Lookup(p: Payload, key: string): (r: Option<Json>)
    ensures r.Some? <==> exists i :: 0 <= i < |p| && p[i].0 == key
    ensures r.Some? ==> exists i :: 0 <= i < |p| && p[i] == (key, r.value)
  {
    if p == [] then None
    else if p[0].0 == key then Some(p[0].1)
    else
      var r := Lookup(p[1..], key);
      assert forall i :: 0 <= i < |p[1..]| ==> p[1..][i] == p[i + 1];
      r
  }

  /** Reads a `/complete` body: the three schema fields must be present with the right types; others are ignored. */
  function ParseCompletionRequest(p: Payload): Option<CompletionRequest> {
    match (Lookup(p, "file_text"), Lookup(p, "cursor_line"), Lookup(p, "cursor_col"))
    case (Some(JString(f)), Some(JInt(l)), Some(JInt(c))) => Some(CompletionRequest(f, l, c))
    case _ => None
  }

  /** Reads a `/retry` body: a missing or `null` `user_note` becomes `None`. */
  function ParseRetryRequest(p: Payload): Option<RetryRequest> {
    var note := match Lookup(p, "user_note")
      case None => Some(None)
      case Some(JNull) => Some(None)
      case Some(JString(n)) => Some(Some(n))
      case Some(JInt(_)) => None;
    match (Lookup(p, "file_text"), Lookup(p, "error_log"), note)
    case (Some(JString(f)), Some(JString(e)), Some(n)) => Some(RetryRequest(f, e, n))
    case _ => None
  }

  /** The two pieces the `/complete` handler yields: the suggestion, then a newline and the sentinel. */
  function StreamPieces(suggestion: string): seq<string> {
    [suggestion, "\n[[END]]"]
  }
}
