/** The JSON reply helpers every handler ends with, and the single-value JSON body reader. */
module ServerResponse {
  import opened Wrappers

  const StatusOK := 200
  const StatusCreated := 201
  const StatusBadRequest := 400
  const StatusUnauthorized := 401
  const StatusNotFound := 404
  const StatusInternalServerError := 500

  /** The JSON objects the handlers write. */
  datatype Body =
    | ErrorBody(status: Option<string>, message: string)  // {"error": true, ["status": ...,] "message": ...}
    | MessageBody(message: string)                        // {"error": false, "message": ...}
    | CreatedBody(message: string, id: int)               // {"error": false, "message": ..., "id": ...}
    | PlainBody(message: string)                          // {"message": ...}
    | DataBody                                            // a stored record or list, echoed as it is

  datatype Reply = Reply(code: int, body: Body)

  predicate IsError(r: Reply) {
    r.body.ErrorBody?
  }

  /** 400 carrying the error's text as it is. */
  function BadRequest(err: string): (r: Reply)
    ensures r.code == StatusBadRequest && IsError(r)
    ensures r.body.status == None && r.body.message == err
  {
    Reply(StatusBadRequest, ErrorBody(None, err))
  }

  /** 404 with status "not_found"; an empty message falls back to a default, so the message is never empty. */
  function NotFound(message: string): (r: Reply)
    ensures r.code == StatusNotFound && IsError(r)
    ensures r.body.status == Some("not_found")
    ensures r.body.message != ""
    ensures message != "" ==> r.body.message == message
    ensures message == "" ==> r.body.message == "Resource not found"
  {
    Reply(StatusNotFound, ErrorBody(Some("not_found"), if message == "" then "Resource not found" else message))
  }

  /** 500 with status "server_error"; a nil error or one with empty text falls back to a default. */
  function ServerError(err: Option<string>): (r: Reply)
    ensures r.code == StatusInternalServerError && IsError(r)
    ensures r.body.status == Some("server_error")
    ensures r.body.message != ""
    ensures err.Some? && err.value != "" ==> r.body.message == err.value
    ensures err.None? || err.value == "" ==> r.body.message == "Internal server error"
  {
    var message := if err.Some? && err.value != "" then err.value else "Internal server error";
    Reply(StatusInternalServerError, ErrorBody(Some("server_error"), message))
  }

  /** 401 carrying the error's text as it is. */
  function Unauthorized(err: string): (r: Reply)
    ensures r.code == StatusUnauthorized && IsError(r)
    ensures r.body.status == None && r.body.message == err
  {
    Reply(StatusUnauthorized, ErrorBody(None, err))
  }

  type Header = map<string, seq<string>>

  /** The header map WriteJSON sends: the first caller-supplied map is copied in key by key (later maps
      are ignored), then Content-Type is forced to application/json. */
  function ResponseHeaders(current: Header, extra: seq<Header>): (h: Header)
    ensures "Content-Type" in h && h["Content-Type"] == ["application/json"]
    ensures |extra| > 0 ==> forall k :: k in extra[0] && k != "Content-Type" ==> k in h && h[k] == extra[0][k]
    ensures forall k :: k in current && k != "Content-Type" && (|extra| == 0 || k !in extra[0]) ==> k in h && h[k] == current[k]
    ensures forall k :: k in h ==> k == "Content-Type" || k in current || (|extra| > 0 && k in extra[0])
  {
    var merged := if |extra| > 0 then current + extra[0] else current;
    merged["Content-Type" := ["application/json"]]
  }

  const MaxBodyBytes := 1048576

  const TooLarge := "http: request body too large"
  const SingleValue := "body must only have a single JSON value"

  /** A request body as a JSON decoder sees it: `size` bytes holding the complete values `values`, in
      order, followed by either the end of input or text that is not JSON (`malformedTail`). A value
      of the wrong shape for the target type counts as malformed text. `firstEnd` is how many bytes
      the decoder must read before the first value is complete, or, when there is none, before the
      malformed text shows; for a body of white space only it is the size. */
  datatype JsonBody<T> = JsonBody(size: nat, values: seq<T>, malformedTail: bool, firstEnd: nat)

  /** ReadJSON: two Decode calls through a reader that fails the read passing 1 MiB. The first call
      returns as soon as its value is complete, so the limit only matters to it when the value, or the
      text that shows it malformed, ends beyond 1 MiB. The second call must meet the end of input; a
      second value, malformed text or the limit's error there all give the single-value error. */
  function ReadJSON<T>(body: JsonBody<T>): (r: Result<T, string>)
    ensures r.Ok? <==>
      body.size <= MaxBodyBytes && body.firstEnd <= MaxBodyBytes && |body.values| == 1 && !body.malformedTail
    ensures r.Ok? ==> r.value == body.values[0]
    ensures |body.values| > 0 && body.firstEnd <= MaxBodyBytes && (|body.values| > 1 || body.malformedTail || body.size > MaxBodyBytes)
      ==> r == Err(SingleValue)
    ensures (|body.values| > 0 || body.malformedTail) && body.firstEnd > MaxBodyBytes ==> r == Err(TooLarge)
    ensures |body.values| == 0 && !body.malformedTail ==> r.Err? && (r.error == TooLarge <==> body.size > MaxBodyBytes)
  {
    if |body.values| == 0 && !body.malformedTail then Err(if body.size > MaxBodyBytes then TooLarge else "EOF")
    else if body.firstEnd > MaxBodyBytes then Err(TooLarge)
    else if |body.values| == 0 then Err("invalid character in JSON input")
    else if |body.values| > 1 || body.malformedTail || body.size > MaxBodyBytes then Err(SingleValue)
    else Ok(body.values[0])
  }
}
