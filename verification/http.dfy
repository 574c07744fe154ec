/** What a route handler hands back: an HTTP status, the JSON body
    (`NextResponse.json`), and the table as the handler leaves it. */
module Http {
  import opened JsonValues
  import opened Store

  datatype Body =
    | ErrorMessage(message: string)      // { error: message }
    | SuccessFlag                        // { success: true }
    | Payload(value: Json)               // a JSON value passed through
    | Rewritten(rewritten: string)       // { rewritten }
    | ResumeEnvelope(resumes: Records)   // { resumes }
    | ResumeArray(list: Records)         // the bare array

  datatype Reply = Reply(status: int, body: Body, store: Records)

  const OK: int := 200
  const BAD_REQUEST: int := 400
  const UNAUTHORIZED: int := 401
  const NOT_FOUND: int := 404
  const SERVER_ERROR: int := 500
}
