/** HTTP status codes the handlers answer with, and Spring's multi-valued HttpHeaders. */
module Http {

  const OK := 200
  const CREATED := 201
  const NO_CONTENT := 204
  const PARTIAL_CONTENT := 206
  const BAD_REQUEST := 400
  const NOT_FOUND := 404
  const UNPROCESSABLE_ENTITY := 422

  /** HttpHeaders: every header name maps to the values added under it, in order. */
  type Headers = map<string, seq<string>>

  /** HttpHeaders.add: appends a value to the values already held under the name. */
  function Add(headers: Headers, name: string, value: string): (r: Headers)
    ensures r.Keys == headers.Keys + {name}
    ensures r[name] == (if name in headers then headers[name] else []) + [value]
    ensures forall n :: n in headers && n != name ==> r[n] == headers[n]
  {
    headers[name := (if name in headers then headers[name] else []) + [value]]
  }

  /** What a handler returns on success: the status it is annotated with and its body. */
  datatype Reply<B> = Reply(status: int, body: B)
}
