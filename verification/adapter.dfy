/**
 * The boundary to the REST service at `/clientes`. The model does not perform
 * requests: each handler returns the request it issues, and receives the result
 * of that request as an outcome argument.
 */
module Adapter {
  import opened Records

  /** A request to the customer resource; `id` is interpolated into the path. */
  datatype Request =
    | GetAll                                     // GET    /clientes
    | Post(body: Record)                         // POST   /clientes
    | Put(id: Option<Value>, body: Record)       // PUT    /clientes/{id}
    | Delete(id: Option<Value>)                  // DELETE /clientes/{id}

  /** What a create or update call comes back with: a success status whose body
      parsed as a record, a status outside the success range, or an exception
      (transport failure, or a body that did not parse). */
  datatype WriteOutcome = Saved(body: Record) | NotOk | WriteThrew

  /** A delete either returns, with any status, or throws. */
  datatype DeleteOutcome = Responded(ok: bool) | DeleteThrew

  /** A list read either returns a body, whatever its status, or throws. */
  datatype LoadOutcome = Loaded(body: seq<Record>) | LoadThrew
}
