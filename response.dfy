/**
 * The `http.ResponseWriter` the dispatcher writes to, with net/http's rule
 * for the status line: the first `Write` fixes status 200 unless a status was
 * set before, and a `WriteHeader` after that has no effect.
 */
module Response {
  import opened Wrappers
  import opened Text

  const STATUS_OK: nat := 200

  /** The status once a write has happened. */
  function Commit(header: Option<nat>): (h: Option<nat>)
  {
    if header.None? then Some(STATUS_OK) else header
  }

  class ResponseWriter {
    /** The status code, once one is fixed. */
    var header: Option<nat>
    /** Everything written to the body so far. */
    var body: Bytes

    constructor ()
      ensures header == None && body == []
    {
      header := None;
      body := [];
    }

    method WriteHeader(code: nat)
      modifies this
      ensures header == if old(header).None? then Some(code) else old(header)
      ensures body == old(body)
    {
      if header.None? {
        header := Some(code);
      }
    }

    method Write(data: Bytes)
      modifies this
      ensures header == Commit(old(header))
      ensures body == old(body) + data
    {
      header := Commit(header);
      body := body + data;
    }

    /** The status the client receives: 200 when the handler never set one. */
    function Status(): nat
      reads this
    {
      if header.Some? then header.value else STATUS_OK
    }
  }
}
