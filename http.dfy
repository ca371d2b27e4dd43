/**
 * What one `fetch` call yields to the services, and the status check they
 * make on it. The network is not part of the model: a service is given the
 * outcome of each request it makes.
 */
module Http {
  import opened Wrappers
  import opened Strings

  /**
   * A response with its status and its body read as a `B` (`None` when
   * `response.text()` or `response.json()` throws), or a thrown network error.
   */
  datatype Outcome<B> = Response(status: int, body: Option<B>) | NetworkError(message: string)

  /** `response.ok`: a status from 200 to 299. */
  predicate Ok(status: int) {
    200 <= status <= 299
  }

  /**
   * `if (!response.ok) throw new Error(`${service} API error: ${status}`)`:
   * an ok response goes through with its body, anything else is thrown with
   * its message.
   */
  function Checked<B>(service: string, o: Outcome<B>): (r: Result<Option<B>, string>)
    ensures r.Success? <==> o.Response? && Ok(o.status)
    ensures r.Success? ==> r.value == o.body
    ensures o.Response? && !Ok(o.status) ==> r.error == service + " API error: " + IntToString(o.status)
    ensures o.NetworkError? ==> r.error == o.message
  {
    match o
    case NetworkError(message) => Failure(message)
    case Response(status, body) =>
      if Ok(status) then Success(body) else Failure(service + " API error: " + IntToString(status))
  }

  /** The body a service goes on with after one checked request; `None` when its `try` block throws. */
  function Body<B>(service: string, o: Outcome<B>): (r: Option<B>)
    ensures r.Some? <==> o.Response? && Ok(o.status) && o.body.Some?
  {
    var c := Checked(service, o);
    if c.Success? && c.value.Some? then c.value else None
  }
}
