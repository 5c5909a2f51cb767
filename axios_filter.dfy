/** The global filter for errors of the external metadata API: the HTTP status of the
    failed request decides which exception reaches the client. */
module AxiosFilter {
  import opened Common

  const UpstreamNotFound := Http(NotFound, "The requested resource was not found in the external API.")
  const UpstreamFailed := Http(InternalServerError, "An error occurred while accessing an external service.")

  /** catch: the exception the filter throws; it never returns normally. */
  function Catch(exception: AxiosError): (thrown: Exception)
    ensures thrown.Http?
    ensures thrown == UpstreamNotFound <==> exception.status == Some(404)
    ensures exception.status != Some(404) ==> thrown == UpstreamFailed
  {
    if exception.status == Some(404) then UpstreamNotFound else UpstreamFailed
  }

  /** A request without a response and every status other than 404 end the same way. */
  lemma OnlyNotFoundIsSpecial(status: int)
    requires status != 404
    ensures Catch(AxiosError(None)) == Catch(AxiosError(Some(status))) == UpstreamFailed
    ensures Catch(AxiosError(Some(404))).kind == NotFound
  {
  }
}
