/**
 * The raw `http.createServer` handler: the request URL alone decides the
 * status code, the `Content-Type` header and the body written back.
 */
module WebServer {

  datatype Response = Response(status: int, contentType: string, body: string)

  const WelcomeText := "Welcome you vanjus Kitchan"
  const ThanksText := "Thanks for ordering from us"
  const NotFoundText := "Not Found"

  /** The two URLs the server answers, with the text it answers them with. */
  const Routes: map<string, string> := map["/" := WelcomeText, "/thanks" := ThanksText]

  /** The request handler. URLs are compared with `===`: exact string
      equality, no normalisation of trailing slashes or query strings. */
  function HandleRequest(url: string): (r: Response)
    ensures r.contentType == "text/plain"
    ensures r.status == 200 || r.status == 404
    ensures r.status == 200 <==> url in Routes
    ensures r.status == 200 ==> r.body == Routes[url]
    ensures r.status == 404 ==> r.body == NotFoundText
  {
    if url == "/" then Response(200, "text/plain", WelcomeText)
    else if url == "/thanks" then Response(200, "text/plain", ThanksText)
    else Response(404, "text/plain", NotFoundText)
  }

  /** Matching is exact: a served URL followed by a trailing slash or a
      query string is not found. */
  lemma ExactMatchOnly(url: string, suffix: string)
    requires url in Routes
    requires suffix != [] && (suffix[0] == '/' || suffix[0] == '?')
    ensures HandleRequest(url + suffix) == Response(404, "text/plain", NotFoundText)
  {
    var u := url + suffix;
    assert u[|url|] == suffix[0];
    assert u != "/thanks" by {
      if url == "/" { assert u[1] != "/thanks"[1]; }
      else { assert |u| > |"/thanks"|; }
    }
  }
}
