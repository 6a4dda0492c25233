/**
 * The origin gate that wraps every route: a request reaches the inner service
 * only when the host it declares is exactly the one allow-listed origin.
 */
module AllowFigmaOnly {
  import opened Wrappers

  /** The only origin allowed through. */
  const FigmaOrigin: string := "https://www.figma.com"

  /** What `HeaderValue::to_str` accepts: visible ASCII and tab. */
  predicate VisibleAscii(c: char)
  {
    c == '\t' || (' ' <= c && c <= '~')
  }

  /** `HeaderValue::to_str`: the text when every character is visible ASCII, otherwise nothing. */
  function HeaderToStr(value: string): (r: Option<string>)
    ensures r.Some? <==> forall i :: 0 <= i < |value| ==> VisibleAscii(value[i])
    ensures r.Some? ==> r.value == value
  {
    if forall i :: 0 <= i < |value| ==> VisibleAscii(value[i]) then Some(value) else None
  }

  /** A request as the gate sees it: its Origin and Referer headers, and everything else. */
  datatype Request<Rest> = Request(origin: Option<string>, referer: Option<string>, rest: Rest)

  /** What the gate does: call the inner service with the request, or answer Forbidden itself. */
  datatype Outcome<Req> = CallInner(request: Req) | Denied(status: nat, message: string)

  /**
   * The host the gate judges: Origin when that header is present, Referer
   * only when Origin is absent. A present but unreadable header gives no
   * host; it does not fall through to Referer.
   */
  function RequestHost<Rest>(req: Request<Rest>): (r: Option<string>)
    ensures r.None? <==>
              (req.origin.None? && req.referer.None?)
              || (req.origin.Some? && HeaderToStr(req.origin.value).None?)
              || (req.origin.None? && req.referer.Some? && HeaderToStr(req.referer.value).None?)
    ensures r.Some? ==> r.value == (if req.origin.Some? then req.origin.value else req.referer.value)
  {
    if req.origin.Some? then HeaderToStr(req.origin.value)
    else if req.referer.Some? then HeaderToStr(req.referer.value)
    else None
  }

  /**
   * `AllowFigmaOnlyMiddleware::call`: forward the request unchanged when the
   * host equals the allow-listed origin as a whole string, otherwise answer
   * 403 Forbidden without calling the inner service.
   */
  function Call<Rest>(req: Request<Rest>): (r: Outcome<Request<Rest>>)
    ensures r.CallInner? ==> r.request == req
    ensures r.Denied? ==> r.status == 403 && r.message == "Forbidden"
  {
    var host := RequestHost(req);
    if host.Some? && host.value == FigmaOrigin then CallInner(req)
    else Denied(403, "Forbidden")
  }

  /** The admitted requests, stated on the raw headers. */
  predicate Admits<Rest>(req: Request<Rest>)
  {
    if req.origin.Some? then req.origin.value == FigmaOrigin else req.referer == Some(FigmaOrigin)
  }

  lemma FigmaOriginReadable()
    ensures HeaderToStr(FigmaOrigin) == Some(FigmaOrigin)
  {
    forall i | 0 <= i < |FigmaOrigin| ensures VisibleAscii(FigmaOrigin[i]) {
    }
  }

  /** The gate forwards exactly the requests `Admits` describes. */
  lemma CallAdmitsExactly<Rest>(req: Request<Rest>)
    ensures Call(req).CallInner? <==> Admits(req)
  {
    FigmaOriginReadable();
  }

  /** With neither header the request is always denied. */
  lemma NoHeadersDenied<Rest>(rest: Rest)
    ensures Call(Request(None, None, rest)) == Denied(403, "Forbidden")
  {
  }

  /** An allow-listed Origin is let through whatever the Referer says. */
  lemma FigmaOriginAllowed<Rest>(referer: Option<string>, rest: Rest)
    ensures Call(Request(Some(FigmaOrigin), referer, rest)) == CallInner(Request(Some(FigmaOrigin), referer, rest))
  {
    FigmaOriginReadable();
  }

  /** An Origin that is present but unreadable denies the request; Referer is not consulted. */
  lemma UnreadableOriginDenied<Rest>(origin: string, referer: Option<string>, rest: Rest)
    requires HeaderToStr(origin).None?
    ensures Call(Request(Some(origin), referer, rest)).Denied?
  {
  }

  /** A Referer naming a page on the allowed origin is not the origin itself, so it is denied. */
  lemma RefererWithPathDenied<Rest>(rest: Rest)
    ensures Call(Request(None, Some("https://www.figma.com/file/x"), rest)).Denied?
  {
    assert |"https://www.figma.com/file/x"| != |FigmaOrigin|;
  }
}
