/**
 * `fetchImageBlob` and `convertImageUrlToBase64`, for an image the provider
 * linked instead of inlining. The network is a parameter: `fetch` gives the
 * outcome of fetching a URL, `encode` stands for `encodeURIComponent`, and
 * `read` for a `FileReader` turning a blob into a data URL.
 */
module AssetFetch {
  import opened Base
  import opened Strings
  import opened Errors

  /** A fetch resolves with an ok response (its blob), resolves with a failing status,
      or rejects (a network error). */
  datatype FetchOutcome<B> = Fetched(blob: B) | NotOk(status: nat) | Threw(error: ImageError)

  /** The same-origin proxy route the browser falls back to. */
  const ProxyRoute: string := "/image-proxy?url="

  function ProxyUrl(origin: string, encodedUrl: string): (r: string)
    ensures HasPrefix(r, origin) && r[|origin|..] == ProxyRoute + encodedUrl
  {
    assert (origin + (ProxyRoute + encodedUrl))[|origin|..] == ProxyRoute + encodedUrl;
    origin + (ProxyRoute + encodedUrl)
  }

  /** The error the direct fetch leaves behind: its own rejection, or the download
      error naming the failing status. */
  function PrimaryError<B>(o: FetchOutcome<B>): ImageError
    requires !o.Fetched?
  {
    match o
    case NotOk(status) => StatusError(status)
    case Threw(e) => e
  }

  /** `图片下载失败: HTTP ${response.status}`. */
  function StatusError(status: nat): ImageError {
    Error(DownloadFailedPrefix + NatToString(status))
  }

  /** Whether the page has a usable origin (`window.location?.origin` is truthy). */
  predicate HasOrigin(origin: Option<string>) {
    origin.Some? && origin.value != ""
  }

  /** `fetchImageBlob(url)`: the direct fetch, and on any failure the proxy when the
      page has an origin. A proxy answering with a failing status rethrows the direct
      fetch's error; a proxy that rejects propagates its own error. */
  function FetchImageBlob<B>(url: string, origin: Option<string>, fetch: string -> FetchOutcome<B>,
                             encode: string -> string): (r: Result<B, ImageError>)
    ensures fetch(url).Fetched? ==> r == Ok(fetch(url).blob)
    ensures r.Ok? ==>
      fetch(url).Fetched?
      || (HasOrigin(origin) && fetch(ProxyUrl(origin.value, encode(url))) == Fetched(r.value))
    ensures r.Err? ==>
      !fetch(url).Fetched?
      && (r.error == PrimaryError(fetch(url))
          || (HasOrigin(origin) && fetch(ProxyUrl(origin.value, encode(url))) == Threw(r.error)))
    ensures r.Err? && HasOrigin(origin) ==> !fetch(ProxyUrl(origin.value, encode(url))).Fetched?
  {
    match fetch(url)
    case Fetched(b) => Ok(b)
    case _ =>
      if HasOrigin(origin) then
        match fetch(ProxyUrl(origin.value, encode(url)))
        case Fetched(b) => Ok(b)
        case NotOk(_) => Err(PrimaryError(fetch(url)))
        case Threw(e) => Err(e)
      else Err(PrimaryError(fetch(url)))
  }

  /** `convertImageUrlToBase64(url)`: the fetched blob read as a data URL; a reader
      error becomes the conversion error. A data URL is returned only from a blob that
      was obtained, and every error is the download's or the conversion's. */
  function ConvertImageUrlToBase64<B>(url: string, origin: Option<string>, fetch: string -> FetchOutcome<B>,
                                      encode: string -> string, read: B -> Option<string>): (r: Result<string, ImageError>)
    ensures r.Ok? <==>
      FetchImageBlob(url, origin, fetch, encode).Ok? && read(FetchImageBlob(url, origin, fetch, encode).value).Some?
    ensures r.Ok? ==> read(FetchImageBlob(url, origin, fetch, encode).value) == Some(r.value)
    ensures r.Err? ==>
      (FetchImageBlob(url, origin, fetch, encode).Err? && r.error == FetchImageBlob(url, origin, fetch, encode).error)
      || (FetchImageBlob(url, origin, fetch, encode).Ok? && r.error == Error(ConversionFailedMessage))
  {
    match FetchImageBlob(url, origin, fetch, encode)
    case Err(e) => Err(e)
    case Ok(blob) =>
      match read(blob)
      case Some(dataUrl) => Ok(dataUrl)
      case None => Err(Error(ConversionFailedMessage))
  }

  /** A blob is obtained exactly when the direct fetch or the proxy succeeds, and the
      proxy is consulted only when the direct fetch fails and there is an origin. */
  lemma FetchSucceedsIff<B>(url: string, origin: Option<string>, fetch: string -> FetchOutcome<B>,
                            encode: string -> string)
    ensures FetchImageBlob(url, origin, fetch, encode).Ok?
        <==> fetch(url).Fetched?
             || (HasOrigin(origin) && fetch(ProxyUrl(origin.value, encode(url))).Fetched?)
  {
  }

  /** Only the direct URL matters once it succeeds: two networks that agree on it give
      the same blob, whatever the proxy would have answered. */
  lemma ProxyUnusedAfterDirectSuccess<B>(url: string, origin: Option<string>, f1: string -> FetchOutcome<B>,
                                         f2: string -> FetchOutcome<B>, encode: string -> string)
    requires f1(url) == f2(url) && f1(url).Fetched?
    ensures FetchImageBlob(url, origin, f1, encode) == FetchImageBlob(url, origin, f2, encode)
  {
  }

  /** A direct 404 followed by a failing proxy reports the direct fetch's status. */
  lemma ProxyFailureReportsDirectStatus<B>(url: string, origin: string, fetch: string -> FetchOutcome<B>,
                                           encode: string -> string)
    requires origin != ""
    requires fetch(url) == NotOk(404)
    requires fetch(ProxyUrl(origin, encode(url))) == NotOk(502)
    ensures FetchImageBlob(url, Some(origin), fetch, encode) == Err(Error("图片下载失败: HTTP 404"))
  {
    assert NatToString(4) == "4";
    assert NatToString(40) == "40";
    assert NatToString(404) == "404";
    assert DownloadFailedPrefix + "404" == "图片下载失败: HTTP 404";
  }

  /** The failing status is named in the error, and can be read back from it. */
  lemma DownloadErrorNamesStatus(status: nat)
    ensures var m := StatusError(status).message;
      HasPrefix(m, DownloadFailedPrefix)
      && (forall k | |DownloadFailedPrefix| <= k < |m| :: '0' <= m[k] <= '9')
      && DigitsValue(m[|DownloadFailedPrefix|..]) == status
  {
    var m := StatusError(status).message;
    assert m[|DownloadFailedPrefix|..] == NatToString(status);
    NatToStringRoundTrip(status);
  }
}
