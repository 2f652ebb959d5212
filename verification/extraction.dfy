/**
 * What parsing a response yields, shared by the single-document and the
 * event-stream strategies: an inline data URI, a linked image for the asset
 * fetcher, or the "no image data" error.
 */
module Extraction {
  import opened Base
  import opened Errors
  import opened Wire
  import Markdown

  datatype Extraction = Inline(dataUri: string) | Remote(url: string) | Failed(error: ImageError)

  /** The fallback both strategies take when no inline image was found: the first
      Markdown image link in the collected text, else the strategy's error. */
  function LinkOrFail(text: string, noImageMessage: string): (r: Extraction)
    ensures r.Remote? <==> Markdown.ExtractMarkdownImageUrl(text).Some?
    ensures r.Remote? ==> Markdown.ExtractMarkdownImageUrl(text) == Some(r.url)
    ensures r.Remote? ==> Markdown.IsLinkUrl(r.url)
    ensures r.Failed? ==> r.error == Error(noImageMessage)
    ensures !r.Inline?
  {
    match Markdown.ExtractMarkdownImageUrl(text)
    case Some(url) => Remote(url)
    case None => Failed(Error(noImageMessage))
  }
}
