/** The errors the image adapter throws, with the exact messages it uses. */
module Errors {

  /** A thrown `Error` or the registry's `ApiKeyError`; both carry a message. */
  datatype ImageError = Error(message: string) | ApiKeyError(message: string)

  /** No image model is configured or active. */
  const NoModelMessage: string := "没有可用的图片模型"

  /** The model has no API key. */
  const MissingApiKeyMessage: string := "API Key 缺失，请在设置中配置 API Key"

  /** Thrown for HTTP status 400; it names unsafe prompt content and contains no digits. */
  const Http400Message: string := "提示词可能包含不安全或违规内容，未能处理。请修改后重试。"

  /** Thrown for HTTP status 500. */
  const Http500Message: string := "当前请求较多，暂时未能处理成功，请稍后重试。"

  /** Prefix of the message for any other failing HTTP status without a better description. */
  const HttpErrorPrefix: string := "HTTP 错误: "

  /** An event-stream response without a body. */
  const EmptyBodyMessage: string := "图片生成失败：响应体为空"

  /** An event stream that carried neither inline data nor an image link. */
  const NoImageInStreamMessage: string := "图片生成失败：未能从SSE响应中提取图片数据"

  /** A single-document response that is not JSON. */
  const InvalidJsonMessage: string := "图片生成失败：响应不是有效的JSON"

  /** A single-document response that carried neither inline data nor an image link. */
  const NoImageInDocumentMessage: string := "图片生成失败：未能从响应中提取图片数据"

  /** Prefix of the message for a failing status when downloading a linked image. */
  const DownloadFailedPrefix: string := "图片下载失败: HTTP "

  /** The downloaded image could not be read as a data URL. */
  const ConversionFailedMessage: string := "图片转Base64失败"
}
