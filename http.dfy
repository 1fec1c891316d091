/** What the handlers answer with, and the error page both test apps render
    when a `Result` chain ends in a failure. */
module Http {

  import opened Results
  import opened Entity

  /** A `Set-Cookie`; `maxAge` is in seconds, as the `Max-Age` attribute of
      section 5.2.2 of RFC 6265 is. */
  datatype Cookie = Cookie(name: string, value: string, httpOnly: bool, maxAge: int, sameSite: string)

  /** The props of the `Error` page: the site title, then `errorProps`. */
  datatype ErrorPage = ErrorPage(siteTitle: string, status: int, title: string, message: string)

  datatype Response =
    | Redirect(location: string, cookie: Option<Cookie>)
    | AssertionPage(assertion: Assertion)
    | ErrorResponse(page: ErrorPage)

  const BugMessage: string := "Oh dear, a bug. See logs for details."

  /** A failure with a text message was meant for the user: 401 with the text.
      A failure carrying an exception is a bug: 500, and the exception stays in
      the log. */
  function ErrorPageFor(siteTitle: string, m: Message): ErrorPage
  {
    match m
    case Text(text) => ErrorPage(siteTitle, 401, "Not Authenticated", text)
    case Err(_) => ErrorPage(siteTitle, 500, "Internal Server Error", BugMessage)
  }

  /** The status tells the two kinds of failure apart, and a text failure is shown as it is. */
  lemma StatusTellsKind(siteTitle: string, m: Message)
    ensures ErrorPageFor(siteTitle, m).siteTitle == siteTitle
    ensures ErrorPageFor(siteTitle, m).status == 401 <==> m.Text?
    ensures ErrorPageFor(siteTitle, m).status == 500 <==> m.Err?
    ensures m.Text? ==> ErrorPageFor(siteTitle, m).message == m.text
  {
  }

  /** Nothing of an exception reaches the page: two exceptions render alike. */
  lemma ExceptionStaysInLog(siteTitle: string, e1: Error, e2: Error)
    ensures ErrorPageFor(siteTitle, Err(e1)) == ErrorPageFor(siteTitle, Err(e2))
    ensures ErrorPageFor(siteTitle, Err(e1)).message == BugMessage
  {
  }
}
