/** `startProgram` as a pure function of the `--auth` option value and the
    content of `.auth.env` (None when the file does not exist). With a truthy
    `--auth` it returns the content to write and exits; otherwise it reads the
    token from the file or fails with one of two messages. */
module StartProgram {
  import opened Wrappers
  import opened JsString
  import opened TokenFile

  datatype StartResult =
    | WriteAndExit(content: string)  // write `.auth.env`, then exit with status 0
    | Token(token: string)           // the token to deploy with
    | Error(message: string)         // the message of the thrown Error

  const NotFoundMessage: string := "AUTH_TOKEN not found in .auth.env"
  const NotAuthenticatedMessage: string :=
    "You need authenticate to deploy, use --auth <token> (or --a <token>)"

  /** `startProgram()`: a truthy `--auth` value is written without looking
      at the cache file; an absent file is the "not authenticated" error. */
  function Start(auth: Option<string>, cache: Option<string>): (r: StartResult)
    ensures r.WriteAndExit? <==> Truthy(auth)
    ensures Truthy(auth) ==> r.content == Serialize(auth.value)
    ensures !Truthy(auth) && cache.None? ==> r == Error(NotAuthenticatedMessage)
    ensures r.Error? ==> r.message == NotFoundMessage || r.message == NotAuthenticatedMessage
  {
    if Truthy(auth) then WriteAndExit(Serialize(auth.value))
    else if cache.Some? then
      match ReadToken(cache.value)
      case Some(t) => Token(t)
      case None => Error(NotFoundMessage)
    else Error(NotAuthenticatedMessage)
  }

  /** Without a truthy `--auth`, the result for an existing file is decided by
      its lines: the token is the trimmed remainder of the first line that
      begins with `AUTH_TOKEN=`, and "not found" is reported when no line
      begins with it. */
  lemma {:induction false} StartReadsFirstKeyLine(auth: Option<string>, content: string)
    requires !Truthy(auth)
    ensures Start(auth, Some(content)) ==
      match FirstKeyLine(Lines(content))
      case Some(rest) => Token(Trim(rest))
      case None => Error(NotFoundMessage)
  {
    ReadTokenByLines(content);
  }

  /** A file without any line that begins with `AUTH_TOKEN=` never yields a
      token. */
  lemma {:induction false} NoKeyLineIsNotFound(auth: Option<string>, content: string)
    requires !Truthy(auth)
    requires forall i :: 0 <= i < |Lines(content)| ==> !(Key <= Lines(content)[i])
    ensures Start(auth, Some(content)) == Error(NotFoundMessage)
  {
    ReadTokenByLines(content);
  }

  /** Running with `--auth t` and then without it reads back the trimmed first
      line of `t`. */
  lemma WriteThenStart(t: string, cache: Option<string>)
    requires t != ""
    ensures Start(Some(t), cache).WriteAndExit?
    ensures Start(None, Some(Start(Some(t), cache).content)) == Token(Trim(RestOfLine(t)))
  {
    ReadSerialized(t);
  }

  /** Round trip through the program: a non-empty token with no line
      terminator and no surrounding white space is read back unchanged. */
  lemma WriteThenStartRoundTrip(t: string, cache: Option<string>)
    requires t != "" && NoLineTerminator(t) && IsTrimmed(t)
    ensures Start(None, Some(Start(Some(t), cache).content)) == Token(t)
  {
    RoundTrip(t);
  }

  /** A line `AUTH_TOKEN=` with nothing after it is the empty token, not an
      error; an empty `--auth ""` is falsy and also falls through to the
      file. */
  lemma EmptyTokenIsNotAnError()
    ensures Start(None, Some(Key)) == Token("")
    ensures Start(Some(""), Some(Key)) == Token("")
  {
    EmptyTokenLine();
  }
}
