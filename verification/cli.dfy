/** `setup`: runs `startProgram`, turns a thrown error into an exit with
    status 1, and otherwise picks the file to deploy. The banner and the
    upload itself are not part of this model; the plan ends where `deploy`
    would be called. */
module Cli {
  import opened Wrappers
  import opened JsString
  import opened TokenFile
  import opened StartProgram
  import opened FilePick

  const ErrorExitCode: int := 1

  /** What one run of the program does. */
  datatype Plan =
    | WriteTokenFile(content: string)              // write `.auth.env`, exit with status 0
    | ExitWithError(code: int, message: string)    // print `message` on stderr, exit with `code`
    | Deploy(fileName: string, token: string)      // banner, then `deploy(fileName, token)`

  /** The status the process exits with when it exits before `deploy` is
      called; None when it goes on to deploy. */
  function ExitCode(p: Plan): Option<int> {
    match p
    case WriteTokenFile(_) => Some(0)
    case ExitWithError(code, _) => Some(code)
    case Deploy(_, _) => None
  }

  /** `setup()` up to the call of `deploy`. The `.auth.env` content, when the
      file exists, and the directory listing are parameters. */
  method Run(auth: Option<string>, cache: Option<string>, arg: Option<string>, listing: seq<string>)
    returns (plan: Plan)
    ensures ExitCode(plan) == Some(0) <==> Truthy(auth)
    ensures Truthy(auth) ==> plan == WriteTokenFile(Serialize(auth.value))
    ensures plan.ExitWithError? ==> plan.code == ErrorExitCode
    ensures plan.Deploy? ==> Start(auth, cache) == Token(plan.token)
    ensures plan.Deploy? && Truthy(arg) ==> plan.fileName == arg.value
    ensures plan.Deploy? && !Truthy(arg) ==> IsZip(plan.fileName) && plan.fileName in listing
    ensures !Truthy(auth) && cache.None? ==> plan == ExitWithError(ErrorExitCode, NotAuthenticatedMessage)
    // an error thrown by `startProgram` is printed as is
    ensures Start(auth, cache).Error? ==> plan == ExitWithError(ErrorExitCode, Start(auth, cache).message)
    // with a token, the file name decides between deploying and exiting
    ensures Start(auth, cache).Token? && Truthy(arg) ==> plan == Deploy(arg.value, Start(auth, cache).token)
    ensures Start(auth, cache).Token? && !Truthy(arg) ==>
      (plan.Deploy? <==> exists i :: 0 <= i < |listing| && IsZip(listing[i]))
    ensures Start(auth, cache).Token? && !Truthy(arg) && !plan.Deploy? ==> plan == ExitWithError(NoZipExitCode, NoZipMessage)
    ensures Start(auth, cache).Token? && !Truthy(arg) && |ZipFiles(listing)| == 1 ==>
      plan == Deploy(ZipFiles(listing)[0], Start(auth, cache).token)
  {
    match Start(auth, cache)
    case WriteAndExit(content) =>
      plan := WriteTokenFile(content);
    case Error(message) =>
      plan := ExitWithError(ErrorExitCode, message);
    case Token(token) =>
      var picked := GetFileNameToDeploy(arg, listing);
      match picked
      case File(name) =>
        plan := Deploy(name, token);
      case Exit(code, message) =>
        plan := ExitWithError(code, message);
  }
}
