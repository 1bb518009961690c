# palm-portal command-line client: decision logic

palm-portal is a command-line client that uploads a `.zip` archive to a
deployment server over a raw TCP socket. This project models the pure
decisions the client makes before the upload starts, and proves properties
about them:

- `codeToLog` (server-codes.js) turns a raw server message into three flags:
  `isAuthError`, `isAuthSuccess` and `isDeployCompleted`. Matching is exact
  equality against `incorrect-token`, `correct-token` and `deploy-completed`.
  A flag that is not set stays `undefined`. Module `ServerCodes` models it,
  with `Flag = Unset | Set` standing for `undefined | true`.
- The `.auth.env` token file (index.js). `--auth t` writes `AUTH_TOKEN=` + `t`.
  The reader runs the multiline regular expression `^AUTH_TOKEN=(.*)$` and
  trims the capture. Module `TokenFile` models the regular-expression search
  over positions, the way ECMAScript does it. It proves that search equal to a
  line-based reference reading: "the trimmed remainder of the first line that
  begins with `AUTH_TOKEN=`". It also proves the write/read round trip.
- `startProgram` (module `StartProgram`) is modelled as a function of two
  inputs: the `--auth` value and the `.auth.env` content (absent when the file
  does not exist). Its result is `WriteAndExit(content)`, `Token(t)` or
  `Error(message)`.
- `getFileNameToDeploy` (module `FilePick`) is modelled as a function of two
  inputs: the first command-line argument and the directory listing. The
  `inquirer` prompt is a nondeterministic choice among the `.zip` names.
- `setup` up to the call of `deploy` (module `Cli`) composes the two above.
  It also models the process exit codes before `deploy` is called: 0
  (index.js:57) and 1 (index.js:24, index.js:82).

JavaScript truthiness is modelled exactly (`JsString.Truthy`). An empty
`--auth ""` is falsy, so it falls through to reading the file. An empty file
argument is falsy too, so the directory is scanned. `trim` and the regular
expression use the ECMAScript character classes. WhiteSpace is TAB, VT, FF,
ZWNBSP and every Zs space. LineTerminator is LF, CR, U+2028 and U+2029.
Because of that, `\r\n` puts an empty line between its two characters.

index.js never imports `codeToLog`. `deploy` writes the token to the socket
and then streams the file, without waiting for any reply from the server.
`ServerCodes` therefore models the decoder on its own.

## Model

| member | source | states |
|---|---|---|
| ServerCodes.CodeToLog | server-codes.js:1-16 | The decoder is total: every string gets a three-flag record, and at most one flag is set. |
| ServerCodes.FlagSetIffWire | server-codes.js:3-13 | For every message and every code, that code's flag is set exactly when the message equals the code's literal. Matching is exact and case-sensitive. |
| ServerCodes.DecodeWire | server-codes.js:4-15 | `incorrect-token`, `correct-token` and `deploy-completed` each set their own flag and leave the other two undefined. |
| ServerCodes.UnknownSetsNothing | server-codes.js:3-15 | A message other than the three literals sets no flag, because the switch has no default case. |
| ServerCodes.NearMissesSetNothing | server-codes.js:3-13 | Case variants, a trailing newline or space, a leading space, the empty string and the concatenation `correct-tokendeploy-completed` set no flag. |
| ServerCodes.AtMostOneFlag | server-codes.js:2-15 | Mutual exclusion: if one message sets the flags of codes c and d, then c and d are the same code. |
| ServerCodes.WireInjective | server-codes.js:4-10 | The three case literals are pairwise distinct. |
| JsString.Truthy | index.js:17 | The `if (auth)` and `if (!fileName)` tests: an option value that is `undefined` or a string is truthy exactly when it is neither `undefined` nor the empty string. |
| JsString.EndsWith | index.js:19 | `s.endsWith(suffix)` holds exactly when `s` is some stem followed by `suffix`. |
| JsString.Trim | index.js:65 | `trim` returns an infix of its input that neither starts nor ends with white space or a line terminator. Everything it removes at either end is white space or a line terminator. |
| JsString.TrimFixedPoint | index.js:65 | `trim` leaves a string unchanged exactly when the string is empty or has a non-trimmable first and last character. |
| JsString.TrimIdempotent | index.js:65 | Trimming twice is the same as trimming once. |
| TokenFile.Serialize | index.js:56 | The written content is `AUTH_TOKEN=` followed by the token exactly as given: nothing is trimmed, escaped or appended. |
| TokenFile.LineLength | index.js:62 | `.*` stops at the first line terminator: nothing before the returned index is a terminator, and the character at it is one (or the input ends there). |
| TokenFile.RestOfLine | index.js:62 | The greedy `(.*)` captures the longest prefix without a line terminator: the capture is a prefix, contains no terminator, and is followed by a terminator unless the input ends. |
| TokenFile.SearchFrom | index.js:62 | The leftmost-match search from a position never returns a capture that contains a line terminator. |
| TokenFile.SearchNoneIff | index.js:62 | The leftmost-match search finds a capture exactly when some line start from the given position on begins with `AUTH_TOKEN=`. |
| TokenFile.SearchLeftmost | index.js:62 | When q is the first matching position, the search returns the rest of the line that follows the key at q. |
| TokenFile.Capture | index.js:62-64 | `match` returns null exactly when no line start of the content begins with `AUTH_TOKEN=`. A capture never contains a line terminator. |
| TokenFile.ReadToken | index.js:62-65 | There is no token exactly when no line start begins with `AUTH_TOKEN=`. A token is a single line with no white space or line terminator at either end. |
| TokenFile.Lines | index.js:62 | The reference split of the content at every line terminator gives at least one line, and no line contains a terminator. |
| TokenFile.FirstKeyLine | index.js:62 | The reference reading finds nothing exactly when no line begins with `AUTH_TOKEN=`. Otherwise it returns the remainder of a line that begins with it, and no earlier line does. |
| TokenFile.CaptureIsFirstKeyLine | index.js:62 | For all content, the regular-expression capture equals the remainder of the first line that begins with `AUTH_TOKEN=`. |
| TokenFile.ReadTokenByLines | index.js:62-65 | The token read is the trimmed remainder of the first line that begins with `AUTH_TOKEN=`. There is no token exactly when no line begins with it. |
| TokenFile.ReadSerialized | index.js:56-65 | Reading back the content `--auth t` wrote gives the trimmed first line of `t`, for every `t`. |
| TokenFile.RoundTrip | index.js:56-65 | A token with no line terminator and no surrounding white space is read back unchanged. |
| TokenFile.EmptyTokenLine | index.js:62-65 | The content `AUTH_TOKEN=` yields the empty token, not a failed match. |
| TokenFile.KeyMustStartLine | index.js:62 | Content that is one line and does not begin with `AUTH_TOKEN=` yields no token. This covers the key after a leading space and the key in the middle of a line. |
| StartProgram.Start | index.js:46-74 | A truthy `--auth` writes exactly `AUTH_TOKEN=` + value, whatever the cache file holds. Without it, an absent file gives the "You need authenticate" error. Only these two error messages occur. |
| StartProgram.StartReadsFirstKeyLine | index.js:60-68 | Without a truthy `--auth`, an existing file yields the token from its first `AUTH_TOKEN=` line. If no line begins with `AUTH_TOKEN=`, it yields "AUTH_TOKEN not found in .auth.env". |
| StartProgram.NoKeyLineIsNotFound | index.js:64-68 | Content with no line that begins with `AUTH_TOKEN=` gives the not-found error and never a token. |
| StartProgram.WriteThenStart | index.js:55-65 | A run with `--auth t` followed by a run without it yields the trimmed first line of `t`. |
| StartProgram.WriteThenStartRoundTrip | index.js:55-65 | Program-level round trip: a clean non-empty token is written and then read back unchanged. |
| StartProgram.EmptyTokenIsNotAnError | index.js:55-65 | A line `AUTH_TOKEN=` gives the empty token. An empty `--auth ""` is falsy and reads the file. |
| FilePick.IsZip | index.js:19 | A name qualifies exactly when it is some stem followed by `.zip`. The test is case-sensitive, and `.zip` itself qualifies. |
| FilePick.ZipFiles | index.js:18-20 | The filter result is a subsequence of the listing (order kept), and all its names end in `.zip`. Every `.zip` name of the listing occurs in it as often as in the listing, and no other name occurs. |
| FilePick.NoZipsMeansNoZipNames | index.js:18-22 | The filter result is empty exactly when no name in the listing ends in `.zip`. |
| FilePick.Decide | index.js:14-44 | A truthy argument is returned unchanged. A falsy one never is, and then the result depends on the `.zip` names: none → exit (exactly when no listing name ends in `.zip`); one → that name, taken from the listing; two or more → a prompt over exactly the filtered list. |
| FilePick.GetFileNameToDeploy | index.js:14-44 | A truthy argument is returned unchanged. With no `.zip` name the result is an exit with status 1 and the "No .zip files" message. A single `.zip` name is returned. With two or more, the result is one of the filtered names. Every name returned for a falsy argument is a `.zip` name from the listing. |
| FilePick.ArgumentIgnoresListing | index.js:15-17 | With a truthy argument, the decision is the same for every directory listing. |
| FilePick.EmptyArgumentScans | index.js:15-17 | An empty argument is treated like a missing one. |
| FilePick.FilterExample | index.js:18-20 | `b.ZIP` and `notes.txt` are dropped and `a.zip` is kept: the suffix test is case-sensitive. |
| Cli.Run | index.js:76-95 | Once option parsing has returned and before `deploy` is called, the process exits with status 0 exactly when `--auth` is truthy, after writing `AUTH_TOKEN=` + value; every other exit before `deploy` has status 1. An error from `startProgram` exits with its own message. With a token and a truthy argument, the plan deploys that argument with that token. Without the argument, it deploys exactly when some listing name ends in `.zip`, and otherwise exits with "No .zip files found in the current directory". A single `.zip` name is deployed as is. |

## Left out

- `deploy` (index.js:99-144). It is socket, file-stream and spinner I/O driven by events, with wall-clock timing and `toFixed` float formatting. The model stops at the `Deploy(fileName, token)` plan.
- set-env.js. It is home-directory cache plumbing, and index.js never uses it.
- The `figlet` banner, `commander` parsing and the `inquirer` prompt UI. These are foreign library calls. Option values arrive as parameters, and `commander`'s own exits inside `program.parse()` (index.js:49) are outside the model: `--help` exits with status 0 and a parse error with status 1, both before `if (auth)` is reached. The prompt is a choice among its choices. If `figlet` fails, index.js:86-89 returns: no file is picked, `deploy` is never called and the process ends with status 0. The model does not cover that path.
- Cli.Run: the exit status after `deploy` is called is not modelled, and `ExitCode` is None for a deploy plan. Nothing calls `process.exit` after index.js:95, and a socket error only logs (index.js:141-143). Such a run ends with status 0 when the event loop drains. It ends with status 1 when the read stream of index.js:102 emits its unhandled `error`, for example when the command line names a missing file: `Decide` returns a truthy argument without checking that the file exists. `fs.statSync` at index.js:114 can also throw inside the `readable` handler.
- Cli.Run: a failing `fs.writeFileSync` (index.js:56) throws inside the `try` of index.js:78-83, so it exits with status 1 even though `--auth` is truthy. The model assumes the write succeeds, so it never shows that exit.
- The `fs` calls. File existence and content are parameters (`Option<string>`), and the content to write is returned as a value. A read failure, such as `.auth.env` being a directory, would throw from `readFileSync`; it is not modelled. The order of `readdirSync` results is whatever the listing parameter gives.
- Text encoding. Strings are sequences of Unicode scalar values, while JavaScript strings are UTF-16 code units. Decoding `.auth.env` from UTF-8 is not modelled; a byte-order mark, if present, is kept as `U+FEFF`.
