# Go command-line utilities, modelled in Dafny

This project models the decision logic of three small Go programs. It proves
what each one promises.

- **Windows message box** (`utils-windows-msgbox/main.go`). The program shows one
  `MessageBoxTimeoutW` dialog, with either OK or Yes/No buttons. In Yes/No mode it
  starts an executable when the answer is Yes, or when the dialog returns 5 (which
  the program takes for a timeout) and `-autoyes` is set. The model covers:
  - the button type, the caption and the 32-bit timeout in milliseconds;
  - the early stop when `-exe` is missing;
  - the launch decision;
  - every printed line.

  The dialog's return code is an input (`present`), and so is the result of
  `cmd.Start` (`start`).
- **DinoPass client** (`go-dinopass-api.go`). The model covers:
  - `buildURL`, including `url.Values.Encode` (sorted keys, query escaping) and
    `URL.String`;
  - the `strings.TrimSpace` step of `getPassword`;
  - the request loop of `main`: one request per password, stopping at the first
    error, with a sleep between successful requests and none after the last.

  What `getPassword` returns on request `i` is an input (`fetch`). Sleeps are
  recorded as events, not performed.
- **Frankfurter converter** (`go-frankfurter-api.go`). The model covers:
  - the `currencySymbols` table;
  - flag validation;
  - ASCII upper-casing of the codes;
  - the request URL and the rate lookup, including the "Currency not supported"
    error;
  - the choice between symbol, code and bare output;
  - the `-list` path.

  The decoded HTTP replies are inputs. So are the `%f` and `%.2f` formatters.

Modules:
- `Wrappers`: `Option`.
- `Text`: `TrimSpace` with Go's `unicode.IsSpace` set, ASCII `ToUpper` and `%d`.
- `Query`: `url.Values` and its `Encode`, with a `Split` used to read an encoding
  back.
- `MsgBox`, `DinoPass` and `Frankfurter`: one module per program.

The message-box program makes one blocking native call, which times out by
itself: there is no timer racing the dialog and no branch for a dialog that
fails to show. The program takes the code 5, its `IDTIMEOUT` constant, for a
timeout. The model takes the code the call returns as an input and applies the
program's comparison to it. Under "## Findings", a corrected variant compares with
32000 instead.

## Model

| member | source | states |
|---|---|---|
| MsgBox.DialogMillisValue | utils-windows-msgbox/main.go:76 | `uint32(timeout*1000)` on a 64-bit int equals seconds × 1000 modulo 2^32. It equals seconds × 1000 exactly when the timeout is between 0 and 4294967 seconds |
| MsgBox.AffirmativeMatchesTable | utils-windows-msgbox/main.go:79 | the launch condition `ret == IDYES \|\| (ret == IDTIMEOUT && autoYes)` agrees with the decision table: Yes proceeds, code 5 (taken for a timeout) proceeds only with auto-yes, every other code declines |
| MsgBox.DialogFor | utils-windows-msgbox/main.go:76-99 | the dialog carries the message and the caption "Go MsgBox", with button type 0x04 in Yes/No mode and 0x0 otherwise. Its timeout is seconds × 1000 modulo 2^32, which is exactly seconds × 1000 for 0 to 4294967 seconds |
| MsgBox.Execute | utils-windows-msgbox/main.go:57-101 | there is at most one dialog and at most one launch, and the first line echoes the message. The run stops with no dialog iff Yes/No mode has no exe. It launches exactly the exe path, iff Yes/No mode has an exe and the answer is affirmative. The OK outcome comes iff not in Yes/No mode. The success line is printed iff the outcome is Launched |
| MsgBox.MissingExeStopsEarly | utils-windows-msgbox/main.go:68-73 | Yes/No mode with an empty exe shows no dialog, launches nothing and prints only the prompt after the header |
| MsgBox.LaunchIff | utils-windows-msgbox/main.go:76-92 | with an exe, the exe is launched iff the code is IDYES (6), or the program's IDTIMEOUT (5) with auto-yes |
| MsgBox.OtherCodesDecline | utils-windows-msgbox/main.go:92-95 | a non-affirmative code ends Declined, with no launch and the "No clicked…" line |
| MsgBox.OkModeIgnoresExe | utils-windows-msgbox/main.go:96-101 | OK mode never launches and prints exactly the header and "OK message box closed.". The run does not depend on the exe path, auto-yes, the dialog's answer or the start routine |
| MsgBox.TimeoutNeverAutoYes | utils-windows-msgbox/main.go:65-79 | as written, a dialog that returns the timeout code 32000 with auto-yes set ends Declined with the "No clicked…" line and no launch |
| MsgBox.ExecuteIntended | utils-windows-msgbox/main.go:57-101 | with the launch test comparing against 32000, the exe is launched exactly when the code is 6, or 32000 with auto-yes. In the early stop and in OK mode the run is exactly the run of `Execute` |
| MsgBox.IntendedLaunchIff | utils-windows-msgbox/main.go:76-92 | with the corrected code, the exe is launched iff the code is 6, or 32000 with auto-yes, and such a timeout is never declined |
| MsgBox.IntendedAgrees | utils-windows-msgbox/main.go:79 | the correction changes nothing for any code other than 5 and 32000 |
| MsgBox.DialogArguments | utils-windows-msgbox/main.go:76-99 | whenever a dialog is shown, it is exactly one dialog with the mode's button type, the fixed caption and the converted timeout |
| MsgBox.StartResult | utils-windows-msgbox/main.go:80-91 | an affirmative answer prints three lines, the second "Yes clicked or auto-yes triggered, running executable: exe". A start error ends LaunchFailed with that error and "Failed to start executable: err", and no success line. A successful start ends Launched with "Executable started successfully.". There is exactly one launch either way |
| DinoPass.BoolText | go-dinopass-api.go:49-51 | the `%t` text of a flag needs no query escaping |
| DinoPass.BuildUrl | go-dinopass-api.go:15-55 | there is no error iff the complexity is exactly "simple" or "strong". An error gives the empty URL and "invalid complexity: c". Success gives a URL that extends the base |
| DinoPass.BaseExtended | go-dinopass-api.go:27-54 | a non-empty path after the base, with or without a query, keeps the base as a prefix |
| DinoPass.SimpleUrl | go-dinopass-api.go:26-28 | "simple" gives `https://www.dinopass.com/password/simple`, whatever the options |
| DinoPass.InvalidComplexity | go-dinopass-api.go:30-33 | any other complexity gives `("", "invalid complexity: c")` |
| DinoPass.StrongValuesContent | go-dinopass-api.go:41-51 | the strong query holds `length` iff 7 ≤ length ≤ 20, with its decimal digits. It holds the three flags, each with its `%t` text |
| DinoPass.KeysInOrder | go-dinopass-api.go:44-53 | `length` < `useCapitals` < `useNumbers` < `useSymbols` in byte order |
| DinoPass.SortedStrongKeys | go-dinopass-api.go:53 | `Encode` visits the strong keys in sorted order, not in the order they were set |
| DinoPass.StrongEncoding | go-dinopass-api.go:53 | the escaped pairs of the strong query are its plain `key=value` pairs |
| DinoPass.StrongUrlOf | go-dinopass-api.go:35-54 | the strong URL extends the base |
| DinoPass.JoinStrongPairs | go-dinopass-api.go:53 | the pairs joined by `&` give `length=N&` (only in range), then `useCapitals=B&useNumbers=B&useSymbols=B` |
| DinoPass.StrongUrl | go-dinopass-api.go:35-54 | the strong URL is the base, `strong?`, then that query text |
| DinoPass.StrongQuerySplits | go-dinopass-api.go:43-53 | cut at its `&`s, the encoded strong query gives back its pairs |
| DinoPass.FirstPairIsLength | go-dinopass-api.go:43-46 | the first pair is a `length=` pair iff the length is in range |
| DinoPass.LengthReadBack | go-dinopass-api.go:44-45 | the digits of the `length` pair read back as the length |
| DinoPass.GetPassword | go-dinopass-api.go:59-72 | the result is a body iff the response is. A body comes back as `TrimSpace` of itself: a slice with no white space at either end. An error passes through unchanged |
| DinoPass.PasswordTrimIdempotent | go-dinopass-api.go:72 | trimming the returned password again changes nothing |
| DinoPass.Generate | go-dinopass-api.go:103-116 | the loop produces exactly the reference `Session` of events |
| DinoPass.Program | go-dinopass-api.go:89-116 | a URL error prints only "Error: invalid complexity: c" and makes no request. Otherwise the run is the session for the built URL |
| DinoPass.StepCounts | go-dinopass-api.go:103-116 | each iteration makes one request and prints one line. It sleeps once only when it succeeded and is not the last |
| DinoPass.AllSucceedCounts | go-dinopass-api.go:103-116 | when every request succeeds, there are max(count, 0) requests and max(count − 1, 0) sleeps |
| DinoPass.AllSucceedLines | go-dinopass-api.go:110 | when every request succeeds, the lines are `[1] p1`, `[2] p2`, … up to `count` |
| DinoPass.StopsAtFirstError | go-dinopass-api.go:104-108 | the first failing request is the last event pair: its request, then "Error generating password" with its error |
| DinoPass.FirstErrorOutput | go-dinopass-api.go:104-108 | the text printed last by a failed session is "Error generating password: err" for the first failing request |
| DinoPass.AllSucceedOutput | go-dinopass-api.go:110 | when every request succeeds, printed line k reads "[k] " followed by the k-th password |
| DinoPass.LinesStep | go-dinopass-api.go:102-113 | a successful request contributes its numbered line in front of the lines of the later requests |
| DinoPass.RequestsUntilError | go-dinopass-api.go:103-108 | when request j is the first to fail, exactly j + 1 requests are made |
| DinoPass.PrintedPasswordsFrom | go-dinopass-api.go:104-110 | every printed password is what a request returned |
| DinoPass.PrintedPasswordsTrimmed | go-dinopass-api.go:72-110 | no printed password starts or ends with white space |
| DinoPass.SessionStartsWithRequest | go-dinopass-api.go:103-104 | an iteration starts with its request |
| DinoPass.SleepsBetweenRequests | go-dinopass-api.go:112-115 | a sleep is never first or last, and is always followed by a request |
| Text.TrimSpace | go-dinopass-api.go:72 | the result is a slice of the input. Only white space is cut, and the result has no white space at either end |
| Text.TrimSpaceFixesTrimmed | go-dinopass-api.go:72 | a string with no white space at either end is unchanged |
| Text.TrimSpaceIdempotent | go-dinopass-api.go:72 | trimming twice is trimming once |
| Text.TrimSpaceOfPadded | go-dinopass-api.go:72 | any white space around a trimmed non-empty text is removed exactly |
| Text.ToUpper | go-frankfurter-api.go:89-90 | the result has the same length and maps each ASCII lower-case letter to its capital, leaving every other character alone |
| Text.ToUpperFixedIff | go-frankfurter-api.go:89-90 | upper-casing leaves a code unchanged iff it has no lower-case ASCII letter |
| Text.ToUpperIdempotent | go-frankfurter-api.go:89-90 | upper-casing twice is upper-casing once |
| Text.Decimal | go-dinopass-api.go:45 | `%d` gives digits only, with no leading zero |
| Text.DecimalRoundTrip | go-dinopass-api.go:45 | reading the digits back gives the number |
| Text.DecimalInjective | go-dinopass-api.go:45 | distinct lengths give distinct texts |
| Query.SortedKeys | go-dinopass-api.go:53 | `Encode`'s key order holds every key once, strictly sorted by bytes |
| Query.SortedUnique | go-dinopass-api.go:53 | there is only one strictly sorted listing of a key set |
| Query.Set | go-dinopass-api.go:45-51 | `Values.Set` replaces the key's values with the one value and leaves other keys alone |
| Query.QueryEscape | go-dinopass-api.go:53 | escaped text holds only unreserved characters, `+` and `%` |
| Query.EscapeUnreservedIsIdentity | go-dinopass-api.go:53 | text with only unreserved characters is not changed by escaping |
| Query.EscapeIdentityOnlyIfUnreserved | go-dinopass-api.go:53 | and only such text is left unchanged |
| Query.SplitJoin | go-dinopass-api.go:53 | joining `&`-free pieces and cutting at `&` gives the pieces back |
| Query.EncodeSplits | go-dinopass-api.go:53 | cut at its `&`s, an encoding gives back its escaped pairs in key order |
| Frankfurter.Choose | go-frankfurter-api.go:120-132 | the display is symbol-prefixed iff `-symbol` is set and the code is in the table. It is number-then-code iff `-symbol` is set and the code is not. It is bare iff `-symbol` is unset. The value is always the rate |
| Frankfurter.Execute | go-frankfurter-api.go:73-132 | `-list` makes only the currencies request. It ends Listed with a decoded listing, and otherwise with "Request failed: err" or "Failed to decode response: err". The usage text comes, with no request, iff not listing and the input is invalid. A valid conversion makes exactly one request, to the latest-rates URL with the amount and the upper-cased codes. A listing, a result or "not supported" only follows the matching path |
| Frankfurter.ListingComplete | go-frankfurter-api.go:55-58 | visiting each code once, the listing prints a header, then one line `code - name` per currency |
| Frankfurter.ListSkipsConversion | go-frankfurter-api.go:73-76 | with `-list` the run does not depend on the amount, the codes, `-symbol`, the formatter or the conversion endpoint. It ends listed or failed |
| Frankfurter.ListedRun | go-frankfurter-api.go:40-58 | a decoded listing ends the `-list` run with exit 0, the "Supported currencies:" header and one `code - name` line per currency |
| Frankfurter.RejectedIff | go-frankfurter-api.go:79-86 | without `-list`, exactly the five usage lines and exit 1 come iff amount ≤ 0, or from is empty, or to is empty. In that case no request is made |
| Frankfurter.NonFiniteAmounts | go-frankfurter-api.go:79 | NaN and +Inf pass the `<= 0` check; −Inf does not |
| Frankfurter.CodesCaseInsensitive | go-frankfurter-api.go:88-96 | codes that differ only in ASCII case make the same run |
| Frankfurter.UpperCodesUnchanged | go-frankfurter-api.go:88-96 | codes with no lower-case letter go into the URL as given, and upper-casing either code again changes nothing |
| Frankfurter.ReplyFailure | go-frankfurter-api.go:98-111 | a request or decode failure ends with "Request failed: err" or "Failed to decode response: err" and exit 1, before any rate lookup |
| Frankfurter.MissingRateUnsupported | go-frankfurter-api.go:113-118 | an upper-cased target code missing from the rates gives "Currency not supported" and exit 1 |
| Frankfurter.SymbolLine | go-frankfurter-api.go:123-125 | with `-symbol` and a known code, the line is the symbol then the two-decimal rate |
| Frankfurter.CodeFallbackLine | go-frankfurter-api.go:126-128 | with `-symbol` and an unknown code, the line is the rate, a space and the code |
| Frankfurter.BareLine | go-frankfurter-api.go:130-131 | without `-symbol`, the line is the bare rate and the exit code is 0 |
| Frankfurter.SharedSymbols | go-frankfurter-api.go:22-36 | USD, CAD, AUD and NZD all show "$". SEK, NOK and DKK all show "kr" |
| Frankfurter.SymbolGroups | go-frankfurter-api.go:22-36 | within the table, "$" belongs only to USD, CAD, AUD and NZD, and "kr" only to SEK, NOK and DKK |

## Left out

- The Windows foreign call (`syscall.NewLazyDLL`, `MessageBoxTimeoutW`) and the UTF-16 conversion of the strings: the dialog's return code is an input.
- Spawning the process (`exec.Command`, `cmd.Start`): its error is an input.
- HTTP requests, `io.ReadAll` and JSON decoding: each exchange is an input, either the value it yields or its error.
- Number formatting (`%f` in the Frankfurter URL, `%.2f` in its output): both are parameters.
- The Frankfurter amount and rates: they are a value-or-NaN-or-infinity type with no 53-bit rounding.
- `time.Sleep` timing: sleeps are only recorded.
- Flag parsing, default values and `fmt.Println` plumbing.
- The order of the currency listing: it is an input, because Go's map iteration order is unspecified.
- The `url.Parse` error branch of `buildURL` (go-dinopass-api.go:36-39): it cannot fail for the constant base.
- Text.ToUpper: it upper-cases ASCII letters only. Go's `strings.ToUpper` also maps non-ASCII letters.
- Text.TrimSpace: it works on characters, so invalid UTF-8 bytes in a response body are not represented.
- MsgBox.DialogMillisValue: it assumes Go's `int` is 64 bits wide, as on 64-bit Windows builds.
- Frankfurter.Execute: it treats the output line and the exit status as the outcome. `os.Exit` itself is not modelled.

## Findings

| source | as written | input that shows it | evidently intended | confidence | as-written member | corrected member |
|---|---|---|---|---|---|---|
| utils-windows-msgbox/main.go:65 | `IDTIMEOUT = 5`, and line 79 launches on `ret == IDTIMEOUT && autoYes` | a Yes/No dialog with `-exe` and `-autoyes` that is left to time out: `MessageBoxTimeoutW` returns 32000 (`MB_TIMEDOUT`); 5 is `IDIGNORE` in WinUser.h | auto-yes fires on the timeout code 32000 | medium: rests on the Windows header values; not executed | MsgBox.TimeoutNeverAutoYes | MsgBox.IntendedLaunchIff |
