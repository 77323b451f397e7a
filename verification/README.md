# ai-over-email, modelled in Dafny

ai-over-email exposes a Gmail-style mailbox to an automated caller. A
line-oriented JSON-RPC server (`cmd/gmail`) offers four tools:

- list the most recent messages, or all of them;
- search;
- send one message;
- move messages to a `DELETED_BY_MCP` mailbox.

It also ships a standalone command (`main.go`) that prints the n most
recent messages of one mailbox as JSON. The tools rest on three packages:

- `fetch` reads "the most recent n messages" over IMAP;
- `send` composes a plain-text message and delivers it over SMTP;
- `internal/config` parses a `.env` file and lets selected environment
  variables override it.

This project models that core as pure functions over immutable datatypes:

- `wrappers.dfy`: `Option`, `Result` and `Outcome`. An error is its message.
- `text.dfy`: the Go `strings` operations the code relies on. These are
  TrimSpace (with the full `unicode.IsSpace` set), Trim with a cut set,
  TrimSuffix, Index, Split, Join and ReplaceAll.
- `config.dfy`: `parseEnv`, `Value` and `Load`. The env file is an
  `EnvFile` (missing, unreadable, or its text) and the environment is a map.
- `messages.dfy`: the records of a fetch reply, `formatAddressList`, and
  how a reply is turned into `Email` records.
- `ordering.dfy`: the newest-first sort and the cut to n.
- `fetch.dfy`: `fetch.Recent`. The IMAP server is an `ImapServer` that says
  how each call turns out. A run is the list of calls made plus the result.
- `send.dfy`: `buildMessage` and `send.Send`, against an abstract
  `SmtpRelay`. It also gives a second, step-list semantics of the SMTP
  conversation and proves the two equal.
- `dispatch.dfy`: the request loop of `cmd/gmail/main.go`, `handleToolCall`,
  the four tool handlers, and the advertised tool names. A line arrives
  already decoded, or marked as empty or garbled. Everything outside the
  process is a `World`: env file, environment, IMAP server, SMTP relay, and
  the three reader operations whose bodies are not part of this model.
- `standalone.dfy`: the top-level `main.go`. Its own copies of `parseEnv`,
  `formatAddressList` and the body of `fetch.Recent` are the same code, so
  the model reuses `Config.ParseEnv`, `Messages.FormatAddressList` and
  `Fetch.Session`. It proves where the command agrees with `fetch.Recent`
  and `config.Load` and where it differs.

Two details of the code shape the contracts. Results are sorted with
`sort.Slice` and `After`, which gives a non-increasing order and is not
stable, so the model promises a newest-first permutation and nothing about
how equal dates are ordered. And in the standalone command a failure after
connecting calls `os.Exit` before the deferred logout runs, so there only a
successful run logs out: see `Standalone.Read`.

## Model

| member | source | states |
|---|---|---|
| Text.IsSpace | fetch/fetch.go:96 | the characters `strings.TrimSpace` removes: the white space of `unicode.IsSpace` |
| Text.TrimBy | internal/config/config.go:68 | after trimming with a cut set, neither end of a non-empty result is in the set, and the result is no longer than the input |
| Text.TrimByKeeps | internal/config/config.go:64-68 | trimming only removes characters in the set, and only from the ends: the result is empty iff every character is in the set; every character outside the set survives; nothing is invented |
| Text.TrimLeftByDrops | internal/config/config.go:59 | what the left trim removes is a prefix made only of characters in the set, and the rest is kept as a suffix |
| Text.TrimRightByDrops | internal/config/config.go:59 | what the right trim removes is a suffix made only of characters in the set, and the rest is kept as a prefix |
| Text.TrimByPadded | internal/config/config.go:59-68 | runs of characters in the set around a middle whose ends are outside it are exactly what trimming removes, leaving the middle |
| Text.TrimByParts | internal/config/config.go:59-68 | every string is its trimmed middle between two runs of characters in the set |
| Text.TrimByUnchanged | internal/config/config.go:59 | a string whose two ends are outside the set is not changed by trimming |
| Text.TrimSpace | fetch/fetch.go:96 | a trimmed body neither starts nor ends with white space and is no longer than the input |
| Text.TrimSuffixChar | internal/config/config.go:66 | exactly one trailing comma is removed when present, and the string is otherwise unchanged |
| Text.IndexOf | internal/config/config.go:63 | -1 iff `=` does not occur; otherwise the position of its first occurrence, with no `=` before it |
| Text.Split | internal/config/config.go:57 | splitting at `\n` gives at least one piece, no piece holds a line feed, and joining the pieces with `\n` gives the content back |
| Text.SplitJoin | internal/config/config.go:57 | the converse: splitting a join of line-feed-free pieces gives the pieces back |
| Text.Join | send/send.go:90 | the pieces with the separator between each two, the piece alone when there is one, `""` when there are none |
| Text.JoinAppend | fetch/fetch.go:138 | joining two non-empty lists puts exactly one separator between their joins |
| Text.ReplaceChar | send/send.go:75-76 | replacing one character keeps the length and changes exactly the positions that held it |
| Config.CleanValue | internal/config/config.go:65-68 | a cleaned value has no quote character at either end |
| Config.CleanValueQuoted | internal/config/config.go:65-68 | a value in quotes, with white space around the quotes and optionally one trailing comma, cleans to exactly the text between the quotes |
| Config.CleanValueBare | internal/config/config.go:65-67 | an unquoted value with white space around it and optionally one trailing comma cleans to exactly the value |
| Config.CleanValueFixed | internal/config/config.go:65-68 | a value with no surrounding white space or quotes and no trailing comma is left unchanged by the cleaning steps |
| Config.ParseLine | internal/config/config.go:59-71 | a line that, once trimmed, is blank, starts with `#`, has no `=` or has only white space before its first `=` yields nothing; any binding it yields has a non-empty key without `=` or surrounding white space, and a value without surrounding quotes |
| Config.ParseLinePadded | internal/config/config.go:59-71 | white space around a well-formed key is trimmed away, and the value is the cleaning of all the text after the first `=` |
| Config.ParseLineQuoted | internal/config/config.go:59-71 | a padded line with a quoted value and optional trailing comma binds the trimmed key to exactly the text between the quotes |
| Config.KeyShape | internal/config/config.go:63-64 | the trimmed text before the first `=` is empty or a well-formed key |
| Config.SplitsAtFirstEquals | internal/config/config.go:59-65 | a line `key=value` whose ends are not white space is already trimmed, and its first `=` follows the key, so the key and value are split back apart |
| Config.ParseLineRoundTrip | internal/config/config.go:59-71 | parsing inverts writing: `key=value` parses back to that binding when the key is well formed and not a comment and the value is clean, even if the value holds `=` |
| Config.Apply | internal/config/config.go:58-73 | the loop over the lines: each binding is stored, replacing any earlier value of its key |
| Config.ApplyLastWins | internal/config/config.go:69-71 | a key is stored iff some line binds it, and its value comes from the last line that binds it |
| Config.ApplyShaped | internal/config/config.go:69-71 | storing only well-formed bindings yields a map whose keys are well formed and whose values are clean |
| Config.ParseLines | internal/config/config.go:57-58 | one parse result per line, in order, each well formed when present |
| Config.ParseEnv | internal/config/config.go:55-75 | every stored key is non-empty, holds no `=` and has no surrounding white space; every stored value has no surrounding quotes |
| Config.ParseLinesLastWins | internal/config/config.go:58-73 | over the parsed lines: a key is stored iff some line binds it, and its value comes from the last line that binds it |
| Config.ParseEnvLastWins | internal/config/config.go:55-75 | the same over the lines of the file: a later line with the same key overrides an earlier one |
| Config.Value | internal/config/config.go:48-53 | the stored value when it is non-empty, otherwise the fallback |
| Config.ValueMissingIsEmpty | internal/config/config.go:48-53 | a missing key and an empty value give the same answer, the fallback; a non-empty fallback always gives a non-empty value |
| Config.Overlay | internal/config/config.go:31-43 | after the environment loop a name is present iff the file had it or it is listed and set in the environment; a listed and set name takes the environment's value; nothing else changes |
| Config.LoadWith | internal/config/config.go:11-46 | fails iff a path is given and the file exists but cannot be read, with the error `failed to read env file: …`; otherwise the file's entries overlaid by the listed names' non-empty environment values; with no file, only set listed names are stored |
| Config.Load | internal/config/config.go:14-28 | a missing env file is not an error; only an unreadable one is, with the wrapped message |
| Config.LoadEntry | internal/config/config.go:21-43 | per name: stored iff in the file or one of the seven and set in the environment; the environment wins for those seven only; with no file only they are stored |
| Config.LoadWithSameEntry | internal/config/config.go:31-43 | two name lists that agree on a name load the same entry for it |
| Config.LoadWithUnlisted | internal/config/config.go:31-43 | a name outside the list keeps the file's entry whatever the environment holds |
| Messages.FullAddress | fetch/fetch.go:126-131 | `mailbox@host`, or the bare mailbox name when the host is empty |
| Messages.FormatAddress | fetch/fetch.go:132-136 | `Name <full>` when the personal name is present, otherwise the full address alone |
| Messages.AddressParts | fetch/fetch.go:121-137 | one rendered part per non-nil entry |
| Messages.FormatAddressList | fetch/fetch.go:120-139 | `""` when no entry is present, and a lone entry is rendered alone without separators |
| Messages.AddressPartsAppend | fetch/fetch.go:122-137 | the parts of a concatenation are the parts of each list in input order |
| Messages.FormatAddressListAppend | fetch/fetch.go:138 | input order is kept and entries are separated by exactly one `", "` |
| Messages.NilEntryIgnored | fetch/fetch.go:123-125 | a nil entry anywhere in the list changes nothing |
| Messages.ToEmail | fetch/fetch.go:92-106 | uid, date and subject are carried over unchanged, the sender is the rendered From list, and the body is trimmed (`""` when missing or unreadable) |
| Messages.Normalise | fetch/fetch.go:87-107 | entries without an envelope are dropped; every other entry becomes exactly its `Email`, and nothing else appears |
| Messages.NormaliseAppend | fetch/fetch.go:88-107 | normalisation works entry by entry, so reply order is kept |
| Ordering.Insert | fetch/fetch.go:109-111 | inserting into a newest-first list keeps it newest first and adds exactly that record |
| Ordering.SortByDate | fetch/fetch.go:109-111 | the sorted list is a permutation of the input with dates non-increasing |
| Ordering.NewestN | fetch/fetch.go:109-115 | the answer has `min(n, len)` records, newest first, all taken from the input, and no record left out is newer than one kept |
| Ordering.SplitSorted | fetch/fetch.go:113-115 | cutting a newest-first list keeps the head newest first, and what is cut off is exactly the tail, none of it newer than the head |
| Ordering.NewestNKeepsAllWhenShort | fetch/fetch.go:113-115 | when at most n records were fetched, all of them are returned |
| Fetch.ResolveMailbox | fetch/fetch.go:37-40 | an empty mailbox name becomes `INBOX`; any other name is used unchanged |
| Fetch.DialAddress | fetch/fetch.go:42-45 | the server as given when it contains `:`, otherwise with `:993` appended; either way the address names a port |
| Fetch.WindowStart | fetch/fetch.go:66-69 | for a count below 2^32 the window `start:total` lies inside the mailbox and holds exactly `min(n, total)` messages |
| Fetch.Session | fetch/fetch.go:53-117 | login comes first; a failed login is the only call and fails with `login failed: ` and the server's error; a failed select fails with `select mailbox failed: ` and its error; in a non-empty mailbox a failed fetch of the window fails with `fetch failed: ` and its error; any result is newest first and at most n long |
| Fetch.Connected | fetch/fetch.go:47-51 | dial comes first; a failed dial is the only call and fails with `failed to connect: ` and the dial's error; after a successful dial the result is the session's, and the run ends with a logout iff the dial succeeded |
| Fetch.Recent | fetch/fetch.go:30-118 | missing credentials and then a non-positive count fail before any call; otherwise the first call dials the resolved address, a connected session always logs out last, and any result is newest first and at most n long |
| Fetch.RecentFailures | fetch/fetch.go:47-60 | with the configuration complete and n > 0, a failed dial, login or select fails the read with `failed to connect: `, `login failed: ` or `select mailbox failed: ` in front of the server's error |
| Fetch.RecentFetchFails | fetch/fetch.go:82-85 | once the resolved mailbox is selected with a non-zero count, a failed fetch of the window fails the read with `fetch failed: ` in front of the server's error |
| Fetch.RecentSelectsResolvedMailbox | fetch/fetch.go:37-57 | after login the resolved mailbox is selected |
| Fetch.RecentEmptyMailbox | fetch/fetch.go:62-64 | an empty mailbox gives an empty list, not an error, and nothing is fetched |
| Fetch.RecentWindow | fetch/fetch.go:66-72 | the one fetch asks for `start:total` with `1 <= start <= total` and `total - start + 1 == min(n, total)` |
| Fetch.RecentResult | fetch/fetch.go:83-117 | a successful fetch yields its reply normalised, sorted newest first and cut to n |
| Fetch.AllKept | fetch/fetch.go:88-91 | when every message has an envelope, every one of them is kept |
| Fetch.RecentReadsWindow | fetch/fetch.go:66-83 | against a server that answers fetches faithfully, the messages read are the last `min(n, total)` of the mailbox |
| Fetch.RecentFromStore | fetch/fetch.go:62-117 | "most recent n" against a faithful mailbox of enveloped messages: `min(n, total)` records from the last `min(n, total)` messages, newest first, none left out newer than one returned |
| Send.Sanitise | send/send.go:75-76 | the safe subject has the same length, holds no CR or LF, and differs only where a CR or LF stood, which is now a space |
| Send.BuildMessage | send/send.go:74-91 | the header block, then an empty line, then the body, then a final CRLF; the message starts with `From: ` |
| Send.HeaderLines | send/send.go:78-84 | the six header lines, the subject sanitised |
| Send.HeaderLinesNoBreak | send/send.go:78-84 | six header lines, none holding a line break when sender and recipient hold none |
| Send.LineBreaks | send/send.go:90 | joining k break-free lines with CRLF gives exactly k - 1 CRs and k - 1 LFs |
| Send.HeaderBlockLines | send/send.go:75-88 | no header can be injected through the subject: the header block has exactly five CRLFs whatever the subject holds |
| Wrappers.OrElse | send/send.go:22-28 | an empty port becomes 587 and an empty sender becomes the user name; a value that is set is used unchanged |
| Send.Conversation | send/send.go:38-71 | after the dial: STARTTLS first iff offered, and a failed STARTTLS is the only call made |
| Send.Envelope | send/send.go:45-71 | AUTH comes first, with the server as host, and a failed AUTH is the only call made |
| Send.Transfer | send/send.go:57-71 | DATA comes first; the writer is closed, even after a failed write, iff DATA passed; the transfer succeeds iff DATA, the write, the close and QUIT all pass |
| Send.Send | send/send.go:18-72 | missing server or credentials fail before any call; otherwise the first call dials `server:port`, and the connection is closed last iff the dial succeeded |
| Send.SendSucceedsIffAllPass | send/send.go:18-71 | sending succeeds iff the configuration is accepted and every step passes, and then the full conversation is made with the built message |
| Send.SendStartTls | send/send.go:38-43 | STARTTLS is attempted, with the server as TLS name, iff the relay offers it; a failed STARTTLS ends the call before AUTH |
| Send.SendQuits | send/send.go:62-71 | QUIT is sent iff every earlier step passed, and its own outcome is then the result |
| Send.PerformStopsAtFirstFailure | send/send.go:45-69 | running steps in order makes a prefix of their calls; nothing fails iff every step passes; otherwise the failing step is the first that fails and its call is the last one made |
| Send.PerformAppend | send/send.go:45-69 | running two runs of steps back to back: the second is reached only when the first passes entirely |
| Send.TransferMatches | send/send.go:57-71 | the DATA/write/close/QUIT phase equals running its steps, with the writer closed after a failed write |
| Send.EnvelopeMatches | send/send.go:45-71 | the AUTH/MAIL/RCPT phase and the rest equal running their steps |
| Send.ConversationMatches | send/send.go:38-71 | the whole conversation after the dial equals running its steps |
| Send.SendMatchesReference | send/send.go:30-71 | the nested early returns of `Send` are exactly "run dial, STARTTLS when offered, AUTH, MAIL, RCPT, DATA, write, close, QUIT in order, stop at the first failure with its own error prefix, close the connection once dialled" |
| Dispatch.Route | cmd/gmail/main.go:205-216 | a routed tool is routed under its own name |
| Dispatch.RouteMatchesToolsList | cmd/gmail/main.go:104-216 | the four names `toolsList` advertises are exactly the names routed, and each tool is routed under its own name |
| Dispatch.Truncate | cmd/gmail/main.go:228 | `int(f)` truncates toward zero |
| Dispatch.ToUint32 | cmd/gmail/main.go:356 | a positive number below 2^32 converts to its truncation |
| Dispatch.HugeUidIsZero | cmd/gmail/main.go:356 | a number of 2^63 or more converts to uid 0, as on amd64 |
| Dispatch.IntArg | cmd/gmail/main.go:225-230 | a numeric argument truncated, or the default when absent or not a number |
| Dispatch.BoolArg | cmd/gmail/main.go:232-237 | a boolean argument, or the default when absent or not a boolean |
| Dispatch.StringArg | cmd/gmail/main.go:320-322 | a string argument; absent or non-string reads as `""` |
| Dispatch.MailboxArg | cmd/gmail/main.go:239-244 | `INBOX` unless a non-empty string is supplied |
| Dispatch.ValidUids | cmd/gmail/main.go:353-358 | one uid per positive numeric entry, every such entry contributes, and nothing else does |
| Dispatch.ValidUidsAppend | cmd/gmail/main.go:354-358 | the filter keeps input order |
| Dispatch.ValidUidsOfWholeNumbers | cmd/gmail/main.go:354-358 | whole positive uids that fit in 32 bits pass through unchanged, in order |
| Dispatch.FractionBecomesUidZero | cmd/gmail/main.go:355-356 | a fraction below one passes the `> 0` test and becomes uid 0 |
| Dispatch.ReaderConfig | cmd/gmail/main.go:246-251 | the reader settings are the loaded SERVER, USERNAME and PASSWORD with the chosen mailbox |
| Dispatch.SenderConfig | cmd/gmail/main.go:327-333 | SMTP server and port default to `smtp.gmail.com` and `587` and are never empty; user name and password come from the map; the sender defaults to empty |
| Dispatch.ListTool | cmd/gmail/main.go:219-269 | with `all` the whole mailbox is listed; otherwise `fetch.Recent` reads n messages (default 10) of the chosen mailbox; either way the tool answers the emails read or passes the error on unchanged |
| Dispatch.SearchTool | cmd/gmail/main.go:271-312 | an empty query is rejected with no call; otherwise one search with the limit (default 50) and the chosen mailbox, and the tool answers its emails or passes its error on unchanged |
| Dispatch.SendTool | cmd/gmail/main.go:314-340 | to, subject and body are all required; then one send with the defaulted configuration, and the tool succeeds iff the send does, passing its error on unchanged |
| Dispatch.DeleteTool | cmd/gmail/main.go:342-386 | a missing or empty `uids` array, and an array with no positive number, are rejected with no call; otherwise exactly the kept uids are moved, always to `DELETED_BY_MCP`, and the tool answers the move's count or passes its error on unchanged |
| Dispatch.RunTool | cmd/gmail/main.go:205-213 | a tool makes at most one external call, and fails when it makes none |
| Dispatch.HandleToolCall | cmd/gmail/main.go:199-223 | undecodable params give `invalid tool call params`; an unknown name gives `unknown tool: <name>`; a known tool whose configuration fails to load fails with the load error and makes no call |
| Dispatch.ListDefaults | cmd/gmail/main.go:225-258 | with no arguments the 10 most recent INBOX messages are read; without `all` the tool answers what `fetch.Recent` answers |
| Dispatch.ListAllIgnoresCount | cmd/gmail/main.go:254-258 | with `all` set, `n` makes no difference |
| Dispatch.HandleLine | cmd/gmail/main.go:60-100 | a line gets a response iff it is neither empty nor `initialized`; a garbled line gets -32700 `parse error` with no id; every other response echoes the request id; only `tools/call` performs external calls |
| Dispatch.FixedMethods | cmd/gmail/main.go:72-100 | `initialize` answers protocol version `2024-11-05`, `ping` an empty result, `tools/list` the four names, and any other method -32601 `method not found` |
| Dispatch.ToolCallAnswer | cmd/gmail/main.go:91-97 | a failed tool call is answered with -32000 and the error text unchanged; a successful one with the tool's result |
| Dispatch.Serve | cmd/gmail/main.go:60-101 | one response per answered line, never more than one per line |
| Dispatch.ServeAppend | cmd/gmail/main.go:60-101 | lines are handled independently and in order: serving two runs of lines is serving each and concatenating |
| Dispatch.ServeGarbled | cmd/gmail/main.go:66-70 | a garbled line adds exactly one parse-error response, in place |
| Standalone.LoadConfig | main.go:132-159 | a missing env file is not an error; only an unreadable one is, with the wrapped message |
| Standalone.StandaloneKeysStrictSubset | main.go:152-156 | the command's four environment names are a strict subset of the library's seven, which add exactly the three SMTP names |
| Standalone.LoadConfigAgreesWithLoad | main.go:132-159 | `loadConfig` and `config.Load` fail alike and agree on every name except the three SMTP ones, for which the command keeps the file's entry |
| Standalone.Main | main.go:28-52 | a non-positive count fails first with `-n must be positive`, before loading; a load failure makes no call; an empty SERVER, USERNAME or PASSWORD fails with `SERVER, USERNAME, and PASSWORD must be set in .env or environment` and makes no call; any result is newest first and at most n long |
| Standalone.Read | main.go:54-130 | the first call dials the resolved address; a failed dial is the only call and fails with `failed to connect: ` and its error; after a successful dial the result is that of the session, with its login, select and fetch errors; the run ends with a logout iff it succeeds, because a failure exits before the deferred logout |
| Standalone.MainMatchesRecent | main.go:54-129 | with valid settings and a named mailbox the command reads exactly what `fetch.Recent` reads: the same result, and the same calls except the logout skipped after a failure |
| Standalone.MainDiffersFromRecent | main.go:37-51 | the command checks the count before the credentials, with its own message, where `fetch.Recent` reports the credentials first |
| Standalone.ReadSelectsFlagAsGiven | main.go:69 | an empty mailbox flag is selected as the empty name, not INBOX |

## Left out

- IMAP and SMTP transports: dialling, TLS, login, select, fetch, logout, AUTH, MAIL, RCPT, DATA and QUIT are abstract outcomes chosen by an `ImapServer` or `SmtpRelay`. No protocol text is modelled.
- File system and process environment: `os.Getwd`, `filepath` path resolution and `os.ReadFile` become an `EnvFile` value. `os.Getenv` becomes a map in which a missing name reads as empty.
- JSON text: decoding a request line is not modelled, because a line arrives already decoded, empty or garbled. Encoding a response or a tool payload (`json.Marshal`, `writeResponse`, `bufio` buffering and flushing) is not modelled either; a payload stays a datatype. `json.Marshal` cannot fail on these types, so its error branches are not modelled.
- `fetch.ListAll`, `fetch.Search` and `fetch.MoveToMailbox`: their bodies are not part of this model. They are uninterpreted functions of the `World`, and only their arguments and the passing-on of their results and errors are stated.
- Tool schemas and descriptions in `toolsList`: only the four names are modelled. Of the `initialize` answer, only the protocol version and the server name and version are modelled.
- Dates: `time.Time` is an integer timestamp, and `After` is `>`.
- Dispatch.Truncate: float64 is held as an exact real. Decoding precision and the implementation-defined result of `int(f)` outside the 64-bit range are not modelled.
- Dispatch.ToUint32: out-of-range `uint32(f)` is implementation-defined in Go. The model follows amd64, which truncates to a signed 64-bit integer first: below 2^63 the truncated value is reduced mod 2^32, and from 2^63 on the answer is 0. Its contract speaks only of values below 2^32; `Dispatch.HugeUidIsZero` pins down one value above 2^63.
- Strings are sequences of Unicode characters, while Go strings are bytes. A body or header that is not valid UTF-8 is trimmed and indexed differently in Go: a lone Latin-1 byte 0xA0, say, is not white space to `strings.TrimSpace`, but the character U+00A0 is white space here.
- The request loop stops at the first input line longer than 64 KiB, which is the `bufio.Scanner` default limit, and at the first read error. `Dispatch.Serve` answers every line of its input and models neither stop.
- Fetch.WindowStart: the contract speaks only of counts below 2^32. For larger counts the body computes the source's 32-bit `uint32(n)` wrap and the contract says nothing. Go's 64-bit `int` overflow of the count is not modelled.
- Ordering.SortByDate: `sort.Slice` is not stable and its order among equal dates is unspecified. The model picks one such order, and the contracts promise only a newest-first permutation.
- The buffered channel of size n that carries fetched messages is not modelled: the reply is the whole sequence the server sends.
- Fetch.Recent: a huge count is not modelled as a crash. Once the mailbox is non-empty and before the fetch is sent, `make(chan *imap.Message, n)` (fetch/fetch.go:82, main.go:94) panics with "makechan: size out of range" for n of 2^45 or more on amd64, and can exhaust memory for smaller but still huge n. `Fetch.Recent`, `Standalone.Main` and the model's `Dispatch.HandleLine` answer instead. In the JSON-RPC server, `n = int(val)` (cmd/gmail/main.go:228) passes any positive number through unchecked, so a single `list_emails` call with `"n": 1e15` ends the process, and it writes no response. `Dispatch.Serve` goes on answering.
- A failed `io.ReadAll` of a body and a missing body are one case: `body == None` gives `""`.
- Standalone command plumbing: flag parsing (the flags are parameters), `-quiet`, printing to stderr, the exit status and `writeJSON` are not modelled. The printed JSON or message is the run's result.
- The `jsonrpc` field of a request is neither checked by the source nor modelled.
