/** The line-oriented JSON-RPC server of `cmd/gmail/main.go`: one request per
    input line, at most one response per line, and four tools over the mail
    reader and sender.

    JSON text is not modelled: a line is already decoded into a `Request`
    (or is empty, or failed to decode), and a response is a `Response`
    value. Everything outside the process is a `World`: the env file and
    the environment `config.Load` reads, the IMAP server `fetch.Recent`
    talks to, the SMTP relay `send.Send` talks to, and the three reader
    operations whose bodies are not part of this model (`fetch.ListAll`,
    `fetch.Search`, `fetch.MoveToMailbox`), which stay uninterpreted.
 */
module Dispatch {
  import opened Wrappers
  import opened Config
  import opened Messages
  import Fetch
  import Send

  /** A decoded JSON value. A number is the float64 the decoder produced,
      held exactly as a real. */
  datatype Json =
    | JNull
    | JBool(b: bool)
    | JNumber(x: real)
    | JString(s: string)
    | JArray(items: seq<Json>)
    | JObject(fields: map<string, Json>)

  /** The `params` of a request as `toolCallParams`. `Undecodable` when they
      are absent or do not decode; a JSON `null` decodes to an empty name
      and no arguments. */
  datatype CallParams = Undecodable | ToolCall(name: string, arguments: map<string, Json>)

  /** A decoded request. The id is kept as the raw JSON text it was sent as,
      and is `None` when the request carries none. */
  datatype Request = Request(methodName: string, params: CallParams, id: Option<string>)

  /** One line of input. */
  datatype Line = EmptyLine | Garbled | Decoded(req: Request)

  /** The text content a successful tool call returns: the JSON of a list
      of emails, of `{"moved": …}`, or the word `sent`. */
  datatype ToolResult = EmailsText(emails: seq<Email>) | MovedText(moved: Json) | SentText

  datatype Payload =
    | Initialized(protocolVersion: string, serverName: string, serverVersion: string)
    | EmptyResult
    | ToolList(names: seq<string>)
    | ToolOutput(result: ToolResult)

  datatype Body = Ok(result: Payload) | Error(code: int, message: string)

  /** A response; `id` is omitted from the output when `None`. */
  datatype Response = Response(id: Option<string>, body: Body)

  /** The external operations a tool call performs, with their arguments. */
  datatype Effect =
    | RecentCall(n: int, cfg: Fetch.FetchConfig, session: Fetch.ImapRun)
    | ListAllCall(cfg: Fetch.FetchConfig)
    | SearchCall(query: string, limit: int, cfg: Fetch.FetchConfig)
    | MoveCall(uids: seq<uint32>, destination: string, cfg: Fetch.FetchConfig)
    | SendCall(to: string, subject: string, body: string, sender: Send.SendConfig, delivery: Send.SendRun)

  /** Everything outside the process, as seen while one line is handled. */
  datatype World = World(
    envFile: EnvFile,
    env: map<string, string>,
    mailServer: Fetch.ImapServer,
    relay: Send.SmtpRelay,
    listAll: Fetch.FetchConfig -> Result<seq<Email>>,
    search: (string, int, Fetch.FetchConfig) -> Result<seq<Email>>,
    move: (seq<uint32>, string, Fetch.FetchConfig) -> Result<Json>)

  datatype ToolRun = ToolRun(effects: seq<Effect>, result: Result<ToolResult>)

  const ParseError: int := -32700
  const MethodNotFound: int := -32601
  const ToolFailed: int := -32000
  const ProtocolVersion: string := "2024-11-05"
  const DeletedMailbox: string := "DELETED_BY_MCP"
  const EnvPath: string := ".env"

  // ---------------------------------------------------------------------
  // tool names and routing

  datatype Tool = ListEmails | SearchEmails | SendEmail | DeleteEmails

  function ToolName(t: Tool): string {
    match t
    case ListEmails => "list_emails"
    case SearchEmails => "search_emails"
    case SendEmail => "send_email"
    case DeleteEmails => "delete_emails"
  }

  /** The names `toolsList` advertises, in its order. */
  const ToolNames: seq<string> :=
    [ToolName(ListEmails), ToolName(SearchEmails), ToolName(SendEmail), ToolName(DeleteEmails)]

  /** The switch of `handleToolCall`. */
  function Route(name: string): (t: Option<Tool>)
    ensures t.Some? ==> ToolName(t.value) == name
  {
    if name == "list_emails" then Some(ListEmails)
    else if name == "search_emails" then Some(SearchEmails)
    else if name == "send_email" then Some(SendEmail)
    else if name == "delete_emails" then Some(DeleteEmails)
    else None
  }

  /** The advertised tools are exactly the routed ones, and each tool is
      routed under its own name. */
  lemma RouteMatchesToolsList(name: string, t: Tool)
    ensures Route(name).Some? <==> name in ToolNames
    ensures Route(ToolName(t)) == Some(t)
    ensures |ToolNames| == 4
  {
  }

  // ---------------------------------------------------------------------
  // argument extraction

  /** Go's `int(f)` for a float64: truncation toward zero. */
  function Truncate(x: real): (r: int)
    ensures x >= 0.0 ==> r as real <= x < r as real + 1.0
    ensures x < 0.0 ==> r as real - 1.0 < x <= r as real
  {
    if x >= 0.0 then x.Floor else -((-x).Floor)
  }

  /** `uint32(f)` for a positive float64 as amd64 computes it: the value is
      truncated to a signed 64-bit integer, which is 2^63 (the "integer
      indefinite" answer) when out of range, and the low 32 bits are kept. */
  function ToUint32(x: real): (u: uint32)
    requires x > 0.0
    ensures x < 4294967296.0 ==> u == Truncate(x)
  {
    var t := Truncate(x);
    if t < 0x8000_0000_0000_0000 then t % 0x1_0000_0000 else 0
  }

  /** From 2^63 on, the signed conversion overflows and the uid is 0. */
  lemma HugeUidIsZero(x: real)
    requires x >= 9223372036854775808.0
    ensures ToUint32(x) == 0
  {
  }

  /** A numeric argument, or the default when it is absent or not a number. */
  function IntArg(args: map<string, Json>, key: string, default: int): (r: int)
    ensures key in args && args[key].JNumber? ==> r == Truncate(args[key].x)
    ensures !(key in args && args[key].JNumber?) ==> r == default
  {
    if key in args && args[key].JNumber? then Truncate(args[key].x) else default
  }

  /** A boolean argument, or the default when it is absent or not a boolean. */
  function BoolArg(args: map<string, Json>, key: string, default: bool): (r: bool)
    ensures key in args && args[key].JBool? ==> r == args[key].b
    ensures !(key in args && args[key].JBool?) ==> r == default
  {
    if key in args && args[key].JBool? then args[key].b else default
  }

  /** A string argument; anything else, or nothing, reads as `""`. */
  function StringArg(args: map<string, Json>, key: string): (r: string)
    ensures key in args && args[key].JString? ==> r == args[key].s
    ensures !(key in args && args[key].JString?) ==> r == ""
  {
    if key in args && args[key].JString? then args[key].s else ""
  }

  /** The mailbox argument: `INBOX` unless a non-empty string is supplied. */
  function MailboxArg(args: map<string, Json>): (r: string)
    ensures r != ""
    ensures StringArg(args, "mailbox") != "" ==> r == StringArg(args, "mailbox")
    ensures StringArg(args, "mailbox") == "" ==> r == "INBOX"
  {
    if "mailbox" in args && args["mailbox"].JString? && args["mailbox"].s != "" then args["mailbox"].s else "INBOX"
  }

  /** An entry of `uids` that the delete tool keeps: a number above zero. */
  predicate PositiveNumber(j: Json) {
    j.JNumber? && j.x > 0.0
  }

  function PositiveCount(items: seq<Json>): nat
    decreases |items|
  {
    if items == [] then 0 else (if PositiveNumber(items[0]) then 1 else 0) + PositiveCount(items[1..])
  }

  /** The uid filter of the delete tool: every positive number, converted
      to 32 bits, in input order; everything else is skipped. */
  function ValidUids(items: seq<Json>): (uids: seq<uint32>)
    ensures |uids| == PositiveCount(items) <= |items|
    ensures forall i :: 0 <= i < |items| && PositiveNumber(items[i]) ==> ToUint32(items[i].x) in uids
    ensures forall u :: u in uids ==> exists i :: 0 <= i < |items| && PositiveNumber(items[i]) && u == ToUint32(items[i].x)
    decreases |items|
  {
    if items == [] then []
    else
      var rest := ValidUids(items[1..]);
      assert forall i :: 1 <= i < |items| ==> items[i] == items[1..][i - 1];
      if PositiveNumber(items[0]) then [ToUint32(items[0].x)] + rest else rest
  }

  /** The filter works entry by entry, so it keeps input order. */
  lemma {:induction false} ValidUidsAppend(a: seq<Json>, b: seq<Json>)
    ensures ValidUids(a + b) == ValidUids(a) + ValidUids(b)
    decreases |a|
  {
    if a == [] {
      assert a + b == b;
    } else {
      assert (a + b)[1..] == a[1..] + b;
      ValidUidsAppend(a[1..], b);
    }
  }

  /** Whole positive uids that fit in 32 bits pass through unchanged. */
  lemma {:induction false} ValidUidsOfWholeNumbers(uids: seq<uint32>)
    requires forall i :: 0 <= i < |uids| ==> uids[i] > 0
    ensures ValidUids(seq(|uids|, i requires 0 <= i < |uids| => JNumber(uids[i] as real))) == uids
    decreases |uids|
  {
    var items := seq(|uids|, i requires 0 <= i < |uids| => JNumber(uids[i] as real));
    if uids != [] {
      assert items[1..] == seq(|uids[1..]|, i requires 0 <= i < |uids[1..]| => JNumber(uids[1..][i] as real));
      ValidUidsOfWholeNumbers(uids[1..]);
      assert items[0] == JNumber(uids[0] as real) && PositiveNumber(items[0]);
      WholeUid(uids[0]);
      assert ValidUids(items) == [ToUint32(items[0].x)] + ValidUids(items[1..]);
      assert uids == [uids[0]] + uids[1..];
    }
  }

  lemma WholeUid(u: uint32)
    requires u > 0
    ensures ToUint32(u as real) == u
  {
    assert (u as real).Floor == u;
  }

  /** A fraction below one passes the `> 0` test and becomes uid 0. */
  lemma FractionBecomesUidZero()
    ensures ValidUids([JNumber(0.5)]) == [0]
  {
    assert Truncate(0.5) == 0;
  }

  // ---------------------------------------------------------------------
  // the four tools

  /** The reader configuration every IMAP tool builds from the loaded map. */
  function ReaderConfig(m: map<string, string>, mailbox: string): Fetch.FetchConfig {
    Fetch.FetchConfig(Lookup(m, "SERVER"), Lookup(m, "USERNAME"), Lookup(m, "PASSWORD"), mailbox)
  }

  /** The sender configuration of `send_email`: SMTP server and port fall
      back to Gmail's submission endpoint, the sender to nothing. */
  function SenderConfig(m: map<string, string>): (cfg: Send.SendConfig)
    ensures cfg.server == Value(m, "SMTP_SERVER", "smtp.gmail.com") && cfg.server != ""
    ensures cfg.port == Value(m, "SMTP_PORT", "587") && cfg.port != ""
    ensures cfg.username == Lookup(m, "USERNAME") && cfg.password == Lookup(m, "PASSWORD")
    ensures cfg.from == Value(m, "FROM_EMAIL", "")
  {
    Send.SendConfig(Value(m, "SMTP_SERVER", "smtp.gmail.com"), Value(m, "SMTP_PORT", "587"),
                    Lookup(m, "USERNAME"), Lookup(m, "PASSWORD"), Value(m, "FROM_EMAIL", ""))
  }

  /** A tool's answer to a call that yields emails: the call's error passed
      on unchanged, or its emails as the tool's text. */
  predicate PassesOnEmails(answer: Result<ToolResult>, call: Result<seq<Email>>) {
    && (answer.Success? <==> call.Success?)
    && (call.Success? ==> answer.value == EmailsText(call.value))
    && (call.Failure? ==> answer.error == call.error)
  }

  /** The same for the move call and its JSON count. */
  predicate PassesOnMoved(answer: Result<ToolResult>, call: Result<Json>) {
    && (answer.Success? <==> call.Success?)
    && (call.Success? ==> answer.value == MovedText(call.value))
    && (call.Failure? ==> answer.error == call.error)
  }

  /** `handleListEmails` after the configuration is loaded: `n` defaults to
      10, `all` to false; with `all` the whole mailbox is listed and `n`
      plays no part. */
  function ListTool(m: map<string, string>, args: map<string, Json>, w: World): (r: ToolRun)
    ensures var cfg := ReaderConfig(m, MailboxArg(args));
      && (BoolArg(args, "all", false) ==> r.effects == [ListAllCall(cfg)] && PassesOnEmails(r.result, w.listAll(cfg)))
      && (!BoolArg(args, "all", false) ==>
            var run := Fetch.Recent(IntArg(args, "n", 10), cfg, w.mailServer);
            r.effects == [RecentCall(IntArg(args, "n", 10), cfg, run)] && PassesOnEmails(r.result, run.result))
  {
    var n := IntArg(args, "n", 10);
    var cfg := ReaderConfig(m, MailboxArg(args));
    if BoolArg(args, "all", false) then
      ToolRun([ListAllCall(cfg)], match w.listAll(cfg) case Failure(e) => Failure(e) case Success(es) => Success(EmailsText(es)))
    else
      var run := Fetch.Recent(n, cfg, w.mailServer);
      ToolRun([RecentCall(n, cfg, run)], match run.result case Failure(e) => Failure(e) case Success(es) => Success(EmailsText(es)))
  }

  /** `handleSearchEmails` after loading: a non-empty query is required and
      the limit defaults to 50. */
  function SearchTool(m: map<string, string>, args: map<string, Json>, w: World): (r: ToolRun)
    ensures StringArg(args, "query") == "" <==> r.effects == []
    ensures StringArg(args, "query") == "" ==> r.result == Failure("query is required")
    ensures StringArg(args, "query") != "" ==>
      var query, limit, cfg := StringArg(args, "query"), IntArg(args, "limit", 50), ReaderConfig(m, MailboxArg(args));
      r.effects == [SearchCall(query, limit, cfg)] && PassesOnEmails(r.result, w.search(query, limit, cfg))
  {
    var query := StringArg(args, "query");
    if query == "" then ToolRun([], Failure("query is required"))
    else
      var limit := IntArg(args, "limit", 50);
      var cfg := ReaderConfig(m, MailboxArg(args));
      ToolRun([SearchCall(query, limit, cfg)],
              match w.search(query, limit, cfg) case Failure(e) => Failure(e) case Success(es) => Success(EmailsText(es)))
  }

  /** `handleSendEmail` after loading: to, subject and body are all
      required; then the message is sent exactly once with the defaulted
      sender configuration, and the tool succeeds iff the sender does. */
  function SendTool(m: map<string, string>, args: map<string, Json>, w: World): (r: ToolRun)
    ensures var to, subject, body := StringArg(args, "to"), StringArg(args, "subject"), StringArg(args, "body");
      && (to == "" || subject == "" || body == "" <==> r.effects == [])
      && (to == "" || subject == "" || body == "" ==> r.result == Failure("to, subject, and body are required"))
      && (to != "" && subject != "" && body != "" ==>
            var run := Send.Send(to, subject, body, SenderConfig(m), w.relay);
            && r.effects == [SendCall(to, subject, body, SenderConfig(m), run)]
            && (r.result.Success? <==> run.result.Pass?)
            && (r.result.Failure? ==> r.result.error == run.result.error))
  {
    var to, subject, body := StringArg(args, "to"), StringArg(args, "subject"), StringArg(args, "body");
    if to == "" || subject == "" || body == "" then ToolRun([], Failure("to, subject, and body are required"))
    else
      var cfg := SenderConfig(m);
      var run := Send.Send(to, subject, body, cfg, w.relay);
      ToolRun([SendCall(to, subject, body, cfg, run)],
              match run.result case Fail(e) => Failure(e) case Pass => Success(SentText))
  }

  /** A non-empty `uids` array. */
  predicate HasUids(args: map<string, Json>) {
    "uids" in args && args["uids"].JArray? && args["uids"].items != []
  }

  /** `handleDeleteEmails` after loading: a non-empty `uids` array holding at
      least one positive number is required; then exactly the kept uids, in
      order, are moved, and always to `DELETED_BY_MCP`. */
  function DeleteTool(m: map<string, string>, args: map<string, Json>, w: World): (r: ToolRun)
    ensures !HasUids(args) ==> r == ToolRun([], Failure("uids is required"))
    ensures HasUids(args) && PositiveCount(args["uids"].items) == 0 ==> r == ToolRun([], Failure("no valid uids provided"))
    ensures HasUids(args) && PositiveCount(args["uids"].items) > 0 ==>
      var uids, cfg := ValidUids(args["uids"].items), ReaderConfig(m, MailboxArg(args));
      r.effects == [MoveCall(uids, DeletedMailbox, cfg)] && PassesOnMoved(r.result, w.move(uids, DeletedMailbox, cfg))
  {
    if !HasUids(args) then ToolRun([], Failure("uids is required"))
    else
      var uids := ValidUids(args["uids"].items);
      if uids == [] then ToolRun([], Failure("no valid uids provided"))
      else
        var cfg := ReaderConfig(m, MailboxArg(args));
        ToolRun([MoveCall(uids, DeletedMailbox, cfg)],
                match w.move(uids, DeletedMailbox, cfg) case Failure(e) => Failure(e) case Success(moved) => Success(MovedText(moved)))
  }

  /** The handler a routed tool runs once the configuration is loaded. A
      tool makes at most one external call, and fails when it makes none. */
  function RunTool(tool: Tool, m: map<string, string>, args: map<string, Json>, w: World): (r: ToolRun)
    ensures |r.effects| <= 1
    ensures r.effects == [] ==> r.result.Failure?
  {
    match tool
    case ListEmails => ListTool(m, args, w)
    case SearchEmails => SearchTool(m, args, w)
    case SendEmail => SendTool(m, args, w)
    case DeleteEmails => DeleteTool(m, args, w)
  }

  /** Go's `handleToolCall`: undecodable params and unknown names are
      rejected; every tool loads the configuration first and fails with
      the load error, making no call, when that fails. */
  function HandleToolCall(params: CallParams, w: World): (r: ToolRun)
    ensures params.Undecodable? ==> r == ToolRun([], Failure("invalid tool call params"))
    ensures params.ToolCall? && Route(params.name).None? ==> r == ToolRun([], Failure("unknown tool: " + params.name))
    ensures params.ToolCall? && Route(params.name).Some? ==>
      match Load(EnvPath, w.envFile, w.env)
      case Failure(e) => r == ToolRun([], Failure(e))
      case Success(m) => r == RunTool(Route(params.name).value, m, params.arguments, w)
    ensures |r.effects| <= 1
  {
    match params
    case Undecodable => ToolRun([], Failure("invalid tool call params"))
    case ToolCall(name, args) =>
      match Route(name)
      case None => ToolRun([], Failure("unknown tool: " + name))
      case Some(tool) =>
        match Load(EnvPath, w.envFile, w.env)
        case Failure(e) => ToolRun([], Failure(e))
        case Success(m) => RunTool(tool, m, args, w)
  }

  /** `list_emails` with no arguments reads the 10 most recent messages of
      INBOX, and without `all` answers exactly what `fetch.Recent` answers. */
  lemma ListDefaults(m: map<string, string>, args: map<string, Json>, w: World)
    ensures var cfg := ReaderConfig(m, "INBOX");
      ListTool(m, map[], w).effects == [RecentCall(10, cfg, Fetch.Recent(10, cfg, w.mailServer))]
    ensures !BoolArg(args, "all", false) ==>
      var run := Fetch.Recent(IntArg(args, "n", 10), ReaderConfig(m, MailboxArg(args)), w.mailServer);
      var r := ListTool(m, args, w);
      && (r.result.Success? <==> run.result.Success?)
      && (r.result.Success? ==> r.result.value == EmailsText(run.result.value))
      && (r.result.Failure? ==> r.result.error == run.result.error)
  {
    assert MailboxArg(map[]) == "INBOX";
  }

  /** With `all` set, the count argument makes no difference. */
  lemma ListAllIgnoresCount(m: map<string, string>, args: map<string, Json>, w: World, n: Json)
    requires BoolArg(args, "all", false)
    ensures ListTool(m, args["n" := n], w) == ListTool(m, args, w)
  {
    assert MailboxArg(args["n" := n]) == MailboxArg(args);
    assert BoolArg(args["n" := n], "all", false);
  }

  // ---------------------------------------------------------------------
  // the request loop

  /** A line gets a response unless it is empty or the `initialized`
      notification. */
  predicate Answered(line: Line) {
    !line.EmptyLine? && !(line.Decoded? && line.req.methodName == "initialized")
  }

  datatype Reply = Reply(effects: seq<Effect>, response: Option<Response>)

  /** The body of the loop in `main` for one line. */
  function HandleLine(line: Line, w: World): (r: Reply)
    ensures r.response.Some? <==> Answered(line)
    ensures line.Garbled? ==> r.response == Some(Response(None, Error(ParseError, "parse error")))
    ensures line.Decoded? && r.response.Some? ==> r.response.value.id == line.req.id
    ensures r.effects != [] ==> line.Decoded? && line.req.methodName == "tools/call"
  {
    match line
    case EmptyLine => Reply([], None)
    case Garbled => Reply([], Some(Response(None, Error(ParseError, "parse error"))))
    case Decoded(req) =>
      var id := req.id;
      if req.methodName == "initialize" then Reply([], Some(Response(id, Ok(Initialized(ProtocolVersion, "gmail", "0.1.0")))))
      else if req.methodName == "initialized" then Reply([], None)
      else if req.methodName == "ping" then Reply([], Some(Response(id, Ok(EmptyResult))))
      else if req.methodName == "tools/list" then Reply([], Some(Response(id, Ok(ToolList(ToolNames)))))
      else if req.methodName == "tools/call" then
        var run := HandleToolCall(req.params, w);
        match run.result
        case Failure(e) => Reply(run.effects, Some(Response(id, Error(ToolFailed, e))))
        case Success(res) => Reply(run.effects, Some(Response(id, Ok(ToolOutput(res)))))
      else Reply([], Some(Response(id, Error(MethodNotFound, "method not found"))))
  }

  /** The answers to the fixed methods, and "method not found" for every
      method outside the five the loop knows. */
  lemma FixedMethods(req: Request, w: World)
    ensures req.methodName == "initialize" ==>
      HandleLine(Decoded(req), w).response == Some(Response(req.id, Ok(Initialized("2024-11-05", "gmail", "0.1.0"))))
    ensures req.methodName == "ping" ==> HandleLine(Decoded(req), w).response == Some(Response(req.id, Ok(EmptyResult)))
    ensures req.methodName == "tools/list" ==>
      HandleLine(Decoded(req), w).response == Some(Response(req.id, Ok(ToolList(ToolNames))))
    ensures req.methodName !in {"initialize", "initialized", "ping", "tools/list", "tools/call"} ==>
      HandleLine(Decoded(req), w) == Reply([], Some(Response(req.id, Error(-32601, "method not found"))))
  {
  }

  /** A tool call is answered with the tool's result, or with error -32000
      carrying the tool's error text unchanged. */
  lemma ToolCallAnswer(req: Request, w: World)
    requires req.methodName == "tools/call"
    ensures var run := HandleToolCall(req.params, w);
      var reply := HandleLine(Decoded(req), w);
      && reply.effects == run.effects
      && (run.result.Failure? ==> reply.response == Some(Response(req.id, Error(-32000, run.result.error))))
      && (run.result.Success? ==> reply.response == Some(Response(req.id, Ok(ToolOutput(run.result.value)))))
  {
  }

  /** One input line and the world it is handled in. */
  datatype Input = Input(line: Line, world: World)

  datatype Transcript = Transcript(effects: seq<Effect>, responses: seq<Response>)

  function AnsweredCount(inputs: seq<Input>): nat
    decreases |inputs|
  {
    if inputs == [] then 0 else (if Answered(inputs[0].line) then 1 else 0) + AnsweredCount(inputs[1..])
  }

  /** The whole loop: the lines are handled in order and the responses
      written in the same order. */
  function Serve(inputs: seq<Input>): (t: Transcript)
    ensures |t.responses| == AnsweredCount(inputs) <= |inputs|
    decreases |inputs|
  {
    if inputs == [] then Transcript([], [])
    else
      var first := HandleLine(inputs[0].line, inputs[0].world);
      var rest := Serve(inputs[1..]);
      Transcript(first.effects + rest.effects,
                 (if first.response.Some? then [first.response.value] else []) + rest.responses)
  }

  /** Lines are independent: serving two runs of lines one after the other
      is serving each and concatenating the output. */
  lemma ServeAppend(a: seq<Input>, b: seq<Input>)
    ensures Serve(a + b) == Transcript(Serve(a).effects + Serve(b).effects, Serve(a).responses + Serve(b).responses)
  {
    ServeIsFold(a + b);
    ServeIsFold(a);
    ServeIsFold(b);
    FoldAppend(HandleInput, a, b);
  }

  function HandleInput(x: Input): Reply {
    HandleLine(x.line, x.world)
  }

  /** The loop over lines for any per-line handler. */
  function Fold(handle: Input -> Reply, inputs: seq<Input>): Transcript
    decreases |inputs|
  {
    if inputs == [] then Transcript([], [])
    else
      var first := handle(inputs[0]);
      var rest := Fold(handle, inputs[1..]);
      Transcript(first.effects + rest.effects,
                 (if first.response.Some? then [first.response.value] else []) + rest.responses)
  }

  lemma {:induction false} ServeIsFold(inputs: seq<Input>)
    ensures Serve(inputs) == Fold(HandleInput, inputs)
    decreases |inputs|
  {
    if inputs != [] {
      ServeIsFold(inputs[1..]);
      assert HandleInput(inputs[0]) == HandleLine(inputs[0].line, inputs[0].world);
    }
  }

  lemma {:induction false} FoldAppend(handle: Input -> Reply, a: seq<Input>, b: seq<Input>)
    ensures Fold(handle, a + b) ==
      Transcript(Fold(handle, a).effects + Fold(handle, b).effects, Fold(handle, a).responses + Fold(handle, b).responses)
    decreases |a|
  {
    if a == [] {
      assert a + b == b;
    } else {
      assert (a + b)[0] == a[0] && (a + b)[1..] == a[1..] + b;
      FoldAppend(handle, a[1..], b);
      var first := handle(a[0]);
      var head := if first.response.Some? then [first.response.value] else [];
      var ra, rb := Fold(handle, a[1..]), Fold(handle, b);
      assert head + (ra.responses + rb.responses) == (head + ra.responses) + rb.responses;
      assert first.effects + (ra.effects + rb.effects) == (first.effects + ra.effects) + rb.effects;
    }
  }

  /** Every garbled line is answered with a parse error, in place. */
  lemma ServeGarbled(inputs: seq<Input>, w: World)
    ensures Serve(inputs + [Input(Garbled, w)]).responses ==
      Serve(inputs).responses + [Response(None, Error(ParseError, "parse error"))]
  {
    ServeAppend(inputs, [Input(Garbled, w)]);
    assert [Input(Garbled, w)][1..] == [];
  }
}
