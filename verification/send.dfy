/** `send.Send` and `send.buildMessage`: composing one plain-text message and
    delivering it over an SMTP conversation.

    The relay is abstract: an `SmtpRelay` says how each step of the
    conversation turns out and whether the relay advertises STARTTLS. The
    sender's observable behaviour is the list of calls it makes and its
    outcome, a `SendRun`.
 */
module Send {
  import opened Wrappers
  import opened Text

  datatype SendConfig = SendConfig(server: string, port: string, username: string, password: string, from: string)

  /** The client calls, in the order they are made. `CloseBody` closes the
      DATA writer; `Close` is the deferred close of the connection. */
  datatype SmtpCall =
    | Dial(address: string)
    | StartTls(serverName: string)
    | Auth(username: string, password: string, host: string)
    | Mail(from: string)
    | Rcpt(to: string)
    | Data
    | Write(message: string)
    | CloseBody
    | Quit
    | Close

  /** How the relay answers each step. */
  datatype SmtpRelay = SmtpRelay(
    dial: Outcome,
    offersStartTls: bool,
    startTls: Outcome,
    auth: Outcome,
    mail: Outcome,
    rcpt: Outcome,
    data: Outcome,
    write: Outcome,
    closeBody: Outcome,
    quit: Outcome)

  datatype SendRun = SendRun(calls: seq<SmtpCall>, result: Outcome)

  const MissingCredentials: string := "SMTP_SERVER, USERNAME, and PASSWORD must be set"

  // ---------------------------------------------------------------------
  // buildMessage

  /** The subject with every line feed and carriage return replaced by a
      space, in that order, as the two `ReplaceAll` calls do. */
  function Sanitise(subject: string): (safe: string)
    ensures |safe| == |subject|
    ensures '\r' !in safe && '\n' !in safe
    ensures forall i :: 0 <= i < |subject| ==>
      safe[i] == (if subject[i] == '\r' || subject[i] == '\n' then ' ' else subject[i])
  {
    ReplaceChar(ReplaceChar(subject, '\n', ' '), '\r', ' ')
  }

  const CRLF: string := "\r\n"

  /** The six header lines. */
  function HeaderLines(from: string, to: string, subject: string): seq<string> {
    [ "From: " + from,
      "To: " + to,
      "Subject: " + Sanitise(subject),
      "MIME-Version: 1.0",
      "Content-Type: text/plain; charset=UTF-8",
      "Content-Transfer-Encoding: 8bit" ]
  }

  /** Go's `buildMessage`: the header lines, an empty line, the body and an
      empty line, joined by CRLF. So the message is the header block, a
      blank line, the body, and a final CRLF. */
  function BuildMessage(from: string, to: string, subject: string, body: string): (msg: string)
    ensures msg == Join(HeaderLines(from, to, subject), CRLF) + CRLF + CRLF + body + CRLF
    ensures msg[..|"From: "|] == "From: "
    ensures msg[|msg| - 2..] == CRLF
  {
    var headers := HeaderLines(from, to, subject);
    var lines := headers + ["", body, ""];
    JoinAppend(headers, ["", body, ""], CRLF);
    assert ["", body, ""][1..] == [body, ""] && [body, ""][1..] == [""];
    assert Join([body, ""], CRLF) == body + CRLF + "";
    assert Join(["", body, ""], CRLF) == "" + CRLF + (body + CRLF + "");
    var msg := Join(lines, CRLF);
    assert Join(headers, CRLF) == "From: " + from + CRLF + Join(headers[1..], CRLF);
    msg
  }

  /** Header injection is impossible through the subject: when the sender
      and recipient hold no line break, the header block has exactly six
      lines (five CRLFs) whatever the subject contains. */
  lemma HeaderBlockLines(from: string, to: string, subject: string)
    requires '\r' !in from && '\n' !in from && '\r' !in to && '\n' !in to
    ensures var h := Join(HeaderLines(from, to, subject), CRLF);
      Count(h, '\n') == 5 && Count(h, '\r') == 5
  {
    HeaderLinesNoBreak(from, to, subject);
    LineBreaks(HeaderLines(from, to, subject), '\n');
    LineBreaks(HeaderLines(from, to, subject), '\r');
  }

  /** Every header line is free of line breaks when sender and recipient are. */
  lemma HeaderLinesNoBreak(from: string, to: string, subject: string)
    requires NoBreak(from) && NoBreak(to)
    ensures |HeaderLines(from, to, subject)| == 6
    ensures forall i :: 0 <= i < 6 ==> NoBreak(HeaderLines(from, to, subject)[i])
  {
    NoBreakAppend("From: ", from);
    NoBreakAppend("To: ", to);
    NoBreakAppend("Subject: ", Sanitise(subject));
    MimeVersionNoBreak();
    ContentTypeNoBreak();
    EncodingNoBreak();
  }

  // The fixed header lines, one at a time: each literal is checked
  // character by character.
  lemma MimeVersionNoBreak() ensures NoBreak("MIME-Version: 1.0") {}
  lemma ContentTypeNoBreak() ensures NoBreak("Content-Type: text/plain; charset=UTF-8") {}
  lemma EncodingNoBreak() ensures NoBreak("Content-Transfer-Encoding: 8bit") {}

  predicate NoBreak(s: string) {
    '\r' !in s && '\n' !in s
  }

  lemma NoBreakAppend(a: string, b: string)
    requires NoBreak(a) && NoBreak(b)
    ensures NoBreak(a + b)
  {
  }

  /** Joining n break-free lines with CRLF yields n - 1 of each break. */
  lemma {:induction false} LineBreaks(lines: seq<string>, c: char)
    requires c == '\r' || c == '\n'
    requires |lines| > 0
    requires forall i :: 0 <= i < |lines| ==> NoBreak(lines[i])
    ensures Count(Join(lines, CRLF), c) == |lines| - 1
    decreases |lines|
  {
    CountAbsent(lines[0], c);
    if |lines| > 1 {
      LineBreaks(lines[1..], c);
      CountAppend(lines[0], CRLF, c);
      CountAppend(lines[0] + CRLF, Join(lines[1..], CRLF), c);
      assert Count(CRLF, c) == 1;
    }
  }

  // ---------------------------------------------------------------------
  // Send, as the source writes it

  /** The conversation after a successful dial: optional STARTTLS, then the
      envelope and the transfer. Each failure ends it with its own error
      prefix. The source writes this as one sequence of early returns; the
      model splits it into its three phases. */
  function Conversation(server: string, username: string, password: string, from: string,
                        to: string, msg: string, relay: SmtpRelay): (run: SendRun)
    ensures run.calls != [] && (run.calls[0] == StartTls(server) <==> relay.offersStartTls)
    ensures relay.offersStartTls && relay.startTls.Fail? ==> run.calls == [StartTls(server)]
  {
    if relay.offersStartTls && relay.startTls.Fail? then
      SendRun([StartTls(server)], Fail("starttls failed: " + relay.startTls.error))
    else
      var tls := if relay.offersStartTls then [StartTls(server)] else [];
      var rest := Envelope(server, username, password, from, to, msg, relay);
      SendRun(tls + rest.calls, rest.result)
  }

  /** AUTH with the server as host, MAIL FROM, RCPT TO, then the transfer. */
  function Envelope(server: string, username: string, password: string, from: string,
                    to: string, msg: string, relay: SmtpRelay): (run: SendRun)
    ensures run.calls != [] && run.calls[0] == Auth(username, password, server)
    ensures relay.auth.Fail? <==> |run.calls| == 1
  {
    if relay.auth.Fail? then SendRun([Auth(username, password, server)], Fail("smtp auth failed: " + relay.auth.error))
    else if relay.mail.Fail? then
      SendRun([Auth(username, password, server), Mail(from)], Fail("mail from failed: " + relay.mail.error))
    else if relay.rcpt.Fail? then
      SendRun([Auth(username, password, server), Mail(from), Rcpt(to)], Fail("rcpt to failed: " + relay.rcpt.error))
    else
      var rest := Transfer(msg, relay);
      SendRun([Auth(username, password, server), Mail(from), Rcpt(to)] + rest.calls, rest.result)
  }

  /** DATA, the write of the message, the close of the writer, QUIT. A
      failed write still closes the writer; QUIT's own error is returned
      as is. */
  function Transfer(msg: string, relay: SmtpRelay): (run: SendRun)
    ensures run.calls != [] && run.calls[0] == Data
    ensures relay.data.Pass? <==> |run.calls| >= 3 && run.calls[2] == CloseBody
    ensures run.result.Pass? <==>
      relay.data.Pass? && relay.write.Pass? && relay.closeBody.Pass? && relay.quit.Pass?
  {
    if relay.data.Fail? then SendRun([Data], Fail("data failed: " + relay.data.error))
    else if relay.write.Fail? then SendRun([Data, Write(msg), CloseBody], Fail("write body failed: " + relay.write.error))
    else if relay.closeBody.Fail? then SendRun([Data, Write(msg), CloseBody], Fail("close body failed: " + relay.closeBody.error))
    else SendRun([Data, Write(msg), CloseBody, Quit], relay.quit)
  }

  /** Go's `send.Send`. Missing server or credentials are rejected before
      any call; the dial address is `server:port` with port 587 by default;
      once connected the connection is always closed last. */
  function Send(to: string, subject: string, body: string, cfg: SendConfig, relay: SmtpRelay): (run: SendRun)
    ensures cfg.server == "" || cfg.username == "" || cfg.password == "" ==>
      run == SendRun([], Fail(MissingCredentials))
    ensures run.calls != [] ==> run.calls[0] == Dial(cfg.server + ":" + OrElse(cfg.port, "587"))
    ensures run.calls != [] ==> (relay.dial.Pass? <==> run.calls[|run.calls| - 1] == Close)
  {
    if cfg.server == "" || cfg.username == "" || cfg.password == "" then SendRun([], Fail(MissingCredentials))
    else
      var from := OrElse(cfg.from, cfg.username);
      var dial := Dial(cfg.server + ":" + OrElse(cfg.port, "587"));
      match relay.dial
      case Fail(err) => SendRun([dial], Fail("smtp dial failed: " + err))
      case Pass =>
        var rest := Conversation(cfg.server, cfg.username, cfg.password, from, to,
                                 BuildMessage(from, to, subject, body), relay);
        SendRun([dial] + rest.calls + [Close], rest.result)
  }

  /** The configuration `Send` accepts before dialling. */
  predicate Accepted(cfg: SendConfig) {
    cfg.server != "" && cfg.username != "" && cfg.password != ""
  }

  /** Every step of the relay that is reached passes. */
  predicate AllPass(relay: SmtpRelay) {
    relay.dial.Pass? && (relay.offersStartTls ==> relay.startTls.Pass?) &&
    relay.auth.Pass? && relay.mail.Pass? && relay.rcpt.Pass? &&
    relay.data.Pass? && relay.write.Pass? && relay.closeBody.Pass? && relay.quit.Pass?
  }

  /** Sending succeeds iff the configuration is accepted and every step
      passes; then the full conversation is made, with the built message. */
  lemma SendSucceedsIffAllPass(to: string, subject: string, body: string, cfg: SendConfig, relay: SmtpRelay)
    ensures Send(to, subject, body, cfg, relay).result.Pass? <==> Accepted(cfg) && AllPass(relay)
    ensures Accepted(cfg) && AllPass(relay) ==>
      var from := OrElse(cfg.from, cfg.username);
      Send(to, subject, body, cfg, relay).calls ==
        [Dial(cfg.server + ":" + OrElse(cfg.port, "587"))] +
        (if relay.offersStartTls then [StartTls(cfg.server)] else []) +
        [Auth(cfg.username, cfg.password, cfg.server), Mail(from), Rcpt(to),
         Data, Write(BuildMessage(from, to, subject, body)), CloseBody, Quit, Close]
  {
  }

  /** STARTTLS is attempted, with the server as TLS name, exactly when the
      relay offers it; a failed STARTTLS ends the conversation before AUTH. */
  lemma SendStartTls(to: string, subject: string, body: string, cfg: SendConfig, relay: SmtpRelay)
    requires Accepted(cfg) && relay.dial.Pass?
    ensures var run := Send(to, subject, body, cfg, relay);
      |run.calls| >= 3 && (run.calls[1] == StartTls(cfg.server) <==> relay.offersStartTls)
    ensures relay.offersStartTls && relay.startTls.Fail? ==>
      Send(to, subject, body, cfg, relay) ==
        SendRun([Dial(cfg.server + ":" + OrElse(cfg.port, "587")), StartTls(cfg.server), Close],
                Fail("starttls failed: " + relay.startTls.error))
  {
  }

  /** QUIT is sent iff every step before it passed, and then its own
      outcome is the result. */
  lemma SendQuits(to: string, subject: string, body: string, cfg: SendConfig, relay: SmtpRelay)
    requires Accepted(cfg)
    ensures var run := Send(to, subject, body, cfg, relay);
      Quit in run.calls <==>
        relay.dial.Pass? && (relay.offersStartTls ==> relay.startTls.Pass?) &&
        relay.auth.Pass? && relay.mail.Pass? && relay.rcpt.Pass? &&
        relay.data.Pass? && relay.write.Pass? && relay.closeBody.Pass?
    ensures Quit in Send(to, subject, body, cfg, relay).calls ==>
      Send(to, subject, body, cfg, relay).result == relay.quit
  {
  }

  // ---------------------------------------------------------------------
  // the same behaviour as a generic step list

  /** One protocol step: the call, how it turned out, and the prefix its
      error gets. */
  datatype Step = Step(call: SmtpCall, outcome: Outcome, prefix: string)

  /** The steps after the dial, STARTTLS only when offered. */
  function ConversationSteps(server: string, username: string, password: string, from: string,
                             to: string, msg: string, relay: SmtpRelay): seq<Step> {
    (if relay.offersStartTls then [Step(StartTls(server), relay.startTls, "starttls failed: ")] else []) +
    EnvelopeSteps(server, username, password, from, to, msg, relay)
  }

  function EnvelopeSteps(server: string, username: string, password: string, from: string,
                         to: string, msg: string, relay: SmtpRelay): seq<Step> {
    [ Step(Auth(username, password, server), relay.auth, "smtp auth failed: "),
      Step(Mail(from), relay.mail, "mail from failed: "),
      Step(Rcpt(to), relay.rcpt, "rcpt to failed: ") ] +
    TransferSteps(msg, relay)
  }

  function TransferSteps(msg: string, relay: SmtpRelay): seq<Step> {
    [ Step(Data, relay.data, "data failed: "),
      Step(Write(msg), relay.write, "write body failed: "),
      Step(CloseBody, relay.closeBody, "close body failed: "),
      Step(Quit, relay.quit, "") ]
  }

  /** The fixed order of the whole conversation. */
  function Steps(to: string, subject: string, body: string, cfg: SendConfig, relay: SmtpRelay): seq<Step> {
    var from := OrElse(cfg.from, cfg.username);
    [Step(Dial(cfg.server + ":" + OrElse(cfg.port, "587")), relay.dial, "smtp dial failed: ")] +
    ConversationSteps(cfg.server, cfg.username, cfg.password, from, to, BuildMessage(from, to, subject, body), relay)
  }

  /** What running a list of steps did: the calls made and, if one
      failed, that step. */
  datatype Trace = Trace(calls: seq<SmtpCall>, failed: Option<Step>)

  /** Run the steps in order, stopping after the first that fails. */
  function Perform(steps: seq<Step>): Trace
    decreases |steps|
  {
    if steps == [] then Trace([], None)
    else if steps[0].outcome.Fail? then Trace([steps[0].call], Some(steps[0]))
    else
      var t := Perform(steps[1..]);
      Trace([steps[0].call] + t.calls, t.failed)
  }

  /** What running the steps means: the calls are a prefix of the steps;
      nothing fails iff every step passes, and then every call is made;
      otherwise the failing step is the first that fails and its call is the
      last one made. */
  lemma {:induction false} PerformStopsAtFirstFailure(steps: seq<Step>)
    ensures var t := Perform(steps);
      && |t.calls| <= |steps|
      && (forall i :: 0 <= i < |t.calls| ==> t.calls[i] == steps[i].call)
      && (t.failed.None? <==> forall i :: 0 <= i < |steps| ==> steps[i].outcome.Pass?)
      && (t.failed.None? ==> |t.calls| == |steps|)
      && (t.failed.Some? ==>
            && 0 < |t.calls|
            && t.failed.value == steps[|t.calls| - 1]
            && t.failed.value.outcome.Fail?
            && forall i :: 0 <= i < |t.calls| - 1 ==> steps[i].outcome.Pass?)
    decreases |steps|
  {
    if steps != [] && steps[0].outcome.Pass? {
      PerformStopsAtFirstFailure(steps[1..]);
      var t := Perform(steps[1..]);
      assert forall i :: 1 <= i < |steps| ==> steps[i] == steps[1..][i - 1];
    }
  }

  /** The outcome of a run: the failing step's error with its prefix. */
  function TraceResult(t: Trace): Outcome {
    match t.failed
    case None => Pass
    case Some(s) => if s.outcome.Fail? then Fail(s.prefix + s.outcome.error) else Pass
  }

  /** Clean-up after the steps: the writer is closed after a failed write,
      and the connection whenever the dial succeeded. */
  function Cleanup(steps: seq<Step>, t: Trace): seq<SmtpCall>
    requires steps != []
  {
    AfterWrite(t) +
    (if steps[0].outcome.Pass? then [Close] else [])
  }

  /** The reference semantics of `Send`. */
  function SendByReference(to: string, subject: string, body: string, cfg: SendConfig, relay: SmtpRelay): SendRun {
    if cfg.server == "" || cfg.username == "" || cfg.password == "" then SendRun([], Fail(MissingCredentials))
    else
      var steps := Steps(to, subject, body, cfg, relay);
      var t := Perform(steps);
      SendRun(t.calls + Cleanup(steps, t), TraceResult(t))
  }

  /** The source's nested early returns are exactly "run the steps in order,
      stop at the first failure". */
  lemma SendMatchesReference(to: string, subject: string, body: string, cfg: SendConfig, relay: SmtpRelay)
    ensures Send(to, subject, body, cfg, relay) == SendByReference(to, subject, body, cfg, relay)
  {
    if cfg.server != "" && cfg.username != "" && cfg.password != "" {
      var from := OrElse(cfg.from, cfg.username);
      var msg := BuildMessage(from, to, subject, body);
      var steps := Steps(to, subject, body, cfg, relay);
      var tail := ConversationSteps(cfg.server, cfg.username, cfg.password, from, to, msg, relay);
      var d := Step(Dial(cfg.server + ":" + OrElse(cfg.port, "587")), relay.dial, "smtp dial failed: ");
      assert steps == [d] + tail;
      ConversationMatches(cfg.server, cfg.username, cfg.password, from, to, msg, relay);
      assert ([d] + tail)[1..] == tail;
    }
  }

  /** Running the steps one at a time. */
  lemma PerformCons(x: Step, rest: seq<Step>)
    ensures Perform([x] + rest) ==
      if x.outcome.Fail? then Trace([x.call], Some(x))
      else Trace([x.call] + Perform(rest).calls, Perform(rest).failed)
  {
    assert ([x] + rest)[1..] == rest;
  }

  /** Running steps that all pass, then more: the calls add up, and the
      first failure (if any) comes from the second part. When a step of the
      first part fails, the second part is never reached. */
  lemma {:induction false} PerformAppend(a: seq<Step>, b: seq<Step>)
    ensures Perform(a + b) ==
      if Perform(a).failed.Some? then Perform(a)
      else Trace(Perform(a).calls + Perform(b).calls, Perform(b).failed)
    decreases |a|
  {
    if a == [] {
      assert a + b == b;
    } else {
      assert (a + b)[1..] == a[1..] + b;
      if a[0].outcome.Pass? {
        PerformAppend(a[1..], b);
        assert [a[0].call] + (Perform(a[1..]).calls + Perform(b).calls)
            == ([a[0].call] + Perform(a[1..]).calls) + Perform(b).calls;
      }
    }
  }

  /** Clean-up after the conversation steps: the writer is closed after a
      failed write. */
  function AfterWrite(t: Trace): seq<SmtpCall> {
    if t.failed.Some? && t.failed.value.call.Write? then [CloseBody] else []
  }

  lemma TransferMatches(msg: string, relay: SmtpRelay)
    ensures var t := Perform(TransferSteps(msg, relay));
      var c := Transfer(msg, relay);
      c.calls == t.calls + AfterWrite(t) && c.result == TraceResult(t)
  {
    var s3 := [Step(Quit, relay.quit, "")];
    var s2 := [Step(CloseBody, relay.closeBody, "close body failed: ")] + s3;
    var s1 := [Step(Write(msg), relay.write, "write body failed: ")] + s2;
    var s0 := [Step(Data, relay.data, "data failed: ")] + s1;
    assert s0 == TransferSteps(msg, relay);
    PerformCons(s3[0], []);
    assert s3 == [s3[0]] + [];
    PerformCons(s2[0], s3);
    PerformCons(s1[0], s2);
    PerformCons(s0[0], s1);
  }

  lemma EnvelopeMatches(server: string, username: string, password: string, from: string,
                        to: string, msg: string, relay: SmtpRelay)
    ensures var t := Perform(EnvelopeSteps(server, username, password, from, to, msg, relay));
      var c := Envelope(server, username, password, from, to, msg, relay);
      c.calls == t.calls + AfterWrite(t) && c.result == TraceResult(t)
  {
    var s2 := [Step(Rcpt(to), relay.rcpt, "rcpt to failed: ")];
    var s1 := [Step(Mail(from), relay.mail, "mail from failed: ")] + s2;
    var s0 := [Step(Auth(username, password, server), relay.auth, "smtp auth failed: ")] + s1;
    var rest := TransferSteps(msg, relay);
    assert EnvelopeSteps(server, username, password, from, to, msg, relay) == s0 + rest;
    PerformCons(s2[0], []);
    assert s2 == [s2[0]] + [];
    PerformCons(s1[0], s2);
    PerformCons(s0[0], s1);
    PerformAppend(s0, rest);
    TransferMatches(msg, relay);
    if relay.auth.Pass? && relay.mail.Pass? && relay.rcpt.Pass? {
      var t := Perform(rest);
      assert Perform(s0).calls == [Auth(username, password, server), Mail(from), Rcpt(to)];
      assert Perform(s0).calls + t.calls + AfterWrite(t) == Perform(s0).calls + (t.calls + AfterWrite(t));
    }
  }

  /** The conversation after the dial agrees with running its steps. */
  lemma ConversationMatches(server: string, username: string, password: string, from: string,
                            to: string, msg: string, relay: SmtpRelay)
    ensures var steps := ConversationSteps(server, username, password, from, to, msg, relay);
      var t := Perform(steps);
      var c := Conversation(server, username, password, from, to, msg, relay);
      c.calls == t.calls + AfterWrite(t) && c.result == TraceResult(t)
  {
    var rest := EnvelopeSteps(server, username, password, from, to, msg, relay);
    EnvelopeMatches(server, username, password, from, to, msg, relay);
    if relay.offersStartTls {
      var st := Step(StartTls(server), relay.startTls, "starttls failed: ");
      assert ConversationSteps(server, username, password, from, to, msg, relay) == [st] + rest;
      PerformCons(st, rest);
      if relay.startTls.Pass? {
        var t := Perform(rest);
        assert [StartTls(server)] + t.calls + AfterWrite(t) == [StartTls(server)] + (t.calls + AfterWrite(t));
      }
    } else {
      assert ConversationSteps(server, username, password, from, to, msg, relay) == rest;
      assert Conversation(server, username, password, from, to, msg, relay).calls
          == Envelope(server, username, password, from, to, msg, relay).calls;
    }
  }
}
