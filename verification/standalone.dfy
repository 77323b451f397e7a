/** The standalone reader of the repository's top-level `main.go`: a command
    that prints the n most recent messages of one mailbox as JSON.

    It repeats, as its own copies, the env-file parser, the address-list
    rendering and the body of `fetch.Recent`; those copies are the same
    code, so the model reuses `Config.ParseEnv`, `Messages.FormatAddressList`
    and `Fetch.Session` and states here only where the command differs: the
    environment names it reads, the order of its checks and their messages,
    the mailbox it selects, and that a failure after connecting ends the
    process without the deferred logout. Command-line flags are parameters;
    the printed JSON or error message is the run's result.
 */
module Standalone {
  import opened Wrappers
  import opened Config
  import opened Messages
  import opened Ordering
  import opened Fetch

  /** The four names `loadConfig` takes from the environment. */
  const StandaloneKeys: seq<string> := ["SERVER", "USERNAME", "PASSWORD", "SSL"]

  const NonPositiveFlag: string := "-n must be positive"
  const MissingSettings: string := "SERVER, USERNAME, and PASSWORD must be set in .env or environment"

  /** `loadConfig`: `config.Load` with the environment restricted to four
      names. */
  function LoadConfig(envPath: string, file: EnvFile, env: map<string, string>): (r: Result<map<string, string>>)
    ensures r.Failure? <==> envPath != "" && file.Unreadable?
    ensures r.Failure? ==> r.error == "failed to read env file: " + file.reason
  {
    LoadWith(StandaloneKeys, envPath, file, env)
  }

  /** The three names only the library takes from the environment. */
  const SmtpKeys: seq<string> := ["SMTP_SERVER", "SMTP_PORT", "FROM_EMAIL"]

  /** The command's names are a strict subset of the library's seven: the
      library adds exactly the three SMTP names. */
  lemma StandaloneKeysStrictSubset(k: string)
    ensures k in OverrideKeys <==> k in StandaloneKeys || k in SmtpKeys
    ensures k in SmtpKeys ==> k !in StandaloneKeys
    ensures "SMTP_SERVER" in OverrideKeys && "SMTP_SERVER" !in StandaloneKeys
  {
  }

  /** `loadConfig` and `config.Load` fail alike and agree on every name but
      the three SMTP ones, for which the command keeps the file's entry
      whatever the environment says. */
  lemma LoadConfigAgreesWithLoad(envPath: string, file: EnvFile, env: map<string, string>, k: string)
    ensures LoadConfig(envPath, file, env).Failure? <==> Load(envPath, file, env).Failure?
    ensures LoadConfig(envPath, file, env).Success? && k !in SmtpKeys ==>
      var a, b := LoadConfig(envPath, file, env).value, Load(envPath, file, env).value;
      (k in a <==> k in b) && (k in a ==> a[k] == b[k])
    ensures LoadConfig(envPath, file, env).Success? && k in SmtpKeys ==>
      var a := LoadConfig(envPath, file, env).value;
      (k in a <==> k in FileEntries(envPath, file)) && (k in a ==> a[k] == FileEntries(envPath, file)[k])
  {
    StandaloneKeysStrictSubset(k);
    if k !in SmtpKeys {
      LoadWithSameEntry(StandaloneKeys, OverrideKeys, envPath, file, env, k);
    } else {
      LoadWithUnlisted(StandaloneKeys, envPath, file, env, k);
    }
  }

  /** `main` after flag parsing: the count is checked first, then the
      configuration is loaded and the credentials checked. */
  function Main(n: int, envPath: string, file: EnvFile, env: map<string, string>,
                mailbox: string, server: ImapServer): (run: ImapRun)
    ensures n <= 0 ==> run == ImapRun([], Failure(NonPositiveFlag))
    ensures n > 0 && LoadConfig(envPath, file, env).Failure? ==>
      run == ImapRun([], Failure(LoadConfig(envPath, file, env).error))
    ensures n > 0 && LoadConfig(envPath, file, env).Success? ==>
      var m := LoadConfig(envPath, file, env).value;
      Lookup(m, "SERVER") == "" || Lookup(m, "USERNAME") == "" || Lookup(m, "PASSWORD") == "" ==>
        run == ImapRun([], Failure(MissingSettings))
    ensures run.result.Success? ==> |run.result.value| <= n && NewestFirst(run.result.value)
  {
    if n <= 0 then ImapRun([], Failure(NonPositiveFlag))
    else
      match LoadConfig(envPath, file, env)
      case Failure(e) => ImapRun([], Failure(e))
      case Success(m) =>
        var s, u, p := Lookup(m, "SERVER"), Lookup(m, "USERNAME"), Lookup(m, "PASSWORD");
        if s == "" || u == "" || p == "" then ImapRun([], Failure(MissingSettings))
        else Read(n, s, u, p, mailbox, server)
  }

  /** The reading part of `main`: the mailbox flag is selected as given.
      Every failure goes through `exitErr`, which ends the process before
      the deferred logout runs, so only a successful run logs out. */
  function Read(n: nat, server: string, username: string, password: string, mailbox: string,
                imapServer: ImapServer): (run: ImapRun)
    requires n > 0
    ensures run.calls != [] && run.calls[0] == Dial(DialAddress(server))
    ensures run.calls[|run.calls| - 1] == Logout <==> run.result.Success?
    ensures imapServer.dial.Fail? ==>
      run == ImapRun([Dial(DialAddress(server))], Failure("failed to connect: " + imapServer.dial.error))
    ensures imapServer.dial.Pass? ==> run.result == Session(n, username, password, mailbox, imapServer).result
    ensures run.result.Success? ==> |run.result.value| <= n && NewestFirst(run.result.value)
  {
    var dial := Dial(DialAddress(server));
    match imapServer.dial
    case Fail(err) => ImapRun([dial], Failure("failed to connect: " + err))
    case Pass =>
      var session := Session(n, username, password, mailbox, imapServer);
      if session.result.Success? then ImapRun([dial] + session.calls + [Logout], session.result)
      else ImapRun([dial] + session.calls, session.result)
  }

  /** Once the count is positive and the credentials are set, the command
      reads exactly what `fetch.Recent` reads for the same settings and a
      non-empty mailbox: the same result, and the same calls except that a
      failure after connecting skips the final logout. */
  lemma MainMatchesRecent(n: int, envPath: string, file: EnvFile, env: map<string, string>,
                          mailbox: string, server: ImapServer)
    requires n > 0 && mailbox != ""
    requires LoadConfig(envPath, file, env).Success?
    ensures var m := LoadConfig(envPath, file, env).value;
      var cfg := FetchConfig(Lookup(m, "SERVER"), Lookup(m, "USERNAME"), Lookup(m, "PASSWORD"), mailbox);
      var run, rec := Main(n, envPath, file, env, mailbox, server), Recent(n, cfg, server);
      cfg.server != "" && cfg.username != "" && cfg.password != "" ==>
        && run.result == rec.result
        && (rec.result.Failure? && server.dial.Pass? ==> rec.calls == run.calls + [Logout])
        && (rec.result.Success? || server.dial.Fail? ==> rec.calls == run.calls)
  {
    var m := LoadConfig(envPath, file, env).value;
    var cfg := FetchConfig(Lookup(m, "SERVER"), Lookup(m, "USERNAME"), Lookup(m, "PASSWORD"), mailbox);
    assert ResolveMailbox(mailbox) == mailbox;
  }

  /** Where the two readers differ before connecting: the command checks
      the count before the credentials, with its own message, and selects
      an empty mailbox name as given instead of INBOX. */
  lemma MainDiffersFromRecent(n: int, envPath: string, file: EnvFile, env: map<string, string>,
                              cfg: FetchConfig, server: ImapServer)
    requires n <= 0 && cfg.server == ""
    ensures Main(n, envPath, file, env, cfg.mailbox, server).result == Failure("-n must be positive")
    ensures Recent(n, cfg, server).result == Failure("SERVER, USERNAME, and PASSWORD must be set")
  {
  }

  /** With an empty mailbox flag the command selects the empty name. */
  lemma ReadSelectsFlagAsGiven(n: nat, server: string, username: string, password: string, imapServer: ImapServer)
    requires n > 0 && imapServer.dial.Pass? && imapServer.login.Pass?
    ensures var run := Read(n, server, username, password, "", imapServer);
      |run.calls| >= 3 && run.calls[2] == Select("")
  {
  }
}
