/** `fetch.Recent`: the "most recent n messages" reader.

    The IMAP session is abstract. An `ImapServer` says how each step the
    reader performs turns out: whether dialling and logging in succeed, what
    selecting a mailbox answers (its message count or an error), and what a
    fetch of a sequence range answers (the reply entries or an error). The
    reader's observable behaviour is the list of calls it makes and its
    result, an `ImapRun`.
 */
module Fetch {
  import opened Wrappers
  import opened Messages
  import opened Ordering

  datatype FetchConfig = FetchConfig(server: string, username: string, password: string, mailbox: string)

  /** The session calls, in the order they are made. `FetchRange(a, b)` asks
      for the 1-based inclusive sequence range `a:b`. */
  datatype ImapCall =
    | Dial(address: string)
    | Login(username: string, password: string)
    | Select(mailbox: string)
    | FetchRange(first: int, last: int)
    | Logout

  /** How the server answers each call. */
  datatype ImapServer = ImapServer(
    dial: Outcome,
    login: Outcome,
    select: string -> Result<uint32>,
    fetch: (int, int) -> Result<seq<Option<RawMessage>>>)

  datatype ImapRun = ImapRun(calls: seq<ImapCall>, result: Result<seq<Email>>)

  const MissingCredentials: string := "SERVER, USERNAME, and PASSWORD must be set"
  const NonPositiveCount: string := "n must be positive"

  /** The mailbox to select: `INBOX` unless one is named. */
  function ResolveMailbox(name: string): (r: string)
    ensures r != ""
    ensures name != "" ==> r == name
    ensures name == "" ==> r == "INBOX"
  {
    OrElse(name, "INBOX")
  }

  /** The address to dial: the server as given when it already names a
      port, otherwise the server on the IMAPS port 993. */
  function DialAddress(server: string): (r: string)
    ensures ':' in r
    ensures ':' in server ==> r == server
    ensures ':' !in server ==> r == server + ":993"
  {
    if ':' in server then server else server + ":993"
  }

  /** The first sequence number of the window, computed as the source does
      with `uint32(n)` (the low 32 bits of n) in 32-bit arithmetic. For a
      count that fits in 32 bits the window `start:total` holds exactly
      `min(n, total)` messages and lies inside the mailbox. */
  function WindowStart(n: int, total: uint32): (start: uint32)
    requires total > 0
    ensures 0 < n < 0x1_0000_0000 ==> 1 <= start <= total && total - start + 1 == Min(n, total)
  {
    var u := n % 0x1_0000_0000;
    if u < total then (total - u + 1) % 0x1_0000_0000 else 1
  }

  /** The part of the session after a successful dial and before the
      deferred logout: login, select, and (for a non-empty mailbox) one
      fetch of the window, whose kept entries are sorted newest first and
      cut to n. */
  function Session(n: nat, username: string, password: string, mailbox: string, server: ImapServer): (run: ImapRun)
    requires n > 0
    ensures run.calls != [] && run.calls[0] == Login(username, password)
    ensures server.login.Fail? ==> run == ImapRun([Login(username, password)], Failure("login failed: " + server.login.error))
    ensures server.login.Pass? && server.select(mailbox).Failure? ==>
      run.result == Failure("select mailbox failed: " + server.select(mailbox).error)
    ensures server.login.Pass? && server.select(mailbox).Success? && server.select(mailbox).value > 0 ==>
      var total := server.select(mailbox).value;
      server.fetch(WindowStart(n, total), total).Failure? ==>
        run.result == Failure("fetch failed: " + server.fetch(WindowStart(n, total), total).error)
    ensures run.result.Success? ==> |run.result.value| <= n && NewestFirst(run.result.value)
  {
    var login := Login(username, password);
    match server.login
    case Fail(err) => ImapRun([login], Failure("login failed: " + err))
    case Pass =>
      var select := Select(mailbox);
      match server.select(mailbox)
      case Failure(err) => ImapRun([login, select], Failure("select mailbox failed: " + err))
      case Success(total) =>
        if total == 0 then ImapRun([login, select], Success([]))
        else
          var start := WindowStart(n, total);
          var fetch := FetchRange(start, total);
          match server.fetch(start, total)
          case Failure(err) => ImapRun([login, select, fetch], Failure("fetch failed: " + err))
          case Success(reply) => ImapRun([login, select, fetch], Success(NewestN(Normalise(reply), n)))
  }

  /** Dial, run the session, and log out on every path once connected. */
  function Connected(n: nat, address: string, username: string, password: string, mailbox: string, server: ImapServer): (run: ImapRun)
    requires n > 0
    ensures run.calls != [] && run.calls[0] == Dial(address)
    ensures server.dial.Pass? <==> run.calls[|run.calls| - 1] == Logout
    ensures server.dial.Fail? ==> run == ImapRun([Dial(address)], Failure("failed to connect: " + server.dial.error))
    ensures server.dial.Pass? ==> run.result == Session(n, username, password, mailbox, server).result
    ensures run.result.Success? ==> |run.result.value| <= n && NewestFirst(run.result.value)
  {
    var dial := Dial(address);
    match server.dial
    case Fail(err) => ImapRun([dial], Failure("failed to connect: " + err))
    case Pass =>
      var session := Session(n, username, password, mailbox, server);
      ImapRun([dial] + session.calls + [Logout], session.result)
  }

  /** Go's `fetch.Recent`. Missing credentials and a non-positive count are
      rejected before any call; otherwise the resolved mailbox is read
      through the dial address, and any result is newest first and at most
      n long. */
  function Recent(n: int, cfg: FetchConfig, server: ImapServer): (run: ImapRun)
    ensures cfg.server == "" || cfg.username == "" || cfg.password == "" ==>
      run == ImapRun([], Failure(MissingCredentials))
    ensures cfg.server != "" && cfg.username != "" && cfg.password != "" && n <= 0 ==>
      run == ImapRun([], Failure(NonPositiveCount))
    ensures run.calls != [] ==> run.calls[0] == Dial(DialAddress(cfg.server))
    ensures run.calls != [] ==> (server.dial.Pass? <==> run.calls[|run.calls| - 1] == Logout)
    ensures run.result.Success? ==> |run.result.value| <= n && NewestFirst(run.result.value)
  {
    if cfg.server == "" || cfg.username == "" || cfg.password == "" then ImapRun([], Failure(MissingCredentials))
    else if n <= 0 then ImapRun([], Failure(NonPositiveCount))
    else Connected(n, DialAddress(cfg.server), cfg.username, cfg.password, ResolveMailbox(cfg.mailbox), server)
  }

  /** Predicate shared by the lemmas below: a configuration and count the
      reader accepts, against a server that lets it connect and log in. */
  predicate Reaches(n: int, cfg: FetchConfig, server: ImapServer) {
    cfg.server != "" && cfg.username != "" && cfg.password != "" && n > 0 &&
    server.dial.Pass? && server.login.Pass?
  }

  /** Every server failure after the configuration checks fails the read
      with its own prefix in front of the server's error: connecting,
      logging in, selecting the mailbox, fetching the window. */
  lemma RecentFailures(n: int, cfg: FetchConfig, server: ImapServer)
    requires cfg.server != "" && cfg.username != "" && cfg.password != "" && n > 0
    ensures var run, mailbox := Recent(n, cfg, server), ResolveMailbox(cfg.mailbox);
      && (server.dial.Fail? ==>
            run == ImapRun([Dial(DialAddress(cfg.server))], Failure("failed to connect: " + server.dial.error)))
      && (server.dial.Pass? && server.login.Fail? ==>
            run.result == Failure("login failed: " + server.login.error))
      && (Reaches(n, cfg, server) && server.select(mailbox).Failure? ==>
            run.result == Failure("select mailbox failed: " + server.select(mailbox).error))
  {
  }

  /** A failed fetch of the window fails the read with the fetch's error. */
  lemma RecentFetchFails(n: int, cfg: FetchConfig, server: ImapServer, total: uint32)
    requires Reaches(n, cfg, server)
    requires server.select(ResolveMailbox(cfg.mailbox)) == Success(total) && total > 0
    requires server.fetch(WindowStart(n, total), total).Failure?
    ensures Recent(n, cfg, server).result == Failure("fetch failed: " + server.fetch(WindowStart(n, total), total).error)
  {
  }

  /** The mailbox selected is the configured one, or INBOX when none is set. */
  lemma RecentSelectsResolvedMailbox(n: int, cfg: FetchConfig, server: ImapServer)
    requires Reaches(n, cfg, server)
    ensures var run := Recent(n, cfg, server);
      |run.calls| >= 4 && run.calls[1] == Login(cfg.username, cfg.password) &&
      run.calls[2] == Select(ResolveMailbox(cfg.mailbox))
  {
  }

  /** An empty mailbox gives an empty list, not an error, and nothing is fetched. */
  lemma RecentEmptyMailbox(n: int, cfg: FetchConfig, server: ImapServer)
    requires Reaches(n, cfg, server)
    requires server.select(ResolveMailbox(cfg.mailbox)) == Success(0)
    ensures var run := Recent(n, cfg, server);
      run.result == Success([]) && forall c :: c in run.calls ==> !c.FetchRange?
  {
  }

  /** For a non-empty mailbox the one fetch asks for `start:total`, a window
      inside the mailbox of exactly `min(n, total)` messages. */
  lemma RecentWindow(n: int, cfg: FetchConfig, server: ImapServer, total: uint32)
    requires Reaches(n, cfg, server) && n < 0x1_0000_0000
    requires server.select(ResolveMailbox(cfg.mailbox)) == Success(total) && total > 0
    ensures var run := Recent(n, cfg, server);
      |run.calls| >= 5 && run.calls[3].FetchRange? &&
      var start := run.calls[3].first;
      run.calls[3].last == total && 1 <= start <= total && total - start + 1 == Min(n, total)
  {
  }

  /** A successful fetch gives the kept entries of the reply, newest first,
      cut to n; any failure after connecting still ends with a logout. */
  lemma RecentResult(n: int, cfg: FetchConfig, server: ImapServer, total: uint32, reply: seq<Option<RawMessage>>)
    requires Reaches(n, cfg, server)
    requires server.select(ResolveMailbox(cfg.mailbox)) == Success(total) && total > 0
    requires server.fetch(WindowStart(n, total), total) == Success(reply)
    ensures Recent(n, cfg, server).result == Success(NewestN(Normalise(reply), n))
  {
  }

  // ---------------------------------------------------------------------
  // against a mailbox that answers fetches faithfully

  /** Every message present as a reply entry. */
  function AsReply(msgs: seq<RawMessage>): (reply: seq<Option<RawMessage>>)
    ensures |reply| == |msgs|
    ensures forall i :: 0 <= i < |msgs| ==> reply[i] == Some(msgs[i])
  {
    seq(|msgs|, i requires 0 <= i < |msgs| => Some(msgs[i]))
  }

  /** A server holding `store` in `mailbox` in sequence-number order and
      answering every in-range fetch with exactly those messages. */
  predicate Serves(server: ImapServer, mailbox: string, store: seq<RawMessage>) {
    |store| < 0x1_0000_0000 &&
    server.select(mailbox) == Success(|store|) &&
    forall a, b :: 1 <= a <= b <= |store| ==> server.fetch(a, b) == Success(AsReply(store[a - 1..b]))
  }

  /** The last `k` messages, all with envelopes, normalise to one record each. */
  lemma {:induction false} AllKept(msgs: seq<RawMessage>)
    requires forall i :: 0 <= i < |msgs| ==> msgs[i].envelope.Some?
    ensures KeptCount(AsReply(msgs)) == |msgs|
    decreases |msgs|
  {
    if msgs != [] {
      assert AsReply(msgs)[1..] == AsReply(msgs[1..]);
      AllKept(msgs[1..]);
    }
  }

  /** Against a faithful store the one fetch returns the last
      `min(n, total)` messages, in sequence order. */
  lemma RecentReadsWindow(n: int, cfg: FetchConfig, server: ImapServer, store: seq<RawMessage>)
    requires Reaches(n, cfg, server) && n < 0x1_0000_0000
    requires Serves(server, ResolveMailbox(cfg.mailbox), store)
    requires |store| > 0
    ensures Recent(n, cfg, server).result == Success(NewestN(Normalise(AsReply(store[|store| - Min(n, |store|)..])), n))
  {
    var total := |store|;
    var start := WindowStart(n, total);
    assert start - 1 == total - Min(n, total);
    assert store[start - 1..total] == store[total - Min(n, total)..];
    RecentResult(n, cfg, server, total, AsReply(store[start - 1..total]));
  }

  /** A window of enveloped messages. */
  lemma WindowKept(store: seq<RawMessage>, k: nat)
    requires k <= |store|
    requires forall i :: 0 <= i < |store| ==> store[i].envelope.Some?
    ensures KeptCount(AsReply(store[|store| - k..])) == k
  {
    var msgs := store[|store| - k..];
    assert forall i :: 0 <= i < |msgs| ==> msgs[i] == store[|store| - k + i];
    AllKept(msgs);
  }

  /** "Most recent n" against a faithful store of enveloped messages: the
      answer has `min(n, total)` records taken from the last `min(n, total)`
      messages, newest first, and no message of that window that is left out
      is newer than one that is returned. */
  lemma RecentFromStore(n: int, cfg: FetchConfig, server: ImapServer, store: seq<RawMessage>)
    requires Reaches(n, cfg, server) && n < 0x1_0000_0000
    requires Serves(server, ResolveMailbox(cfg.mailbox), store)
    requires forall i :: 0 <= i < |store| ==> store[i].envelope.Some?
    ensures var run := Recent(n, cfg, server);
      var window := Normalise(AsReply(store[|store| - Min(n, |store|)..]));
      && run.result.Success?
      && |run.result.value| == Min(n, |store|)
      && NewestFirst(run.result.value)
      && multiset(run.result.value) <= multiset(window)
      && forall x, y :: x in multiset(window) - multiset(run.result.value) && y in run.result.value ==>
           x.internalDate <= y.internalDate
  {
    if |store| == 0 {
      RecentEmptyMailbox(n, cfg, server);
    } else {
      RecentReadsWindow(n, cfg, server, store);
      WindowKept(store, Min(n, |store|));
    }
  }
}
