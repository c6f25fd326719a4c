/** What the Weixin client keeps between calls and between restarts: session, update cursor, message log. */
module ClientState {
  import opened GoTypes

  const LOG_LENGTH: nat := 200

  /** The base URLs; NewClient fills in defaults, which are not empty. */
  datatype Config = Config(apiBase: string, cdnBase: string)

  datatype Session = Session(token: string, selfRawId: string, baseUrl: string, cdnBaseUrl: string, savedAt: string)

  /** The three state files; None is an absent file. */
  datatype Files<Entry> = Files(session: Option<Session>, sync: Option<string>, messages: Option<seq<Entry>>)

  /** How a request ends, as far as the client state is concerned. */
  datatype Reply = Updates(buf: string) | TimedOut | Unauthorized | OtherError

  predicate Usable(s: Session) {
    s.token != "" && s.selfRawId != ""
  }

  function WithDefaults(conf: Config, apiDefault: string, cdnDefault: string): Config {
    Config(if conf.apiBase == "" then apiDefault else conf.apiBase,
           if conf.cdnBase == "" then cdnDefault else conf.cdnBase)
  }

  /** The session found in the session file, with missing URLs taken from the configuration. */
  function LoadedSession<E>(conf: Config, files: Files<E>): Option<Session> {
    match files.session
    case None => None
    case Some(s) =>
      if !Usable(s) then None
      else Some(s.(baseUrl := if s.baseUrl == "" then conf.apiBase else s.baseUrl,
                   cdnBaseUrl := if s.cdnBaseUrl == "" then conf.cdnBase else s.cdnBaseUrl))
  }

  function Cursor<E>(files: Files<E>): string {
    if files.sync.Some? then files.sync.value else ""
  }

  function LastEntries<E>(entries: seq<E>, n: nat): seq<E> {
    if |entries| <= n then entries else entries[|entries| - n..]
  }

  function Appended<E>(files: Files<E>, e: E): Files<E> {
    var entries := if files.messages.Some? then files.messages.value else [];
    files.(messages := Some(LastEntries(entries + [e], LOG_LENGTH)))
  }

  // Runs.

  datatype Op<Entry> =
    | Confirm(token: string, botId: string, baseUrl: string, now: string)  // a login answered "confirmed"
    | Poll(reply: Reply)
    | Call(reply: Reply)                                                   // any other API request
    | Log(entry: Entry)
    | Restart(conf: Config)

  /** Logins, and what the server gets to see and answers. */
  datatype Exchange = Opened(token: string) | Sent(cursor: string) | Received(cursor: string) | Invalidated

  datatype World<Entry> = World(conf: Config, session: Option<Session>, files: Files<Entry>, exchanges: seq<Exchange>)

  function Confirmed<E>(w: World<E>, token: string, botId: string, baseUrl: string, now: string): World<E> {
    if token == "" || botId == "" then w
    else
      var s := Session(token, botId, if baseUrl != "" then baseUrl else w.conf.apiBase, w.conf.cdnBase, now);
      w.(session := Some(s), files := w.files.(session := Some(s)), exchanges := w.exchanges + [Opened(token)])
  }

  function Forgotten<E>(w: World<E>): World<E> {
    w.(session := None, files := w.files.(session := None, sync := None), exchanges := w.exchanges + [Invalidated])
  }

  predicate LoggedIn<E>(w: World<E>) {
    w.session.Some? && Usable(w.session.value)
  }

  function Polled<E>(w: World<E>, reply: Reply): World<E> {
    if !LoggedIn(w) then w
    else
      var asked := w.(exchanges := w.exchanges + [Sent(Cursor(w.files))]);
      match reply
      case Unauthorized => Forgotten(asked)
      case OtherError => asked
      case TimedOut =>
        // a timeout is answered with the cursor that was sent
        if Cursor(w.files) == "" then asked else asked.(files := w.files.(sync := Some(Cursor(w.files))))
      case Updates(buf) =>
        var heard := asked.(exchanges := asked.exchanges + [Received(buf)]);
        if buf == "" then heard else heard.(files := w.files.(sync := Some(buf)))
  }

  function Step<E>(w: World<E>, op: Op<E>): World<E> {
    match op
    case Confirm(token, botId, baseUrl, now) => Confirmed(w, token, botId, baseUrl, now)
    case Poll(reply) => Polled(w, reply)
    case Call(reply) => if LoggedIn(w) && reply == Unauthorized then Forgotten(w) else w
    case Log(e) => w.(files := Appended(w.files, e))
    case Restart(conf) => w.(conf := conf, session := LoadedSession(conf, w.files))
  }

  /** A fresh client in an empty state directory, and then a run of operations. */
  function Run<E>(conf: Config, ops: seq<Op<E>>): World<E> {
    if ops == [] then World(conf, None, Files(None, None, None), [])
    else Step(Run(conf, ops[..|ops| - 1]), ops[|ops| - 1])
  }

  /** Configurations have gone through NewClient. */
  predicate Configured(conf: Config) {
    conf.apiBase != "" && conf.cdnBase != ""
  }

  ghost predicate AllConfigured<E(!new)>(conf: Config, ops: seq<Op<E>>) {
    Configured(conf) && forall c :: Restart(c) in ops ==> Configured(c)
  }

  /** Whatever the configuration of the next start, the session found on disk is the one in memory. */
  ghost predicate Resumable<E>(w: World<E>) {
    forall conf: Config :: LoadedSession(conf, w.files) == w.session
  }

  lemma {:induction false} StepResumable<E>(w: World<E>, op: Op<E>)
    requires Configured(w.conf) && (op.Restart? ==> Configured(op.conf)) && Resumable(w)
    ensures Configured(Step(w, op).conf) && Resumable(Step(w, op))
  {
    forall conf: Config ensures LoadedSession(conf, Step(w, op).files) == Step(w, op).session {
      assert LoadedSession(conf, w.files) == w.session;
      if op.Restart? {
        assert LoadedSession(op.conf, w.files) == w.session;
      }
    }
  }

  /** At any point of any run, restarting with any configuration resumes exactly the session in memory. */
  lemma {:induction false} RestartResumes<E(!new)>(conf: Config, ops: seq<Op<E>>)
    requires AllConfigured(conf, ops)
    ensures Configured(Run(conf, ops).conf) && Resumable(Run(conf, ops))
  {
    hide Step;
    if ops != [] {
      var front, op := ops[..|ops| - 1], ops[|ops| - 1];
      assert op in ops && forall o :: o in front ==> o in ops;
      RestartResumes(conf, front);
      StepResumable(Run(conf, front), op);
    }
  }

  /** A session file without token or account counts as none, and the URLs in it come first. */
  lemma {:induction false} LoadedSessionExactly<E>(conf: Config, files: Files<E>, s: Session)
    ensures
      LoadedSession(conf, files) == Some(s) <==>
      && files.session.Some?
      && var f := files.session.value;
      && s.token == f.token != "" && s.selfRawId == f.selfRawId != "" && s.savedAt == f.savedAt
      && s.baseUrl == (if f.baseUrl != "" then f.baseUrl else conf.apiBase)
      && s.cdnBaseUrl == (if f.cdnBaseUrl != "" then f.cdnBaseUrl else conf.cdnBase)
  {
  }

  /** The configuration of the last start. */
  function LastConf<E>(conf: Config, ops: seq<Op<E>>): Config {
    if ops == [] then conf
    else if ops[|ops| - 1].Restart? then ops[|ops| - 1].conf
    else LastConf(conf, ops[..|ops| - 1])
  }

  datatype Account = Account(token: string, botId: string, url: string)

  /** The last complete confirmation since the server last refused the session, with the URL it asked for. */
  function LastAccount<E>(conf: Config, ops: seq<Op<E>>): Option<Account> {
    if ops == [] then None
    else
      var front := ops[..|ops| - 1];
      match ops[|ops| - 1]
      case Confirm(token, botId, url, _) =>
        if token == "" || botId == "" then LastAccount(conf, front)
        else Some(Account(token, botId, if url == "" then LastConf(conf, front).apiBase else url))
      case Poll(Unauthorized) => None
      case Call(Unauthorized) => None
      case _ => LastAccount(conf, front)
  }

  predicate IsAccount(s: Option<Session>, account: Option<Account>) {
    match s
    case None => account.None?
    case Some(x) =>
      account == Some(Account(x.token, x.selfRawId, x.baseUrl)) && x.token != "" && x.selfRawId != "" && x.baseUrl != ""
  }

  /** In every run, memory and session file belong to the last account confirmed and not refused, or to none. */
  lemma {:induction false} SessionIsLastConfirmed<E(!new)>(conf: Config, ops: seq<Op<E>>)
    requires AllConfigured(conf, ops)
    ensures
      var w := Run(conf, ops);
      && IsAccount(w.session, LastAccount(conf, ops)) && IsAccount(w.files.session, LastAccount(conf, ops))
      && w.conf == LastConf(conf, ops) && Configured(w.conf)
  {
    if ops != [] {
      var front, op := ops[..|ops| - 1], ops[|ops| - 1];
      assert op in ops && forall o :: o in front ==> o in ops;
      SessionIsLastConfirmed(conf, front);
      AccountStep(Run(conf, front), op, LastAccount(conf, front));
      hide IsAccount, Step;
    }
  }

  /** What one operation does to the account. */
  lemma {:induction false} AccountStep<E>(w: World<E>, op: Op<E>, account: Option<Account>)
    requires IsAccount(w.session, account) && IsAccount(w.files.session, account)
    requires Configured(w.conf) && (op.Restart? ==> Configured(op.conf))
    ensures
      var v := Step(w, op);
      var account' :=
        match op
        case Confirm(token, botId, url, _) =>
          if token == "" || botId == "" then account
          else Some(Account(token, botId, if url == "" then w.conf.apiBase else url))
        case Poll(Unauthorized) => None
        case Call(Unauthorized) => None
        case _ => account;
      IsAccount(v.session, account') && IsAccount(v.files.session, account')
    ensures Step(w, op).conf == if op.Restart? then op.conf else w.conf
  {
    hide Cursor;
  }

  /** The last cursor received that was not empty, since the session was last invalidated. */
  function LastCursor(xs: seq<Exchange>): string {
    if xs == [] then ""
    else
      match xs[|xs| - 1]
      case Invalidated => ""
      case Received(c) => if c != "" then c else LastCursor(xs[..|xs| - 1])
      case _ => LastCursor(xs[..|xs| - 1])
  }

  /** Every request carried the last cursor known at the time. */
  ghost predicate CursorsFollow(xs: seq<Exchange>) {
    forall k :: 0 <= k < |xs| && xs[k].Sent? ==> xs[k].cursor == LastCursor(xs[..k])
  }

  lemma {:induction false} OneMoreExchange(xs: seq<Exchange>, x: Exchange)
    requires CursorsFollow(xs) && (x.Sent? ==> x.cursor == LastCursor(xs))
    ensures CursorsFollow(xs + [x])
    ensures LastCursor(xs + [x]) == match x
                                    case Invalidated => ""
                                    case Received(c) => if c != "" then c else LastCursor(xs)
                                    case _ => LastCursor(xs)
  {
    var ys := xs + [x];
    assert ys[..|xs|] == xs;
    forall k | 0 <= k < |ys| && ys[k].Sent? ensures ys[k].cursor == LastCursor(ys[..k]) {
      if k < |xs| {
        assert ys[..k] == xs[..k] && ys[k] == xs[k];
      }
    }
  }

  lemma {:induction false} ForgottenCursor<E>(w: World<E>)
    requires CursorsFollow(w.exchanges)
    ensures CursorsFollow(Forgotten(w).exchanges) && Cursor(Forgotten(w).files) == LastCursor(Forgotten(w).exchanges)
  {
    OneMoreExchange(w.exchanges, Invalidated);
  }

  lemma {:induction false} PolledCursor<E>(w: World<E>, reply: Reply)
    requires CursorsFollow(w.exchanges) && Cursor(w.files) == LastCursor(w.exchanges)
    ensures CursorsFollow(Polled(w, reply).exchanges)
    ensures Cursor(Polled(w, reply).files) == LastCursor(Polled(w, reply).exchanges)
  {
    if LoggedIn(w) {
      hide LastCursor, CursorsFollow;
      OneMoreExchange(w.exchanges, Sent(Cursor(w.files)));
      var asked := w.(exchanges := w.exchanges + [Sent(Cursor(w.files))]);
      match reply
      case Unauthorized => ForgottenCursor(asked);
      case Updates(buf) => OneMoreExchange(asked.exchanges, Received(buf));
      case _ =>
    }
  }

  /** A request that times out changes no file: the cursor it writes, if any, is there already. */
  lemma {:induction false} TimeoutChangesNothing<E>(w: World<E>)
    ensures Polled(w, TimedOut).files == w.files && Polled(w, TimedOut).session == w.session
  {
  }

  /** In any run, each update request carries the last cursor the server gave out since the last invalidation. */
  lemma {:induction false} RequestsCarryCursor<E>(conf: Config, ops: seq<Op<E>>)
    ensures
      var w := Run(conf, ops);
      CursorsFollow(w.exchanges) && Cursor(w.files) == LastCursor(w.exchanges)
  {
    if ops != [] {
      var w := Run(conf, ops[..|ops| - 1]);
      RequestsCarryCursor(conf, ops[..|ops| - 1]);
      hide LastCursor, CursorsFollow, Polled, Forgotten;
      match ops[|ops| - 1]
      case Poll(reply) => PolledCursor(w, reply);
      case Call(reply) => ForgottenCursor(w);
      case Confirm(token, _, _, _) => OneMoreExchange(w.exchanges, Opened(token));
      case _ =>
    }
  }

  // Whose cursor it is: a login over a session that was not invalidated leaves the cursor file as it is.

  /** The last nonempty cursor received since the last login. */
  function OwnCursor(xs: seq<Exchange>): string {
    if xs == [] then ""
    else
      match xs[|xs| - 1]
      case Opened(_) => ""
      case Invalidated => ""
      case Received(c) => if c != "" then c else OwnCursor(xs[..|xs| - 1])
      case Sent(_) => OwnCursor(xs[..|xs| - 1])
  }

  /** The cursor that was in use when the session was opened, as long as it has not been invalidated. */
  function Inherited(xs: seq<Exchange>): string {
    if xs == [] then ""
    else
      match xs[|xs| - 1]
      case Opened(_) => LastCursor(xs[..|xs| - 1])
      case Invalidated => ""
      case _ => Inherited(xs[..|xs| - 1])
  }

  lemma {:induction false} OwnOrInherited(xs: seq<Exchange>)
    ensures LastCursor(xs) == if OwnCursor(xs) != "" then OwnCursor(xs) else Inherited(xs)
  {
    if xs != [] {
      OwnOrInherited(xs[..|xs| - 1]);
    }
  }

  /**
   * In any run, the next request carries a cursor of its own session, or none, exactly if that session has
   * received one or was opened when none was in use.
   */
  lemma {:induction false} OwnCursorExactly<E>(conf: Config, ops: seq<Op<E>>)
    ensures
      var w := Run(conf, ops);
      Cursor(w.files) == OwnCursor(w.exchanges) <==> OwnCursor(w.exchanges) != "" || Inherited(w.exchanges) == ""
  {
    RequestsCarryCursor(conf, ops);
    OwnOrInherited(Run(conf, ops).exchanges);
  }

  /** Logging in again, with another account, sends the cursor of the first one. */
  lemma {:induction false} CursorOfEarlierLogin<E>(conf: Config, cursor: string)
    requires cursor != ""
    ensures
      var ops: seq<Op<E>> :=
        [Confirm("a", "A", "", ""), Poll(Updates(cursor)), Confirm("b", "B", "", ""), Poll(OtherError)];
      Run(conf, ops).exchanges == [Opened("a"), Sent(""), Received(cursor), Opened("b"), Sent(cursor)]
  {
    var ops: seq<Op<E>> :=
      [Confirm("a", "A", "", ""), Poll(Updates(cursor)), Confirm("b", "B", "", ""), Poll(OtherError)];
    assert ops[..1][..0] == [] && ops[..2][..1] == ops[..1] && ops[..3][..2] == ops[..2];
    assert Run(conf, ops[..1][..0]) == World(conf, None, Files(None, None, None), []);
    var w1 := Run(conf, ops[..1]);
    assert w1.exchanges == [Opened("a")] && LoggedIn(w1) && Cursor(w1.files) == "";
    var w2 := Run(conf, ops[..2]);
    assert w2.exchanges == [Opened("a"), Sent(""), Received(cursor)] && Cursor(w2.files) == cursor;
    var w3 := Run(conf, ops[..3]);
    assert w3.exchanges == w2.exchanges + [Opened("b")] && LoggedIn(w3) && Cursor(w3.files) == cursor;
  }

  function Entries<E>(ops: seq<Op<E>>): seq<E> {
    if ops == [] then []
    else Entries(ops[..|ops| - 1]) + if ops[|ops| - 1].Log? then [ops[|ops| - 1].entry] else []
  }

  /** In any run, the message file holds the last entries logged, 200 of them at most. */
  lemma {:induction false} LogKeepsLast<E>(conf: Config, ops: seq<Op<E>>)
    ensures
      var m := Run(conf, ops).files.messages;
      var all := Entries(ops);
      m == if all == [] then None else Some(all[|all| - (if |all| < 200 then |all| else 200)..])
  {
    if ops != [] {
      var front, op := ops[..|ops| - 1], ops[|ops| - 1];
      LogKeepsLast(conf, front);
      assert Entries(ops) == Entries(front) + if op.Log? then [op.entry] else [];
      assert Entries(front) + [] == Entries(front);
      if op.Log? {
        LastOfLast(Entries(front), op.entry, LOG_LENGTH);
      }
    }
  }

  lemma {:induction false} LastOfLast<E>(entries: seq<E>, e: E, n: nat)
    requires n > 0
    ensures LastEntries(LastEntries(entries, n) + [e], n) == LastEntries(entries + [e], n)
  {
  }

  // The client object.

  class Client<Entry> {
    const conf: Config
    var session: Option<Session>
    var files: Files<Entry>
    ghost var exchanges: seq<Exchange>

    ghost function State(): World<Entry>
      reads this
    {
      World(conf, session, files, exchanges)
    }

    /** NewClient, over whatever the state directory holds. */
    constructor (given: Config, apiDefault: string, cdnDefault: string, stored: Files<Entry>)
      requires apiDefault != "" && cdnDefault != ""
      ensures conf.apiBase == (if given.apiBase != "" then given.apiBase else apiDefault) != ""
      ensures conf.cdnBase == (if given.cdnBase != "" then given.cdnBase else cdnDefault) != ""
      ensures files == stored && session == LoadedSession(conf, stored) && exchanges == []
    {
      conf := WithDefaults(given, apiDefault, cdnDefault);
      session := LoadedSession(WithDefaults(given, apiDefault, cdnDefault), stored);
      files := stored;
      exchanges := [];
    }

    method SaveSession(s: Session, now: string)
      modifies this`session, this`files
      ensures session == Some(s.(savedAt := now)) && files == old(files).(session := session)
    {
      var cp := s.(savedAt := now);
      files := files.(session := Some(cp));
      session := Some(cp);
    }

    method InvalidateSession()
      modifies this
      ensures State() == Forgotten(old(State()))
    {
      session := None;
      files := files.(session := None);
      files := files.(sync := None);
      exchanges := exchanges + [Invalidated];
    }

    /** The "confirmed" branch of WaitQRLogin; `baseUrl` has been trimmed. */
    method ConfirmLogin(token: string, botId: string, baseUrl: string, now: string)
      modifies this
      ensures State() == Step(old(State()), Confirm(token, botId, baseUrl, now))
    {
      if token == "" || botId == "" {
        return;
      }
      var s := Session(token, botId, conf.apiBase, conf.cdnBase, "");
      if baseUrl != "" {
        s := s.(baseUrl := baseUrl);
      }
      SaveSession(s, now);
      exchanges := exchanges + [Opened(token)];
    }

    /** One update request, given how the server answers it; the result is the cursor sent. */
    method PollUpdates(reply: Reply) returns (sent: Option<string>)
      modifies this
      ensures State() == Step(old(State()), Poll(reply))
      ensures sent == if LoggedIn(old(State())) then Some(Cursor(old(files))) else None
    {
      if session.None? || !Usable(session.value) {
        return None;
      }
      var syncBuf := Cursor(files);
      sent := Some(syncBuf);
      exchanges := exchanges + [Sent(syncBuf)];
      var buf: string;
      match reply {
        case Unauthorized =>
          InvalidateSession();
          return;
        case OtherError =>
          return;
        case TimedOut =>
          buf := syncBuf;
        case Updates(b) =>
          exchanges := exchanges + [Received(b)];
          buf := b;
      }
      if buf != "" {
        files := files.(sync := Some(buf));
      }
    }

    method AppendMessageLog(e: Entry)
      modifies this`files
      ensures State() == Step(old(State()), Log(e))
    {
      var entries := if files.messages.Some? then files.messages.value else [];
      entries := entries + [e];
      if |entries| > LOG_LENGTH {
        entries := entries[|entries| - LOG_LENGTH..];
      }
      files := files.(messages := Some(entries));
    }
  }
}
