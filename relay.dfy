/** The relay of api.py: the database tables it reads and writes, the shared
    `active_connections` registry and `ping_stats` windows, and one session per
    websocket. Each inbound frame is one atomic step; what a websocket is sent
    is appended to that connection's outbox. */
module Relay {
  import opened Bytes
  import opened Wrappers
  import opened Text
  import opened Codec
  import opened Quota
  import opened Models

  type ConnId = nat
  type Packet = seq<byte>

  /** Close codes: 3000 is in the application range of section 7.4.2 of RFC 6455. */
  const AUTH_FAILURE := 3000
  const NORMAL_CLOSURE := 1000

  /** A `User` row: its username, limit and badge columns, and the client version. */
  datatype UserRow = UserRow(username: string, limits: Limits, version: Option<seq<byte>>)

  /** The tables of models.py keyed by their primary keys; the subscription table as
      the set of its (subscriber, target) pairs. Text is kept as bytes. */
  datatype Db = Db(
    pending: map<string, string>,       // PendingVerification: id -> username
    users: map<Uuid, UserRow>,
    tokens: map<seq<byte>, Uuid>,       // Token: token -> user
    avatars: map<Uuid, seq<byte>>,
    subs: set<(Uuid, Uuid)>)            // Subscription: (user_uuid, target_uuid)

  /** What the code keeps consistent: every token names a user, a user has at most
      one token, usernames are unique, and a username has at most one pending id. */
  ghost predicate DbValid(db: Db) {
    && (forall t :: t in db.tokens ==> db.tokens[t] in db.users)
    && (forall t1, t2 :: t1 in db.tokens && t2 in db.tokens && db.tokens[t1] == db.tokens[t2] ==> t1 == t2)
    && (forall u1, u2 :: u1 in db.users && u2 in db.users && db.users[u1].username == db.users[u2].username ==> u1 == u2)
    && (forall i1, i2 :: i1 in db.pending && i2 in db.pending && db.pending[i1] == db.pending[i2] ==> i1 == i2)
  }

  /** `get_user_by_token`: the token's row, then that row's user. */
  function UserByToken(db: Db, token: seq<byte>): (r: Option<Uuid>)
    ensures r.Some? <==> token in db.tokens && db.tokens[token] in db.users
    ensures r.Some? ==> r.value == db.tokens[token] && r.value in db.users
  {
    if token !in db.tokens then None
    else if db.tokens[token] !in db.users then None
    else Some(db.tokens[token])
  }

  /** In a consistent database the second lookup never misses: a token
      authenticates exactly when it is stored. */
  lemma TokenAuthenticates(db: Db, token: seq<byte>)
    requires DbValid(db)
    ensures UserByToken(db, token).Some? <==> token in db.tokens
    ensures token in db.tokens ==> UserByToken(db, token) == Some(db.tokens[token])
  {
  }

  function TokensOf(db: Db, u: Uuid): set<seq<byte>> {
    set t | t in db.tokens && db.tokens[t] == u
  }

  /** The user with this username, if any. */
  ghost function UserNamed(db: Db, name: string): Option<Uuid> {
    if exists u :: u in db.users && db.users[u].username == name then
      Some(var u :| u in db.users && db.users[u].username == name; u)
    else None
  }

  /** The pending id for this username, if any. */
  ghost function PendingIdOf(db: Db, name: string): Option<string> {
    if exists i :: i in db.pending && db.pending[i] == name then
      Some(var i :| i in db.pending && db.pending[i] == name; i)
    else None
  }

  /** The version part of a `User-Agent` header: the text between the first and the
      second `/`, stripped, kept only when not empty. */
  function UaVersion(ua: seq<byte>): (r: Option<seq<byte>>)
    ensures r.Some? ==> r.value != [] && '/' as byte in ua && '/' as byte !in r.value
    ensures r.Some? ==> !IsSpace(r.value[0]) && !IsSpace(r.value[|r.value| - 1])
  {
    var parts := Split(ua, '/' as byte);
    if |parts| > 1 then
      var v := Strip(parts[1]);
      if v != [] then
        assert '/' as byte in ua by {
          if '/' as byte !in ua {
            SplitWithoutSep(ua, '/' as byte);
          }
        }
        Some(v)
      else None
    else None
  }

  /** A client name, `/`, a version and, optionally, `/` and anything else: the
      version comes back stripped of surrounding whitespace, and a blank one is no
      version at all. */
  lemma UaVersionReads(name: seq<byte>, version: seq<byte>, rest: seq<byte>)
    requires '/' as byte !in name && '/' as byte !in version
    ensures var expected := if Strip(version) == [] then None else Some(Strip(version));
      && UaVersion(name + ['/' as byte] + version) == expected
      && UaVersion(name + ['/' as byte] + version + ['/' as byte] + rest) == expected
  {
    var sl := '/' as byte;
    SplitPrefix(name, sl, [sl] + version);
    assert name + ([sl] + version) == name + [sl] + version;
    SplitPrefix(version, sl, []);
    assert version + [] == version;
    assert Split([sl] + version, sl) == [[]] + Split(version, sl) by {
      assert ([sl] + version)[1..] == version;
    }
    var tail := [sl] + version + [sl] + rest;
    SplitPrefix(name, sl, tail);
    assert name + tail == name + [sl] + version + [sl] + rest;
    assert Split(tail, sl) == [[]] + Split(version + [sl] + rest, sl) by {
      assert tail[1..] == version + [sl] + rest;
    }
    SplitPrefix(version, sl, [sl] + rest);
    assert version + ([sl] + rest) == version + [sl] + rest;
  }

  /** What `get_limits` answers. */
  datatype LimitsReply = Forbidden | ServerError | LimitsOk(limits: Limits, special: seq<int>, pride: seq<int>)

  /** `get_limits`: 403 without a valid token, 500 when a badge column does not
      parse (the `ValueError` escapes the handler), else the row's limits. */
  function GetLimits(db: Db, token: Option<seq<byte>>): (r: LimitsReply)
    ensures r == Forbidden <==> token.None? || token.value == [] || UserByToken(db, token.value).None?
    ensures r.LimitsOk? ==> var u := UserByToken(db, token.value).value;
      && r.limits == db.users[u].limits
      && ParseBadges(r.limits.specialBadges) == Some(r.special)
      && ParseBadges(r.limits.prideBadges) == Some(r.pride)
    ensures r == ServerError <==>
      (&& token.Some? && token.value != [] && UserByToken(db, token.value).Some?
       && var row := db.users[UserByToken(db, token.value).value];
          ParseBadges(row.limits.specialBadges).None? || ParseBadges(row.limits.prideBadges).None?)
  {
    if token.None? || token.value == [] then Forbidden
    else match UserByToken(db, token.value)
      case None => Forbidden
      case Some(u) =>
        var row := db.users[u];
        match (ParseBadges(row.limits.specialBadges), ParseBadges(row.limits.prideBadges))
        case (Some(special), Some(pride)) => LimitsOk(row.limits, special, pride)
        case _ => ServerError
  }

  /** A user whose columns took their defaults reads back the configured badge
      lists, and gets a 500 when either configured list is empty. */
  lemma LimitsOfDefaultUser(db: Db, token: seq<byte>, cfg: Config)
    requires UserByToken(db, token).Some? && token != []
    requires db.users[UserByToken(db, token).value].limits == DefaultsOf(cfg)
    ensures var special := cfg.specialBadges.GetOr(Zeros(6));
      var pride := cfg.prideBadges.GetOr(Zeros(25));
      GetLimits(db, Some(token)) ==
        if special == [] || pride == [] then ServerError
        else LimitsOk(DefaultsOf(cfg), special, pride)
  {
  }


  /** Usernames are unique, so the user named `name` is the one found. */
  lemma UserNamedIs(db: Db, name: string, u: Uuid)
    requires DbValid(db) && u in db.users && db.users[u].username == name
    ensures UserNamed(db, name) == Some(u)
  {
  }

  /** A username has one pending id at most, so the pending id of `name` is the one found. */
  lemma PendingIdIs(db: Db, name: string, id: string)
    requires DbValid(db) && id in db.pending && db.pending[id] == name
    ensures PendingIdOf(db, name) == Some(id)
  {
  }

  /** `verify` for a known username: the user's token is replaced by `newToken` and the
      pending id deleted; the database stays consistent and `newToken` is the user's only token. */
  lemma ReissueKeepsValid(db: Db, u: Uuid, newToken: seq<byte>, id: string)
    requires DbValid(db) && u in db.users && newToken !in db.tokens
    ensures var db' := db.(tokens := (db.tokens - TokensOf(db, u))[newToken := u], pending := db.pending - {id});
      DbValid(db') && TokensOf(db', u) == {newToken} && UserByToken(db', newToken) == Some(u)
  {
  }

  /** `verify` for a new username: a row for an identity not yet in the table, named
      by no other row, and its token `newToken`; the database stays consistent. */
  lemma RegisterKeepsValid(db: Db, v: Uuid, row: UserRow, newToken: seq<byte>, id: string)
    requires DbValid(db) && v !in db.users && newToken !in db.tokens
    requires forall u :: u in db.users ==> db.users[u].username != row.username
    ensures var db' := db.(users := db.users[v := row], tokens := db.tokens[newToken := v], pending := db.pending - {id});
      DbValid(db') && TokensOf(db', v) == {newToken} && UserByToken(db', newToken) == Some(v)
  {
  }

  /** The lifecycle of one websocket. */
  datatype Session = Live(user: Uuid) | Closed(code: int)

  /** `active_connections` only names live connections of the identity they are
      filed under, so no two identities share a connection. */
  ghost predicate RegistryOk(registry: map<Uuid, ConnId>, sessions: map<ConnId, Session>) {
    forall u :: u in registry ==> registry[u] in sessions && sessions[registry[u]] == Live(u)
  }

  /** Every live connection belongs to a user. */
  ghost predicate SessionsOk(sessions: map<ConnId, Session>, users: map<Uuid, UserRow>) {
    forall c :: c in sessions && sessions[c].Live? ==> sessions[c].user in users
  }

  /** Every window belongs to a user and stays within that user's limits. */
  ghost predicate StatsOk(stats: map<Uuid, Window>, users: map<Uuid, UserRow>) {
    forall u :: u in stats ==> u in users && Within(stats[u], users[u].limits.pingRate, users[u].limits.pingSize)
  }

  /** Connection `c` is reached by a fanout for `target`: it is the registered
      connection of a subscriber of `target` (of `target` itself only when
      `toSelf`), and the send to it does not fail. */
  ghost predicate Reaches(sessions: map<ConnId, Session>, registry: map<Uuid, ConnId>, subs: set<(Uuid, Uuid)>,
                          c: ConnId, target: Uuid, toSelf: bool, failed: set<ConnId>)
  {
    && c in sessions && sessions[c].Live?
    && var s := sessions[c].user;
    && s in registry && registry[s] == c
    && (s, target) in subs
    && (s != target || toSelf)
    && c !in failed
  }

  /** The outboxes after `packet` is sent to every connection a fanout reaches. */
  ghost function Fanned(before: map<ConnId, seq<Packet>>, sessions: map<ConnId, Session>,
                        registry: map<Uuid, ConnId>, subs: set<(Uuid, Uuid)>,
                        target: Uuid, toSelf: bool, failed: set<ConnId>, packet: Packet): (r: map<ConnId, seq<Packet>>)
    ensures r.Keys == before.Keys
  {
    map c | c in before :: if Reaches(sessions, registry, subs, c, target, toSelf, failed) then before[c] + [packet] else before[c]
  }

  /** Who a fanout for `target` reaches, among registered identities whose send does not
      fail: exactly the subscribers of `target`, and `target` itself only when `toSelf`
      and it has a subscription row of its own. */
  lemma FanoutReaches(sessions: map<ConnId, Session>, registry: map<Uuid, ConnId>, subs: set<(Uuid, Uuid)>,
                      s: Uuid, target: Uuid, toSelf: bool, failed: set<ConnId>)
    requires RegistryOk(registry, sessions) && s in registry && registry[s] !in failed
    ensures Reaches(sessions, registry, subs, registry[s], target, toSelf, failed) <==> (s, target) in subs && (s != target || toSelf)
  {
  }

  /** Part way through a fanout: `packet` has been appended for exactly the connections
      reached whose subscription row is no longer in `todo`. */
  ghost predicate SentExcept(start: map<ConnId, seq<Packet>>, outbox: map<ConnId, seq<Packet>>, todo: set<(Uuid, Uuid)>,
                             sessions: map<ConnId, Session>, registry: map<Uuid, ConnId>, subs: set<(Uuid, Uuid)>,
                             target: Uuid, toSelf: bool, failed: set<ConnId>, packet: Packet)
  {
    && outbox.Keys == start.Keys
    && forall c :: c in start ==>
         outbox[c] == (if Reaches(sessions, registry, subs, c, target, toSelf, failed) && (sessions[c].user, target) !in todo
                       then start[c] + [packet] else start[c])
  }

  /** Handling the row of subscriber `s` moves it out of `todo`: if `next` adds the
      packet to the subscriber's registered connection exactly when that row sends,
      and leaves every other outbox alone, the rows handled so far now include `s`'s. */
  lemma SendOne(start: map<ConnId, seq<Packet>>, prev: map<ConnId, seq<Packet>>, next: map<ConnId, seq<Packet>>,
                todo: set<(Uuid, Uuid)>, s: Uuid,
                sessions: map<ConnId, Session>, registry: map<Uuid, ConnId>, subs: set<(Uuid, Uuid)>,
                target: Uuid, toSelf: bool, failed: set<ConnId>, packet: Packet)
    requires RegistryOk(registry, sessions) && start.Keys == sessions.Keys && (s, target) in todo && (s, target) in subs
    requires SentExcept(start, prev, todo, sessions, registry, subs, target, toSelf, failed, packet)
    requires next.Keys == prev.Keys
    requires forall c :: c in prev ==>
      next[c] == (if s in registry && c == registry[s] && (s != target || toSelf) && c !in failed
                  then prev[c] + [packet] else prev[c])
    ensures SentExcept(start, next, todo - {(s, target)}, sessions, registry, subs, target, toSelf, failed, packet)
  {
    var sent := s in registry && (s != target || toSelf) && registry[s] !in failed;
    if sent {
      assert sessions[registry[s]] == Live(s);
      assert Reaches(sessions, registry, subs, registry[s], target, toSelf, failed);
    }
    forall c | c in start
      ensures next[c] == (if Reaches(sessions, registry, subs, c, target, toSelf, failed) && (sessions[c].user, target) !in todo - {(s, target)}
                          then start[c] + [packet] else start[c])
    {
      if sent && c == registry[s] {
      } else if Reaches(sessions, registry, subs, c, target, toSelf, failed) {
        assert sessions[c].user != s;
      }
    }
  }

  /** Once no row is left, every connection reached has its packet. */
  lemma SentAll(start: map<ConnId, seq<Packet>>, outbox: map<ConnId, seq<Packet>>,
                sessions: map<ConnId, Session>, registry: map<Uuid, ConnId>, subs: set<(Uuid, Uuid)>,
                target: Uuid, toSelf: bool, failed: set<ConnId>, packet: Packet)
    requires SentExcept(start, outbox, {}, sessions, registry, subs, target, toSelf, failed, packet)
    ensures outbox == Fanned(start, sessions, registry, subs, target, toSelf, failed, packet)
  {
  }

  /** One subscription row of a fanout: skip the target itself unless `toSelf`, look
      the subscriber up in the registry and send, swallowing a failure. */
  method SendRow(outbox: map<ConnId, seq<Packet>>, registry: map<Uuid, ConnId>, s: Uuid,
                 target: Uuid, toSelf: bool, failed: set<ConnId>, packet: Packet)
    returns (next: map<ConnId, seq<Packet>>)
    requires s in registry ==> registry[s] in outbox
    ensures next.Keys == outbox.Keys
    ensures forall c :: c in outbox ==>
      next[c] == (if s in registry && c == registry[s] && (s != target || toSelf) && c !in failed
                  then outbox[c] + [packet] else outbox[c])
  {
    next := outbox;
    if s in registry && (s != target || toSelf) {
      var c := registry[s];
      if c !in failed {
        next := next[c := next[c] + [packet]];
      }
    }
  }

  /** A fanout loop of `websocket_endpoint` or `upload_avatar`: every subscription row
      of `target` in turn. */
  method SendToSubscribers(start: map<ConnId, seq<Packet>>, sessions: map<ConnId, Session>,
                           registry: map<Uuid, ConnId>, subs: set<(Uuid, Uuid)>,
                           target: Uuid, toSelf: bool, failed: set<ConnId>, packet: Packet)
    returns (outbox: map<ConnId, seq<Packet>>)
    requires RegistryOk(registry, sessions) && start.Keys == sessions.Keys
    ensures outbox == Fanned(start, sessions, registry, subs, target, toSelf, failed, packet)
  {
    var rows := set e | e in subs && e.1 == target;
    var todo := rows;
    outbox := start;
    while todo != {}
      invariant todo <= rows
      invariant SentExcept(start, outbox, todo, sessions, registry, subs, target, toSelf, failed, packet)
      decreases todo
    {
      var row :| row in todo;
      var next := SendRow(outbox, registry, row.0, target, toSelf, failed, packet);
      SendOne(start, outbox, next, todo, row.0, sessions, registry, subs, target, toSelf, failed, packet);
      outbox := next;
      todo := todo - {row};
    }
    SentAll(start, outbox, sessions, registry, subs, target, toSelf, failed, packet);
  }

  /** `ping_stats[u]`, which the `defaultdict` creates fresh on first use. */
  function WindowOf(stats: map<Uuid, Window>, u: Uuid): Window {
    if u in stats then stats[u] else FreshWindow
  }

  /** What one inbound frame changes: the subscription table, the windows and the outboxes. */
  datatype Outcome = Outcome(subs: set<(Uuid, Uuid)>, stats: map<Uuid, Window>, outbox: map<ConnId, seq<Packet>>)

  /** One pass of the receive loop of `websocket_endpoint` for frame `f` from user `u` on
      connection `conn`, in wall-clock second `now`. The window is refreshed whatever the
      frame. A well-formed PING is refused with NOTICE(RATE) when one more ping would pass
      the rate limit, or else with NOTICE(SIZE) when its payload would pass the byte limit,
      both sent back on `conn`; otherwise it is counted and fanned out to `u`'s
      subscribers, to `u` itself only if `sync`. A well-formed SUB adds the edge, UNSUB
      removes it, and anything else changes nothing more. */
  ghost function Receive(subs: set<(Uuid, Uuid)>, users: map<Uuid, UserRow>, stats: map<Uuid, Window>,
                         outbox: map<ConnId, seq<Packet>>, sessions: map<ConnId, Session>,
                         registry: map<Uuid, ConnId>, conn: ConnId, u: Uuid, f: ClientFrame,
                         now: int, failed: set<ConnId>): (r: Outcome)
    requires u in users && conn in outbox
    ensures r.outbox.Keys == outbox.Keys && r.stats.Keys == stats.Keys + {u} && r.stats[u].reset == now
    ensures forall v :: v in stats && v != u ==> r.stats[v] == stats[v]
    ensures !f.SubFrame? && !f.UnsubFrame? ==> r.subs == subs
  {
    var w := Refresh(WindowOf(stats, u), now);
    match f
    case PingFrame(Some(p)) =>
      var lim := users[u].limits;
      var charged := Charge(w, |p.data|, lim.pingRate, lim.pingSize);
      if charged.0 == RateExceeded then
        Outcome(subs, stats[u := w], outbox[conn := outbox[conn] + [NoticePacket(NOTICE_RATE)]])
      else if charged.0 == SizeExceeded then
        Outcome(subs, stats[u := w], outbox[conn := outbox[conn] + [NoticePacket(NOTICE_SIZE)]])
      else
        Outcome(subs, stats[u := charged.1],
                Fanned(outbox, sessions, registry, subs, u, p.sync, failed, PingPacket(u, p.id, p.sync, p.data)))
    case SubFrame(Some(t)) => Outcome(subs + {(u, t)}, stats[u := w], outbox)
    case UnsubFrame(Some(t)) => Outcome(subs - {(u, t)}, stats[u := w], outbox)
    case _ => Outcome(subs, stats[u := w], outbox)
  }

  /** The receive loop body of `websocket_endpoint` on the values it reads and writes. */
  method ReceiveFrame(subs: set<(Uuid, Uuid)>, users: map<Uuid, UserRow>, stats: map<Uuid, Window>,
                      outbox: map<ConnId, seq<Packet>>, sessions: map<ConnId, Session>,
                      registry: map<Uuid, ConnId>, conn: ConnId, u: Uuid, f: ClientFrame,
                      now: int, failed: set<ConnId>) returns (r: Outcome)
    requires u in users && conn in outbox
    requires RegistryOk(registry, sessions) && outbox.Keys == sessions.Keys
    ensures r == Receive(subs, users, stats, outbox, sessions, registry, conn, u, f, now, failed)
  {
    var lim := users[u].limits;
    var w := Refresh(WindowOf(stats, u), now);
    var windows: map<Uuid, Window> := stats[u := w];
    match f {
      case PingFrame(Some(p)) =>
        var charged := Charge(w, |p.data|, lim.pingRate, lim.pingSize);
        if charged.0 == RateExceeded {
          r := Outcome(subs, windows, outbox[conn := outbox[conn] + [NoticePacket(NOTICE_RATE)]]);
        } else if charged.0 == SizeExceeded {
          r := Outcome(subs, windows, outbox[conn := outbox[conn] + [NoticePacket(NOTICE_SIZE)]]);
        } else {
          var out := SendToSubscribers(outbox, sessions, registry, subs, u, p.sync, failed, PingPacket(u, p.id, p.sync, p.data));
          r := Outcome(subs, stats[u := charged.1], out);
        }
      case SubFrame(Some(t)) =>
        var edges := subs;
        if (u, t) !in edges {
          edges := edges + {(u, t)};
        }
        r := Outcome(edges, windows, outbox);
      case UnsubFrame(Some(t)) =>
        r := Outcome(subs - {(u, t)}, windows, outbox);
      case _ =>
        r := Outcome(subs, windows, outbox);
    }
  }

  /** The receive loop keeps every window within its user's limits and every
      connection's outbox in place. */
  lemma ReceiveKeepsWindows(subs: set<(Uuid, Uuid)>, users: map<Uuid, UserRow>, stats: map<Uuid, Window>,
                            outbox: map<ConnId, seq<Packet>>, sessions: map<ConnId, Session>,
                            registry: map<Uuid, ConnId>, conn: ConnId, u: Uuid, f: ClientFrame,
                            now: int, failed: set<ConnId>)
    requires u in users && conn in outbox && StatsOk(stats, users)
    ensures var r := Receive(subs, users, stats, outbox, sessions, registry, conn, u, f, now, failed);
      StatsOk(r.stats, users) && r.outbox.Keys == outbox.Keys
  {
    var lim := users[u].limits;
    var size := if f.PingFrame? && f.body.Some? then |f.body.value.data| else 0;
    WithinPreserved(WindowOf(stats, u), now, size, lim.pingRate, lim.pingSize);
  }

  class Server {
    const config: Config
    var db: Db
    var registry: map<Uuid, ConnId>         // active_connections
    var stats: map<Uuid, Window>            // ping_stats
    var sessions: map<ConnId, Session>
    var outbox: map<ConnId, seq<Packet>>

    ghost predicate Valid()
      reads this
    {
      && DbValid(db)
      && sessions.Keys == outbox.Keys
      && RegistryOk(registry, sessions)
      && SessionsOk(sessions, db.users)
      && StatsOk(stats, db.users)
    }

    constructor (config: Config)
      ensures Valid() && this.config == config
      ensures db == Db(map[], map[], map[], map[], {})
      ensures registry == map[] && stats == map[] && sessions == map[] && outbox == map[]
    {
      this.config := config;
      db := Db(map[], map[], map[], map[], {});
      registry, stats, sessions, outbox := map[], map[], map[], map[];
    }

    /** The start of `websocket_endpoint`: the first frame must be a TOKEN frame whose
        cleaned token is not empty and names a user; then the connection is filed
        under that user, replacing any earlier one, and AUTH is the first packet sent.
        Otherwise the connection is closed with 3000 and nothing is registered. */
    method Handshake(conn: ConnId, first: seq<byte>) returns (ok: bool)
      requires Valid() && conn !in sessions
      modifies this`registry, this`sessions, this`outbox
      ensures Valid()
      ensures var f := Parse(first);
        ok <==> f.TokenFrame? && f.token != [] && UserByToken(db, f.token).Some?
      ensures ok ==> var u := UserByToken(db, Parse(first).token).value;
        && registry == old(registry)[u := conn]
        && sessions == old(sessions)[conn := Live(u)]
        && outbox == old(outbox)[conn := [AuthPacket()]]
      ensures !ok ==>
        && registry == old(registry)
        && sessions == old(sessions)[conn := Closed(AUTH_FAILURE)]
        && outbox == old(outbox)[conn := []]
    {
      var f := Parse(first);
      var user := if f.TokenFrame? && f.token != [] then UserByToken(db, f.token) else None;
      if user.None? {
        sessions := sessions[conn := Closed(AUTH_FAILURE)];
        outbox := outbox[conn := []];
        return false;
      }
      var u := user.value;
      registry := registry[u := conn];
      sessions := sessions[conn := Live(u)];
      outbox := outbox[conn := [AuthPacket()]];
      ok := true;
    }

    /** One pass of the receive loop of `websocket_endpoint`, as `Receive` says. */
    method Step(conn: ConnId, frame: seq<byte>, now: int, failed: set<ConnId>)
      requires Valid() && conn in sessions && sessions[conn].Live?
      modifies this`db, this`stats, this`outbox
      ensures Valid()
      ensures var r := old(Receive(db.subs, db.users, stats, outbox, sessions, registry,
                                   conn, sessions[conn].user, Parse(frame), now, failed));
        db == old(db).(subs := r.subs) && stats == r.stats && outbox == r.outbox
    {
      var u := sessions[conn].user;
      var f := Parse(frame);
      var r := ReceiveFrame(db.subs, db.users, stats, outbox, sessions, registry, conn, u, f, now, failed);
      ReceiveKeepsWindows(db.subs, db.users, stats, outbox, sessions, registry, conn, u, f, now, failed);
      db, stats, outbox := db.(subs := r.subs), r.stats, r.outbox;
    }

    /** The `finally` of `websocket_endpoint`: the identity's registry entry is
        removed whichever connection it points to, and the session is recorded as
        ended; the window stays. Whether a close frame actually goes out
        (`client_state`) is not modelled. */
    method Close(conn: ConnId)
      requires Valid() && conn in sessions
      modifies this`registry, this`sessions
      ensures Valid()
      ensures old(sessions[conn]).Live? ==>
        && registry == old(registry) - {old(sessions[conn]).user}
        && sessions == old(sessions)[conn := Closed(NORMAL_CLOSURE)]
      ensures old(sessions[conn]).Closed? ==> registry == old(registry) && sessions == old(sessions)
    {
      if sessions[conn].Live? {
        registry := registry - {sessions[conn].user};
        sessions := sessions[conn := Closed(NORMAL_CLOSURE)];
      }
    }

    /** `get_auth_id`: the pending id already issued for this username, or else
        `freshId` newly recorded for it. */
    method GetAuthId(username: string, freshId: string) returns (id: string)
      requires Valid() && freshId !in db.pending
      modifies this`db
      ensures Valid()
      ensures id in db.pending && db.pending[id] == username
      ensures PendingIdOf(old(db), username).Some? ==> id == PendingIdOf(old(db), username).value && db == old(db)
      ensures PendingIdOf(old(db), username).None? ==>
        id == freshId && db == old(db).(pending := old(db.pending)[freshId := username])
    {
      if exists i :: i in db.pending && db.pending[i] == username {
        id :| id in db.pending && db.pending[id] == username;
        PendingIdIs(db, username, id);
        return;
      }
      db := db.(pending := db.pending[freshId := username]);
      id := freshId;
    }

    /** `verify`. An unknown id gives 400. A username that already has a user gets
        `freshToken` in place of its old token, and the pending id is deleted. A new
        username needs the identity service's answer (`mojang`, `None` for a refusal:
        403): the user is created with the configured defaults, given `freshToken`, and
        the pending id deleted; an identity that already has a row makes the insert
        fail (500) and nothing is kept. */
    method Verify(id: string, freshToken: seq<byte>, mojang: Option<Uuid>) returns (status: int, token: seq<byte>)
      requires Valid() && freshToken !in db.tokens
      modifies this`db
      ensures Valid()
      ensures id !in old(db.pending) ==> status == 400 && db == old(db)
      ensures id in old(db.pending) && UserNamed(old(db), old(db.pending)[id]).Some? ==>
        var u := UserNamed(old(db), old(db.pending)[id]).value;
        && status == 200 && token == freshToken
        && db == old(db).(tokens := (old(db.tokens) - TokensOf(old(db), u))[freshToken := u],
                          pending := old(db.pending) - {id})
      ensures id in old(db.pending) && UserNamed(old(db), old(db.pending)[id]).None? ==>
        if mojang.None? then status == 403 && db == old(db)
        else if mojang.value in old(db.users) then status == 500 && db == old(db)
        else
          && status == 200 && token == freshToken
          && db == old(db).(users := old(db.users)[mojang.value := UserRow(old(db.pending)[id], DefaultsOf(config), None)],
                            tokens := old(db.tokens)[freshToken := mojang.value],
                            pending := old(db.pending) - {id})
      ensures status == 200 ==> UserByToken(db, token).Some? && TokensOf(db, UserByToken(db, token).value) == {token}
    {
      if id !in db.pending {
        return 400, [];
      }
      var name := db.pending[id];
      if exists u :: u in db.users && db.users[u].username == name {
        var u :| u in db.users && db.users[u].username == name;
        UserNamedIs(db, name, u);
        ReissueKeepsValid(db, u, freshToken, id);
        db := db.(tokens := (db.tokens - TokensOf(db, u))[freshToken := u], pending := db.pending - {id});
        return 200, freshToken;
      }
      if mojang.None? {
        return 403, [];
      }
      var v := mojang.value;
      if v in db.users {
        return 500, [];
      }
      var row := UserRow(name, DefaultsOf(config), None);
      RegisterKeepsValid(db, v, row, freshToken, id);
      db := db.(users := db.users[v := row], tokens := db.tokens[freshToken := v], pending := db.pending - {id});
      return 200, freshToken;
    }

    /** `upload_avatar`: 403 without a valid token; 413, with nothing stored or sent,
        when the body exceeds the user's `max_avatar_size`; otherwise the avatar is
        stored (replacing any earlier one) and EVENT is sent to the user's
        subscribers other than the user. */
    method UploadAvatar(token: Option<seq<byte>>, data: seq<byte>, failed: set<ConnId>) returns (status: int)
      requires Valid()
      modifies this`db, this`outbox
      ensures Valid()
      ensures var user := if token.Some? then UserByToken(old(db), token.value) else None;
        if user.None? then status == 403 && db == old(db) && outbox == old(outbox)
        else if |data| > old(db).users[user.value].limits.maxAvatarSize then
          status == 413 && db == old(db) && outbox == old(outbox)
        else
          && status == 200
          && db == old(db).(avatars := old(db.avatars)[user.value := data])
          && outbox == Fanned(old(outbox), sessions, registry, db.subs, user.value, false, failed, EventPacket(user.value))
    {
      var user := if token.Some? then UserByToken(db, token.value) else None;
      if user.None? {
        return 403;
      }
      var u := user.value;
      if |data| > db.users[u].limits.maxAvatarSize {
        return 413;
      }
      db := db.(avatars := db.avatars[u := data]);
      outbox := SendToSubscribers(outbox, sessions, registry, db.subs, u, false, failed, EventPacket(u));
      status := 200;
    }

    /** `delete_avatar`: 403 without a valid token, 404 when the user has no avatar,
        otherwise the avatar is deleted. */
    method DeleteAvatar(token: Option<seq<byte>>) returns (status: int)
      requires Valid()
      modifies this`db
      ensures Valid()
      ensures var user := if token.Some? then UserByToken(old(db), token.value) else None;
        if user.None? then status == 403 && db == old(db)
        else if user.value !in old(db.avatars) then status == 404 && db == old(db)
        else status == 200 && db == old(db).(avatars := old(db.avatars) - {user.value})
    {
      var user := if token.Some? then UserByToken(db, token.value) else None;
      if user.None? {
        return 403;
      }
      if user.value !in db.avatars {
        return 404;
      }
      db := db.(avatars := db.avatars - {user.value});
      status := 200;
    }

    /** The state update of `get_motd`: 403 without a (non-empty) valid token;
        otherwise the user's version becomes the user agent's version when it has one. */
    method Motd(token: Option<seq<byte>>, userAgent: seq<byte>) returns (status: int)
      requires Valid()
      modifies this`db
      ensures Valid()
      ensures var user := if token.Some? && token.value != [] then UserByToken(old(db), token.value) else None;
        if user.None? then status == 403 && db == old(db)
        else
          var row := old(db).users[user.value];
          && status == 200
          && db == old(db).(users := old(db.users)[user.value :=
               if UaVersion(userAgent).Some? then row.(version := UaVersion(userAgent)) else row])
    {
      var user := if token.Some? && token.value != [] then UserByToken(db, token.value) else None;
      if user.None? {
        return 403;
      }
      var u := user.value;
      var version := UaVersion(userAgent);
      if version.Some? {
        db := db.(users := db.users[u := db.users[u].(version := version)]);
      }
      status := 200;
    }
  }
}
