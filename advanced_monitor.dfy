/** The online-status monitor of services/advanced_monitor.py: connections
    keyed `src_ip:dport`, the port-to-user lookup with its `unknown_<port>`
    fallback, the online flags and connection counters rebuilt from the
    current connections, the session rows upserted per connection, and the
    ten-minute session expiry. */
module AdvancedMonitor {
  import opened Wrappers
  import opened Text
  import opened Seqs
  import opened OrderedDicts
  import opened Accounts

  /** Sessions idle longer than this many seconds are marked inactive. */
  const SessionIdle: int := 600

  // ----- get_detailed_connections -----

  /** One value of the `connections` dict. */
  datatype Detail = Detail(srcIp: string, dstIp: Option<string>, sport: Option<string>, dport: string, lastSeen: int)

  /** The dict key `f"{src_ip}:{dport}"`. */
  function DetailKey(c: Detail): string {
    JoinColon(c.srcIp, c.dport)
  }

  /** The entry one line yields: the line must contain `src=` and `dport=`,
      the last token of each key wins, and the address and destination port
      must be non-empty. */
  function DetailOf(line: string, now: int): (r: Option<Detail>)
    ensures r.Some? ==> (Contains(line, "src=") && Contains(line, "dport=")
      && r.value.srcIp != "" && r.value.dport != "" && r.value.lastSeen == now)
  {
    if Contains(line, "src=") && Contains(line, "dport=") then
      var parts := Words(line);
      var src := LastValue(parts, "src=");
      var dport := LastValue(parts, "dport=");
      if src.Some? && src.value != "" && dport.Some? && dport.value != "" then
        Some(Detail(src.value, LastValue(parts, "dst="), LastValue(parts, "sport="), dport.value, now))
      else None
    else None
  }

  /** Which tokens decide an entry. */
  lemma DetailOfSpec(line: string, now: int)
    ensures var parts := Words(line);
      DetailOf(line, now).Some? ==>
        DecidedBy(parts, "src=", DetailOf(line, now).value.srcIp)
        && DecidedBy(parts, "dport=", DetailOf(line, now).value.dport)
    ensures var parts := Words(line);
      (forall i :: 0 <= i < |parts| ==> !StartsWith(parts[i], "src="))
      || (forall i :: 0 <= i < |parts| ==> !StartsWith(parts[i], "dport="))
      ==> DetailOf(line, now).None?
  {
    var parts := Words(line);
    LastValueSpec(parts, "src=");
    LastValueSpec(parts, "dport=");
  }

  /** The `connections` dict after these lines. */
  function DetailsOf(lines: seq<string>, now: int): (d: ODict<string, Detail>)
    ensures d.Valid()
    ensures forall k :: k in d.vals ==> k == DetailKey(d.vals[k])
    decreases |lines|
  {
    if lines == [] then Empty()
    else
      var d := DetailsOf(lines[..|lines| - 1], now);
      match DetailOf(lines[|lines| - 1], now)
      case Some(c) => d.Put(DetailKey(c), c)
      case None => d
  }

  /** Each line's entry is in the dict under its key, and every entry is the
      entry of some line. */
  lemma DetailsOfSpec(lines: seq<string>, now: int)
    ensures forall i :: 0 <= i < |lines| && DetailOf(lines[i], now).Some? ==>
      DetailKey(DetailOf(lines[i], now).value) in DetailsOf(lines, now).vals
    ensures forall k :: k in DetailsOf(lines, now).vals ==>
      exists i :: 0 <= i < |lines| && DetailOf(lines[i], now) == Some(DetailsOf(lines, now).vals[k])
  {
    DetailsCover(lines, now);
    DetailsFrom(lines, now);
  }

  lemma {:induction false} DetailsCover(lines: seq<string>, now: int)
    ensures forall i :: 0 <= i < |lines| && DetailOf(lines[i], now).Some? ==>
      DetailKey(DetailOf(lines[i], now).value) in DetailsOf(lines, now).vals
    decreases |lines|
  {
    if lines != [] {
      var init := lines[..|lines| - 1];
      var d := DetailsOf(init, now);
      var last := DetailOf(lines[|lines| - 1], now);
      DetailsCover(init, now);
      assert d.vals.Keys <= DetailsOf(lines, now).vals.Keys;
      forall i | 0 <= i < |lines| && DetailOf(lines[i], now).Some?
        ensures DetailKey(DetailOf(lines[i], now).value) in DetailsOf(lines, now).vals
      {
        if i < |init| {
          assert init[i] == lines[i];
          assert DetailKey(DetailOf(lines[i], now).value) in d.vals;
        }
      }
    }
  }

  lemma {:induction false} DetailsFrom(lines: seq<string>, now: int)
    ensures forall k :: k in DetailsOf(lines, now).vals ==>
      exists i :: 0 <= i < |lines| && DetailOf(lines[i], now) == Some(DetailsOf(lines, now).vals[k])
    decreases |lines|
  {
    if lines != [] {
      var init := lines[..|lines| - 1];
      var d := DetailsOf(init, now);
      var last := DetailOf(lines[|lines| - 1], now);
      DetailsFrom(init, now);
      forall k | k in DetailsOf(lines, now).vals
        ensures exists i :: 0 <= i < |lines| && DetailOf(lines[i], now) == Some(DetailsOf(lines, now).vals[k])
      {
        if last.Some? && k == DetailKey(last.value) {
          assert DetailOf(lines[|lines| - 1], now) == Some(DetailsOf(lines, now).vals[k]);
        } else {
          var i :| 0 <= i < |init| && DetailOf(init[i], now) == Some(d.vals[k]);
          DetailWitness(lines, now, i, d.vals[k]);
        }
      }
    }
  }

  /** A line of the prefix is a line of the whole output. */
  lemma DetailWitness(lines: seq<string>, now: int, i: int, v: Detail)
    requires 0 <= i < |lines| - 1 && DetailOf(lines[..|lines| - 1][i], now) == Some(v)
    ensures exists j :: 0 <= j < |lines| && DetailOf(lines[j], now) == Some(v)
  {
    assert lines[i] == lines[..|lines| - 1][i];
  }

  /** get_detailed_connections, given the output of `conntrack -L -p udp`. */
  function Details(stdout: string, now: int): ODict<string, Detail> {
    DetailsOf(VpnLines(stdout), now)
  }

  /** The parsing loop of get_detailed_connections. */
  method ParseDetails(stdout: string, now: int) returns (conns: ODict<string, Detail>)
    ensures conns == Details(stdout, now)
  {
    var lines := VpnLines(stdout);
    conns := Empty();
    var i := 0;
    while i < |lines|
      invariant 0 <= i <= |lines|
      invariant conns == DetailsOf(lines[..i], now)
    {
      assert lines[..i + 1][..i] == lines[..i];
      var line := lines[i];
      if Contains(line, "src=") && Contains(line, "dport=") {
        var srcIp, dstIp, sport, dport := ScanFields(Words(line));
        if srcIp.Some? && srcIp.value != "" && dport.Some? && dport.value != "" {
          var c := Detail(srcIp.value, dstIp, sport, dport.value, now);
          conns := conns.Put(DetailKey(c), c);
        }
      }
      i := i + 1;
    }
    assert lines[..i] == lines;
  }

  // ----- map_port_to_user -----

  /** `SELECT username FROM users WHERE port = ? OR ? = "5667"`, fetchone,
      falling back to `f"unknown_{port}"`. */
  function MapPortToUser(users: seq<User>, port: string): (r: string)
    ensures port == DefaultPort && users != [] ==> r == users[0].username
    ensures port != DefaultPort ==>
      ((forall i :: 0 <= i < |users| ==> users[i].port != Some(port)) ==> r == "unknown_" + port)
      && ((exists i :: 0 <= i < |users| && users[i].port == Some(port)) ==>
            exists i :: 0 <= i < |users| && FirstWithPort(users, port, i) && r == users[i].username)
    ensures users == [] ==> r == "unknown_" + port
  {
    match FirstIndex(users, PortOrDefault(port))
    case Some(i) => users[i].username
    case None => "unknown_" + port
  }

  /** The test `username and not username.startswith('unknown')`, as written:
      the name counts when it is non-empty and does not start with
      "unknown". */
  function OwnerAsWritten(users: seq<User>, port: string): Option<string> {
    var name := MapPortToUser(users, port);
    if name != "" && !StartsWith(name, "unknown") then Some(name) else None
  }

  /** The corrected test: the name counts when the lookup found a row and its
      name is non-empty. */
  function Owner(users: seq<User>, port: string): (r: Option<string>)
    ensures r.Some? <==> (FirstIndex(users, PortOrDefault(port)).Some?
      && users[FirstIndex(users, PortOrDefault(port)).value].username != "")
    ensures r.Some? ==> r.value == MapPortToUser(users, port)
  {
    match FirstIndex(users, PortOrDefault(port))
    case Some(i) => if users[i].username != "" then Some(users[i].username) else None
    case None => None
  }

  /** The two tests agree except on real users whose name starts with
      "unknown", whom the test as written never counts; the fallback name is
      rejected by both. */
  lemma OwnerTests(users: seq<User>, port: string)
    ensures OwnerAsWritten(users, port).Some? ==> Owner(users, port) == OwnerAsWritten(users, port)
    ensures Owner(users, port).Some? && !StartsWith(Owner(users, port).value, "unknown") ==>
      OwnerAsWritten(users, port) == Owner(users, port)
    ensures FirstIndex(users, PortOrDefault(port)).None? ==>
      OwnerAsWritten(users, port).None? && Owner(users, port).None?
  {
    if FirstIndex(users, PortOrDefault(port)).None? {
      assert ("unknown_" + port)[..7] == "unknown";
    }
  }

  /** A user named "unknown_fan" on port 7000 is found by the lookup but never
      counted by the test as written. */
  lemma UnknownPrefixMissed()
    ensures var users := [User("unknown_fan", Some("pw"), Active, None, Some("7000"), 1, 0, Some(0), false, 0, None, None)];
      OwnerAsWritten(users, "7000").None? && Owner(users, "7000") == Some("unknown_fan")
  {
    var users := [User("unknown_fan", Some("pw"), Active, None, Some("7000"), 1, 0, Some(0), false, 0, None, None)];
    assert PortOrDefault("7000")(users[0]);
    assert "unknown_fan"[..7] == "unknown";
  }

  // ----- update_online_status -----

  /** One user row after the reset and the updates for these connections, in
      order: each connection owned by the row's name marks it online, stamps
      the login time and address, and counts one connection. */
  function RowAfter(users: seq<User>, u: User, conns: seq<Detail>, now: int): (r: User)
    ensures r.username == u.username
    decreases |conns|
  {
    if conns == [] then u.(isOnline := false)
    else
      var r := RowAfter(users, u, conns[..|conns| - 1], now);
      var c := conns[|conns| - 1];
      if Owner(users, c.dport) == Some(u.username) then
        r.(isOnline := true, lastLogin := Some(now), lastIp := Some(c.srcIp), totalConnections := r.totalConnections + 1)
      else r
  }

  /** The table after update_online_status for these connections. */
  function OnlineTable(users: seq<User>, conns: seq<Detail>, now: int): (r: seq<User>)
    ensures |r| == |users| && forall i :: 0 <= i < |r| ==> r[i] == RowAfter(users, users[i], conns, now)
  {
    seq(|users|, i requires 0 <= i < |users| => RowAfter(users, users[i], conns, now))
  }

  /** The connections owned by name. */
  function OwnedBy(users: seq<User>, name: string): Detail -> bool {
    (c: Detail) => Owner(users, c.dport) == Some(name)
  }

  /** The address of the last connection owned by name. */
  function LastOwnedIp(users: seq<User>, conns: seq<Detail>, name: string): Option<string>
    decreases |conns|
  {
    if conns == [] then None
    else if OwnedBy(users, name)(conns[|conns| - 1]) then Some(conns[|conns| - 1].srcIp)
    else LastOwnedIp(users, conns[..|conns| - 1], name)
  }

  /** A row ends online exactly when some current connection is owned by its
      name; its counter grows by the number of such connections; its login
      time and address are those of the last such connection, and are
      unchanged when there is none; nothing else in the row changes. */
  lemma {:induction false} RowAfterSpec(users: seq<User>, u: User, conns: seq<Detail>, now: int)
    ensures var r := RowAfter(users, u, conns, now);
      (r.isOnline <==> Count(conns, OwnedBy(users, u.username)) > 0)
      && r.totalConnections == u.totalConnections + Count(conns, OwnedBy(users, u.username))
      && r.lastIp == (if Count(conns, OwnedBy(users, u.username)) > 0 then LastOwnedIp(users, conns, u.username) else u.lastIp)
      && r.lastLogin == (if Count(conns, OwnedBy(users, u.username)) > 0 then Some(now) else u.lastLogin)
      && r == u.(isOnline := r.isOnline, totalConnections := r.totalConnections, lastIp := r.lastIp, lastLogin := r.lastLogin)
    decreases |conns|
  {
    if conns != [] {
      RowAfterSpec(users, u, conns[..|conns| - 1], now);
    }
  }

  /** After the update a row is online exactly when some current connection
      is owned by its name, and its counter has grown by the number of those
      connections. */
  lemma OnlineTableSpec(users: seq<User>, conns: seq<Detail>, now: int, i: int)
    requires 0 <= i < |users|
    ensures var r := OnlineTable(users, conns, now)[i];
      (r.isOnline <==> exists j :: 0 <= j < |conns| && Owner(users, conns[j].dport) == Some(users[i].username))
      && r.totalConnections == users[i].totalConnections + Count(conns, OwnedBy(users, users[i].username))
  {
    var p := OwnedBy(users, users[i].username);
    RowAfterSpec(users, users[i], conns, now);
    if exists j :: 0 <= j < |conns| && Owner(users, conns[j].dport) == Some(users[i].username) {
      var j :| 0 <= j < |conns| && Owner(users, conns[j].dport) == Some(users[i].username);
      assert p(conns[j]);
      assert conns[j] in Filter(conns, p);
    }
    if Count(conns, p) > 0 {
      var f := Filter(conns, p);
      assert f[0] in conns && p(f[0]);
      var j :| 0 <= j < |conns| && conns[j] == f[0];
      assert Owner(users, conns[j].dport) == Some(users[i].username);
    }
  }

  /** `UPDATE users SET is_online = 1, last_login = ?, last_ip = ?`. */
  function MarkOnline(now: int, ip: string): User -> User {
    (u: User) => u.(isOnline := true, lastLogin := Some(now), lastIp := Some(ip))
  }

  /** `UPDATE users SET total_connections = total_connections + 1`. */
  function CountConnection(): User -> User {
    (u: User) => u.(totalConnections := u.totalConnections + 1)
  }

  /** `UPDATE users SET is_online = 0`. */
  function ResetOnline(users: seq<User>): (r: seq<User>)
    ensures |r| == |users| && forall i :: 0 <= i < |r| ==> r[i] == users[i].(isOnline := false)
  {
    seq(|users|, i requires 0 <= i < |users| => users[i].(isOnline := false))
  }

  /** The user updates of update_online_status. */
  method UpdateUsers(users: seq<User>, conns: seq<Detail>, now: int) returns (after: seq<User>)
    ensures after == OnlineTable(users, conns, now)
  {
    after := ResetOnline(users);
    OnlineStart(users, conns, now);
    var i := 0;
    while i < |conns|
      invariant 0 <= i <= |conns|
      invariant after == OnlineTable(users, conns[..i], now)
    {
      var c := conns[i];
      var username := Owner(users, c.dport);
      if username.Some? {
        OnlineStep(users, conns, i, now, username.value);
        after := UpdateWhereName(after, username.value, MarkOnline(now, c.srcIp));
        after := UpdateWhereName(after, username.value, CountConnection());
      } else {
        OnlineSkip(users, conns, i, now);
      }
      i := i + 1;
    }
    assert conns[..i] == conns;
  }

  /** Before any connection the table is the reset one. */
  lemma OnlineStart(users: seq<User>, conns: seq<Detail>, now: int)
    ensures OnlineTable(users, conns[..0], now) == ResetOnline(users)
  {
    assert conns[..0] == [];
    var a := OnlineTable(users, conns[..0], now);
    forall j | 0 <= j < |users| ensures a[j] == ResetOnline(users)[j] { }
  }

  /** A connection owned by name updates exactly the rows of that name. */
  lemma OnlineStep(users: seq<User>, conns: seq<Detail>, i: int, now: int, name: string)
    requires 0 <= i < |conns| && Owner(users, conns[i].dport) == Some(name)
    ensures OnlineTable(users, conns[..i + 1], now) ==
      UpdateWhereName(UpdateWhereName(OnlineTable(users, conns[..i], now), name, MarkOnline(now, conns[i].srcIp)), name, CountConnection())
  {
    assert conns[..i + 1][..i] == conns[..i];
    var a := OnlineTable(users, conns[..i + 1], now);
    var b := UpdateWhereName(UpdateWhereName(OnlineTable(users, conns[..i], now), name, MarkOnline(now, conns[i].srcIp)), name, CountConnection());
    forall j | 0 <= j < |users| ensures a[j] == b[j] {
      assert conns[..i + 1][i] == conns[i];
    }
  }

  /** A connection nobody owns changes nothing. */
  lemma OnlineSkip(users: seq<User>, conns: seq<Detail>, i: int, now: int)
    requires 0 <= i < |conns| && Owner(users, conns[i].dport).None?
    ensures OnlineTable(users, conns[..i + 1], now) == OnlineTable(users, conns[..i], now)
  {
    assert conns[..i + 1][..i] == conns[..i];
    var a := OnlineTable(users, conns[..i + 1], now);
    var b := OnlineTable(users, conns[..i], now);
    forall j | 0 <= j < |users| ensures a[j] == b[j] {
      assert conns[..i + 1][i] == conns[i];
    }
  }

  // ----- user_sessions -----

  /** A row of `user_sessions` as this monitor writes it, keyed by
      `session_id`. */
  datatype SessionRow = SessionRow(username: string, sessionId: string, clientIp: string, lastActivity: int, isActive: bool)

  /** The session table after the upserts for these connections. */
  function SessionsAfter(users: seq<User>, sessions: map<string, SessionRow>, conns: seq<Detail>, now: int): map<string, SessionRow>
    decreases |conns|
  {
    if conns == [] then sessions
    else
      var s := SessionsAfter(users, sessions, conns[..|conns| - 1], now);
      var c := conns[|conns| - 1];
      match Owner(users, c.dport)
      case Some(name) => s[DetailKey(c) := SessionRow(name, DetailKey(c), c.srcIp, now, true)]
      case None => s
  }

  /** Every owned connection leaves an active session under its key, stamped
      now; a key no owned connection has keeps its row (or stays absent). */
  lemma SessionsAfterSpec(users: seq<User>, sessions: map<string, SessionRow>, conns: seq<Detail>, now: int)
    ensures forall i :: 0 <= i < |conns| && Owner(users, conns[i].dport).Some? ==>
      var s := SessionsAfter(users, sessions, conns, now);
      DetailKey(conns[i]) in s && s[DetailKey(conns[i])].isActive && s[DetailKey(conns[i])].lastActivity == now
      && s[DetailKey(conns[i])].sessionId == DetailKey(conns[i])
    ensures forall k :: (forall i :: 0 <= i < |conns| && Owner(users, conns[i].dport).Some? ==> DetailKey(conns[i]) != k) ==>
      var s := SessionsAfter(users, sessions, conns, now);
      (k in s <==> k in sessions) && (k in s ==> s[k] == sessions[k])
  {
    SessionsAfterCovers(users, sessions, conns, now);
    SessionsAfterKeeps(users, sessions, conns, now);
  }

  /** The row an owned connection leaves behind. */
  predicate Stamped(s: map<string, SessionRow>, key: string, now: int) {
    key in s && s[key].isActive && s[key].lastActivity == now && s[key].sessionId == key
  }

  lemma {:induction false} SessionsAfterCovers(users: seq<User>, sessions: map<string, SessionRow>, conns: seq<Detail>, now: int)
    ensures forall i :: 0 <= i < |conns| && Owner(users, conns[i].dport).Some? ==>
      Stamped(SessionsAfter(users, sessions, conns, now), DetailKey(conns[i]), now)
    decreases |conns|
  {
    if conns != [] {
      var n := |conns| - 1;
      var init := conns[..n];
      var c := conns[n];
      var s0 := SessionsAfter(users, sessions, init, now);
      var s := SessionsAfter(users, sessions, conns, now);
      SessionsAfterCovers(users, sessions, init, now);
      forall i | 0 <= i < |conns| && Owner(users, conns[i].dport).Some?
        ensures Stamped(s, DetailKey(conns[i]), now)
      {
        if i < n {
          assert init[i] == conns[i];
          assert Stamped(s0, DetailKey(conns[i]), now);
        }
      }
    }
  }

  lemma {:induction false} SessionsAfterKeeps(users: seq<User>, sessions: map<string, SessionRow>, conns: seq<Detail>, now: int)
    ensures forall k :: (forall i :: 0 <= i < |conns| && Owner(users, conns[i].dport).Some? ==> DetailKey(conns[i]) != k) ==>
      var s := SessionsAfter(users, sessions, conns, now);
      (k in s <==> k in sessions) && (k in s ==> s[k] == sessions[k])
    decreases |conns|
  {
    if conns != [] {
      var n := |conns| - 1;
      var init := conns[..n];
      SessionsAfterKeeps(users, sessions, init, now);
      forall k | forall i :: 0 <= i < |conns| && Owner(users, conns[i].dport).Some? ==> DetailKey(conns[i]) != k
        ensures var s := SessionsAfter(users, sessions, conns, now);
          (k in s <==> k in sessions) && (k in s ==> s[k] == sessions[k])
      {
        forall i | 0 <= i < n && Owner(users, init[i].dport).Some? ensures DetailKey(init[i]) != k {
          assert init[i] == conns[i];
        }
      }
    }
  }

  method UpsertSessions(users: seq<User>, sessions: map<string, SessionRow>, conns: seq<Detail>, now: int)
    returns (after: map<string, SessionRow>)
    ensures after == SessionsAfter(users, sessions, conns, now)
  {
    after := sessions;
    var i := 0;
    while i < |conns|
      invariant 0 <= i <= |conns|
      invariant after == SessionsAfter(users, sessions, conns[..i], now)
    {
      assert conns[..i + 1][..i] == conns[..i];
      var c := conns[i];
      var username := Owner(users, c.dport);
      if username.Some? {
        after := after[DetailKey(c) := SessionRow(username.value, DetailKey(c), c.srcIp, now, true)];
      }
      i := i + 1;
    }
    assert conns[..i] == conns;
  }

  // ----- cleanup_old_sessions -----

  /** `UPDATE user_sessions SET is_active = 0 WHERE last_activity < now - 10 min`. */
  function Expire(sessions: map<string, SessionRow>, now: int): (r: map<string, SessionRow>)
    ensures r.Keys == sessions.Keys
  {
    map k | k in sessions :: if sessions[k].lastActivity < now - SessionIdle then sessions[k].(isActive := false) else sessions[k]
  }

  /** After expiry no active session is older than ten minutes; rows within
      the window are untouched and older rows lose only their active flag; a
      second expiry changes nothing. */
  lemma ExpireSpec(sessions: map<string, SessionRow>, now: int)
    ensures forall k :: k in Expire(sessions, now) && Expire(sessions, now)[k].isActive ==>
      Expire(sessions, now)[k].lastActivity >= now - SessionIdle
    ensures forall k :: k in sessions && sessions[k].lastActivity >= now - SessionIdle ==>
      Expire(sessions, now)[k] == sessions[k]
    ensures forall k :: k in sessions ==>
      Expire(sessions, now)[k] == sessions[k].(isActive := Expire(sessions, now)[k].isActive)
    ensures Expire(Expire(sessions, now), now) == Expire(sessions, now)
  {
  }

  /** A session that was just upserted survives an expiry at the same
      clock. */
  lemma FreshSessionsSurvive(users: seq<User>, sessions: map<string, SessionRow>, conns: seq<Detail>, now: int, i: int)
    requires 0 <= i < |conns| && Owner(users, conns[i].dport).Some?
    ensures var s := Expire(SessionsAfter(users, sessions, conns, now), now);
      DetailKey(conns[i]) in s && s[DetailKey(conns[i])].isActive
  {
    SessionsAfterSpec(users, sessions, conns, now);
  }

  // ----- the monitor object -----

  /** The monitor with the two tables it writes. */
  class Monitor {
    var users: seq<User>
    var sessions: map<string, SessionRow>

    constructor (users: seq<User>, sessions: map<string, SessionRow>)
      ensures this.users == users && this.sessions == sessions
    {
      this.users := users;
      this.sessions := sessions;
    }

    method GetDetailedConnections(stdout: string, now: int) returns (conns: ODict<string, Detail>)
      ensures conns == Details(stdout, now)
    {
      conns := ParseDetails(stdout, now);
    }

    /** update_online_status: the online flags, counters and session rows are
        rebuilt from the current connections, the lookup being made against
        the table as it was before the call. */
    method UpdateOnlineStatus(stdout: string, now: int)
      modifies this
      ensures var conns := Values(Details(stdout, now));
        users == OnlineTable(old(users), conns, now)
        && sessions == SessionsAfter(old(users), old(sessions), conns, now)
    {
      var conns := GetDetailedConnections(stdout, now);
      var values := Values(conns);
      var u := UpdateUsers(users, values, now);
      var s := UpsertSessions(users, sessions, values, now);
      users, sessions := u, s;
    }

    /** cleanup_old_sessions. */
    method CleanupOldSessions(now: int)
      modifies this`sessions
      ensures sessions == Expire(old(sessions), now)
    {
      sessions := Expire(sessions, now);
    }
  }
}
