/** The connection manager of connection_manager.py: it parses `conntrack -L`
    output into flows to the tunnel port, attributes each flow to a user,
    keeps the `user_sessions` and `live_connections` tables up to date, drops
    the oldest flows of users over their connection limit and expires stale
    live rows. */
module ConnectionManager {
  import opened Wrappers
  import opened Text
  import opened Seqs
  import opened OrderedDicts
  import opened Accounts
  import opened Effects
  import Dates

  /** What `subprocess.run("conntrack -L -p udp 2>/dev/null", ...)` returned. */
  datatype ToolResult = ToolResult(exitCode: int, stdout: string)

  /** One entry of the `connections` dict built by the parser (its `timestamp`,
      which nothing reads, is left out). */
  datatype Flow = Flow(clientIp: string, clientPort: string, serverPort: string)

  /** The dict key `f"{client_ip}:{client_port}"`. */
  function FlowKey(f: Flow): string { f.clientIp + ":" + f.clientPort }

  // ----- get_active_connections -----

  /** The line filter `'dport=5667' in line or 'sport=5667' in line`. */
  predicate MentionsServerPort(line: string) {
    Contains(line, "dport=5667") || Contains(line, "sport=5667")
  }

  /** The flow one conntrack line yields, if any. Each field is the value after
      the first occurrence of its key (ExtractValue); when the destination port
      is the tunnel port the client is the source end, otherwise the client is
      the destination end and the source port must be the tunnel port. */
  function LineFlow(line: string): (r: Option<Flow>)
    ensures r.Some? ==> MentionsServerPort(line) && r.value.serverPort == DefaultPort
  {
    if !MentionsServerPort(line) then None
    else
      match (ExtractValue(line, "src="), ExtractValue(line, "dst="),
             ExtractValue(line, "sport="), ExtractValue(line, "dport="))
      case (Some(src), Some(dst), Some(sport), Some(dport)) =>
        var f := if dport == DefaultPort then Flow(src, sport, dport) else Flow(dst, dport, sport);
        if f.serverPort == DefaultPort then Some(f) else None
      case _ => None
  }

  /** Which end of a flow is the client. */
  lemma LineFlowOrientation(line: string)
    ensures LineFlow(line).Some? <==>
      MentionsServerPort(line)
      && ExtractValue(line, "src=").Some? && ExtractValue(line, "dst=").Some?
      && ExtractValue(line, "sport=").Some? && ExtractValue(line, "dport=").Some?
      && (ExtractValue(line, "dport=") == Some(DefaultPort) || ExtractValue(line, "sport=") == Some(DefaultPort))
    ensures LineFlow(line).Some? && ExtractValue(line, "dport=") == Some(DefaultPort) ==>
      LineFlow(line).value == Flow(ExtractValue(line, "src=").value, ExtractValue(line, "sport=").value, DefaultPort)
    ensures LineFlow(line).Some? && ExtractValue(line, "dport=") != Some(DefaultPort) ==>
      LineFlow(line).value == Flow(ExtractValue(line, "dst=").value, ExtractValue(line, "dport=").value, DefaultPort)
  {
  }

  /** The flow of each output line. */
  function LineFlows(lines: seq<string>): (fs: seq<Option<Flow>>)
    ensures |fs| == |lines| && forall i :: 0 <= i < |lines| ==> fs[i] == LineFlow(lines[i])
  {
    seq(|lines|, i requires 0 <= i < |lines| => LineFlow(lines[i]))
  }

  /** The `connections` dict after these line flows: `connections[key] = flow`
      for each flow in turn. */
  function Collect(fs: seq<Option<Flow>>): (d: ODict<string, Flow>)
    ensures d.Valid()
    decreases |fs|
  {
    if fs == [] then Empty()
    else
      var d := Collect(fs[..|fs| - 1]);
      match fs[|fs| - 1]
      case None => d
      case Some(f) => d.Put(FlowKey(f), f)
  }

  /** The result of get_active_connections: nothing when conntrack failed. */
  function Connections(r: ToolResult): (d: ODict<string, Flow>)
    ensures d.Valid()
    ensures r.exitCode != 0 ==> d.keys == [] && d.vals == map[]
  {
    if r.exitCode != 0 then Empty() else Collect(LineFlows(Lines(r.stdout)))
  }

  /** Some flow has key k. */
  ghost predicate KeyAt(fs: seq<Option<Flow>>, k: string) {
    exists i :: 0 <= i < |fs| && fs[i].Some? && FlowKey(fs[i].value) == k
  }

  /** Flow i is f and no later flow has f's key. */
  ghost predicate LastAt(fs: seq<Option<Flow>>, i: int, f: Flow) {
    0 <= i < |fs| && fs[i] == Some(f)
    && forall j :: i < j < |fs| && fs[j].Some? ==> FlowKey(fs[j].value) != FlowKey(f)
  }

  /** Every entry is stored under its own client endpoint. */
  lemma {:induction false} CollectKeys(fs: seq<Option<Flow>>)
    ensures forall k :: k in Collect(fs).vals ==> FlowKey(Collect(fs).vals[k]) == k
    decreases |fs|
  {
    if fs != [] {
      CollectKeys(fs[..|fs| - 1]);
    }
  }

  /** There is an entry for key k exactly when some flow has key k. */
  lemma {:induction false} CollectDomain(fs: seq<Option<Flow>>)
    ensures forall k :: k in Collect(fs).vals <==> KeyAt(fs, k)
    decreases |fs|
  {
    if fs != [] {
      var n := |fs| - 1;
      var init := fs[..n];
      CollectDomain(init);
      forall k ensures k in Collect(fs).vals <==> KeyAt(fs, k) {
        if KeyAt(init, k) {
          var i :| 0 <= i < |init| && init[i].Some? && FlowKey(init[i].value) == k;
          assert fs[i] == init[i];
        }
        if KeyAt(fs, k) {
          var i :| 0 <= i < |fs| && fs[i].Some? && FlowKey(fs[i].value) == k;
          if i < n { assert init[i] == fs[i]; }
        }
      }
    }
  }

  /** Duplicates collapse to the last: each entry is the last flow with its key. */
  lemma {:induction false} CollectLast(fs: seq<Option<Flow>>)
    ensures forall k :: k in Collect(fs).vals ==> exists i :: LastAt(fs, i, Collect(fs).vals[k])
    decreases |fs|
  {
    if fs != [] {
      var init := fs[..|fs| - 1];
      CollectLast(init);
      forall k | k in Collect(fs).vals ensures exists i :: LastAt(fs, i, Collect(fs).vals[k]) {
        CollectLastKey(fs, k);
      }
    }
  }

  /** Every entry of Collect(fs) is the last flow with its key. */
  ghost predicate AllLast(fs: seq<Option<Flow>>) {
    forall k :: k in Collect(fs).vals ==> exists i :: LastAt(fs, i, Collect(fs).vals[k])
  }

  lemma CollectLastKey(fs: seq<Option<Flow>>, k: string)
    requires fs != [] && k in Collect(fs).vals && AllLast(fs[..|fs| - 1])
    ensures exists i :: LastAt(fs, i, Collect(fs).vals[k])
  {
    var n := |fs| - 1;
    var init := fs[..n];
    CollectKeys(init);
    var f := Collect(fs).vals[k];
    if fs[n].Some? && FlowKey(fs[n].value) == k {
      assert LastAt(fs, n, f);
    } else {
      assert k in Collect(init).vals && Collect(init).vals[k] == f;
      assert FlowKey(f) == k;
      var i :| LastAt(init, i, f);
      LastAtExtend(fs, i, f);
    }
  }

  /** A last occurrence stays last when the next flow has another key. */
  lemma LastAtExtend(fs: seq<Option<Flow>>, i: int, f: Flow)
    requires fs != [] && LastAt(fs[..|fs| - 1], i, f)
    requires fs[|fs| - 1].None? || FlowKey(fs[|fs| - 1].value) != FlowKey(f)
    ensures LastAt(fs, i, f)
  {
    var n := |fs| - 1;
    var init := fs[..n];
    assert fs[i] == init[i];
    forall j | i < j < |fs| && fs[j].Some? ensures FlowKey(fs[j].value) != FlowKey(f) {
      if j < n { assert fs[j] == init[j]; }
    }
  }

  /** One entry per client endpoint: for a successful run there is an entry
      for key k exactly when some output line yields a flow with client
      endpoint k; that entry is the flow of the last such line, stored under
      its own key, and is a flow to the tunnel port. A failed run yields
      nothing. */
  lemma ConnectionsSpec(r: ToolResult)
    ensures r.exitCode != 0 ==> Connections(r).vals == map[]
    ensures r.exitCode == 0 ==> forall k :: k in Connections(r).vals <==> SomeLineKey(Lines(r.stdout), k)
    ensures forall k :: k in Connections(r).vals ==>
      FlowKey(Connections(r).vals[k]) == k && Connections(r).vals[k].serverPort == DefaultPort
    ensures r.exitCode == 0 ==>
      var lines := Lines(r.stdout);
      forall k :: k in Connections(r).vals ==>
        exists i :: 0 <= i < |lines| && LineFlow(lines[i]) == Some(Connections(r).vals[k])
          && forall j :: i < j < |lines| && LineFlow(lines[j]).Some? ==> FlowKey(LineFlow(lines[j]).value) != k
  {
    if r.exitCode == 0 {
      var lines := Lines(r.stdout);
      var d := Collect(LineFlows(lines));
      assert Connections(r) == d;
      CollectKeys(LineFlows(lines));
      LinesDomain(lines);
      LinesPort(lines);
      LinesLast(lines);

    }
  }

  /** Some line yields a flow with client endpoint k. */
  predicate SomeLineKey(lines: seq<string>, k: string) {
    exists i :: 0 <= i < |lines| && LineFlow(lines[i]).Some? && FlowKey(LineFlow(lines[i]).value) == k
  }

  lemma LinesDomain(lines: seq<string>)
    ensures forall k :: k in Collect(LineFlows(lines)).vals <==> SomeLineKey(lines, k)
  {
    var fs := LineFlows(lines);
    CollectDomain(fs);
    forall k ensures k in Collect(fs).vals <==>
      exists i :: 0 <= i < |lines| && LineFlow(lines[i]).Some? && FlowKey(LineFlow(lines[i]).value) == k
    {
      if KeyAt(fs, k) {
        var i :| 0 <= i < |fs| && fs[i].Some? && FlowKey(fs[i].value) == k;
        assert LineFlow(lines[i]).Some? && FlowKey(LineFlow(lines[i]).value) == k;
      }
      if exists i :: 0 <= i < |lines| && LineFlow(lines[i]).Some? && FlowKey(LineFlow(lines[i]).value) == k {
        var i :| 0 <= i < |lines| && LineFlow(lines[i]).Some? && FlowKey(LineFlow(lines[i]).value) == k;
        assert fs[i].Some? && FlowKey(fs[i].value) == k;
      }
    }
  }

  lemma LinesPort(lines: seq<string>)
    ensures forall k :: k in Collect(LineFlows(lines)).vals ==> Collect(LineFlows(lines)).vals[k].serverPort == DefaultPort
  {
    var fs := LineFlows(lines);
    CollectLast(fs);
    forall k | k in Collect(fs).vals ensures Collect(fs).vals[k].serverPort == DefaultPort {
      var i :| LastAt(fs, i, Collect(fs).vals[k]);
      assert LineFlow(lines[i]) == Some(Collect(fs).vals[k]);
    }
  }

  lemma LinesLast(lines: seq<string>)
    ensures forall k :: k in Collect(LineFlows(lines)).vals ==>
      exists i :: 0 <= i < |lines| && LineFlow(lines[i]) == Some(Collect(LineFlows(lines)).vals[k])
        && forall j :: i < j < |lines| && LineFlow(lines[j]).Some? ==> FlowKey(LineFlow(lines[j]).value) != k
  {
    var fs := LineFlows(lines);
    CollectLast(fs);
    CollectKeys(fs);
  }

  /** get_active_connections: the loop over the output lines. */
  method ParseConnections(r: ToolResult) returns (conns: ODict<string, Flow>)
    ensures conns == Connections(r)
  {
    conns := Empty();
    if r.exitCode == 0 {
      var lines := Lines(r.stdout);
      ghost var fs := LineFlows(lines);
      var i := 0;
      while i < |lines|
        invariant 0 <= i <= |lines|
        invariant conns == Collect(fs[..i])
      {
        assert fs[..i + 1][..i] == fs[..i];
        var f := LineFlow(lines[i]);
        if f.Some? {
          conns := conns.Put(FlowKey(f.value), f.value);
        }
        i := i + 1;
      }
      assert fs[..|lines|] == fs;
    }
  }

  // ----- the two tables -----

  const SessionActive: string := "active"
  const SessionCompleted: string := "completed"

  /** A row of `user_sessions` (`device_info` and `bytes_sent`, which nothing
      here writes, are left out). */
  datatype Session = Session(
    id: string, username: string, ip: string, startTime: int, endTime: Option<int>,
    bytesReceived: int, duration: int, status: string)

  /** A row of `live_connections` (`server_ip`, which nothing writes, is left out). */
  datatype LiveConn = LiveConn(
    id: string, username: string, clientIp: string, clientPort: string, serverPort: string,
    startTime: int, lastUpdate: int, isActive: bool)

  /** `f"{username}_{client_ip}_{client_port}"`, the key of both tables. */
  function SessionId(username: string, ip: string, port: string): string {
    username + "_" + ip + "_" + port
  }

  ghost predicate UniqueSessionIds(s: seq<Session>) {
    forall i, j :: 0 <= i < j < |s| ==> s[i].id != s[j].id
  }

  ghost predicate UniqueLiveIds(l: seq<LiveConn>) {
    forall i, j :: 0 <= i < j < |l| ==> l[i].id != l[j].id
  }

  predicate HasSession(s: seq<Session>, id: string) {
    exists i :: 0 <= i < |s| && s[i].id == id
  }

  predicate HasActiveSession(s: seq<Session>, id: string) {
    exists i :: 0 <= i < |s| && s[i].id == id && s[i].status == SessionActive
  }

  predicate HasLiveRow(l: seq<LiveConn>, id: string) {
    exists i :: 0 <= i < |l| && l[i].id == id
  }

  /** The row `INSERT INTO user_sessions` adds for a new connection. */
  function NewSession(id: string, username: string, ip: string, now: int): Session {
    Session(id, username, ip, now, None, 0, 0, SessionActive)
  }

  /** The row `INSERT OR REPLACE INTO live_connections` writes. */
  function LiveRow(id: string, username: string, ip: string, port: string, now: int): LiveConn {
    LiveConn(id, username, ip, port, DefaultPort, now, now, true)
  }

  /** A session marked completed at `now`. */
  function Complete(s: Session, now: int): Session {
    s.(endTime := Some(now), duration := now - s.startTime, status := SessionCompleted)
  }

  function IdIsNot(id: string): LiveConn -> bool { (c: LiveConn) => c.id != id }

  /** Filtering the live table keeps its ids unique. */
  lemma {:induction false} FilterUniqueIds(l: seq<LiveConn>, p: LiveConn -> bool)
    requires UniqueLiveIds(l)
    ensures UniqueLiveIds(Filter(l, p))
    decreases |l|
  {
    if l != [] {
      var init := l[..|l| - 1];
      var last := l[|l| - 1];
      FilterUniqueIds(init, p);
      var f := Filter(init, p);
      if p(last) {
        forall i | 0 <= i < |f| ensures f[i].id != last.id {
          var j :| 0 <= j < |init| && init[j] == f[i];
          assert l[j] == f[i];
        }
        forall i, j | 0 <= i < j < |f + [last]| ensures (f + [last])[i].id != (f + [last])[j].id {
          if j == |f| { assert (f + [last])[i] == f[i]; }
        }
      }
    }
  }

  /** The live rows with a different id, in order (`DELETE ... WHERE connection_id = ?`). */
  function WithoutLive(l: seq<LiveConn>, id: string): seq<LiveConn> {
    Filter(l, IdIsNot(id))
  }

  /** `INSERT OR REPLACE`: the old row with the id goes, the new one is appended. */
  function Upsert(l: seq<LiveConn>, row: LiveConn): (r: seq<LiveConn>)
    ensures UniqueLiveIds(l) ==> UniqueLiveIds(r)
    ensures HasLiveRow(r, row.id)
    ensures forall i :: 0 <= i < |r| ==> r[i] == row || (r[i] in l && r[i].id != row.id)
    ensures forall i :: 0 <= i < |l| && l[i].id != row.id ==> l[i] in r
  {
    var rest := WithoutLive(l, row.id);
    var r := rest + [row];
    assert r[|rest|] == row;
    assert UniqueLiveIds(l) ==> UniqueLiveIds(r) by {
      if UniqueLiveIds(l) {
        FilterUniqueIds(l, IdIsNot(row.id));
        assert forall i :: 0 <= i < |rest| ==> rest[i].id != row.id;
      }
    }
    r
  }

  /** The UPDATE of the active session with that id to completed: every row
      keeps its id, rows with other ids are untouched, and afterwards no row
      with the id is still active. */
  function CompleteId(s: seq<Session>, id: string, now: int): (r: seq<Session>)
    ensures |r| == |s|
    ensures forall i :: 0 <= i < |s| ==>
      r[i] == if s[i].id == id && s[i].status == SessionActive then Complete(s[i], now) else s[i]
    ensures forall i :: 0 <= i < |s| ==> r[i].id == s[i].id
    ensures forall i :: 0 <= i < |s| && s[i].id != id ==> r[i] == s[i]
    ensures forall i :: 0 <= i < |r| && r[i].id == id ==> r[i].status != SessionActive
  {
    seq(|s|, i requires 0 <= i < |s| =>
      if s[i].id == id && s[i].status == SessionActive then Complete(s[i], now) else s[i])
  }

  /** Completing a session twice changes nothing the second time, whatever the clock says. */
  lemma CompleteIdIdempotent(s: seq<Session>, id: string, now: int, later: int)
    ensures CompleteId(CompleteId(s, id, now), id, later) == CompleteId(s, id, now)
  {
  }

  /** `SET bytes_received = bytes_received + ? WHERE session_id = ? AND status = 'active'`:
      no column but `bytes_received` changes. */
  function AddBytes(s: seq<Session>, id: string, n: int): (r: seq<Session>)
    ensures |r| == |s|
    ensures forall i :: 0 <= i < |s| ==>
      r[i] == if s[i].id == id && s[i].status == SessionActive
              then s[i].(bytesReceived := s[i].bytesReceived + n) else s[i]
    ensures forall i :: 0 <= i < |s| ==> r[i].(bytesReceived := s[i].bytesReceived) == s[i]
  {
    seq(|s|, i requires 0 <= i < |s| =>
      if s[i].id == id && s[i].status == SessionActive
      then s[i].(bytesReceived := s[i].bytesReceived + n) else s[i])
  }

  /** The sum of `bytes_received` over the table. */
  function TotalReceived(s: seq<Session>): int
    decreases |s|
  {
    if s == [] then 0 else TotalReceived(s[..|s| - 1]) + s[|s| - 1].bytesReceived
  }

  /** The number of rows the UPDATE of AddBytes matches. */
  function ActiveWithId(s: seq<Session>, id: string): nat
    decreases |s|
  {
    if s == [] then 0
    else
      var last := if s[|s| - 1].id == id && s[|s| - 1].status == SessionActive then 1 else 0;
      ActiveWithId(s[..|s| - 1], id) + last
  }

  /** AddBytes row by row: the prefix is AddBytes of the prefix. */
  lemma AddBytesPrefix(s: seq<Session>, id: string, n: int)
    requires s != []
    ensures AddBytes(s, id, n)[..|s| - 1] == AddBytes(s[..|s| - 1], id, n)
  {
    var r := AddBytes(s, id, n);
    var q := AddBytes(s[..|s| - 1], id, n);
    assert forall i :: 0 <= i < |s| - 1 ==> r[i] == q[i];
  }

  /** The table's received total grows by `n` for each matched row. */
  lemma {:induction false} AddBytesTotal(s: seq<Session>, id: string, n: int)
    ensures TotalReceived(AddBytes(s, id, n)) == TotalReceived(s) + n * ActiveWithId(s, id)
    decreases |s|
  {
    if s != [] {
      var init := s[..|s| - 1];
      var r := AddBytes(s, id, n);
      AddBytesPrefix(s, id, n);
      AddBytesTotal(init, id, n);
      assert r[..|r| - 1] == AddBytes(init, id, n);
      var k := ActiveWithId(init, id);
      var hit := if s[|s| - 1].id == id && s[|s| - 1].status == SessionActive then 1 else 0;
      assert ActiveWithId(s, id) == k + hit;
      assert r[|s| - 1].bytesReceived == s[|s| - 1].bytesReceived + hit * n;
      MulStep(n, k, hit);
    }
  }

  /** One more matched row adds one more `n`. */
  lemma MulStep(n: int, k: int, hit: int)
    ensures n * (k + hit) == n * k + hit * n
  {
  }

  function AddUsage(n: int): User -> User {
    (u: User) => u.(bandwidthUsed := SqlAdd(u.bandwidthUsed, n))
  }

  // ----- map_connection_to_user -----

  predicate ActiveFrom(s: Session, ip: string) {
    s.ip == ip && s.status == SessionActive
  }

  /** `SELECT username FROM user_sessions WHERE ip_address = ? AND status =
      'active' ORDER BY start_time DESC LIMIT 1`: a row with the latest start
      time, the earliest such row on a tie. */
  function NewestActiveFrom(s: seq<Session>, ip: string): (r: Option<nat>)
    ensures r.Some? ==> r.value < |s| && ActiveFrom(s[r.value], ip)
    ensures r.Some? ==> forall j :: 0 <= j < |s| && ActiveFrom(s[j], ip) ==> s[j].startTime <= s[r.value].startTime
    ensures r.Some? ==> forall j :: 0 <= j < r.value && ActiveFrom(s[j], ip) ==> s[j].startTime < s[r.value].startTime
    ensures r.None? <==> forall j :: 0 <= j < |s| ==> !ActiveFrom(s[j], ip)
    decreases |s|
  {
    if s == [] then None
    else
      var n := |s| - 1;
      var best := NewestActiveFrom(s[..n], ip);
      if ActiveFrom(s[n], ip) && (best.None? || s[best.value].startTime < s[n].startTime) then Some(n)
      else best
  }

  predicate OnPort(u: User, port: string) { u.port == Some(port) }

  /** `(port IS NULL OR port = '' OR port = '5667') AND status = 'active'`. */
  predicate DefaultPortUser(u: User) {
    (u.port.None? || u.port == Some("") || u.port == Some(DefaultPort)) && u.status == Active
  }

  predicate SomeOnPort(users: seq<User>, port: string) {
    exists i :: 0 <= i < |users| && OnPort(users[i], port)
  }

  predicate SomeActiveFrom(sessions: seq<Session>, ip: string) {
    exists j :: 0 <= j < |sessions| && ActiveFrom(sessions[j], ip)
  }

  predicate SomeDefaultPortUser(users: seq<User>) {
    exists i :: 0 <= i < |users| && DefaultPortUser(users[i])
  }

  /** map_connection_to_user: three lookups tried in order. */
  function MapConnectionToUser(users: seq<User>, sessions: seq<Session>, ip: string, port: string): (r: Option<string>)
    // Rule 1: the first user whose port is the client port, whatever its status.
    ensures SomeOnPort(users, port) ==>
      exists i :: 0 <= i < |users| && OnPort(users[i], port) && r == Some(users[i].username)
        && forall k :: 0 <= k < i ==> !OnPort(users[k], port)
    // Rule 2: otherwise the newest active session from the client address.
    ensures !SomeOnPort(users, port) && SomeActiveFrom(sessions, ip) ==>
      exists j :: 0 <= j < |sessions| && ActiveFrom(sessions[j], ip) && r == Some(sessions[j].username)
        && forall k :: 0 <= k < |sessions| && ActiveFrom(sessions[k], ip) ==> sessions[k].startTime <= sessions[j].startTime
    // Rule 3: otherwise the first active user on the default port.
    ensures !SomeOnPort(users, port) && !SomeActiveFrom(sessions, ip) && SomeDefaultPortUser(users) ==>
      exists i :: 0 <= i < |users| && DefaultPortUser(users[i]) && r == Some(users[i].username)
        && forall k :: 0 <= k < i ==> !DefaultPortUser(users[k])
    // No rule applies: no user.
    ensures r.None? <==> !SomeOnPort(users, port) && !SomeActiveFrom(sessions, ip) && !SomeDefaultPortUser(users)
  {
    match FirstIndex(users, u => OnPort(u, port))
    case Some(i) => Some(users[i].username)
    case None =>
      match NewestActiveFrom(sessions, ip)
      case Some(j) => Some(sessions[j].username)
      case None =>
        match FirstIndex(users, DefaultPortUser)
        case Some(i) => Some(users[i].username)
        case None => None
  }

  // ----- enforce_connection_limits -----

  function OwnedBy(name: string): LiveConn -> bool { (c: LiveConn) => c.username == name }

  function ActiveOf(name: string): LiveConn -> bool { (c: LiveConn) => c.username == name && c.isActive }

  /** The live rows of a user, in table order (`WHERE username = ?`). */
  function RowsOf(l: seq<LiveConn>, name: string): seq<LiveConn> {
    Filter(l, OwnedBy(name))
  }

  /** `SELECT COUNT(*) FROM live_connections WHERE username = ? AND is_active = 1`. */
  function ActiveCount(l: seq<LiveConn>, name: string): nat {
    Count(l, ActiveOf(name))
  }

  function LastUpdate(c: LiveConn): int { c.lastUpdate }

  /** The rows `ORDER BY last_update ASC LIMIT count - limit` returns for a user
      over the limit; none otherwise. */
  function Excess(u: User, l: seq<LiveConn>): seq<LiveConn> {
    var n := ActiveCount(l, u.username);
    if n > u.concurrentConn then Take(SortBy(RowsOf(l, u.username), LastUpdate), n - u.concurrentConn)
    else []
  }

  /** drop_connection for each row: `conntrack -D -p udp --dport 5667 --sport
      <client_port> --src <client_ip>`. */
  function DropCommands(rows: seq<LiveConn>): (r: seq<Command>)
    ensures |r| == |rows|
    ensures forall i :: 0 <= i < |rows| ==> r[i] == ConntrackDelete(DefaultPort, Some(rows[i].clientPort), rows[i].clientIp)
  {
    seq(|rows|, i requires 0 <= i < |rows| => ConntrackDelete(DefaultPort, Some(rows[i].clientPort), rows[i].clientIp))
  }

  /** The commands enforcement issues for these user rows, in order: nothing
      for a user that is not active and unexpired. */
  function EnforceCommands(users: seq<User>, l: seq<LiveConn>, today: Dates.Date): seq<Command>
    decreases |users|
  {
    if users == [] then []
    else
      var u := users[|users| - 1];
      EnforceCommands(users[..|users| - 1], l, today) + UserDrops(u, l, today)
  }

  /** What the loop body issues for one user row. */
  function UserDrops(u: User, l: seq<LiveConn>, today: Dates.Date): seq<Command> {
    if IsLive(u, today) then DropCommands(Excess(u, l)) else []
  }

  /** For a user over the limit `count - limit` rows are dropped (all of the
      user's rows when there are fewer), and they are rows of that user with
      the smallest `last_update`: the dropped and the kept rows together are
      the user's rows, and no kept row was updated before a dropped one. */
  lemma ExcessSpec(u: User, l: seq<LiveConn>)
    ensures ActiveCount(l, u.username) <= u.concurrentConn ==> Excess(u, l) == []
    ensures ActiveCount(l, u.username) > u.concurrentConn ==>
      var k := ActiveCount(l, u.username) - u.concurrentConn;
      |Excess(u, l)| == (if k < |RowsOf(l, u.username)| then k else |RowsOf(l, u.username)|)
  {
    var rows := RowsOf(l, u.username);
    if ActiveCount(l, u.username) > u.concurrentConn {
      assert |SortBy(rows, LastUpdate)| == |rows|;
    }
  }

  /** The rows dropped are some of the user's rows, and none of the rows kept
      has an older last update than a row dropped. */
  lemma ExcessOldest(u: User, l: seq<LiveConn>)
    ensures ActiveCount(l, u.username) > u.concurrentConn ==>
      TakenSmallest(Excess(u, l), SortBy(RowsOf(l, u.username), LastUpdate), RowsOf(l, u.username), LastUpdate)
  {
    var rows := RowsOf(l, u.username);
    var n := ActiveCount(l, u.username);
    if n > u.concurrentConn {
      var k := n - u.concurrentConn;
      var sorted := SortBy(rows, LastUpdate);
      var t := Take(sorted, k);
      TakeSmallest(rows, LastUpdate, k);
      assert Excess(u, l) == t;
    }
  }

  /** c deletes the flows of a live row of an active, unexpired user that is
      over the limit. */
  ghost predicate DropTarget(users: seq<User>, l: seq<LiveConn>, today: Dates.Date, c: Command) {
    exists u, row :: u in users && IsLive(u, today) && ActiveCount(l, u.username) > u.concurrentConn
      && row in l && row.username == u.username
      && c == ConntrackDelete(DefaultPort, Some(row.clientPort), row.clientIp)
  }

  /** Enforcement only drops flows of active, unexpired users over the limit. */
  lemma {:induction false} EnforceTargets(users: seq<User>, l: seq<LiveConn>, today: Dates.Date)
    ensures forall c :: c in EnforceCommands(users, l, today) ==> DropTarget(users, l, today, c)
    decreases |users|
  {
    if users != [] {
      var init := users[..|users| - 1];
      var u := users[|users| - 1];
      EnforceTargets(init, l, today);
      forall c | c in EnforceCommands(users, l, today) ensures DropTarget(users, l, today, c) {
        if c in EnforceCommands(init, l, today) {
          DropTargetGrow(users, l, today, c);
        } else {
          UserDropTarget(users, u, l, today, c);
        }
      }
    }
  }

  /** A target among the first users is a target among all of them. */
  lemma DropTargetGrow(users: seq<User>, l: seq<LiveConn>, today: Dates.Date, c: Command)
    requires users != [] && DropTarget(users[..|users| - 1], l, today, c)
    ensures DropTarget(users, l, today, c)
  {
    var u', row :| u' in users[..|users| - 1] && IsLive(u', today) && ActiveCount(l, u'.username) > u'.concurrentConn
      && row in l && row.username == u'.username
      && c == ConntrackDelete(DefaultPort, Some(row.clientPort), row.clientIp);
    assert u' in users;
  }

  /** Every command issued for one user row is a target. */
  lemma UserDropTarget(users: seq<User>, u: User, l: seq<LiveConn>, today: Dates.Date, c: Command)
    requires u in users && c in UserDrops(u, l, today)
    ensures DropTarget(users, l, today, c)
  {
    var ex := Excess(u, l);
    var i :| 0 <= i < |ex| && c == DropCommands(ex)[i];
    var sorted := SortBy(RowsOf(l, u.username), LastUpdate);
    assert ex[i] in sorted;
    assert ex[i] in multiset(RowsOf(l, u.username));
  }

  lemma EnforceStep(users: seq<User>, i: nat, l: seq<LiveConn>, today: Dates.Date)
    requires i < |users|
    ensures EnforceCommands(users[..i + 1], l, today)
      == EnforceCommands(users[..i], l, today) + UserDrops(users[i], l, today)
  {
    assert users[..i + 1][..i] == users[..i];
  }

  lemma DropCommandsSnoc(rows: seq<LiveConn>, k: nat)
    requires k < |rows|
    ensures DropCommands(rows[..k + 1])
      == DropCommands(rows[..k]) + [ConntrackDelete(DefaultPort, Some(rows[k].clientPort), rows[k].clientIp)]
  {
    assert DropCommands(rows[..k + 1]) == DropCommands(rows[..k]) + [DropCommands(rows)[k]];
  }

  // ----- cleanup_stale_connections -----

  /** `last_update < now - 3 minutes`. */
  predicate Stale(c: LiveConn, now: int) { c.lastUpdate < now - 180 }

  function IsStale(now: int): LiveConn -> bool { (c: LiveConn) => Stale(c, now) }

  function IsFresh(now: int): LiveConn -> bool { (c: LiveConn) => !Stale(c, now) }

  function IdNotIn(ids: set<string>): LiveConn -> bool { (c: LiveConn) => c.id !in ids }

  /** The stale rows, in order. */
  function StaleRows(l: seq<LiveConn>, now: int): seq<LiveConn> {
    Filter(l, IsStale(now))
  }

  /** The rows that are not stale, in order. */
  function FreshRows(l: seq<LiveConn>, now: int): seq<LiveConn> {
    Filter(l, IsFresh(now))
  }

  /** The live rows whose id is not in ids, in order. */
  function DropIds(l: seq<LiveConn>, ids: set<string>): seq<LiveConn> {
    Filter(l, IdNotIn(ids))
  }

  /** The sessions the cleanup completes: active ones from a (user, address)
      pair in `pairs`. */
  function CompletePairs(s: seq<Session>, pairs: set<(string, string)>, now: int): (r: seq<Session>)
    ensures |r| == |s|
    ensures forall i :: 0 <= i < |s| ==>
      r[i] == if s[i].status == SessionActive && (s[i].username, s[i].ip) in pairs then Complete(s[i], now) else s[i]
  {
    seq(|s|, i requires 0 <= i < |s| =>
      if s[i].status == SessionActive && (s[i].username, s[i].ip) in pairs then Complete(s[i], now) else s[i])
  }

  function Ids(rows: seq<LiveConn>): set<string> { set r | r in rows :: r.id }

  function Pairs(rows: seq<LiveConn>): set<(string, string)> { set r | r in rows :: (r.username, r.clientIp) }

  lemma DropIdsStep(l: seq<LiveConn>, ids: set<string>, id: string)
    ensures WithoutLive(DropIds(l, ids), id) == DropIds(l, ids + {id})
  {
    FilterFilter(l, IdNotIn(ids), IdIsNot(id), IdNotIn(ids + {id}));
  }

  /** With unique ids, dropping the ids of the stale rows keeps exactly the
      rows that are not stale. */
  lemma DropStaleIds(l: seq<LiveConn>, now: int)
    requires UniqueLiveIds(l)
    ensures DropIds(l, Ids(StaleRows(l, now))) == FreshRows(l, now)
  {
    var ids := Ids(StaleRows(l, now));
    forall i | 0 <= i < |l| ensures IdNotIn(ids)(l[i]) == IsFresh(now)(l[i]) {
      if l[i].id in ids {
        var y :| y in StaleRows(l, now) && y.id == l[i].id;
        var j :| 0 <= j < |l| && l[j] == y;
        assert i == j;
      }
    }
    FilterExt(l, IdNotIn(ids), IsFresh(now));
  }

  // ----- the manager -----

  /** The actions `update_user_session` is called with. */
  datatype Action = Connect | Disconnect | Update

  class Manager {
    var users: seq<User>
    var sessions: seq<Session>
    var live: seq<LiveConn>
    /** `self.last_cleanup`, in seconds. */
    var lastCleanup: int
    /** Commands issued so far. */
    ghost var commands: seq<Command>

    /** The primary keys of both tables are unique. */
    ghost predicate Valid()
      reads this
    {
      UniqueSessionIds(sessions) && UniqueLiveIds(live)
    }

    constructor(users0: seq<User>, sessions0: seq<Session>, live0: seq<LiveConn>, now: int)
      requires UniqueSessionIds(sessions0) && UniqueLiveIds(live0)
      ensures Valid()
      ensures users == users0 && sessions == sessions0 && live == live0
      ensures lastCleanup == now && commands == []
    {
      users := users0;
      sessions := sessions0;
      live := live0;
      lastCleanup := now;
      commands := [];
    }

    /** update_user_session. A 'connect' whose id is held by a completed
        session violates the primary key of `user_sessions`; the whole call is
        then rolled back. */
    method UpdateUserSession(username: string, ip: string, port: string, action: Action, bytesUsed: int, now: int)
      requires Valid()
      modifies this
      ensures Valid()
      ensures lastCleanup == old(lastCleanup) && commands == old(commands)
      ensures var id := SessionId(username, ip, port);
        var insert := action == Connect && !HasActiveSession(old(sessions), id);
        var s1 := if insert then old(sessions) + [NewSession(id, username, ip, now)] else old(sessions);
        var l1 := Upsert(old(live), LiveRow(id, username, ip, port, now));
        if insert && HasSession(old(sessions), id) then
          sessions == old(sessions) && live == old(live) && users == old(users)
        else if action == Disconnect then
          sessions == CompleteId(s1, id, now) && live == WithoutLive(l1, id) && users == old(users)
        else if action == Update && bytesUsed > 0 then
          sessions == AddBytes(s1, id, bytesUsed) && live == l1
          && users == UpdateWhereName(old(users), username, AddUsage(bytesUsed))
        else
          sessions == s1 && live == l1 && users == old(users)
      // There is never more than one session for an id, so at most one active one.
      ensures var id := SessionId(username, ip, port);
        forall i, j :: 0 <= i < j < |sessions| ==> sessions[i].id != sessions[j].id
      // Every call that is not rolled back leaves a live row for the id, unless it disconnects.
      ensures var id := SessionId(username, ip, port);
        !(action == Connect && !HasActiveSession(old(sessions), id) && HasSession(old(sessions), id)) ==>
          (HasLiveRow(live, id) <==> action != Disconnect)
    {
      var id := SessionId(username, ip, port);
      var s1 := sessions;
      if action == Connect && !HasActiveSession(sessions, id) {
        if HasSession(sessions, id) {
          return;
        }
        s1 := sessions + [NewSession(id, username, ip, now)];
      }
      var l1 := Upsert(live, LiveRow(id, username, ip, port, now));
      if action == Disconnect {
        sessions := CompleteId(s1, id, now);
        FilterUniqueIds(l1, IdIsNot(id));
        live := WithoutLive(l1, id);
      } else if action == Update && bytesUsed > 0 {
        sessions := AddBytes(s1, id, bytesUsed);
        live := l1;
        users := UpdateWhereName(users, username, AddUsage(bytesUsed));
      } else {
        sessions := s1;
        live := l1;
      }
    }

    /** enforce_connection_limits. */
    method EnforceConnectionLimits(today: Dates.Date)
      modifies this`commands
      ensures commands == old(commands) + EnforceCommands(users, live, today)
    {
      var i := 0;
      while i < |users|
        invariant 0 <= i <= |users|
        invariant commands == old(commands) + EnforceCommands(users[..i], live, today)
      {
        EnforceStep(users, i, live, today);
        ghost var before := commands;
        if IsLive(users[i], today) {
          EnforceUser(users[i]);
        }
        assert commands == before + UserDrops(users[i], live, today);
        AppendAssoc(old(commands), EnforceCommands(users[..i], live, today), UserDrops(users[i], live, today));
        i := i + 1;
      }
      assert users[..i] == users;
    }

    /** The body of the enforcement loop for one active, unexpired user. */
    method EnforceUser(u: User)
      modifies this`commands
      ensures commands == old(commands) + DropCommands(Excess(u, live))
    {
      var count := ActiveCount(live, u.username);
      if count > u.concurrentConn {
        var excess := Take(SortBy(RowsOf(live, u.username), LastUpdate), count - u.concurrentConn);
        DropAll(excess);
      } else {
        assert DropCommands(Excess(u, live)) == [];
      }
    }

    /** The inner loop: drop_connection for each row, in order. */
    method DropAll(excess: seq<LiveConn>)
      modifies this`commands
      ensures commands == old(commands) + DropCommands(excess)
    {
      var k := 0;
      while k < |excess|
        invariant 0 <= k <= |excess|
        invariant commands == old(commands) + DropCommands(excess[..k])
      {
        DropConnection(excess[k]);
        DropCommandsSnoc(excess, k);
        k := k + 1;
      }
      assert excess[..k] == excess;
    }

    /** drop_connection. */
    method DropConnection(c: LiveConn)
      modifies this`commands
      ensures commands == old(commands) + [ConntrackDelete(DefaultPort, Some(c.clientPort), c.clientIp)]
    {
      commands := commands + [ConntrackDelete(DefaultPort, Some(c.clientPort), c.clientIp)];
    }

    /** cleanup_stale_connections. */
    method CleanupStaleConnections(now: int)
      requires Valid()
      modifies this
      ensures Valid()
      ensures users == old(users) && lastCleanup == old(lastCleanup) && commands == old(commands)
      ensures live == FreshRows(old(live), now)
      ensures sessions == CompletePairs(old(sessions), Pairs(StaleRows(old(live), now)), now)
    {
      var stale := StaleRows(live, now);
      ghost var l0 := live;
      ghost var s0 := sessions;
      assert Ids(stale[..0]) == {};
      FilterAll(l0, IdNotIn({}));
      var i := 0;
      while i < |stale|
        invariant 0 <= i <= |stale|
        invariant users == old(users) && lastCleanup == old(lastCleanup) && commands == old(commands)
        invariant live == DropIds(l0, Ids(stale[..i]))
        invariant sessions == CompletePairs(s0, Pairs(stale[..i]), now)
      {
        var c := stale[i];
        SnocSets(stale, i);
        CompletePairsStep(s0, Pairs(stale[..i]), (c.username, c.clientIp), now);
        DropIdsStep(l0, Ids(stale[..i]), c.id);
        ExpireRow(c, now);
        i := i + 1;
      }
      assert stale[..i] == stale;
      DropStaleIds(l0, now);
      FilterUniqueIds(l0, IsFresh(now));
      CompletePairsIds(s0, Pairs(stale), now);
    }

    /** One pass of monitor_loop: every current flow that maps to a user
        refreshes that user's live row; then, when more than 30 seconds have
        passed since the last cleanup, the limits are enforced on the refreshed
        table and stale rows are expired. */
    method MonitorStep(r: ToolResult, now: int, today: Dates.Date)
      requires Valid()
      modifies this
      ensures Valid()
      ensures users == old(users)
      ensures var tracked := TrackRows(old(live), old(users), old(sessions), FlowsOf(Connections(r)), now);
        if now - old(lastCleanup) > 30 then
          commands == old(commands) + EnforceCommands(old(users), tracked, today)
          && live == FreshRows(tracked, now)
          && sessions == CompletePairs(old(sessions), Pairs(StaleRows(tracked, now)), now)
          && lastCleanup == now
        else
          commands == old(commands) && live == tracked && sessions == old(sessions)
          && lastCleanup == old(lastCleanup)
    {
      var conns := ParseConnections(r);
      TrackConnections(conns, now);
      if now - lastCleanup > 30 {
        EnforceConnectionLimits(today);
        CleanupStaleConnections(now);
        lastCleanup := now;
      }
    }

    /** The loop of monitor_loop over the current flows. */
    method TrackConnections(conns: ODict<string, Flow>, now: int)
      requires Valid() && conns.Valid()
      modifies this
      ensures Valid()
      ensures users == old(users) && sessions == old(sessions) && lastCleanup == old(lastCleanup)
      ensures commands == old(commands)
      ensures live == TrackRows(old(live), users, sessions, FlowsOf(conns), now)
    {
      ghost var flows := FlowsOf(conns);
      var i := 0;
      while i < |conns.keys|
        invariant 0 <= i <= |conns.keys|
        invariant Valid()
        invariant users == old(users) && sessions == old(sessions) && lastCleanup == old(lastCleanup)
        invariant commands == old(commands)
        invariant live == TrackRows(old(live), users, sessions, flows[..i], now)
      {
        var f := conns.vals[conns.keys[i]];
        TrackStep(old(live), users, sessions, flows, i, now);
        TrackFlow(f, now);
        i := i + 1;
      }
      assert flows[..i] == flows;
    }

    /** The loop body: a flow that maps to a user refreshes its live row. */
    method TrackFlow(f: Flow, now: int)
      requires Valid()
      modifies this
      ensures Valid()
      ensures users == old(users) && sessions == old(sessions) && lastCleanup == old(lastCleanup)
      ensures commands == old(commands)
      ensures live == Track(old(live), users, sessions, f, now)
    {
      var name := MapConnectionToUser(users, sessions, f.clientIp, f.clientPort);
      if name.Some? && name.value != "" {
        UpdateUserSession(name.value, f.clientIp, f.clientPort, Update, 0, now);
      }
    }

    /** The two statements the cleanup runs for one stale row: complete the
        active sessions of its user and address, delete the row. */
    method ExpireRow(c: LiveConn, now: int)
      modifies this
      ensures users == old(users) && lastCleanup == old(lastCleanup) && commands == old(commands)
      ensures sessions == CompletePairs(old(sessions), {(c.username, c.clientIp)}, now)
      ensures live == WithoutLive(old(live), c.id)
    {
      sessions := CompletePairs(sessions, {(c.username, c.clientIp)}, now);
      live := WithoutLive(live, c.id);
    }
  }

  /** The flows of the `connections` dict, in its order. */
  function FlowsOf(d: ODict<string, Flow>): seq<Flow>
    requires d.Valid()
  {
    Values(d)
  }

  /** The live rows a flow refreshes, if it maps to a user:
      `update_user_session(username, ip, port, 'update', 0)`. */
  function Track(l: seq<LiveConn>, users: seq<User>, sessions: seq<Session>, f: Flow, now: int): seq<LiveConn> {
    match MapConnectionToUser(users, sessions, f.clientIp, f.clientPort)
    case Some(name) =>
      if name != "" then Upsert(l, LiveRow(SessionId(name, f.clientIp, f.clientPort), name, f.clientIp, f.clientPort, now))
      else l
    case None => l
  }

  /** The live table after the tracking phase of a monitor pass over these flows. */
  function TrackRows(l: seq<LiveConn>, users: seq<User>, sessions: seq<Session>, flows: seq<Flow>, now: int): seq<LiveConn>
    decreases |flows|
  {
    if flows == [] then l
    else Track(TrackRows(l, users, sessions, flows[..|flows| - 1], now), users, sessions, flows[|flows| - 1], now)
  }

  lemma TrackStep(l: seq<LiveConn>, users: seq<User>, sessions: seq<Session>, flows: seq<Flow>, i: nat, now: int)
    requires i < |flows|
    ensures TrackRows(l, users, sessions, flows[..i + 1], now)
      == Track(TrackRows(l, users, sessions, flows[..i], now), users, sessions, flows[i], now)
  {
    assert flows[..i + 1][..i] == flows[..i];
  }

  /** f maps to the user `name`, which is non-empty. */
  predicate Attributed(users: seq<User>, sessions: seq<Session>, f: Flow, name: string) {
    MapConnectionToUser(users, sessions, f.clientIp, f.clientPort) == Some(name) && name != ""
  }

  /** Some row with this id was updated at `now`. */
  ghost predicate RefreshedAt(l: seq<LiveConn>, id: string, now: int) {
    exists j :: 0 <= j < |l| && l[j].id == id && l[j].lastUpdate == now
  }

  /** After the tracking phase every flow that maps to a user has a live row
      under that user's session id for the endpoint, updated now. */
  lemma {:induction false} TrackRowsRefreshes(l: seq<LiveConn>, users: seq<User>, sessions: seq<Session>, flows: seq<Flow>, now: int)
    ensures forall i, name :: 0 <= i < |flows| && Attributed(users, sessions, flows[i], name) ==>
      RefreshedAt(TrackRows(l, users, sessions, flows, now), SessionId(name, flows[i].clientIp, flows[i].clientPort), now)
    decreases |flows|
  {
    if flows != [] {
      var n := |flows| - 1;
      var init := flows[..n];
      TrackRowsRefreshes(l, users, sessions, init, now);
      var before := TrackRows(l, users, sessions, init, now);
      var after := TrackRows(l, users, sessions, flows, now);
      forall i, name | 0 <= i < |flows| && Attributed(users, sessions, flows[i], name)
        ensures RefreshedAt(after, SessionId(name, flows[i].clientIp, flows[i].clientPort), now)
      {
        var id := SessionId(name, flows[i].clientIp, flows[i].clientPort);
        if i == n {
          var up := Upsert(before, LiveRow(id, name, flows[i].clientIp, flows[i].clientPort, now));
          assert after == up;
          assert up[|up| - 1].id == id;
        } else {
          assert init[i] == flows[i];
          var j :| 0 <= j < |before| && before[j].id == id && before[j].lastUpdate == now;
          var f := flows[n];
          match MapConnectionToUser(users, sessions, f.clientIp, f.clientPort)
          case Some(m) =>
            if m != "" {
              var row' := LiveRow(SessionId(m, f.clientIp, f.clientPort), m, f.clientIp, f.clientPort, now);
              if id == row'.id {
                assert after[|after| - 1] == row';
              } else {
                assert before[j] in after;
              }
            }
          case None =>
        }
      }
    }
  }

  /** A monitor pass keeps every row it refreshed: none is stale under the
      180-second cutoff, so the cleanup of the same pass cannot expire it. */
  lemma RefreshedSurvivesCleanup(l: seq<LiveConn>, users: seq<User>, sessions: seq<Session>, flows: seq<Flow>, now: int)
    ensures forall i, name :: 0 <= i < |flows| && Attributed(users, sessions, flows[i], name) ==>
      RefreshedAt(FreshRows(TrackRows(l, users, sessions, flows, now), now), SessionId(name, flows[i].clientIp, flows[i].clientPort), now)
  {
    TrackRowsRefreshes(l, users, sessions, flows, now);
    var t := TrackRows(l, users, sessions, flows, now);
    forall i, name | 0 <= i < |flows| && Attributed(users, sessions, flows[i], name)
      ensures RefreshedAt(FreshRows(t, now), SessionId(name, flows[i].clientIp, flows[i].clientPort), now)
    {
      var id := SessionId(name, flows[i].clientIp, flows[i].clientPort);
      var j :| 0 <= j < |t| && t[j].id == id && t[j].lastUpdate == now;
      assert IsFresh(now)(t[j]);
      var fr := FreshRows(t, now);
      var k :| 0 <= k < |fr| && fr[k] == t[j];
    }
  }

  lemma SnocSets(rows: seq<LiveConn>, i: nat)
    requires i < |rows|
    ensures Ids(rows[..i + 1]) == Ids(rows[..i]) + {rows[i].id}
    ensures Pairs(rows[..i + 1]) == Pairs(rows[..i]) + {(rows[i].username, rows[i].clientIp)}
  {
    assert rows[..i + 1] == rows[..i] + [rows[i]];
  }

  /** Completing the sessions of one more pair, one pair at a time. */
  lemma CompletePairsStep(s: seq<Session>, pairs: set<(string, string)>, q: (string, string), now: int)
    ensures CompletePairs(CompletePairs(s, pairs, now), {q}, now) == CompletePairs(s, pairs + {q}, now)
  {
  }

  /** Completing sessions keeps their ids, so they stay unique. */
  lemma CompletePairsIds(s: seq<Session>, pairs: set<(string, string)>, now: int)
    requires UniqueSessionIds(s)
    ensures UniqueSessionIds(CompletePairs(s, pairs, now))
  {
  }

  /** The cleanup removes exactly the stale live rows and leaves every newer
      row; it completes only active sessions of a user and address that had a
      stale row. */
  lemma CleanupSpec(l: seq<LiveConn>, s: seq<Session>, now: int)
    ensures forall x :: x in FreshRows(l, now) <==> x in l && x.lastUpdate >= now - 180
    ensures forall i :: 0 <= i < |s| ==>
      (CompletePairs(s, Pairs(StaleRows(l, now)), now)[i] != s[i] <==>
        s[i].status == SessionActive
        && exists c :: c in l && c.lastUpdate < now - 180 && c.username == s[i].username && c.clientIp == s[i].ip)
  {
    forall i | 0 <= i < |s| ensures
      (CompletePairs(s, Pairs(StaleRows(l, now)), now)[i] != s[i] <==>
        s[i].status == SessionActive
        && exists c :: c in l && c.lastUpdate < now - 180 && c.username == s[i].username && c.clientIp == s[i].ip)
    {
      if s[i].status == SessionActive && (s[i].username, s[i].ip) in Pairs(StaleRows(l, now)) {
        assert Complete(s[i], now).status != s[i].status;
      }
    }
  }
}
