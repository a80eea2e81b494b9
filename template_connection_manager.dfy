/** The connection manager of templates/connection_manager.py: a token parser
    for `conntrack -L` lines on VPN ports, a port-to-user lookup, the
    reconciliation of `active_connections` and `connection_logs` against the
    current connections, limit enforcement by duration, and the bandwidth
    roll-up from the active rows. */
module TemplateConnectionManager {
  import opened Wrappers
  import opened Text
  import opened Seqs
  import opened OrderedDicts
  import opened Accounts
  import opened Effects
  import Dates

  // ----- get_active_connections_conntrack -----

  /** One entry of the list the parser returns. */
  datatype Sighting = Sighting(clientIp: string, serverPort: string, bytesSent: int, bytesRecv: int, timestamp: int)

  predicate Bracket(c: char) { c == '[' || c == ']' }

  /** The epoch seconds a `[...]` token carries: `int(part.strip('[]'))` for a
      token that starts with '[' and contains ']'. */
  function StampOf(part: string): Option<int> {
    if StartsWith(part, "[") && ']' in part then PyInt(StripBy(part, Bracket)) else None
  }

  /** The stamp of each token. */
  function Stamps(parts: seq<string>): (r: seq<Option<int>>)
    ensures |r| == |parts| && forall i :: 0 <= i < |parts| ==> r[i] == StampOf(parts[i])
  {
    seq(|parts|, i requires 0 <= i < |parts| => StampOf(parts[i]))
  }

  /** The last value present in xs. */
  function LastSome(xs: seq<Option<int>>): Option<int>
    decreases |xs|
  {
    if xs == [] then None
    else if xs[|xs| - 1].Some? then xs[|xs| - 1] else LastSome(xs[..|xs| - 1])
  }

  /** The timestamp the second token loop leaves: that of the last token whose
      stamp parses (a token that fails to parse keeps the earlier value). */
  function LastStamp(parts: seq<string>): Option<int> {
    LastSome(Stamps(parts))
  }

  /** The entry one output line yields: the last `src=`, `dst=`, `sport=` and
      `dport=` tokens win; an entry needs a non-empty source address and
      destination port; the byte counters stay 0, since `split('=')[1]` of a
      `bytes=` token never contains '='; the timestamp is now unless some
      bracketed token parses. */
  function SightingOf(line: string, now: int): (r: Option<Sighting>)
    ensures r.Some? ==> r.value.bytesSent == 0 && r.value.bytesRecv == 0
    ensures BlankLine(line) ==> r.None?
  {
    if BlankLine(line) then None
    else
      var parts := Words(line);
      var src := LastValue(parts, "src=");
      var dport := LastValue(parts, "dport=");
      if src.Some? && src.value != "" && dport.Some? && dport.value != "" then
        Some(Sighting(src.value, dport.value, 0, 0, LastStamp(parts).GetOr(now)))
      else None
  }

  /** Which tokens decide an entry: the client address is the value of the
      last `src=` token and the server port that of the last `dport=` token. */
  lemma SightingOfSpec(line: string, now: int)
    ensures var parts := Words(line);
      SightingOf(line, now).Some? ==>
        DecidedBy(parts, "src=", SightingOf(line, now).value.clientIp)
        && DecidedBy(parts, "dport=", SightingOf(line, now).value.serverPort)
    ensures var parts := Words(line);
      (forall i :: 0 <= i < |parts| ==> !StartsWith(parts[i], "src="))
      || (forall i :: 0 <= i < |parts| ==> !StartsWith(parts[i], "dport="))
      ==> SightingOf(line, now).None?
  {
    var parts := Words(line);
    LastValueSpec(parts, "src=");
    LastValueSpec(parts, "dport=");
  }

  /** LastSome is None exactly when nothing is present, and otherwise the
      last value present. */
  lemma {:induction false} LastSomeSpec(xs: seq<Option<int>>)
    ensures LastSome(xs).None? <==> forall i :: 0 <= i < |xs| ==> xs[i].None?
    ensures LastSome(xs).Some? ==>
      exists i :: 0 <= i < |xs| && xs[i] == LastSome(xs) && forall j :: i < j < |xs| ==> xs[j].None?
    decreases |xs|
  {
    if xs != [] {
      var n := |xs| - 1;
      var init := xs[..n];
      LastSomeSpec(init);
      if xs[n].None? {
        if exists i :: 0 <= i < |xs| && xs[i].Some? {
          var i :| 0 <= i < |xs| && xs[i].Some?;
          assert init[i] == xs[i];
        }
        if LastSome(init).Some? {
          var i :| 0 <= i < |init| && init[i] == LastSome(init) && forall j :: i < j < |init| ==> init[j].None?;
          assert xs[i] == init[i];
          forall j | i < j < |xs| ensures xs[j].None? {
            if j < n { assert xs[j] == init[j]; }
          }
        }
      }
    }
  }

  /** The timestamp is now exactly when no bracketed token parses; otherwise it
      is the value of the last one that does. */
  lemma LastStampSpec(parts: seq<string>)
    ensures LastStamp(parts).None? <==> forall i :: 0 <= i < |parts| ==> StampOf(parts[i]).None?
    ensures LastStamp(parts).Some? ==>
      exists i :: 0 <= i < |parts| && StampOf(parts[i]) == LastStamp(parts)
        && forall j :: i < j < |parts| ==> StampOf(parts[j]).None?
  {
    LastSomeSpec(Stamps(parts));
  }

  /** The body of the line loop: the two token loops and the final test. */
  method ParseLine(line: string, now: int) returns (s: Option<Sighting>)
    ensures s == SightingOf(line, now)
  {
    if BlankLine(line) {
      return None;
    }
    var parts := Words(line);
    var srcIp, dstIp, srcPort, dstPort := ScanFields(parts);
    var stamp := ScanStamps(parts);
    if srcIp.Some? && srcIp.value != "" && dstPort.Some? && dstPort.value != "" {
      s := Some(Sighting(srcIp.value, dstPort.value, 0, 0, stamp.GetOr(now)));
    } else {
      s := None;
    }
  }

  /** The second token loop: a bracketed token that parses sets the stamp. */
  method ScanStamps(parts: seq<string>) returns (stamp: Option<int>)
    ensures stamp == LastStamp(parts)
  {
    ghost var xs := Stamps(parts);
    stamp := None;
    var j := 0;
    while j < |parts|
      invariant 0 <= j <= |parts|
      invariant stamp == LastSome(xs[..j])
    {
      assert xs[..j + 1][..j] == xs[..j];
      var t := StampOf(parts[j]);
      if t.Some? {
        stamp := t;
      }
      j := j + 1;
    }
    assert xs[..j] == xs;
  }

  /** The entries of these lines, in order. */
  function SightingsOf(lines: seq<string>, now: int): seq<Sighting>
    decreases |lines|
  {
    if lines == [] then []
    else
      var rest := SightingsOf(lines[..|lines| - 1], now);
      match SightingOf(lines[|lines| - 1], now)
      case Some(s) => rest + [s]
      case None => rest
  }

  /** get_active_connections_conntrack, given `conntrack -L -p udp` output;
      the `grep -E` in front of the parser keeps the lines with a VPN port. */
  function Sightings(stdout: string, now: int): seq<Sighting> {
    SightingsOf(VpnLines(stdout), now)
  }

  lemma SightingsStep(lines: seq<string>, i: nat, now: int)
    requires i < |lines|
    ensures SightingsOf(lines[..i + 1], now)
      == SightingsOf(lines[..i], now) + (if SightingOf(lines[i], now).Some? then [SightingOf(lines[i], now).value] else [])
  {
    assert lines[..i + 1][..i] == lines[..i];
  }

  method GetActiveConnections(stdout: string, now: int) returns (conns: seq<Sighting>)
    ensures conns == Sightings(stdout, now)
  {
    var lines := VpnLines(stdout);
    conns := [];
    var i := 0;
    while i < |lines|
      invariant 0 <= i <= |lines|
      invariant conns == SightingsOf(lines[..i], now)
    {
      SightingsStep(lines, i, now);
      var s := ParseLine(lines[i], now);
      if s.Some? {
        conns := conns + [s.value];
      }
      i := i + 1;
    }
    assert lines[..i] == lines;
  }

  // ----- get_user_from_port -----

  /** `SELECT username FROM users WHERE port = ? OR ? = "5667"`, fetchone. */
  function UserFromPort(users: seq<User>, port: string): (r: Option<string>)
    // The tunnel port yields the first user, whatever its status.
    ensures port == DefaultPort ==> (users == [] <==> r.None?) && (users != [] ==> r == Some(users[0].username))
    // Any other port yields the first user with exactly that port, or none.
    ensures port != DefaultPort ==>
      (r.None? <==> forall i :: 0 <= i < |users| ==> users[i].port != Some(port))
      && (r.Some? ==> exists i :: 0 <= i < |users| && FirstWithPort(users, port, i) && r == Some(users[i].username))
  {
    match FirstIndex(users, PortOrDefault(port))
    case Some(i) => Some(users[i].username)
    case None => None
  }

  // ----- get_live_connections -----

  /** One entry of get_live_connections. `connected_at` is kept in seconds. */
  datatype LiveEntry = LiveEntry(
    username: string, clientIp: string, serverPort: string, connectedAt: int, duration: int,
    bytesSent: int, bytesRecv: int)

  /** The live entries for these sightings: those whose port maps to a user,
      in order, with `duration = now - timestamp`. */
  function LiveEntriesOf(users: seq<User>, conns: seq<Sighting>, now: int): (r: seq<LiveEntry>)
    ensures |r| <= |conns|
    ensures forall i :: 0 <= i < |r| ==> r[i].duration == now - r[i].connectedAt
    decreases |conns|
  {
    if conns == [] then []
    else
      var rest := LiveEntriesOf(users, conns[..|conns| - 1], now);
      var c := conns[|conns| - 1];
      match UserFromPort(users, c.serverPort)
      case Some(name) =>
        if name != "" then
          rest + [LiveEntry(name, c.clientIp, c.serverPort, c.timestamp, now - c.timestamp, c.bytesSent, c.bytesRecv)]
        else rest
      case None => rest
  }

  /** e was made from sighting c, whose port maps to e's user. */
  ghost predicate EntryFrom(users: seq<User>, e: LiveEntry, c: Sighting) {
    UserFromPort(users, c.serverPort) == Some(e.username)
    && e.clientIp == c.clientIp && e.serverPort == c.serverPort && e.connectedAt == c.timestamp
  }

  /** Every live entry comes from a sighting whose port maps to its user. */
  lemma {:induction false} LiveEntriesMapped(users: seq<User>, conns: seq<Sighting>, now: int)
    ensures forall e :: e in LiveEntriesOf(users, conns, now) ==>
      e.username != "" && exists c :: c in conns && EntryFrom(users, e, c)
    decreases |conns|
  {
    if conns != [] {
      var init := conns[..|conns| - 1];
      LiveEntriesMapped(users, init, now);
      forall e | e in LiveEntriesOf(users, conns, now)
        ensures e.username != "" && exists c :: c in conns && EntryFrom(users, e, c)
      {
        if e in LiveEntriesOf(users, init, now) {
          var c :| c in init && EntryFrom(users, e, c);
          assert c in conns;
        } else {
          assert conns[|conns| - 1] in conns;
        }
      }
    }
  }

  // ----- enforce_connection_limits -----

  function Duration(e: LiveEntry): int { e.duration }

  function EntryOf(name: string): LiveEntry -> bool { (e: LiveEntry) => e.username == name }

  /** The user's live entries, in order. */
  function Own(u: User, live: seq<LiveEntry>): seq<LiveEntry> {
    Filter(live, EntryOf(u.username))
  }

  /** The entries enforcement drops for one user: after a stable sort by
      ascending duration, the first `count - max` (all of them if there are
      fewer). */
  function ExcessEntries(u: User, live: seq<LiveEntry>): seq<LiveEntry> {
    var mine := Own(u, live);
    if |mine| > u.concurrentConn then Take(SortBy(mine, Duration), |mine| - u.concurrentConn) else []
  }

  /** drop_connection: `conntrack -D -p udp --dport <server_port> --src <client_ip>`. */
  function DropCommand(e: LiveEntry): Command {
    ConntrackDelete(e.serverPort, None, e.clientIp)
  }

  function DropCommands(es: seq<LiveEntry>): (r: seq<Command>)
    ensures |r| == |es| && forall i :: 0 <= i < |es| ==> r[i] == DropCommand(es[i])
  {
    seq(|es|, i requires 0 <= i < |es| => DropCommand(es[i]))
  }

  /** The commands enforcement issues for these users, in order. */
  function EnforceCommands(users: seq<User>, live: seq<LiveEntry>, today: Dates.Date): seq<Command>
    decreases |users|
  {
    if users == [] then []
    else
      var u := users[|users| - 1];
      EnforceCommands(users[..|users| - 1], live, today)
        + (if IsLive(u, today) then DropCommands(ExcessEntries(u, live)) else [])
  }

  /** A user within the limit loses nothing. One over the limit loses
      `count - max` entries (all when the limit is negative beyond the count),
      all its own, and no kept entry has a shorter duration than a dropped one:
      the youngest connections go first. */
  lemma ExcessEntriesSpec(u: User, live: seq<LiveEntry>)
    ensures |Own(u, live)| <= u.concurrentConn ==> ExcessEntries(u, live) == []
    ensures |Own(u, live)| > u.concurrentConn ==>
      |ExcessEntries(u, live)| == (if u.concurrentConn >= 0 then |Own(u, live)| - u.concurrentConn else |Own(u, live)|)
    ensures |Own(u, live)| > u.concurrentConn ==>
      TakenSmallest(ExcessEntries(u, live), SortBy(Own(u, live), Duration), Own(u, live), Duration)
  {
    ExcessEntriesCount(u, live);
    if |Own(u, live)| > u.concurrentConn {
      ExcessEntriesSmallest(u, live);
    }
  }

  lemma ExcessEntriesCount(u: User, live: seq<LiveEntry>)
    ensures |Own(u, live)| <= u.concurrentConn ==> ExcessEntries(u, live) == []
    ensures |Own(u, live)| > u.concurrentConn ==>
      |ExcessEntries(u, live)| == (if u.concurrentConn >= 0 then |Own(u, live)| - u.concurrentConn else |Own(u, live)|)
  {
  }

  lemma ExcessEntriesSmallest(u: User, live: seq<LiveEntry>)
    requires |Own(u, live)| > u.concurrentConn
    ensures TakenSmallest(ExcessEntries(u, live), SortBy(Own(u, live), Duration), Own(u, live), Duration)
  {
    TakeShortest(Own(u, live), |Own(u, live)| - u.concurrentConn, ExcessEntries(u, live));
  }

  /** Taking k off the entries sorted by duration takes the shortest ones. */
  lemma TakeShortest(s: seq<LiveEntry>, k: int, ex: seq<LiveEntry>)
    requires ex == Take(SortBy(s, Duration), k)
    ensures TakenSmallest(ex, SortBy(s, Duration), s, Duration)
  {
    TakeSmallest(s, Duration, k);
  }

  /** Every dropped entry is one of the user's own live entries. */
  lemma ExcessEntriesOwn(u: User, live: seq<LiveEntry>)
    ensures forall d :: d in ExcessEntries(u, live) ==> d in live && d.username == u.username
  {
    var mine := Filter(live, EntryOf(u.username));
    var ex := ExcessEntries(u, live);
    if |mine| > u.concurrentConn {
      TakeSortedIn(mine, Duration, |mine| - u.concurrentConn);
      forall d | d in ex ensures d in live && d.username == u.username {
        var i :| 0 <= i < |mine| && mine[i] == d;
        assert EntryOf(u.username)(mine[i]);
      }
    }
  }

  // ----- update_user_bandwidth -----

  /** A row of `active_connections`. Times are seconds. */
  datatype ActiveRow = ActiveRow(
    username: string, clientIp: string, serverPort: string, connectedAt: int, lastUpdated: int,
    bytesSent: int, bytesRecv: int)

  /** `SUM(bytes_sent + bytes_recv)` over the active rows of a user. */
  function TotalBytes(active: seq<ActiveRow>, name: string): int
    decreases |active|
  {
    if active == [] then 0
    else
      var r := active[|active| - 1];
      TotalBytes(active[..|active| - 1], name) + (if r.username == name then r.bytesSent + r.bytesRecv else 0)
  }

  /** Some row belongs to user n. */
  predicate HasRowOf(active: seq<ActiveRow>, n: string) {
    exists k :: 0 <= k < |active| && active[k].username == n
  }

  /** The user names of the rows, each once, in first-seen order (the groups of
      `GROUP BY username`). */
  function Groups(active: seq<ActiveRow>): (g: seq<string>)
    ensures forall i, j :: 0 <= i < j < |g| ==> g[i] != g[j]
    ensures forall n :: n in g <==> HasRowOf(active, n)
    decreases |active|
  {
    if active == [] then []
    else
      var init := active[..|active| - 1];
      var g := Groups(init);
      var n := active[|active| - 1].username;
      GroupsStep(active);
      if n in g then g else g + [n]
  }

  lemma GroupsStep(active: seq<ActiveRow>)
    requires active != []
    ensures forall m :: HasRowOf(active, m) <==>
      HasRowOf(active[..|active| - 1], m) || m == active[|active| - 1].username
  {
    var init := active[..|active| - 1];
    forall m | HasRowOf(init, m) ensures HasRowOf(active, m) {
      var k :| 0 <= k < |init| && init[k].username == m;
      assert active[k] == init[k];
    }
    forall m | HasRowOf(active, m) && m != active[|active| - 1].username ensures HasRowOf(init, m) {
      var k :| 0 <= k < |active| && active[k].username == m;
      assert init[k] == active[k];
    }
  }

  /** The users table after the UPDATE for each group in turn: a row is
      touched once, by the group of its own name, if that name is listed. */
  function AddGroupTotals(users: seq<User>, active: seq<ActiveRow>, groups: seq<string>): (r: seq<User>)
    requires forall i, j :: 0 <= i < j < |groups| ==> groups[i] != groups[j]
    ensures |r| == |users|
    ensures forall i :: 0 <= i < |users| ==>
      r[i] == if users[i].username in groups
              then users[i].(bandwidthUsed := SqlAdd(users[i].bandwidthUsed, TotalBytes(active, users[i].username)))
              else users[i]
    decreases |groups|
  {
    if groups == [] then users
    else
      var n := groups[|groups| - 1];
      var init := groups[..|groups| - 1];
      assert n !in init;
      UpdateWhereName(AddGroupTotals(users, active, init), n, AddUsage(TotalBytes(active, n)))
  }

  function AddUsage(n: int): User -> User {
    (u: User) => u.(bandwidthUsed := SqlAdd(u.bandwidthUsed, n))
  }

  /** After the roll-up, a user with active rows has their summed bytes added
      (NULL usage stays NULL); every other user is unchanged. */
  lemma BandwidthRollup(users: seq<User>, active: seq<ActiveRow>)
    ensures forall i :: 0 <= i < |users| ==>
      var r := AddGroupTotals(users, active, Groups(active))[i];
      if HasRowOf(active, users[i].username) then
        r.bandwidthUsed == SqlAdd(users[i].bandwidthUsed, TotalBytes(active, users[i].username))
        && r == users[i].(bandwidthUsed := r.bandwidthUsed)
      else r == users[i]
  {
  }

  // ----- update_connection_logs -----

  /** A row of `connection_logs`. Times are seconds; `disconnectedAt` None is
      NULL. */
  datatype LogRow = LogRow(
    username: string, clientIp: string, serverPort: string, connectedAt: int,
    disconnectedAt: Option<int>, bytesSent: int, bytesRecv: int, duration: int)

  /** The columns of `UNIQUE(username, client_ip, server_port)`. */
  datatype Endpoint = Endpoint(username: string, clientIp: string, serverPort: string)

  /** Both tables after a committed pass. */
  datatype Tables = Tables(active: seq<ActiveRow>, logs: seq<LogRow>)

  /** The state inside the transaction: both tables and the `existing_conns`
      dict of the rows not yet seen. */
  datatype Pass = Pass(active: seq<ActiveRow>, logs: seq<LogRow>, existing: ODict<string, ActiveRow>)

  function RowEnd(r: ActiveRow): Endpoint { Endpoint(r.username, r.clientIp, r.serverPort) }
  function EntryEnd(e: LiveEntry): Endpoint { Endpoint(e.username, e.clientIp, e.serverPort) }
  function LogEnd(g: LogRow): Endpoint { Endpoint(g.username, g.clientIp, g.serverPort) }

  /** `f"{username}_{client_ip}_{server_port}"`. */
  function Key(p: Endpoint): string { p.username + "_" + p.clientIp + "_" + p.serverPort }

  /** An endpoint whose address and port hold no '_', as dotted addresses and
      decimal ports do; usernames may hold any character. */
  predicate Clear(p: Endpoint) { '_' !in p.clientIp && '_' !in p.serverPort }

  /** The text after the last '_' (all of s when it holds none). */
  function AfterLastSep(s: string): string
    decreases |s|
  {
    if s == [] || s[|s| - 1] == '_' then [] else AfterLastSep(s[..|s| - 1]) + [s[|s| - 1]]
  }

  lemma {:induction false} AfterLastSepOf(a: string, x: string)
    requires '_' !in x
    ensures AfterLastSep(a + "_" + x) == x
    decreases |x|
  {
    var w := a + "_" + x;
    if x != [] {
      var x' := x[..|x| - 1];
      assert w[..|w| - 1] == a + "_" + x';
      AfterLastSepOf(a, x');
      assert x == x' + [x[|x| - 1]];
    }
  }

  /** a + "_" + x splits at its last '_' when x holds none. */
  lemma SplitLast(a: string, x: string, b: string, y: string)
    requires '_' !in x && '_' !in y && a + "_" + x == b + "_" + y
    ensures a == b && x == y
  {
    var s := a + "_" + x;
    AfterLastSepOf(a, x);
    AfterLastSepOf(b, y);
    assert |a| == |b|;
    assert a == s[..|a|] && b == s[..|b|];
  }

  /** On clear endpoints the dict key names the endpoint. */
  lemma KeyInjective(p: Endpoint, q: Endpoint)
    requires Clear(p) && Clear(q) && Key(p) == Key(q)
    ensures p == q
  {
    assert Key(p) == (p.username + "_" + p.clientIp) + "_" + p.serverPort;
    assert Key(q) == (q.username + "_" + q.clientIp) + "_" + q.serverPort;
    SplitLast(p.username + "_" + p.clientIp, p.serverPort, q.username + "_" + q.clientIp, q.serverPort);
    SplitLast(p.username, p.clientIp, q.username, q.clientIp);
  }

  /** The endpoints of the rows. */
  function Ends(a: seq<ActiveRow>): set<Endpoint> {
    set r | r in a :: RowEnd(r)
  }

  /** The UNIQUE constraint holds. */
  ghost predicate UniqueEnds(a: seq<ActiveRow>) {
    DistinctBy(a, RowEnd)
  }

  /** `existing_conns`: the rows by key, in row order; a later row with the
      same key overwrites an earlier one. */
  function Index(a: seq<ActiveRow>): (d: ODict<string, ActiveRow>)
    ensures d.Valid()
    ensures forall r :: r in a ==> Key(RowEnd(r)) in d.vals
    ensures forall k :: k in d.vals ==> d.vals[k] in a && Key(RowEnd(d.vals[k])) == k
    decreases |a|
  {
    if a == [] then Empty()
    else
      var last := a[|a| - 1];
      var d := Index(a[..|a| - 1]);
      assert forall r :: r in a ==> r in a[..|a| - 1] || r == last;
      d.Put(Key(RowEnd(last)), last)
  }

  /** The UPDATE of the rows with e's endpoint: `last_updated = now` and e's
      byte counters. */
  function Refresh(a: seq<ActiveRow>, e: LiveEntry, now: int): (r: seq<ActiveRow>)
    ensures |r| == |a|
    ensures forall i :: 0 <= i < |a| ==>
      r[i] == if RowEnd(a[i]) == EntryEnd(e) then a[i].(lastUpdated := now, bytesSent := e.bytesSent, bytesRecv := e.bytesRecv)
              else a[i]
  {
    seq(|a|, i requires 0 <= i < |a| =>
      if RowEnd(a[i]) == EntryEnd(e) then a[i].(lastUpdated := now, bytesSent := e.bytesSent, bytesRecv := e.bytesRecv)
      else a[i])
  }

  /** One entry of the loop over the current connections; None is the
      UNIQUE violation that aborts the transaction. */
  function Observe(p: Pass, e: LiveEntry, now: int): (r: Option<Pass>)
    requires p.existing.Valid()
    ensures r.Some? ==> r.value.existing.Valid()
  {
    if e.username == "" then Some(p)
    else
      var k := Key(EntryEnd(e));
      if k in p.existing.vals then Some(Pass(Refresh(p.active, e, now), p.logs, p.existing.Remove(k)))
      else if EntryEnd(e) in Ends(p.active) then None
      else
        Some(Pass(
          p.active + [ActiveRow(e.username, e.clientIp, e.serverPort, now, now, e.bytesSent, e.bytesRecv)],
          p.logs + [LogRow(e.username, e.clientIp, e.serverPort, now, None, e.bytesSent, e.bytesRecv, 0)],
          p.existing))
  }

  function ObserveAll(p: Pass, es: seq<LiveEntry>, now: int): (r: Option<Pass>)
    requires p.existing.Valid()
    ensures r.Some? ==> r.value.existing.Valid()
    decreases |es|
  {
    if es == [] then Some(p)
    else
      match ObserveAll(p, es[..|es| - 1], now)
      case None => None
      case Some(q) => Observe(q, es[|es| - 1], now)
  }

  /** Once a prefix aborts, the whole pass aborts. */
  lemma {:induction false} ObserveAllAborts(p: Pass, es: seq<LiveEntry>, n: nat, now: int)
    requires p.existing.Valid() && n <= |es|
    requires ObserveAll(p, es[..n], now).None?
    ensures ObserveAll(p, es, now).None?
    decreases |es| - n
  {
    if n < |es| {
      var m := n + 1;
      assert es[..m][..n] == es[..n];
      ObserveAllAborts(p, es, m, now);
    } else {
      assert es[..n] == es;
    }
  }

  function EndIsNot(p: Endpoint): ActiveRow -> bool {
    (r: ActiveRow) => RowEnd(r) != p
  }

  /** The UPDATE of the open log rows of row's endpoint:
      `disconnected_at = now`, `duration = now - connected_at`. */
  function CloseLogs(logs: seq<LogRow>, row: ActiveRow, now: int): (r: seq<LogRow>)
    ensures |r| == |logs|
    ensures forall i :: 0 <= i < |logs| ==>
      r[i] == if LogEnd(logs[i]) == RowEnd(row) && logs[i].disconnectedAt.None?
              then logs[i].(disconnectedAt := Some(now), duration := now - row.connectedAt)
              else logs[i]
  {
    seq(|logs|, i requires 0 <= i < |logs| =>
      if LogEnd(logs[i]) == RowEnd(row) && logs[i].disconnectedAt.None?
      then logs[i].(disconnectedAt := Some(now), duration := now - row.connectedAt)
      else logs[i])
  }

  /** The loop over the rows not seen: close their open logs and DELETE their
      active rows. */
  function CloseAll(t: Tables, rows: seq<ActiveRow>, now: int): (r: Tables)
    ensures |r.logs| == |t.logs|
    decreases |rows|
  {
    if rows == [] then t
    else
      var u := CloseAll(t, rows[..|rows| - 1], now);
      var row := rows[|rows| - 1];
      Tables(Filter(u.active, EndIsNot(RowEnd(row))), CloseLogs(u.logs, row, now))
  }

  /** update_connection_logs on the tables (active, logs) for these entries:
      None when the transaction rolls back. */
  function Reconcile(active: seq<ActiveRow>, logs: seq<LogRow>, es: seq<LiveEntry>, now: int): Option<Tables> {
    match ObserveAll(Pass(active, logs, Index(active)), es, now)
    case None => None
    case Some(p) => Some(CloseAll(Tables(p.active, p.logs), Values(p.existing), now))
  }

  // ----- what a pass does to the tables -----

  lemma EndsLast(a: seq<ActiveRow>)
    requires a != []
    ensures Ends(a) == Ends(a[..|a| - 1]) + {RowEnd(a[|a| - 1])}
  {
    assert a == a[..|a| - 1] + [a[|a| - 1]];
    EndsSnoc(a[..|a| - 1], a[|a| - 1]);
  }

  lemma EndsSnoc(a: seq<ActiveRow>, r: ActiveRow)
    ensures Ends(a + [r]) == Ends(a) + {RowEnd(r)}
  {
    assert (a + [r])[|a|] == r;
  }

  lemma EndsFilter(a: seq<ActiveRow>, p: Endpoint)
    ensures Ends(Filter(a, EndIsNot(p))) == Ends(a) - {p}
  {
    var f := Filter(a, EndIsNot(p));
    forall q | q in Ends(a) - {p} ensures q in Ends(f) {
      var r :| r in a && RowEnd(r) == q;
      assert EndIsNot(p)(r);
    }
  }

  lemma RefreshEnds(a: seq<ActiveRow>, e: LiveEntry, now: int)
    ensures Ends(Refresh(a, e, now)) == Ends(a)
    ensures UniqueEnds(a) ==> UniqueEnds(Refresh(a, e, now))
  {
    var r := Refresh(a, e, now);
    assert forall i :: 0 <= i < |a| ==> RowEnd(r[i]) == RowEnd(a[i]);
    forall q | q in Ends(a) ensures q in Ends(r) {
      var x :| x in a && RowEnd(x) == q;
      var i :| 0 <= i < |a| && a[i] == x;
      assert RowEnd(r[i]) == q;
    }
  }

  /** The endpoints of the named entries. */
  function NamedEnds(es: seq<LiveEntry>): set<Endpoint> {
    set e | e in es && e.username != "" :: EntryEnd(e)
  }

  /** No two named entries share an endpoint. */
  ghost predicate DistinctNamed(es: seq<LiveEntry>) {
    forall i, j :: 0 <= i < j < |es| && es[i].username != "" && es[j].username != "" ==>
      EntryEnd(es[i]) != EntryEnd(es[j])
  }

  lemma NamedEndsSnoc(es: seq<LiveEntry>)
    requires es != []
    ensures var init := es[..|es| - 1];
      var e := es[|es| - 1];
      NamedEnds(es) == NamedEnds(init) + (if e.username != "" then {EntryEnd(e)} else {})
  {
    assert es == es[..|es| - 1] + [es[|es| - 1]];
  }

  lemma NamedEndsFresh(es: seq<LiveEntry>)
    requires es != [] && DistinctNamed(es) && es[|es| - 1].username != ""
    ensures EntryEnd(es[|es| - 1]) !in NamedEnds(es[..|es| - 1])
  {
    var init := es[..|es| - 1];
    forall e | e in init && e.username != "" ensures EntryEnd(e) != EntryEnd(es[|es| - 1]) {
      var i :| 0 <= i < |init| && init[i] == e;
      assert es[i] == e;
    }
  }

  /** What holds inside the transaction after the entries whose endpoints
      are d, starting from the active rows a0 and the logs l0. */
  ghost predicate Inv(a0: seq<ActiveRow>, l0: seq<LogRow>, d: set<Endpoint>, p: Pass, now: int) {
    InvRows(a0, d, p, now) && InvLogs(a0, l0, d, p.logs, now)
  }

  /** The UNIQUE constraint holds, the active endpoints are those of a0 and
      d, the rows of d were touched now, and `existing_conns` holds exactly
      the rows of a0 not yet seen, under their own keys. */
  ghost predicate InvRows(a0: seq<ActiveRow>, d: set<Endpoint>, p: Pass, now: int) {
    p.existing.Valid()
    && UniqueEnds(p.active)
    && Ends(p.active) == Ends(a0) + d
    && (forall r :: r in p.active && RowEnd(r) in d ==> r.lastUpdated == now)
    && (forall r :: r in a0 && RowEnd(r) !in d ==> Key(RowEnd(r)) in p.existing.vals)
    && (forall k :: k in p.existing.vals ==>
          p.existing.vals[k] in a0 && RowEnd(p.existing.vals[k]) !in d && Key(RowEnd(p.existing.vals[k])) == k)
  }

  /** A log row opened now for a new connection. */
  predicate OpenedAt(g: LogRow, now: int) {
    g.disconnectedAt.None? && g.connectedAt == now && g.duration == 0
  }

  /** The logs are l0 followed by one row opened now for each endpoint of d
      that was not active. */
  ghost predicate InvLogs(a0: seq<ActiveRow>, l0: seq<LogRow>, d: set<Endpoint>, logs: seq<LogRow>, now: int) {
    |l0| <= |logs| && logs[..|l0|] == l0
    && |logs| == |l0| + |d - Ends(a0)|
    && forall j :: |l0| <= j < |logs| ==> OpenedAt(logs[j], now) && LogEnd(logs[j]) in d - Ends(a0)
  }

  /** A seen endpoint that was active adds no log row. */
  lemma LogsSeen(a0: seq<ActiveRow>, l0: seq<LogRow>, d: set<Endpoint>, logs: seq<LogRow>, ep: Endpoint, now: int)
    requires InvLogs(a0, l0, d, logs, now) && ep in Ends(a0)
    ensures InvLogs(a0, l0, d + {ep}, logs, now)
  {
    assert (d + {ep}) - Ends(a0) == d - Ends(a0);
  }

  /** A new endpoint adds one open log row. */
  lemma LogsNew(a0: seq<ActiveRow>, l0: seq<LogRow>, d: set<Endpoint>, logs: seq<LogRow>, g: LogRow, now: int)
    requires InvLogs(a0, l0, d, logs, now) && LogEnd(g) !in Ends(a0) && LogEnd(g) !in d && OpenedAt(g, now)
    ensures InvLogs(a0, l0, d + {LogEnd(g)}, logs + [g], now)
  {
    var ep := LogEnd(g);
    assert (d + {ep}) - Ends(a0) == (d - Ends(a0)) + {ep};
    assert ep !in d - Ends(a0);
    assert (logs + [g])[..|l0|] == logs[..|l0|];
  }

  ghost predicate AllClear(ends: set<Endpoint>) {
    forall q :: q in ends ==> Clear(q)
  }

  /** An entry of a row not yet seen refreshes it and leaves the dict. */
  lemma ObserveSeen(a0: seq<ActiveRow>, d: set<Endpoint>, p: Pass, e: LiveEntry, now: int)
    requires InvRows(a0, d, p, now) && AllClear(Ends(a0))
    requires e.username != "" && Clear(EntryEnd(e)) && EntryEnd(e) !in d
    requires Key(EntryEnd(e)) in p.existing.vals
    ensures Observe(p, e, now).Some? && InvRows(a0, d + {EntryEnd(e)}, Observe(p, e, now).value, now)
    ensures EntryEnd(e) in Ends(a0) && Observe(p, e, now).value.logs == p.logs
  {
    var ep := EntryEnd(e);
    var k := Key(ep);
    var v := p.existing.vals[k];
    assert RowEnd(v) in Ends(a0);
    KeyInjective(RowEnd(v), ep);
    var q := Observe(p, e, now).value;
    assert q.active == Refresh(p.active, e, now);
    RefreshEnds(p.active, e, now);
    var d' := d + {ep};
    RefreshTouched(p.active, e, now, d);
    RemoveSeen(a0, d, p.existing, ep);
  }

  /** Removing a seen endpoint's key keeps the dict indexing exactly the rows
      of a0 not yet seen. */
  lemma RemoveSeen(a0: seq<ActiveRow>, d: set<Endpoint>, existing: ODict<string, ActiveRow>, ep: Endpoint)
    requires existing.Valid() && AllClear(Ends(a0)) && Clear(ep)
    requires forall r :: r in a0 && RowEnd(r) !in d ==> Key(RowEnd(r)) in existing.vals
    requires forall k :: k in existing.vals ==>
      existing.vals[k] in a0 && RowEnd(existing.vals[k]) !in d && Key(RowEnd(existing.vals[k])) == k
    ensures forall r :: r in a0 && RowEnd(r) !in d + {ep} ==> Key(RowEnd(r)) in existing.Remove(Key(ep)).vals
    ensures forall k :: k in existing.Remove(Key(ep)).vals ==>
      existing.Remove(Key(ep)).vals[k] in a0 && RowEnd(existing.Remove(Key(ep)).vals[k]) !in d + {ep}
      && Key(RowEnd(existing.Remove(Key(ep)).vals[k])) == k
  {
    var k := Key(ep);
    var m := existing.Remove(k);
    forall r | r in a0 && RowEnd(r) !in d + {ep} ensures Key(RowEnd(r)) in m.vals {
      assert RowEnd(r) in Ends(a0);
      if Key(RowEnd(r)) == k {
        KeyInjective(RowEnd(r), ep);
      }
    }
    forall k' | k' in m.vals ensures RowEnd(m.vals[k']) != ep {
      assert m.vals[k'] == existing.vals[k'];
    }
  }

  /** Refreshing keeps the rows of d touched now and touches the entry's own. */
  lemma RefreshTouched(a: seq<ActiveRow>, e: LiveEntry, now: int, d: set<Endpoint>)
    requires forall r :: r in a && RowEnd(r) in d ==> r.lastUpdated == now
    ensures forall r :: r in Refresh(a, e, now) && RowEnd(r) in d + {EntryEnd(e)} ==> r.lastUpdated == now
  {
    var q := Refresh(a, e, now);
    forall r | r in q && RowEnd(r) in d + {EntryEnd(e)} ensures r.lastUpdated == now {
      var i :| 0 <= i < |q| && q[i] == r;
      if RowEnd(a[i]) != EntryEnd(e) {
        assert a[i] in a;
      }
    }
  }

  /** An entry of an endpoint neither active nor seen is inserted, with an
      open log row. */
  lemma ObserveNew(a0: seq<ActiveRow>, d: set<Endpoint>, p: Pass, e: LiveEntry, now: int)
    requires InvRows(a0, d, p, now) && AllClear(Ends(a0))
    requires e.username != "" && Clear(EntryEnd(e)) && EntryEnd(e) !in d
    requires Key(EntryEnd(e)) !in p.existing.vals
    ensures Observe(p, e, now).Some? && InvRows(a0, d + {EntryEnd(e)}, Observe(p, e, now).value, now)
    ensures EntryEnd(e) !in Ends(a0)
    ensures Observe(p, e, now).value.logs
      == p.logs + [LogRow(e.username, e.clientIp, e.serverPort, now, None, e.bytesSent, e.bytesRecv, 0)]
  {
    var ep := EntryEnd(e);
    forall r | r in a0 ensures RowEnd(r) != ep {
      if RowEnd(r) !in d {
        assert Key(RowEnd(r)) in p.existing.vals;
      }
    }
    var row := ActiveRow(e.username, e.clientIp, e.serverPort, now, now, e.bytesSent, e.bytesRecv);
    var q := Observe(p, e, now).value;
    assert q.active == p.active + [row];
    EndsSnoc(p.active, row);
    forall i | 0 <= i < |p.active| ensures RowEnd(p.active[i]) != ep {
      assert RowEnd(p.active[i]) in Ends(p.active);
    }
    assert UniqueEnds(q.active) by {
      forall i, j | 0 <= i < j < |q.active| ensures RowEnd(q.active[i]) != RowEnd(q.active[j]) {
        if j == |p.active| {
          assert q.active[i] == p.active[i];
        } else {
          assert q.active[i] == p.active[i] && q.active[j] == p.active[j];
        }
      }
    }
    forall k | k in q.existing.vals ensures RowEnd(q.existing.vals[k]) != ep {
      assert RowEnd(q.existing.vals[k]) in Ends(a0);
    }
  }

  /** The loop over distinct, clear entries never aborts and ends in the
      invariant for all their endpoints. */
  lemma {:induction false} ObserveAllInv(a0: seq<ActiveRow>, l0: seq<LogRow>, es: seq<LiveEntry>, now: int)
    requires UniqueEnds(a0) && AllClear(Ends(a0)) && AllClear(NamedEnds(es)) && DistinctNamed(es)
    ensures ObserveAll(Pass(a0, l0, Index(a0)), es, now).Some?
    ensures Inv(a0, l0, NamedEnds(es), ObserveAll(Pass(a0, l0, Index(a0)), es, now).value, now)
    decreases |es|
  {
    var p0 := Pass(a0, l0, Index(a0));
    if es == [] {
      assert NamedEnds(es) == {};
      InvStart(a0, l0, now);
    } else {
      var init := es[..|es| - 1];
      var e := es[|es| - 1];
      DistinctNamedInit(es);
      ObserveAllInv(a0, l0, init, now);
      var p := ObserveAll(p0, init, now).value;
      ObserveStep(a0, l0, NamedEnds(init), p, e, now);
      ObserveAllSnoc(p0, es, now);
    }
  }

  /** Dropping the last entry keeps the named entries distinct and clear, and
      a named last entry is clear and not among the others. */
  lemma DistinctNamedInit(es: seq<LiveEntry>)
    requires es != [] && DistinctNamed(es) && AllClear(NamedEnds(es))
    ensures DistinctNamed(es[..|es| - 1]) && AllClear(NamedEnds(es[..|es| - 1]))
    ensures var e := es[|es| - 1];
      e.username != "" ==> Clear(EntryEnd(e)) && EntryEnd(e) !in NamedEnds(es[..|es| - 1])
    ensures var e := es[|es| - 1];
      NamedEnds(es) == if e.username != "" then NamedEnds(es[..|es| - 1]) + {EntryEnd(e)} else NamedEnds(es[..|es| - 1])
  {
    var init := es[..|es| - 1];
    NamedEndsSnoc(es);
    forall i, j | 0 <= i < j < |init| ensures init[i] == es[i] && init[j] == es[j] { }
    if es[|es| - 1].username != "" {
      NamedEndsFresh(es);
    }
  }

  /** The pass over one more entry is one more step of the pass. */
  lemma ObserveAllSnoc(p: Pass, es: seq<LiveEntry>, now: int)
    requires p.existing.Valid() && es != [] && ObserveAll(p, es[..|es| - 1], now).Some?
    ensures ObserveAll(p, es, now) == Observe(ObserveAll(p, es[..|es| - 1], now).value, es[|es| - 1], now)
  {
  }

  /** Before any entry: the dict indexes every row. */
  lemma InvStart(a0: seq<ActiveRow>, l0: seq<LogRow>, now: int)
    requires UniqueEnds(a0)
    ensures Inv(a0, l0, {}, Pass(a0, l0, Index(a0)), now)
  {
    assert Ends(a0) + {} == Ends(a0);
    assert {} - Ends(a0) == {};
    assert l0[..|l0|] == l0;
  }

  /** One entry keeps the invariant, adding its endpoint when it is named. */
  lemma ObserveStep(a0: seq<ActiveRow>, l0: seq<LogRow>, d: set<Endpoint>, p: Pass, e: LiveEntry, now: int)
    requires Inv(a0, l0, d, p, now) && AllClear(Ends(a0))
    requires e.username != "" ==> Clear(EntryEnd(e)) && EntryEnd(e) !in d
    ensures Observe(p, e, now).Some?
    ensures Inv(a0, l0, if e.username != "" then d + {EntryEnd(e)} else d, Observe(p, e, now).value, now)
  {
    if e.username != "" {
      if Key(EntryEnd(e)) in p.existing.vals {
        ObserveSeen(a0, d, p, e, now);
        LogsSeen(a0, l0, d, p.logs, EntryEnd(e), now);
      } else {
        ObserveNew(a0, d, p, e, now);
        LogsNew(a0, l0, d, p.logs, LogRow(e.username, e.clientIp, e.serverPort, now, None, e.bytesSent, e.bytesRecv, 0), now);
      }
    }
  }

  /** The rows the pass leaves in the dict are those of a0 whose endpoints it
      did not see, one per endpoint. */
  lemma LeftOver(a0: seq<ActiveRow>, d: set<Endpoint>, p: Pass, now: int)
    requires InvRows(a0, d, p, now) && AllClear(Ends(a0))
    ensures Ends(Values(p.existing)) == Ends(a0) - d
  {
    var v := Values(p.existing);
    forall q | q in Ends(v) ensures q in Ends(a0) - d {
      var x :| x in v && RowEnd(x) == q;
      var i :| 0 <= i < |v| && v[i] == x;
      assert p.existing.keys[i] in p.existing.vals;
    }
    forall q | q in Ends(a0) - d ensures q in Ends(v) {
      var r :| r in a0 && RowEnd(r) == q;
      var k := Key(q);
      assert k in p.existing.keys;
      var i :| 0 <= i < |p.existing.keys| && p.existing.keys[i] == k;
      assert RowEnd(v[i]) in Ends(a0);
      KeyInjective(RowEnd(v[i]), q);
      assert v[i] in v;
    }
  }

  /** The disconnect loop deletes exactly the endpoints of the rows it is
      given and keeps the UNIQUE constraint. */
  lemma {:induction false} CloseAllSpec(t: Tables, rows: seq<ActiveRow>, now: int)
    ensures Ends(CloseAll(t, rows, now).active) == Ends(t.active) - Ends(rows)
    ensures UniqueEnds(t.active) ==> UniqueEnds(CloseAll(t, rows, now).active)
    ensures forall r :: r in CloseAll(t, rows, now).active ==> r in t.active
    decreases |rows|
  {
    if rows != [] {
      var init := rows[..|rows| - 1];
      var row := rows[|rows| - 1];
      CloseAllSpec(t, init, now);
      var u := CloseAll(t, init, now);
      EndsFilter(u.active, RowEnd(row));
      assert rows == init + [row];
      EndsSnoc(init, row);
      if UniqueEnds(u.active) {
        FilterDistinctBy(u.active, EndIsNot(RowEnd(row)), RowEnd);
      }
    }
  }

  /** The tables the disconnect loop starts from and the rows it closes. */
  lemma PassEnd(a0: seq<ActiveRow>, l0: seq<LogRow>, es: seq<LiveEntry>, now: int)
    requires UniqueEnds(a0) && AllClear(Ends(a0)) && AllClear(NamedEnds(es)) && DistinctNamed(es)
    ensures ObserveAll(Pass(a0, l0, Index(a0)), es, now).Some?
    ensures var p := ObserveAll(Pass(a0, l0, Index(a0)), es, now).value;
      UniqueEnds(p.active)
      && Ends(p.active) - Ends(Values(p.existing)) == NamedEnds(es)
      && (forall r :: r in p.active && RowEnd(r) in NamedEnds(es) ==> r.lastUpdated == now)
  {
    ObserveAllInv(a0, l0, es, now);
    var p := ObserveAll(Pass(a0, l0, Index(a0)), es, now).value;
    var d := NamedEnds(es);
    assert InvRows(a0, d, p, now);
    LeftOver(a0, d, p, now);
    UnionMinus(Ends(a0), d);
  }

  lemma UnionMinus<T>(a: set<T>, d: set<T>)
    ensures (a + d) - (a - d) == d
  {
  }

  /** When the entries are exactly the active endpoints, no log is added and
      no row is left to close. */
  lemma PassSteady(a0: seq<ActiveRow>, l0: seq<LogRow>, es: seq<LiveEntry>, now: int)
    requires UniqueEnds(a0) && AllClear(Ends(a0)) && AllClear(NamedEnds(es)) && DistinctNamed(es)
    requires NamedEnds(es) == Ends(a0)
    ensures ObserveAll(Pass(a0, l0, Index(a0)), es, now).Some?
    ensures var p := ObserveAll(Pass(a0, l0, Index(a0)), es, now).value;
      p.logs == l0 && Values(p.existing) == []
  {
    ObserveAllInv(a0, l0, es, now);
    var p := ObserveAll(Pass(a0, l0, Index(a0)), es, now).value;
    var v := Values(p.existing);
    LeftOver(a0, NamedEnds(es), p, now);
    EndsEmpty(v);
    assert NamedEnds(es) - Ends(a0) == {};
    assert p.logs == p.logs[..|l0|];
  }

  lemma EndsEmpty(v: seq<ActiveRow>)
    ensures Ends(v) == {} <==> v == []
  {
    assert v != [] ==> RowEnd(v[0]) in Ends(v);
  }

  /** For distinct entries over clear endpoints and a table that meets the
      UNIQUE constraint, the pass commits; afterwards the active table holds
      exactly one row per endpoint seen, each touched now, and when the
      entries are exactly the active endpoints the logs are left alone. */
  lemma ReconcileClean(a0: seq<ActiveRow>, l0: seq<LogRow>, es: seq<LiveEntry>, now: int)
    requires UniqueEnds(a0) && AllClear(Ends(a0)) && AllClear(NamedEnds(es)) && DistinctNamed(es)
    ensures Reconcile(a0, l0, es, now).Some?
    ensures var t := Reconcile(a0, l0, es, now).value;
      UniqueEnds(t.active) && Ends(t.active) == NamedEnds(es)
      && (forall r :: r in t.active ==> r.lastUpdated == now)
    ensures NamedEnds(es) == Ends(a0) ==> Reconcile(a0, l0, es, now).value.logs == l0
  {
    PassEnd(a0, l0, es, now);
    if NamedEnds(es) == Ends(a0) {
      PassSteady(a0, l0, es, now);
    }
    var p := ObserveAll(Pass(a0, l0, Index(a0)), es, now).value;
    var v := Values(p.existing);
    var t := Tables(p.active, p.logs);
    CloseAllSpec(t, v, now);
    var f := CloseAll(t, v, now);
    assert Reconcile(a0, l0, es, now) == Some(f);
    forall r | r in f.active ensures r.lastUpdated == now {
      assert RowEnd(r) in Ends(f.active);
    }
  }

  /** What the disconnect loop does to one log row: a row still open whose
      endpoint belongs to one of the rows is closed with that row's connection
      time; every other row is untouched. */
  lemma {:induction false} CloseAllLog(t: Tables, rows: seq<ActiveRow>, now: int, i: int)
    requires DistinctBy(rows, RowEnd) && 0 <= i < |t.logs|
    ensures t.logs[i].disconnectedAt.Some? || LogEnd(t.logs[i]) !in Ends(rows) ==>
      CloseAll(t, rows, now).logs[i] == t.logs[i]
    ensures forall r :: r in rows && RowEnd(r) == LogEnd(t.logs[i]) && t.logs[i].disconnectedAt.None? ==>
      CloseAll(t, rows, now).logs[i] == t.logs[i].(disconnectedAt := Some(now), duration := now - r.connectedAt)
    decreases |rows|
  {
    if rows != [] {
      var init := rows[..|rows| - 1];
      var row := rows[|rows| - 1];
      DistinctByInit(rows, RowEnd);
      CloseAllLog(t, init, now, i);
      EndsLast(rows);
      var g := t.logs[i];
      var u := CloseAll(t, init, now);
      assert CloseAll(t, rows, now).logs[i] == CloseLogs(u.logs, row, now)[i];
      if LogEnd(g) == RowEnd(row) {
        assert LogEnd(g) !in Ends(init);
      }
      forall r | r in rows && RowEnd(r) == LogEnd(g) && g.disconnectedAt.None?
        ensures CloseAll(t, rows, now).logs[i] == g.(disconnectedAt := Some(now), duration := now - r.connectedAt)
      {
        if r != row {
          assert r in init;
        }
      }
    }
  }

  /** Two rows of a table under the UNIQUE constraint with one endpoint are
      one row. */
  lemma UniqueRow(a: seq<ActiveRow>, x: ActiveRow, y: ActiveRow)
    requires UniqueEnds(a) && x in a && y in a && RowEnd(x) == RowEnd(y)
    ensures x == y
  {
  }

  /** What the disconnect loop is handed after a clean pass. */
  lemma PassFacts(a0: seq<ActiveRow>, l0: seq<LogRow>, es: seq<LiveEntry>, now: int)
    requires UniqueEnds(a0) && AllClear(Ends(a0)) && AllClear(NamedEnds(es)) && DistinctNamed(es)
    ensures ObserveAll(Pass(a0, l0, Index(a0)), es, now).Some?
    ensures var p := ObserveAll(Pass(a0, l0, Index(a0)), es, now).value;
      InvLogs(a0, l0, NamedEnds(es), p.logs, now)
      && DistinctBy(Values(p.existing), RowEnd)
      && Ends(Values(p.existing)) == Ends(a0) - NamedEnds(es)
      && (forall v :: v in Values(p.existing) ==> v in a0)
  {
    ObserveAllInv(a0, l0, es, now);
    var p := ObserveAll(Pass(a0, l0, Index(a0)), es, now).value;
    LeftOver(a0, NamedEnds(es), p, now);
    ExistingRows(a0, NamedEnds(es), p, now);
  }

  /** The rows left in the dict are rows of a0, one per endpoint. */
  lemma ExistingRows(a0: seq<ActiveRow>, d: set<Endpoint>, p: Pass, now: int)
    requires InvRows(a0, d, p, now)
    ensures DistinctBy(Values(p.existing), RowEnd)
    ensures forall v :: v in Values(p.existing) ==> v in a0
  {
    var v := Values(p.existing);
    forall i, j | 0 <= i < j < |v| ensures RowEnd(v[i]) != RowEnd(v[j]) {
      assert p.existing.keys[i] in p.existing.vals && p.existing.keys[j] in p.existing.vals;
    }
    forall x | x in v ensures x in a0 {
      var i :| 0 <= i < |v| && v[i] == x;
      assert p.existing.keys[i] in p.existing.vals;
    }
  }

  /** After a clean pass the logs are the old ones followed by exactly one
      row, opened now, per new endpoint. */
  lemma ReconcileNewLogs(a0: seq<ActiveRow>, l0: seq<LogRow>, es: seq<LiveEntry>, now: int)
    requires UniqueEnds(a0) && AllClear(Ends(a0)) && AllClear(NamedEnds(es)) && DistinctNamed(es)
    ensures Reconcile(a0, l0, es, now).Some?
    ensures var t := Reconcile(a0, l0, es, now).value;
      |t.logs| == |l0| + |NamedEnds(es) - Ends(a0)|
      && forall j :: |l0| <= j < |t.logs| ==>
           OpenedAt(t.logs[j], now) && LogEnd(t.logs[j]) in NamedEnds(es) - Ends(a0)
  {
    PassFacts(a0, l0, es, now);
    var p := ObserveAll(Pass(a0, l0, Index(a0)), es, now).value;
    var t0 := Tables(p.active, p.logs);
    var v := Values(p.existing);
    assert Reconcile(a0, l0, es, now) == Some(CloseAll(t0, v, now));
    forall j | |l0| <= j < |p.logs| ensures CloseAll(t0, v, now).logs[j] == p.logs[j] {
      CloseAllLog(t0, v, now, j);
    }
  }

  /** After a clean pass the old log rows keep their places. */
  lemma OldLogsPrefix(a0: seq<ActiveRow>, l0: seq<LogRow>, es: seq<LiveEntry>, now: int)
    requires UniqueEnds(a0) && AllClear(Ends(a0)) && AllClear(NamedEnds(es)) && DistinctNamed(es)
    ensures ObserveAll(Pass(a0, l0, Index(a0)), es, now).Some?
    ensures var p := ObserveAll(Pass(a0, l0, Index(a0)), es, now).value;
      |l0| <= |p.logs| && forall i :: 0 <= i < |l0| ==> p.logs[i] == l0[i]
  {
    PassFacts(a0, l0, es, now);
    var p := ObserveAll(Pass(a0, l0, Index(a0)), es, now).value;
    forall i | 0 <= i < |l0| ensures p.logs[i] == l0[i] {
      assert p.logs[..|l0|][i] == p.logs[i];
    }
  }

  /** After a clean pass an old log row changes only when it was open and its
      endpoint vanished. */
  lemma ReconcileKeptLogs(a0: seq<ActiveRow>, l0: seq<LogRow>, es: seq<LiveEntry>, now: int)
    requires UniqueEnds(a0) && AllClear(Ends(a0)) && AllClear(NamedEnds(es)) && DistinctNamed(es)
    ensures Reconcile(a0, l0, es, now).Some?
    ensures |Reconcile(a0, l0, es, now).value.logs| >= |l0|
    ensures var t := Reconcile(a0, l0, es, now).value;
      forall i :: 0 <= i < |l0| && (l0[i].disconnectedAt.Some? || LogEnd(l0[i]) !in Ends(a0) - NamedEnds(es)) ==>
        t.logs[i] == l0[i]
  {
    PassFacts(a0, l0, es, now);
    OldLogsPrefix(a0, l0, es, now);
    var p := ObserveAll(Pass(a0, l0, Index(a0)), es, now).value;
    var t0 := Tables(p.active, p.logs);
    var v := Values(p.existing);
    var t := CloseAll(t0, v, now);
    assert Reconcile(a0, l0, es, now) == Some(t);
    forall i | 0 <= i < |l0| && (l0[i].disconnectedAt.Some? || LogEnd(l0[i]) !in Ends(a0) - NamedEnds(es))
      ensures t.logs[i] == l0[i]
    {
      CloseAllLog(t0, v, now, i);
    }
  }

  /** After a clean pass an open log row of a vanished endpoint is closed
      now, with the duration since its active row's connection time. */
  lemma ReconcileClosedLogs(a0: seq<ActiveRow>, l0: seq<LogRow>, es: seq<LiveEntry>, now: int)
    requires UniqueEnds(a0) && AllClear(Ends(a0)) && AllClear(NamedEnds(es)) && DistinctNamed(es)
    ensures Reconcile(a0, l0, es, now).Some?
    ensures |Reconcile(a0, l0, es, now).value.logs| >= |l0|
    ensures var t := Reconcile(a0, l0, es, now).value;
      forall i, r :: 0 <= i < |l0| && Vanished(a0, es, l0[i], r) ==>
        t.logs[i] == l0[i].(disconnectedAt := Some(now), duration := now - r.connectedAt)
  {
    PassFacts(a0, l0, es, now);
    OldLogsPrefix(a0, l0, es, now);
    var p := ObserveAll(Pass(a0, l0, Index(a0)), es, now).value;
    var t0 := Tables(p.active, p.logs);
    var v := Values(p.existing);
    var t := CloseAll(t0, v, now);
    assert Reconcile(a0, l0, es, now) == Some(t);
    forall i, r | 0 <= i < |l0| && Vanished(a0, es, l0[i], r)
      ensures t.logs[i] == l0[i].(disconnectedAt := Some(now), duration := now - r.connectedAt)
    {
      assert RowEnd(r) in Ends(v);
      ClosedOne(a0, t0, v, now, i, r);
    }
  }

  /** g is an open log row of r, an active row whose endpoint vanished. */
  ghost predicate Vanished(a0: seq<ActiveRow>, es: seq<LiveEntry>, g: LogRow, r: ActiveRow) {
    r in a0 && RowEnd(r) !in NamedEnds(es) && g.disconnectedAt.None? && LogEnd(g) == RowEnd(r)
  }

  lemma ClosedOne(a0: seq<ActiveRow>, t0: Tables, v: seq<ActiveRow>, now: int, i: int, r: ActiveRow)
    requires UniqueEnds(a0) && DistinctBy(v, RowEnd) && (forall x :: x in v ==> x in a0)
    requires r in a0 && RowEnd(r) in Ends(v)
    requires 0 <= i < |t0.logs| && t0.logs[i].disconnectedAt.None? && LogEnd(t0.logs[i]) == RowEnd(r)
    ensures CloseAll(t0, v, now).logs[i] == t0.logs[i].(disconnectedAt := Some(now), duration := now - r.connectedAt)
  {
    CloseAllLog(t0, v, now, i);
    var x :| x in v && RowEnd(x) == RowEnd(r);
    UniqueRow(a0, x, r);
  }

  /** A second pass over the same entries is steady: it adds no log row. */
  lemma ReconcileTwice(a0: seq<ActiveRow>, l0: seq<LogRow>, es: seq<LiveEntry>, now: int, later: int)
    requires UniqueEnds(a0) && AllClear(Ends(a0)) && AllClear(NamedEnds(es)) && DistinctNamed(es)
    ensures Reconcile(a0, l0, es, now).Some?
    ensures var t := Reconcile(a0, l0, es, now).value;
      Reconcile(t.active, t.logs, es, later).Some? && Reconcile(t.active, t.logs, es, later).value.logs == t.logs
  {
    ReconcileClean(a0, l0, es, now);
    var t := Reconcile(a0, l0, es, now).value;
    ReconcileClean(t.active, t.logs, es, later);
  }

  /** A named endpoint seen at two positions i < j of one pass: the first
      sighting pops its key from `existing_conns` or inserts its row, so the
      second finds no key but a row and its INSERT violates the UNIQUE
      constraint; the whole pass rolls back, whatever comes before, between
      or after. */
  lemma ReconcileRepeatAborts(a0: seq<ActiveRow>, l0: seq<LogRow>, es: seq<LiveEntry>, i: nat, j: nat, now: int)
    requires i < j < |es| && es[i].username != "" && EntryEnd(es[i]) == EntryEnd(es[j])
    requires Clear(EntryEnd(es[i])) && AllClear(Ends(a0))
    ensures Reconcile(a0, l0, es, now).None?
  {
    var p0 := Pass(a0, l0, Index(a0));
    var ep := EntryEnd(es[i]);
    ObservePrefix(p0, es, i, now);
    if ObserveAll(p0, es[..i], now).Some? {
      TrackedUpTo(a0, l0, es, i, now);
      FirstSighting(a0, ObserveAll(p0, es[..i], now).value, es[i], now);
    }
    StuckUpTo(p0, es, ep, i + 1, j, now);
    ObservePrefix(p0, es, j, now);
    ObserveAllAborts(p0, es, j + 1, now);
  }

  /** Every row left in the dict is a row of a0 under its own key, and its
      endpoint is still active. */
  ghost predicate Tracked(a0: seq<ActiveRow>, p: Pass) {
    p.existing.Valid()
    && forall k :: k in p.existing.vals ==>
         p.existing.vals[k] in a0 && Key(RowEnd(p.existing.vals[k])) == k
         && RowEnd(p.existing.vals[k]) in Ends(p.active)
  }

  /** The endpoint is active and its key has left the dict: a further
      sighting of it can only fail. */
  ghost predicate Stuck(p: Pass, ep: Endpoint) {
    p.existing.Valid() && ep in Ends(p.active) && Key(ep) !in p.existing.vals
  }

  /** The pass over es[..m + 1] is the pass over es[..m] and one more step. */
  lemma ObservePrefix(p: Pass, es: seq<LiveEntry>, m: nat, now: int)
    requires p.existing.Valid() && m < |es|
    ensures ObserveAll(p, es[..m], now).None? ==> ObserveAll(p, es[..m + 1], now).None?
    ensures ObserveAll(p, es[..m], now).Some? ==>
      ObserveAll(p, es[..m + 1], now) == Observe(ObserveAll(p, es[..m], now).value, es[m], now)
  {
    assert es[..m + 1][..m] == es[..m];
  }

  lemma TrackedStep(a0: seq<ActiveRow>, p: Pass, e: LiveEntry, now: int)
    requires Tracked(a0, p) && Observe(p, e, now).Some?
    ensures Tracked(a0, Observe(p, e, now).value)
  {
    var q := Observe(p, e, now).value;
    if e.username != "" {
      if Key(EntryEnd(e)) in p.existing.vals {
        RefreshEnds(p.active, e, now);
      } else {
        EndsSnoc(p.active, ActiveRow(e.username, e.clientIp, e.serverPort, now, now, e.bytesSent, e.bytesRecv));
      }
    }
  }

  lemma {:induction false} TrackedUpTo(a0: seq<ActiveRow>, l0: seq<LogRow>, es: seq<LiveEntry>, m: nat, now: int)
    requires m <= |es|
    ensures ObserveAll(Pass(a0, l0, Index(a0)), es[..m], now).Some? ==>
      Tracked(a0, ObserveAll(Pass(a0, l0, Index(a0)), es[..m], now).value)
  {
    var p0 := Pass(a0, l0, Index(a0));
    if m == 0 {
      assert es[..0] == [];
      forall k | k in p0.existing.vals ensures RowEnd(p0.existing.vals[k]) in Ends(a0) {
        assert p0.existing.vals[k] in a0;
      }
    } else {
      TrackedUpTo(a0, l0, es, m - 1, now);
      ObservePrefix(p0, es, m - 1, now);
      if ObserveAll(p0, es[..m - 1], now).Some? && ObserveAll(p0, es[..m], now).Some? {
        TrackedStep(a0, ObserveAll(p0, es[..m - 1], now).value, es[m - 1], now);
      }
    }
  }

  /** After a first sighting that commits, its endpoint is stuck. */
  lemma FirstSighting(a0: seq<ActiveRow>, p: Pass, e: LiveEntry, now: int)
    requires Tracked(a0, p) && AllClear(Ends(a0))
    requires e.username != "" && Clear(EntryEnd(e))
    ensures Observe(p, e, now).Some? ==> Stuck(Observe(p, e, now).value, EntryEnd(e))
  {
    var ep := EntryEnd(e);
    var k := Key(ep);
    if k in p.existing.vals {
      var v := p.existing.vals[k];
      assert RowEnd(v) in Ends(a0);
      KeyInjective(RowEnd(v), ep);
      RefreshEnds(p.active, e, now);
    } else if ep !in Ends(p.active) {
      EndsSnoc(p.active, ActiveRow(e.username, e.clientIp, e.serverPort, now, now, e.bytesSent, e.bytesRecv));
    }
  }

  /** A stuck endpoint stays stuck through every step that commits. */
  lemma StuckStep(p: Pass, ep: Endpoint, e: LiveEntry, now: int)
    requires Stuck(p, ep) && Observe(p, e, now).Some?
    ensures Stuck(Observe(p, e, now).value, ep)
  {
    if e.username != "" {
      if Key(EntryEnd(e)) in p.existing.vals {
        RefreshEnds(p.active, e, now);
      } else {
        EndsSnoc(p.active, ActiveRow(e.username, e.clientIp, e.serverPort, now, now, e.bytesSent, e.bytesRecv));
      }
    }
  }

  lemma {:induction false} StuckUpTo(p: Pass, es: seq<LiveEntry>, ep: Endpoint, m: nat, n: nat, now: int)
    requires p.existing.Valid() && m <= n <= |es|
    requires ObserveAll(p, es[..m], now).Some? ==> Stuck(ObserveAll(p, es[..m], now).value, ep)
    ensures ObserveAll(p, es[..n], now).Some? ==> Stuck(ObserveAll(p, es[..n], now).value, ep)
    decreases n - m
  {
    if m < n {
      ObservePrefix(p, es, m, now);
      if ObserveAll(p, es[..m], now).Some? && ObserveAll(p, es[..m + 1], now).Some? {
        StuckStep(ObserveAll(p, es[..m], now).value, ep, es[m], now);
      }
      StuckUpTo(p, es, ep, m + 1, n, now);
    }
  }

  // ----- the pass with repeated sightings refreshed -----

  /** One entry of the loop as evidently intended: an endpoint already seen in
      this pass is refreshed again rather than inserted a second time. */
  function ObserveFixed(p: Pass, e: LiveEntry, now: int): (r: Pass)
    requires p.existing.Valid()
    ensures r.existing.Valid()
  {
    if e.username == "" then p
    else
      var k := Key(EntryEnd(e));
      if k in p.existing.vals then Pass(Refresh(p.active, e, now), p.logs, p.existing.Remove(k))
      else if EntryEnd(e) in Ends(p.active) then Pass(Refresh(p.active, e, now), p.logs, p.existing)
      else
        Pass(
          p.active + [ActiveRow(e.username, e.clientIp, e.serverPort, now, now, e.bytesSent, e.bytesRecv)],
          p.logs + [LogRow(e.username, e.clientIp, e.serverPort, now, None, e.bytesSent, e.bytesRecv, 0)],
          p.existing)
  }

  function ObserveAllFixed(p: Pass, es: seq<LiveEntry>, now: int): (r: Pass)
    requires p.existing.Valid()
    ensures r.existing.Valid()
    decreases |es|
  {
    if es == [] then p
    else ObserveFixed(ObserveAllFixed(p, es[..|es| - 1], now), es[|es| - 1], now)
  }

  /** update_connection_logs with repeated sightings refreshed: the pass
      always commits. */
  function ReconcileFixed(active: seq<ActiveRow>, logs: seq<LogRow>, es: seq<LiveEntry>, now: int): Tables {
    var p := ObserveAllFixed(Pass(active, logs, Index(active)), es, now);
    CloseAll(Tables(p.active, p.logs), Values(p.existing), now)
  }

  /** Wherever the source's pass commits, the corrected pass gives the same
      tables. */
  lemma ReconcileFixedAgrees(a0: seq<ActiveRow>, l0: seq<LogRow>, es: seq<LiveEntry>, now: int)
    ensures Reconcile(a0, l0, es, now).Some? ==> ReconcileFixed(a0, l0, es, now) == Reconcile(a0, l0, es, now).value
  {
    ObserveAllFixedAgrees(Pass(a0, l0, Index(a0)), es, now);
  }

  lemma {:induction false} ObserveAllFixedAgrees(p: Pass, es: seq<LiveEntry>, now: int)
    requires p.existing.Valid()
    ensures ObserveAll(p, es, now).Some? ==> ObserveAllFixed(p, es, now) == ObserveAll(p, es, now).value
    decreases |es|
  {
    if es != [] {
      ObserveAllFixedAgrees(p, es[..|es| - 1], now);
    }
  }

  /** A named entry whose endpoint was already seen: the corrected step
      refreshes its row and keeps the invariant, the dict and the logs. */
  lemma ObserveRepeat(a0: seq<ActiveRow>, d: set<Endpoint>, p: Pass, e: LiveEntry, now: int)
    requires InvRows(a0, d, p, now) && AllClear(Ends(a0))
    requires e.username != "" && Clear(EntryEnd(e)) && EntryEnd(e) in d
    ensures InvRows(a0, d, ObserveFixed(p, e, now), now) && ObserveFixed(p, e, now).logs == p.logs
  {
    var ep := EntryEnd(e);
    var k := Key(ep);
    if k in p.existing.vals {
      var v := p.existing.vals[k];
      assert RowEnd(v) in Ends(a0);
      KeyInjective(RowEnd(v), ep);
      assert false;
    }
    assert ep in Ends(p.active);
    assert ObserveFixed(p, e, now) == Pass(Refresh(p.active, e, now), p.logs, p.existing);
    RefreshEnds(p.active, e, now);
    RefreshTouched(p.active, e, now, d);
    assert d + {ep} == d;
  }

  /** One corrected step keeps the invariant, adding its endpoint when it is
      named; no distinctness of the entries is needed. */
  lemma ObserveFixedStep(a0: seq<ActiveRow>, l0: seq<LogRow>, d: set<Endpoint>, p: Pass, e: LiveEntry, now: int)
    requires Inv(a0, l0, d, p, now) && AllClear(Ends(a0))
    requires e.username != "" ==> Clear(EntryEnd(e))
    ensures e.username == "" ==> Inv(a0, l0, d, ObserveFixed(p, e, now), now)
    ensures e.username != "" ==> Inv(a0, l0, d + {EntryEnd(e)}, ObserveFixed(p, e, now), now)
  {
    if e.username != "" && EntryEnd(e) in d {
      ObserveRepeatInv(a0, l0, d, p, e, now);
    } else {
      ObserveStep(a0, l0, d, p, e, now);
      ObserveFixedAgree(p, e, now);
    }
  }

  lemma ObserveRepeatInv(a0: seq<ActiveRow>, l0: seq<LogRow>, d: set<Endpoint>, p: Pass, e: LiveEntry, now: int)
    requires Inv(a0, l0, d, p, now) && AllClear(Ends(a0))
    requires e.username != "" && Clear(EntryEnd(e)) && EntryEnd(e) in d
    ensures Inv(a0, l0, d + {EntryEnd(e)}, ObserveFixed(p, e, now), now)
  {
    ObserveRepeat(a0, d, p, e, now);
    SetAbsorb(d, EntryEnd(e));
  }

  lemma SetAbsorb<T>(d: set<T>, x: T)
    requires x in d
    ensures d + {x} == d
  {
  }

  /** Where the source's step commits, the corrected step agrees with it. */
  lemma ObserveFixedAgree(p: Pass, e: LiveEntry, now: int)
    requires p.existing.Valid()
    ensures Observe(p, e, now).Some? ==> ObserveFixed(p, e, now) == Observe(p, e, now).value
  {
  }

  lemma {:induction false} ObserveAllFixedInv(a0: seq<ActiveRow>, l0: seq<LogRow>, es: seq<LiveEntry>, now: int)
    requires UniqueEnds(a0) && AllClear(Ends(a0)) && AllClear(NamedEnds(es))
    ensures Inv(a0, l0, NamedEnds(es), ObserveAllFixed(Pass(a0, l0, Index(a0)), es, now), now)
    decreases |es|
  {
    var p0 := Pass(a0, l0, Index(a0));
    if es == [] {
      assert NamedEnds(es) == {};
      InvStart(a0, l0, now);
    } else {
      var init := es[..|es| - 1];
      var e := es[|es| - 1];
      NamedEndsSnoc(es);
      ObserveAllFixedInv(a0, l0, init, now);
      ObserveFixedStep(a0, l0, NamedEnds(init), ObserveAllFixed(p0, init, now), e, now);
    }
  }

  /** The corrected pass over clear entries, repeated or not, always commits;
      afterwards the active table meets the UNIQUE constraint and holds
      exactly one row per endpoint seen, each touched now, and one log row
      was opened now per endpoint that was not active before. */
  lemma ReconcileFixedClean(a0: seq<ActiveRow>, l0: seq<LogRow>, es: seq<LiveEntry>, now: int)
    requires UniqueEnds(a0) && AllClear(Ends(a0)) && AllClear(NamedEnds(es))
    ensures var t := ReconcileFixed(a0, l0, es, now);
      UniqueEnds(t.active) && Ends(t.active) == NamedEnds(es)
      && (forall r :: r in t.active ==> r.lastUpdated == now)
      && |t.logs| == |l0| + |NamedEnds(es) - Ends(a0)|
  {
    var p := ObserveAllFixed(Pass(a0, l0, Index(a0)), es, now);
    ObserveAllFixedInv(a0, l0, es, now);
    var d := NamedEnds(es);
    assert InvRows(a0, d, p, now);
    LeftOver(a0, d, p, now);
    UnionMinus(Ends(a0), d);
    var v := Values(p.existing);
    var t0 := Tables(p.active, p.logs);
    CloseAllSpec(t0, v, now);
    var f := CloseAll(t0, v, now);
    forall r | r in f.active ensures r.lastUpdated == now {
      assert RowEnd(r) in Ends(f.active);
    }
  }

  /** The loop of get_live_connections over the sightings. */
  method AttributeSightings(users: seq<User>, conns: seq<Sighting>, now: int) returns (entries: seq<LiveEntry>)
    ensures entries == LiveEntriesOf(users, conns, now)
  {
    entries := [];
    var i := 0;
    while i < |conns|
      invariant 0 <= i <= |conns|
      invariant entries == LiveEntriesOf(users, conns[..i], now)
    {
      assert conns[..i + 1][..i] == conns[..i];
      var c := conns[i];
      var name := UserFromPort(users, c.serverPort);
      if name.Some? && name.value != "" {
        entries := entries + [LiveEntry(name.value, c.clientIp, c.serverPort, c.timestamp, now - c.timestamp, c.bytesSent, c.bytesRecv)];
      }
      i := i + 1;
    }
    assert conns[..i] == conns;
  }

  // ----- the manager -----

  /** The three tables the manager reads and writes, and the commands it
      issues. */
  class Manager {
    var users: seq<User>
    var active: seq<ActiveRow>
    var logs: seq<LogRow>
    /** Commands issued so far. */
    ghost var commands: seq<Command>

    /** `active_connections` meets its UNIQUE constraint. */
    ghost predicate Valid()
      reads this`active
    {
      UniqueEnds(active)
    }

    constructor(users0: seq<User>, active0: seq<ActiveRow>, logs0: seq<LogRow>)
      requires UniqueEnds(active0)
      ensures Valid()
      ensures users == users0 && active == active0 && logs == logs0 && commands == []
    {
      users := users0;
      active := active0;
      logs := logs0;
      commands := [];
    }

    /** get_live_connections: the sightings whose port maps to a user, with
        their ages. */
    method GetLiveConnections(stdout: string, now: int) returns (entries: seq<LiveEntry>)
      ensures entries == LiveEntriesOf(users, Sightings(stdout, now), now)
    {
      var conns := GetActiveConnections(stdout, now);
      entries := AttributeSightings(users, conns, now);
    }

    /** enforce_connection_limits: for each active, unexpired user over the
        limit, drop the excess entries in ascending duration. */
    method EnforceConnectionLimits(stdout: string, now: int, today: Dates.Date)
      requires Valid()
      modifies this`commands
      ensures Valid()
      ensures commands == old(commands) + EnforceCommands(users, LiveEntriesOf(users, Sightings(stdout, now), now), today)
    {
      var live := GetLiveConnections(stdout, now);
      var drops := EnforceAll(users, live, today);
      commands := commands + drops;
    }

    /** update_connection_logs, with a repeated sighting refreshing its row
        (see ReconcileRepeatAborts for the code as written); it keeps the
        UNIQUE constraint, and over clear endpoints the active rows are then
        exactly the endpoints seen, each touched now. */
    method UpdateConnectionLogs(entries: seq<LiveEntry>, now: int)
      requires Valid()
      modifies this`active, this`logs
      ensures Valid()
      ensures Tables(active, logs) == ReconcileFixed(old(active), old(logs), entries, now)
      ensures SeenExactly(old(active), entries, active, now)
    {
      ReconcileFixedKeepsUnique(active, logs, entries, now);
      if AllClear(Ends(active)) && AllClear(NamedEnds(entries)) {
        ReconcileFixedClean(active, logs, entries, now);
      }
      var t := ReconcileTables(active, logs, entries, now);
      active := t.active;
      logs := t.logs;
    }

    /** Over clear endpoints, the active rows a after a pass from a0 over es
        are exactly the endpoints seen, each touched now. */
    ghost predicate SeenExactly(a0: seq<ActiveRow>, es: seq<LiveEntry>, a: seq<ActiveRow>, now: int) {
      AllClear(Ends(a0)) && AllClear(NamedEnds(es)) ==>
        Ends(a) == NamedEnds(es) && (forall r :: r in a ==> r.lastUpdated == now)
    }

    /** update_user_bandwidth: for each group of active rows, GROUP BY
        username, add its summed bytes to that user's usage. */
    method UpdateUserBandwidth()
      requires Valid()
      modifies this`users
      ensures Valid()
      ensures users == AddGroupTotals(old(users), active, Groups(active))
    {
      users := AddAllGroups(users, active);
    }

    /** One round of monitoring_loop: record the live connections, enforce the
        limits on a fresh reading, roll up bandwidth. */
    method MonitorRound(stdout: string, stdoutAgain: string, now: int, today: Dates.Date)
      requires Valid()
      modifies this
      ensures Valid()
      ensures Tables(active, logs) == ReconcileFixed(old(active), old(logs), LiveEntriesOf(old(users), Sightings(stdout, now), now), now)
      ensures commands == old(commands) + EnforceCommands(old(users), LiveEntriesOf(old(users), Sightings(stdoutAgain, now), now), today)
      ensures users == AddGroupTotals(old(users), active, Groups(active))
    {
      ghost var a0, l0, u0, c0 := active, logs, users, commands;
      var live := GetLiveConnections(stdout, now);
      UpdateConnectionLogs(live, now);
      ghost var t := Tables(active, logs);
      assert t == ReconcileFixed(a0, l0, live, now);
      EnforceConnectionLimits(stdoutAgain, now, today);
      assert commands == c0 + EnforceCommands(u0, LiveEntriesOf(u0, Sightings(stdoutAgain, now), now), today);
      UpdateUserBandwidth();
      assert Tables(active, logs) == t;
    }
  }

  /** The loop of enforce_connection_limits over the users. */
  method EnforceAll(users: seq<User>, live: seq<LiveEntry>, today: Dates.Date) returns (drops: seq<Command>)
    ensures drops == EnforceCommands(users, live, today)
  {
    drops := [];
    var i := 0;
    while i < |users|
      invariant 0 <= i <= |users|
      invariant drops == EnforceCommands(users[..i], live, today)
    {
      assert users[..i + 1][..i] == users[..i];
      var u := users[i];
      if IsLive(u, today) {
        var more := EnforceUser(u, live);
        drops := drops + more;
      }
      i := i + 1;
    }
    assert users[..i] == users;
  }

  /** The drops for one user: `for i in range(excess): if i <
      len(user_connections)`, over the entries sorted by duration. */
  method EnforceUser(u: User, live: seq<LiveEntry>) returns (drops: seq<Command>)
    ensures drops == DropCommands(ExcessEntries(u, live))
  {
    drops := [];
    var mine := Filter(live, EntryOf(u.username));
    if |mine| > u.concurrentConn {
      var sorted := SortBy(mine, Duration);
      drops := DropFirst(sorted, |mine| - u.concurrentConn);
    } else {
      assert DropCommands(ExcessEntries(u, live)) == [];
    }
  }

  /** The loop over `sorted_conns[:excess]`. */
  method DropFirst(sorted: seq<LiveEntry>, excess: nat) returns (drops: seq<Command>)
    ensures drops == DropCommands(Take(sorted, excess))
  {
    drops := [];
    var i := 0;
    while i < excess
      invariant 0 <= i <= excess
      invariant drops == DropCommands(Take(sorted, i))
    {
      if i < |sorted| {
        assert Take(sorted, i + 1) == Take(sorted, i) + [sorted[i]];
        drops := drops + [DropCommand(sorted[i])];
      } else {
        assert Take(sorted, i + 1) == Take(sorted, i);
      }
      i := i + 1;
    }
  }

  /** The transaction of update_connection_logs, with repeated sightings
      refreshed. */
  method ReconcileTables(active: seq<ActiveRow>, logs: seq<LogRow>, entries: seq<LiveEntry>, now: int)
    returns (t: Tables)
    ensures t == ReconcileFixed(active, logs, entries, now)
  {
    var existing := IndexRows(active);
    var p := ObserveEntries(Pass(active, logs, existing), entries, now);
    t := CloseRows(Tables(p.active, p.logs), Values(p.existing), now);
  }

  lemma IndexStep(active: seq<ActiveRow>, i: nat)
    requires i < |active|
    ensures Index(active[..i + 1]) == Index(active[..i]).Put(Key(RowEnd(active[i])), active[i])
  {
    assert active[..i + 1][..i] == active[..i];
  }

  /** The dict comprehension building `existing_conns`. */
  method IndexRows(active: seq<ActiveRow>) returns (existing: ODict<string, ActiveRow>)
    ensures existing == Index(active)
  {
    existing := Empty();
    var i := 0;
    while i < |active|
      invariant 0 <= i <= |active|
      invariant existing == Index(active[..i])
    {
      IndexStep(active, i);
      existing := existing.Put(Key(RowEnd(active[i])), active[i]);
      i := i + 1;
    }
    assert active[..i] == active;
  }

  /** The loop over the current connections; a row already touched in this
      pass is refreshed again. */
  method ObserveEntries(p0: Pass, entries: seq<LiveEntry>, now: int) returns (r: Pass)
    requires p0.existing.Valid()
    ensures r == ObserveAllFixed(p0, entries, now)
  {
    var a, lg, existing := p0.active, p0.logs, p0.existing;
    var j := 0;
    while j < |entries|
      invariant 0 <= j <= |entries|
      invariant existing.Valid()
      invariant ObserveAllFixed(p0, entries[..j], now) == Pass(a, lg, existing)
    {
      assert entries[..j + 1][..j] == entries[..j];
      var e := entries[j];
      if e.username != "" {
        var k := Key(EntryEnd(e));
        if k in existing.vals {
          a := Refresh(a, e, now);
          existing := existing.Remove(k);
        } else if EntryEnd(e) in Ends(a) {
          a := Refresh(a, e, now);
        } else {
          a := a + [ActiveRow(e.username, e.clientIp, e.serverPort, now, now, e.bytesSent, e.bytesRecv)];
          lg := lg + [LogRow(e.username, e.clientIp, e.serverPort, now, None, e.bytesSent, e.bytesRecv, 0)];
        }
      }
      j := j + 1;
    }
    assert entries[..j] == entries;
    r := Pass(a, lg, existing);
  }

  /** The loop over the rows not seen. */
  method CloseRows(t0: Tables, gone: seq<ActiveRow>, now: int) returns (t: Tables)
    ensures t == CloseAll(t0, gone, now)
  {
    var a, lg := t0.active, t0.logs;
    var m := 0;
    while m < |gone|
      invariant 0 <= m <= |gone|
      invariant CloseAll(t0, gone[..m], now) == Tables(a, lg)
    {
      assert gone[..m + 1][..m] == gone[..m];
      var row := gone[m];
      lg := CloseLogs(lg, row, now);
      a := Filter(a, EndIsNot(RowEnd(row)));
      m := m + 1;
    }
    assert gone[..m] == gone;
    t := Tables(a, lg);
  }

  /** The loop of update_user_bandwidth over the groups. */
  method AddAllGroups(users0: seq<User>, active: seq<ActiveRow>) returns (users: seq<User>)
    ensures users == AddGroupTotals(users0, active, Groups(active))
  {
    users := users0;
    var groups := Groups(active);
    var i := 0;
    while i < |groups|
      invariant 0 <= i <= |groups|
      invariant users == AddGroupTotals(users0, active, groups[..i])
    {
      assert groups[..i + 1][..i] == groups[..i];
      var n := groups[i];
      users := UpdateWhereName(users, n, AddUsage(TotalBytes(active, n)));
      i := i + 1;
    }
    assert groups[..i] == groups;
  }

  /** The corrected reconciliation keeps the UNIQUE constraint of
      `active_connections`, whatever the entries. */
  lemma ReconcileFixedKeepsUnique(a0: seq<ActiveRow>, l0: seq<LogRow>, es: seq<LiveEntry>, now: int)
    requires UniqueEnds(a0)
    ensures UniqueEnds(ReconcileFixed(a0, l0, es, now).active)
  {
    var p0 := Pass(a0, l0, Index(a0));
    ObserveAllFixedUnique(p0, es, now);
    var p := ObserveAllFixed(p0, es, now);
    CloseAllSpec(Tables(p.active, p.logs), Values(p.existing), now);
  }

  /** So does the source's, whenever it commits. */
  lemma ReconcileKeepsUnique(a0: seq<ActiveRow>, l0: seq<LogRow>, es: seq<LiveEntry>, now: int)
    requires UniqueEnds(a0)
    ensures Reconcile(a0, l0, es, now).Some? ==> UniqueEnds(Reconcile(a0, l0, es, now).value.active)
  {
    ReconcileFixedAgrees(a0, l0, es, now);
    ReconcileFixedKeepsUnique(a0, l0, es, now);
  }

  lemma {:induction false} ObserveAllFixedUnique(p: Pass, es: seq<LiveEntry>, now: int)
    requires p.existing.Valid() && UniqueEnds(p.active)
    ensures UniqueEnds(ObserveAllFixed(p, es, now).active)
    decreases |es|
  {
    if es != [] {
      ObserveAllFixedUnique(p, es[..|es| - 1], now);
      var q := ObserveAllFixed(p, es[..|es| - 1], now);
      var e := es[|es| - 1];
      if e.username != "" {
        if Key(EntryEnd(e)) in q.existing.vals || EntryEnd(e) in Ends(q.active) {
          RefreshEnds(q.active, e, now);
        } else {
          var row := ActiveRow(e.username, e.clientIp, e.serverPort, now, now, e.bytesSent, e.bytesRecv);
          var a := q.active + [row];
          forall i, j | 0 <= i < j < |a| ensures RowEnd(a[i]) != RowEnd(a[j]) {
            assert a[i] == q.active[i];
            assert q.active[i] in q.active;
            if j < |q.active| { assert a[j] == q.active[j]; }
          }
        }
      }
    }
  }
}
