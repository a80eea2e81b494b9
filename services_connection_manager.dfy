/** The enhanced connection manager of services/connection_manager.py: flows
    are read from two awk columns of the conntrack listing and keyed
    `src_ip:dport`, grouped by destination port, and each port whose user
    has more flows than `concurrent_conn` loses its first flows; the
    statistics count flows per port. */
module ServicesConnectionManager {
  import opened Wrappers
  import opened Text
  import opened Seqs
  import opened OrderedDicts
  import opened Accounts
  import opened Effects

  // ----- get_active_connections -----

  /** One value of the `connections` dict; the timestamp is the clock. */
  datatype Flow = Flow(srcIp: string, dport: string, timestamp: int)

  /** The dict key `f"{src_ip}:{dport}"`. */
  function FlowKey(f: Flow): string {
    JoinColon(f.srcIp, f.dport)
  }

  /** The lines the parser reads: `awk '{print $7,$8}'` of each line the
      `grep -E` keeps. */
  function AwkLines(stdout: string): (r: seq<string>)
    ensures |r| == |VpnLines(stdout)|
  {
    var lines := VpnLines(stdout);
    seq(|lines|, i requires 0 <= i < |lines| => AwkPrint78(lines[i]))
  }

  /** The flow one line yields: the line must contain `src=` and `dport=`, the
      last tokens with those keys win, and both values must be non-empty. */
  function FlowOf(line: string, now: int): (r: Option<Flow>)
    ensures r.Some? ==> (Contains(line, "src=") && Contains(line, "dport=")
      && r.value.srcIp != "" && r.value.dport != "" && r.value.timestamp == now)
  {
    if Contains(line, "src=") && Contains(line, "dport=") then
      var parts := Words(line);
      var src := LastValue(parts, "src=");
      var dport := LastValue(parts, "dport=");
      if src.Some? && src.value != "" && dport.Some? && dport.value != "" then
        Some(Flow(src.value, dport.value, now))
      else None
    else None
  }

  /** Which tokens decide a flow. */
  lemma FlowOfSpec(line: string, now: int)
    ensures var parts := Words(line);
      FlowOf(line, now).Some? ==>
        DecidedBy(parts, "src=", FlowOf(line, now).value.srcIp)
        && DecidedBy(parts, "dport=", FlowOf(line, now).value.dport)
  {
    var parts := Words(line);
    LastValueSpec(parts, "src=");
    LastValueSpec(parts, "dport=");
  }

  /** The `connections` dict after these lines: one entry per key, in order of
      first appearance, holding the flow of the last line with that key. */
  function FlowsOf(lines: seq<string>, now: int): (d: ODict<string, Flow>)
    ensures d.Valid()
    ensures forall k :: k in d.vals ==> k == FlowKey(d.vals[k])
    decreases |lines|
  {
    if lines == [] then Empty()
    else AddFlow(FlowsOf(lines[..|lines| - 1], now), FlowOf(lines[|lines| - 1], now))
  }

  /** `connections[f"{src_ip}:{dport}"] = {...}` for a line that yields a flow. */
  function AddFlow(d: ODict<string, Flow>, f: Option<Flow>): (r: ODict<string, Flow>)
    requires d.Valid()
    ensures r.Valid()
  {
    match f
    case Some(f) => d.Put(FlowKey(f), f)
    case None => d
  }

  lemma FlowsStep(lines: seq<string>, i: int, now: int)
    requires 0 <= i < |lines|
    ensures FlowsOf(lines[..i + 1], now) == AddFlow(FlowsOf(lines[..i], now), FlowOf(lines[i], now))
  {
    assert lines[..i + 1][..i] == lines[..i];
  }

  /** Each line's flow is in the dict under its key, and every entry is the flow
      of some line; for IPv4 sources a key stands for exactly one
      (address, port) pair. */
  lemma FlowsOfSpec(lines: seq<string>, now: int)
    ensures forall i :: 0 <= i < |lines| && FlowOf(lines[i], now).Some? ==>
      FlowKey(FlowOf(lines[i], now).value) in FlowsOf(lines, now).vals
    ensures forall k :: k in FlowsOf(lines, now).vals ==>
      exists i :: 0 <= i < |lines| && FlowOf(lines[i], now) == Some(FlowsOf(lines, now).vals[k])
  {
    FlowsCover(lines, now);
    FlowsFrom(lines, now);
  }

  lemma {:induction false} FlowsCover(lines: seq<string>, now: int)
    ensures forall i :: 0 <= i < |lines| && FlowOf(lines[i], now).Some? ==>
      FlowKey(FlowOf(lines[i], now).value) in FlowsOf(lines, now).vals
    decreases |lines|
  {
    if lines != [] {
      var init := lines[..|lines| - 1];
      var d := FlowsOf(init, now);
      FlowsCover(init, now);
      assert d.vals.Keys <= FlowsOf(lines, now).vals.Keys;
      forall i | 0 <= i < |lines| && FlowOf(lines[i], now).Some?
        ensures FlowKey(FlowOf(lines[i], now).value) in FlowsOf(lines, now).vals
      {
        if i < |init| {
          assert init[i] == lines[i];
          assert FlowKey(FlowOf(lines[i], now).value) in d.vals;
        }
      }
    }
  }

  lemma {:induction false} FlowsFrom(lines: seq<string>, now: int)
    ensures AllFromSomeLine(lines, now)
    decreases |lines|
  {
    if lines != [] {
      FlowsFrom(lines[..|lines| - 1], now);
      forall k | k in FlowsOf(lines, now).vals ensures FromSomeLine(lines, now, k) {
        FlowFromKey(lines, now, k);
      }
    }
  }

  /** The entry under k is the flow of some line. */
  predicate FromSomeLine(lines: seq<string>, now: int, k: string) {
    k in FlowsOf(lines, now).vals
    && exists i :: 0 <= i < |lines| && FlowOf(lines[i], now) == Some(FlowsOf(lines, now).vals[k])
  }

  predicate AllFromSomeLine(lines: seq<string>, now: int) {
    forall k :: k in FlowsOf(lines, now).vals ==> FromSomeLine(lines, now, k)
  }

  lemma FlowFromKey(lines: seq<string>, now: int, k: string)
    requires lines != [] && k in FlowsOf(lines, now).vals
    requires AllFromSomeLine(lines[..|lines| - 1], now)
    ensures FromSomeLine(lines, now, k)
  {
    var init := lines[..|lines| - 1];
    var d := FlowsOf(init, now);
    var last := FlowOf(lines[|lines| - 1], now);
    if last.Some? && k == FlowKey(last.value) {
      assert FlowOf(lines[|lines| - 1], now) == Some(FlowsOf(lines, now).vals[k]);
    } else {
      assert FromSomeLine(init, now, k);
      var i :| 0 <= i < |init| && FlowOf(init[i], now) == Some(d.vals[k]);
      FlowWitness(lines, now, i, d.vals[k]);
    }
  }

  /** A line of the prefix is a line of the whole output. */
  lemma FlowWitness(lines: seq<string>, now: int, i: int, v: Flow)
    requires 0 <= i < |lines| - 1 && FlowOf(lines[..|lines| - 1][i], now) == Some(v)
    ensures exists j :: 0 <= j < |lines| && FlowOf(lines[j], now) == Some(v)
  {
    assert lines[i] == lines[..|lines| - 1][i];
  }

  /** Two IPv4 flows share an entry only when they have the same source and
      port. */
  lemma KeySeparates(f: Flow, g: Flow)
    requires ':' !in f.srcIp && ':' !in g.srcIp
    ensures FlowKey(f) == FlowKey(g) <==> f.srcIp == g.srcIp && f.dport == g.dport
  {
    JoinColonInjective(f.srcIp, f.dport, g.srcIp, g.dport);
  }

  /** get_active_connections, given the output of `conntrack -L -p udp`. */
  function Flows(stdout: string, now: int): ODict<string, Flow> {
    FlowsOf(AwkLines(stdout), now)
  }

  /** The token loop of one line. */
  method ScanTokens(parts: seq<string>) returns (srcIp: Option<string>, dport: Option<string>)
    ensures srcIp == LastValue(parts, "src=") && dport == LastValue(parts, "dport=")
  {
    srcIp, dport := None, None;
    var j := 0;
    while j < |parts|
      invariant 0 <= j <= |parts|
      invariant srcIp == LastValue(parts[..j], "src=")
      invariant dport == LastValue(parts[..j], "dport=")
    {
      var part := parts[j];
      KeysExclusive(part);
      LastValueStep(parts, j, "src=");
      LastValueStep(parts, j, "dport=");
      if StartsWith(part, "src=") {
        srcIp := Some(SplitField1(part));
      } else if StartsWith(part, "dport=") {
        dport := Some(SplitField1(part));
      }
      j := j + 1;
    }
    assert parts[..j] == parts;
  }

  method ParseFlows(stdout: string, now: int) returns (conns: ODict<string, Flow>)
    ensures conns == Flows(stdout, now)
  {
    var lines := AwkLines(stdout);
    conns := Empty();
    var i := 0;
    while i < |lines|
      invariant 0 <= i <= |lines|
      invariant conns == FlowsOf(lines[..i], now)
    {
      FlowsStep(lines, i, now);
      var line := lines[i];
      ghost var next := AddFlow(conns, FlowOf(line, now));
      if Contains(line, "src=") && Contains(line, "dport=") {
        var srcIp, dport := ScanTokens(Words(line));
        if srcIp.Some? && srcIp.value != "" && dport.Some? && dport.value != "" {
          var f := Flow(srcIp.value, dport.value, now);
          conns := conns.Put(FlowKey(f), f);
        }
      }
      assert conns == next;
      i := i + 1;
    }
    assert lines[..i] == lines;
  }

  // ----- get_user_by_port -----

  /** `SELECT username, concurrent_conn FROM users WHERE port = ? OR ? =
      "5667"`, fetchone. */
  function UserByPort(users: seq<User>, port: string): (r: Option<UserInfo>)
    // The tunnel port yields the first user, whatever its port and status.
    ensures port == DefaultPort ==>
      (users == [] <==> r.None?) && (users != [] ==> r == Some(UserInfo(users[0].username, users[0].concurrentConn)))
    // Any other port yields the first user with exactly that port, or none.
    ensures port != DefaultPort ==>
      (r.None? <==> forall i :: 0 <= i < |users| ==> users[i].port != Some(port))
      && (r.Some? ==> exists i :: (0 <= i < |users| && FirstWithPort(users, port, i)
            && r == Some(UserInfo(users[i].username, users[i].concurrentConn))))
  {
    match FirstIndex(users, PortOrDefault(port))
    case Some(i) => Some(UserInfo(users[i].username, users[i].concurrentConn))
    case None => None
  }

  // ----- enforce_connection_limits -----

  function PortIs(port: string): Flow -> bool {
    (f: Flow) => f.dport == port
  }

  /** `connections_by_port` after the grouping loop over these flows. */
  function GroupByPort(flows: seq<Flow>): (d: ODict<string, seq<Flow>>)
    ensures d.Valid()
    decreases |flows|
  {
    if flows == [] then Empty()
    else
      var d := GroupByPort(flows[..|flows| - 1]);
      var f := flows[|flows| - 1];
      d.Put(f.dport, (if f.dport in d.vals then d.vals[f.dport] else []) + [f])
  }

  /** Each group holds, in order, exactly the flows to its port; so every flow
      is in exactly one group, the one of its port. */
  lemma {:induction false} GroupByPortSpec(flows: seq<Flow>)
    ensures forall p :: p in GroupByPort(flows).vals <==> exists i :: 0 <= i < |flows| && flows[i].dport == p
    ensures forall p :: p in GroupByPort(flows).vals ==> GroupByPort(flows).vals[p] == Filter(flows, PortIs(p))
    decreases |flows|
  {
    if flows != [] {
      var init := flows[..|flows| - 1];
      var f := flows[|flows| - 1];
      GroupByPortSpec(init);
      var d := GroupByPort(init);
      forall p ensures (p in GroupByPort(flows).vals <==> exists i :: 0 <= i < |flows| && flows[i].dport == p) {
        if exists i :: 0 <= i < |init| && init[i].dport == p {
          var i :| 0 <= i < |init| && init[i].dport == p;
          assert flows[i] == init[i];
        }
        if exists i :: 0 <= i < |flows| && flows[i].dport == p {
          var i :| 0 <= i < |flows| && flows[i].dport == p;
          if i < |init| { assert init[i] == flows[i]; }
        }
      }
      forall p | p !in d.vals ensures Filter(init, PortIs(p)) == [] {
        NoGroupNoFlow(init, p);
      }
    }
  }

  lemma NoGroupNoFlow(flows: seq<Flow>, p: string)
    requires forall i :: 0 <= i < |flows| ==> flows[i].dport != p
    ensures Filter(flows, PortIs(p)) == []
  {
    FilterNone(flows, PortIs(p));
  }

  /** A flow belongs to the group of its own port and to no other. */
  lemma GroupsPartition(flows: seq<Flow>, i: int, p: string)
    requires 0 <= i < |flows|
    ensures p in GroupByPort(flows).vals && flows[i] in GroupByPort(flows).vals[p] <==> flows[i].dport == p
  {
    GroupByPortSpec(flows);
    if p in GroupByPort(flows).vals && flows[i] in GroupByPort(flows).vals[p] {
      var j :| 0 <= j < |Filter(flows, PortIs(p))| && Filter(flows, PortIs(p))[j] == flows[i];
    }
  }

  /** `conntrack -D -p udp --dport <dport> --src <src_ip>`. */
  function Drop(f: Flow): Command {
    ConntrackDelete(f.dport, None, f.srcIp)
  }

  function Drops(fs: seq<Flow>): (r: seq<Command>)
    ensures |r| == |fs| && forall i :: 0 <= i < |fs| ==> r[i] == Drop(fs[i])
  {
    seq(|fs|, i requires 0 <= i < |fs| => Drop(fs[i]))
  }

  /** The drops for one port group: with a mapped user and more flows than its
      limit, the first `n - limit` flows (all of them if the limit is
      negative). */
  function PortDrops(users: seq<User>, port: string, group: seq<Flow>): seq<Command> {
    match UserByPort(users, port)
    case None => []
    case Some(info) =>
      if |group| > info.concurrentConn then Drops(Take(group, |group| - info.concurrentConn)) else []
  }

  /** A port group within its limit or without a user loses nothing; one over
      its limit loses exactly its excess, and the dropped flows are its first
      ones. */
  lemma PortDropsSpec(users: seq<User>, port: string, group: seq<Flow>)
    ensures UserByPort(users, port).None? ==> PortDrops(users, port, group) == []
    ensures UserByPort(users, port).Some? && |group| <= UserByPort(users, port).value.concurrentConn ==>
      PortDrops(users, port, group) == []
    ensures UserByPort(users, port).Some? && |group| > UserByPort(users, port).value.concurrentConn ==>
      var limit := UserByPort(users, port).value.concurrentConn;
      |PortDrops(users, port, group)| == (if limit >= 0 then |group| - limit else |group|)
      && forall i :: 0 <= i < |PortDrops(users, port, group)| ==> PortDrops(users, port, group)[i] == Drop(group[i])
  {
  }

  /** The drops over the groups of these ports, in order. */
  function DropsOver(users: seq<User>, d: ODict<string, seq<Flow>>, ports: seq<string>): seq<Command>
    requires forall p :: p in ports ==> p in d.vals
    decreases |ports|
  {
    if ports == [] then []
    else
      var p := ports[|ports| - 1];
      assert forall q :: q in ports[..|ports| - 1] ==> q in ports;
      DropsOver(users, d, ports[..|ports| - 1]) + PortDrops(users, p, d.vals[p])
  }

  /** enforce_connection_limits on the current flows. */
  function EnforceCommands(users: seq<User>, conns: ODict<string, Flow>): seq<Command>
    requires conns.Valid()
  {
    var g := GroupByPort(Values(conns));
    DropsOver(users, g, g.keys)
  }

  /** Every drop is of a flow in the current table, and drops happen only on
      ports whose user is over its limit. */
  lemma {:induction false} DropsOverSound(users: seq<User>, d: ODict<string, seq<Flow>>, ports: seq<string>)
    requires forall p :: p in ports ==> p in d.vals
    ensures forall c :: c in DropsOver(users, d, ports) ==>
      exists p, i :: (p in ports && 0 <= i < |d.vals[p]| && c == Drop(d.vals[p][i])
        && UserByPort(users, p).Some? && |d.vals[p]| > UserByPort(users, p).value.concurrentConn)
    decreases |ports|
  {
    if ports != [] {
      var init := ports[..|ports| - 1];
      var p := ports[|ports| - 1];
      assert forall q :: q in init ==> q in ports;
      DropsOverSound(users, d, init);
      forall c | c in PortDrops(users, p, d.vals[p])
        ensures exists q, i :: (q in ports && 0 <= i < |d.vals[q]| && c == Drop(d.vals[q][i])
          && UserByPort(users, q).Some? && |d.vals[q]| > UserByPort(users, q).value.concurrentConn)
      {
        PortDropsSpec(users, p, d.vals[p]);
        var k :| 0 <= k < |PortDrops(users, p, d.vals[p])| && PortDrops(users, p, d.vals[p])[k] == c;
      }
    }
  }

  lemma DropsOverStep(users: seq<User>, d: ODict<string, seq<Flow>>, ports: seq<string>, i: int)
    requires 0 <= i < |ports| && forall p :: p in ports ==> p in d.vals
    ensures forall p :: p in ports[..i] ==> p in d.vals
    ensures DropsOver(users, d, ports[..i + 1]) == DropsOver(users, d, ports[..i]) + PortDrops(users, ports[i], d.vals[ports[i]])
  {
    assert ports[..i + 1][..i] == ports[..i];
    assert forall p :: p in ports[..i + 1] ==> p in ports;
  }

  /** The drop loop `for i in range(excess): if i < len(connections)`. */
  method DropExcess(group: seq<Flow>, limit: int) returns (drops: seq<Command>)
    requires |group| > limit
    ensures drops == Drops(Take(group, |group| - limit))
  {
    var excess := |group| - limit;
    drops := [];
    var i := 0;
    while i < excess
      invariant 0 <= i <= excess
      invariant drops == Drops(Take(group, i))
    {
      if i < |group| {
        drops := drops + [Drop(group[i])];
        assert Take(group, i + 1) == Take(group, i) + [group[i]];
      } else {
        assert Take(group, i + 1) == Take(group, i);
      }
      i := i + 1;
    }
  }

  lemma GroupStep(flows: seq<Flow>, i: int)
    requires 0 <= i < |flows|
    ensures var d := GroupByPort(flows[..i]); var f := flows[i];
      GroupByPort(flows[..i + 1]) == d.Put(f.dport, (if f.dport in d.vals then d.vals[f.dport] else []) + [f])
  {
    assert flows[..i + 1][..i] == flows[..i];
  }

  /** The grouping loop over the dict's values. */
  method GroupFlows(flows: seq<Flow>) returns (d: ODict<string, seq<Flow>>)
    ensures d == GroupByPort(flows)
  {
    d := Empty();
    var i := 0;
    while i < |flows|
      invariant 0 <= i <= |flows|
      invariant d == GroupByPort(flows[..i])
    {
      GroupStep(flows, i);
      var f := flows[i];
      ghost var next := d.Put(f.dport, (if f.dport in d.vals then d.vals[f.dport] else []) + [f]);
      if f.dport !in d.vals {
        d.PutTwice(f.dport, [], [f]);
        d := d.Put(f.dport, []);
        assert d.vals[f.dport] + [f] == [f];
      }
      d := d.Put(f.dport, d.vals[f.dport] + [f]);
      assert d == next;
      i := i + 1;
    }
    assert flows[..i] == flows;
  }

  /** The limit loop over the port groups. */
  method EnforceGroups(users: seq<User>, d: ODict<string, seq<Flow>>) returns (drops: seq<Command>)
    requires d.Valid()
    ensures drops == DropsOver(users, d, d.keys)
  {
    drops := [];
    var i := 0;
    while i < |d.keys|
      invariant 0 <= i <= |d.keys|
      invariant drops == DropsOver(users, d, d.keys[..i])
    {
      DropsOverStep(users, d, d.keys, i);
      var port := d.keys[i];
      var group := d.vals[port];
      var userInfo := UserByPort(users, port);
      if userInfo.Some? && |group| > userInfo.value.concurrentConn {
        var more := DropExcess(group, userInfo.value.concurrentConn);
        drops := drops + more;
      }
      i := i + 1;
    }
    assert d.keys[..i] == d.keys;
  }

  // ----- get_connection_stats -----

  /** `connections_by_port` of the statistics: per port, its number of flows. */
  function PortCounts(flows: seq<Flow>): (d: ODict<string, int>)
    ensures d.Valid()
    decreases |flows|
  {
    if flows == [] then Empty()
    else
      Bump(PortCounts(flows[..|flows| - 1]), flows[|flows| - 1].dport)
  }

  /** `connections_by_port[port] = connections_by_port.get(port, 0) + 1`. */
  function Bump(d: ODict<string, int>, port: string): (r: ODict<string, int>)
    requires d.Valid()
    ensures r.Valid()
  {
    d.Put(port, (if port in d.vals then d.vals[port] else 0) + 1)
  }

  /** The per-port counts add up to the number of flows. */
  lemma {:induction false} PortCountsTotal(flows: seq<Flow>)
    ensures Sum(Values(PortCounts(flows))) == |flows|
    decreases |flows|
  {
    if flows != [] {
      var init := flows[..|flows| - 1];
      PortCountsTotal(init);
      BumpSum(PortCounts(init), flows[|flows| - 1].dport);
    }
  }

  /** One more count adds one to the total. */
  lemma BumpSum(d: ODict<string, int>, port: string)
    requires d.Valid()
    ensures Sum(Values(Bump(d, port))) == Sum(Values(d)) + 1
  {
    var v := Values(d);
    var v' := Values(Bump(d, port));
    if port in d.vals {
      var j :| 0 <= j < |d.keys| && d.keys[j] == port;
      assert v' == v[j := v[j] + 1];
      SumBump(v, j);
    } else {
      assert v' == v + [1];
      SumConcat(v, [1]);
      assert Sum([1]) == Sum([]) + 1;
    }
  }

  /** Adding one to one element adds one to the sum. */
  lemma {:induction false} SumBump(s: seq<int>, j: int)
    requires 0 <= j < |s|
    ensures Sum(s[j := s[j] + 1]) == Sum(s) + 1
    decreases |s|
  {
    var t := s[j := s[j] + 1];
    assert t[..|t| - 1] == if j < |s| - 1 then s[..|s| - 1][j := s[j] + 1] else s[..|s| - 1];
    if j < |s| - 1 {
      SumBump(s[..|s| - 1], j);
    }
  }

  /** Each port's count is its number of flows. */
  lemma {:induction false} PortCountsSpec(flows: seq<Flow>)
    ensures forall p :: p in PortCounts(flows).vals ==> PortCounts(flows).vals[p] == Count(flows, PortIs(p))
    ensures forall p :: p !in PortCounts(flows).vals ==> Count(flows, PortIs(p)) == 0
    decreases |flows|
  {
    if flows != [] {
      PortCountsSpec(flows[..|flows| - 1]);
    }
  }

  /** The statistics dict. */
  datatype Stats = Stats(totalConnections: nat, connectionsByPort: ODict<string, int>, timestamp: int)

  lemma CountStep(flows: seq<Flow>, i: int)
    requires 0 <= i < |flows|
    ensures PortCounts(flows[..i + 1]) == Bump(PortCounts(flows[..i]), flows[i].dport)
  {
    assert flows[..i + 1][..i] == flows[..i];
  }

  method CountPorts(flows: seq<Flow>) returns (d: ODict<string, int>)
    ensures d == PortCounts(flows)
  {
    d := Empty();
    var i := 0;
    while i < |flows|
      invariant 0 <= i <= |flows|
      invariant d == PortCounts(flows[..i])
    {
      CountStep(flows, i);
      d := Bump(d, flows[i].dport);
      i := i + 1;
    }
    assert flows[..i] == flows;
  }

  // ----- the manager object -----

  /** The manager and the tables it reads. */
  class Manager {
    var users: seq<User>
    ghost var commands: seq<Command>

    constructor (users: seq<User>)
      ensures this.users == users && commands == []
    {
      this.users := users;
      commands := [];
    }

    method GetActiveConnections(stdout: string, now: int) returns (conns: ODict<string, Flow>)
      ensures conns == Flows(stdout, now)
    {
      conns := ParseFlows(stdout, now);
    }

    /** enforce_connection_limits: the drops are issued, nothing else
        changes. */
    method EnforceConnectionLimits(stdout: string, now: int)
      modifies this`commands
      ensures commands == old(commands) + EnforceCommands(users, Flows(stdout, now))
    {
      var conns := ParseFlows(stdout, now);
      var groups := GroupFlows(Values(conns));
      var drops := EnforceGroups(users, groups);
      commands := commands + drops;
    }

    /** drop_connection. */
    method DropConnection(srcIp: string, dport: string)
      modifies this`commands
      ensures commands == old(commands) + [ConntrackDelete(dport, None, srcIp)]
    {
      commands := commands + [ConntrackDelete(dport, None, srcIp)];
    }

    /** get_connection_stats: the total is the number of entries and equals the
        sum of the per-port counts. */
    method GetConnectionStats(stdout: string, now: int) returns (stats: Stats)
      ensures var conns := Flows(stdout, now);
        stats == Stats(|conns.keys|, PortCounts(Values(conns)), now)
      ensures stats.totalConnections == Sum(Values(stats.connectionsByPort))
    {
      var conns := ParseFlows(stdout, now);
      var byPort := CountPorts(Values(conns));
      PortCountsTotal(Values(conns));
      stats := Stats(|conns.keys|, byPort, now);
    }
  }
}
