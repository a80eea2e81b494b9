/** The multi-device tracker of connection_tracker.py: a conntrack parser that
    fingerprints each client endpoint, the grouping of fingerprints by the user
    that owns the destination port, the violation test against a device limit,
    the escalation from logged warnings to suspension within an hour, the
    credential sync that follows a suspension, and the per-user statistics. */
module ConnectionTracker {
  import opened Wrappers
  import opened Text
  import opened Seqs
  import opened OrderedDicts
  import opened Accounts
  import opened Effects
  import opened Credentials
  import Dates

  /** The limit used when the first connection's port maps to no user. */
  const MaxDevicesPerUser: int := 3
  /** The look-back window of the violation count, in seconds. */
  const OneHour: int := 3600

  const ViolationAction: string := "multi_device_violation"
  const SuspendAction: string := "auto_suspend_multi_device"
  const System: string := "system"

  // ----- get_device_fingerprint -----

  /** `hashlib.md5(f"{ip_address}:{port}".encode()).hexdigest()`, the
      digest being a parameter. */
  function Fingerprint(digest: string -> string, ip: string, port: string): string {
    digest(JoinColon(ip, port))
  }

  /** The device id of an endpoint: a missing or empty source port is hashed
      as 'unknown' (`src_port or 'unknown'`). */
  function DeviceId(digest: string -> string, srcIp: string, srcPort: Option<string>): string {
    Fingerprint(digest, srcIp, if srcPort.Some? && srcPort.value != "" then srcPort.value else "unknown")
  }

  /** With an injective digest, two endpoints with known ports and addresses
      without ':' share a device id exactly when they are the same endpoint. */
  lemma DeviceIdSeparates(digest: string -> string, ip1: string, port1: string, ip2: string, port2: string)
    requires forall x, y :: digest(x) == digest(y) ==> x == y
    requires ':' !in ip1 && ':' !in ip2 && port1 != "" && port2 != ""
    ensures DeviceId(digest, ip1, Some(port1)) == DeviceId(digest, ip2, Some(port2)) <==> ip1 == ip2 && port1 == port2
  {
    JoinColonInjective(ip1, port1, ip2, port2);
  }

  /** A missing source port and a port that is literally "unknown" are hashed
      alike. */
  lemma MissingPortIsUnknown(digest: string -> string, ip: string)
    ensures DeviceId(digest, ip, None) == DeviceId(digest, ip, Some("unknown"))
    ensures DeviceId(digest, ip, None) == DeviceId(digest, ip, Some(""))
  {
  }

  // ----- get_active_connections -----

  /** One entry of the list get_active_connections returns. */
  datatype Conn = Conn(srcIp: string, srcPort: Option<string>, dport: string, deviceId: string)

  /** The entry one output line yields: the last `src=`, `sport=` and `dport=`
      tokens win, and an entry needs a non-empty source address and
      destination port. */
  function ConnOf(digest: string -> string, line: string): (r: Option<Conn>)
    ensures BlankLine(line) ==> r.None?
    ensures r.Some? ==> (r.value.srcIp != "" && r.value.dport != ""
      && r.value.deviceId == DeviceId(digest, r.value.srcIp, r.value.srcPort))
  {
    if BlankLine(line) then None
    else
      var parts := Words(line);
      var src := LastValue(parts, "src=");
      var sport := LastValue(parts, "sport=");
      var dport := LastValue(parts, "dport=");
      if src.Some? && src.value != "" && dport.Some? && dport.value != "" then
        Some(Conn(src.value, sport, dport.value, DeviceId(digest, src.value, sport)))
      else None
  }

  /** Which tokens decide an entry: the address and the destination port are
      those of the last `src=` and `dport=` tokens; the source port is that of
      the last `sport=` token, and absent exactly when there is none. */
  lemma ConnOfSpec(digest: string -> string, line: string)
    ensures var parts := Words(line);
      ConnOf(digest, line).Some? ==>
        DecidedBy(parts, "src=", ConnOf(digest, line).value.srcIp)
        && DecidedBy(parts, "dport=", ConnOf(digest, line).value.dport)
        && (ConnOf(digest, line).value.srcPort.None? <==> forall i :: 0 <= i < |parts| ==> !StartsWith(parts[i], "sport="))
        && (ConnOf(digest, line).value.srcPort.Some? ==>
              DecidedBy(parts, "sport=", ConnOf(digest, line).value.srcPort.value))
    ensures var parts := Words(line);
      (forall i :: 0 <= i < |parts| ==> !StartsWith(parts[i], "src="))
      || (forall i :: 0 <= i < |parts| ==> !StartsWith(parts[i], "dport="))
      ==> ConnOf(digest, line).None?
  {
    var parts := Words(line);
    LastValueSpec(parts, "src=");
    LastValueSpec(parts, "sport=");
    LastValueSpec(parts, "dport=");
  }

  /** The connections of these lines, in order. */
  function ConnsOf(digest: string -> string, lines: seq<string>): (r: seq<Conn>)
    ensures |r| <= |lines|
    decreases |lines|
  {
    if lines == [] then []
    else
      var rest := ConnsOf(digest, lines[..|lines| - 1]);
      match ConnOf(digest, lines[|lines| - 1])
      case Some(c) => rest + [c]
      case None => rest
  }

  lemma ConnsStep(digest: string -> string, lines: seq<string>, i: nat)
    requires i < |lines|
    ensures ConnsOf(digest, lines[..i + 1])
      == ConnsOf(digest, lines[..i]) + (if ConnOf(digest, lines[i]).Some? then [ConnOf(digest, lines[i]).value] else [])
  {
    assert lines[..i + 1][..i] == lines[..i];
  }

  /** get_active_connections, given the output of `conntrack -L -p udp`. */
  function Conns(digest: string -> string, stdout: string): seq<Conn> {
    ConnsOf(digest, VpnLines(stdout))
  }

  /** The token loop: the `elif` chain sets the variable of the key the token
      starts with. */
  method ScanTokens(parts: seq<string>) returns (srcIp: Option<string>, srcPort: Option<string>, dport: Option<string>)
    ensures srcIp == LastValue(parts, "src=")
    ensures srcPort == LastValue(parts, "sport=")
    ensures dport == LastValue(parts, "dport=")
  {
    srcIp, srcPort, dport := None, None, None;
    var j := 0;
    while j < |parts|
      invariant 0 <= j <= |parts|
      invariant srcIp == LastValue(parts[..j], "src=")
      invariant srcPort == LastValue(parts[..j], "sport=")
      invariant dport == LastValue(parts[..j], "dport=")
    {
      var part := parts[j];
      KeysExclusive(part);
      LastValueStep(parts, j, "src=");
      LastValueStep(parts, j, "sport=");
      LastValueStep(parts, j, "dport=");
      if StartsWith(part, "src=") {
        srcIp := Some(SplitField1(part));
      } else if StartsWith(part, "sport=") {
        srcPort := Some(SplitField1(part));
      } else if StartsWith(part, "dport=") {
        dport := Some(SplitField1(part));
      }
      j := j + 1;
    }
    assert parts[..j] == parts;
  }

  method ParseLine(digest: string -> string, line: string) returns (c: Option<Conn>)
    ensures c == ConnOf(digest, line)
  {
    if BlankLine(line) {
      return None;
    }
    var parts := Words(line);
    var srcIp, srcPort, dport := ScanTokens(parts);
    if srcIp.Some? && srcIp.value != "" && dport.Some? && dport.value != "" {
      c := Some(Conn(srcIp.value, srcPort, dport.value, DeviceId(digest, srcIp.value, srcPort)));
    } else {
      c := None;
    }
  }

  method ParseConnections(digest: string -> string, stdout: string) returns (conns: seq<Conn>)
    ensures conns == Conns(digest, stdout)
  {
    var lines := VpnLines(stdout);
    conns := [];
    var i := 0;
    while i < |lines|
      invariant 0 <= i <= |lines|
      invariant conns == ConnsOf(digest, lines[..i])
    {
      ConnsStep(digest, lines, i);
      var c := ParseLine(digest, lines[i]);
      if c.Some? {
        conns := conns + [c.value];
      }
      i := i + 1;
    }
    assert lines[..i] == lines;
  }

  // ----- find_user_by_port -----

  /** `port = ? AND status = "active"`. */
  function ActiveOnPort(port: string): User -> bool {
    (u: User) => u.port == Some(port) && u.status == Active
  }

  /** users[i] is the first active row whose port is exactly port. */
  ghost predicate FirstActiveOnPort(users: seq<User>, port: string, i: int)
    requires 0 <= i < |users|
  {
    ActiveOnPort(port)(users[i]) && forall k :: 0 <= k < i ==> !ActiveOnPort(port)(users[k])
  }

  /** `SELECT username, concurrent_conn FROM users WHERE port = ? AND status =
      "active"`, fetchone. */
  function FindUserByPort(users: seq<User>, port: string): (r: Option<UserInfo>)
    ensures r.None? <==> forall i :: 0 <= i < |users| ==> !(users[i].port == Some(port) && users[i].status == Active)
    ensures r.Some? ==> exists i :: (0 <= i < |users| && FirstActiveOnPort(users, port, i)
      && r.value == UserInfo(users[i].username, users[i].concurrentConn))
  {
    match FirstIndex(users, ActiveOnPort(port))
    case Some(i) => Some(UserInfo(users[i].username, users[i].concurrentConn))
    case None => None
  }

  /** The user a connection is attributed to. */
  function Owner(users: seq<User>, c: Conn): Option<string> {
    match FindUserByPort(users, c.dport)
    case Some(info) => Some(info.username)
    case None => None
  }

  /** An owned name belongs to an active row with the connection's port. */
  lemma OwnerIsActive(users: seq<User>, c: Conn, name: string)
    requires Owner(users, c) == Some(name)
    ensures exists i :: (0 <= i < |users| && users[i].username == name
      && users[i].status == Active && users[i].port == Some(c.dport))
  {
  }

  // ----- detect_multi_device_usage: grouping -----

  /** The device ids of the connections attributed to name. */
  ghost function DevicesFor(users: seq<User>, conns: seq<Conn>, name: string): set<string> {
    set i | 0 <= i < |conns| && Owner(users, conns[i]) == Some(name) :: conns[i].deviceId
  }

  lemma DevicesForSnoc(users: seq<User>, conns: seq<Conn>, c: Conn, name: string)
    ensures DevicesFor(users, conns + [c], name)
      == DevicesFor(users, conns, name) + (if Owner(users, c) == Some(name) then {c.deviceId} else {})
  {
    DevicesForGrow(users, conns, c, name);
    DevicesForNew(users, conns, c, name);
  }

  lemma DevicesForGrow(users: seq<User>, conns: seq<Conn>, c: Conn, name: string)
    ensures DevicesFor(users, conns, name) <= DevicesFor(users, conns + [c], name)
    ensures Owner(users, c) == Some(name) ==> c.deviceId in DevicesFor(users, conns + [c], name)
  {
    var s := conns + [c];
    forall d | d in DevicesFor(users, conns, name) ensures d in DevicesFor(users, s, name) {
      var i :| 0 <= i < |conns| && Owner(users, conns[i]) == Some(name) && conns[i].deviceId == d;
      assert s[i] == conns[i];
    }
    if Owner(users, c) == Some(name) {
      assert s[|conns|] == c;
    }
  }

  lemma DevicesForNew(users: seq<User>, conns: seq<Conn>, c: Conn, name: string)
    ensures forall d :: d in DevicesFor(users, conns + [c], name) ==>
      d in DevicesFor(users, conns, name) || (Owner(users, c) == Some(name) && d == c.deviceId)
  {
    var s := conns + [c];
    forall d | d in DevicesFor(users, s, name)
      ensures d in DevicesFor(users, conns, name) || (Owner(users, c) == Some(name) && d == c.deviceId)
    {
      var i :| 0 <= i < |s| && Owner(users, s[i]) == Some(name) && s[i].deviceId == d;
      if i < |conns| { assert s[i] == conns[i]; }
    }
  }

  /** The `user_devices` dict after the grouping loop: in order of first
      appearance, each owner with the set of its device ids. */
  function UserDevices(users: seq<User>, conns: seq<Conn>): (d: ODict<string, set<string>>)
    ensures d.Valid()
    decreases |conns|
  {
    if conns == [] then Empty()
    else
      var c := conns[|conns| - 1];
      AddDevice(UserDevices(users, conns[..|conns| - 1]), Owner(users, c), c.deviceId)
  }

  /** `user_devices[username].add(device_id)` for an attributed connection. */
  function AddDevice(d: ODict<string, set<string>>, owner: Option<string>, device: string): (r: ODict<string, set<string>>)
    requires d.Valid()
    ensures r.Valid()
  {
    match owner
    case None => d
    case Some(name) => d.Put(name, (if name in d.vals then d.vals[name] else {}) + {device})
  }

  lemma UserDevicesStep(users: seq<User>, conns: seq<Conn>, i: int)
    requires 0 <= i < |conns|
    ensures UserDevices(users, conns[..i + 1]) == AddDevice(UserDevices(users, conns[..i]), Owner(users, conns[i]), conns[i].deviceId)
  {
    assert conns[..i + 1][..i] == conns[..i];
  }

  /** The dict holds exactly the owners of some connection, each with the
      set of device ids of its connections. */
  lemma {:induction false} UserDevicesSpec(users: seq<User>, conns: seq<Conn>)
    ensures forall name :: name in UserDevices(users, conns).vals <==> DevicesFor(users, conns, name) != {}
    ensures forall name :: name in UserDevices(users, conns).vals ==>
      UserDevices(users, conns).vals[name] == DevicesFor(users, conns, name)
    decreases |conns|
  {
    if conns != [] {
      var init := conns[..|conns| - 1];
      var c := conns[|conns| - 1];
      assert conns == init + [c];
      UserDevicesSpec(users, init);
      forall name ensures DevicesFor(users, conns, name)
        == DevicesFor(users, init, name) + (if Owner(users, c) == Some(name) then {c.deviceId} else {})
      {
        DevicesForSnoc(users, init, c, name);
      }
    }
  }

  /** The grouping loop. */
  method GroupDevices(users: seq<User>, conns: seq<Conn>) returns (d: ODict<string, set<string>>)
    ensures d == UserDevices(users, conns)
  {
    d := Empty();
    var i := 0;
    while i < |conns|
      invariant 0 <= i <= |conns|
      invariant d == UserDevices(users, conns[..i])
    {
      UserDevicesStep(users, conns, i);
      var c := conns[i];
      ghost var next := AddDevice(d, Owner(users, c), c.deviceId);
      var user := FindUserByPort(users, c.dport);
      if user.Some? {
        var name := user.value.username;
        if name !in d.vals {
          d.PutTwice(name, {}, {c.deviceId});
          d := d.Put(name, {});
          assert d.vals[name] + {c.deviceId} == {c.deviceId};
        }
        d := d.Put(name, d.vals[name] + {c.deviceId});
      }
      assert d == next;
      i := i + 1;
    }
    assert conns[..i] == conns;
  }

  // ----- detect_multi_device_usage: the violation test -----

  /** One violation record; `list(devices)` is kept as the set it lists. */
  datatype Violation = Violation(username: string, devicesCount: nat, maxAllowed: int, devices: set<string>)

  /** The violations found by walking keys of d in order, each user's limit being
      limit(user). */
  function ViolationsFrom(d: ODict<string, set<string>>, keys: seq<string>, limit: string -> int): (r: seq<Violation>)
    requires forall k :: k in keys ==> k in d.vals
    ensures |r| <= |keys|
    decreases |keys|
  {
    if keys == [] then []
    else
      var rest := ViolationsFrom(d, keys[..|keys| - 1], limit);
      var k := keys[|keys| - 1];
      if |d.vals[k]| > limit(k) then rest + [Violation(k, |d.vals[k]|, limit(k), d.vals[k])] else rest
  }

  /** A user is reported exactly when it has more devices than its limit, and
      the record carries the device set, its size and the limit. */
  lemma {:induction false} ViolationsFromSpec(d: ODict<string, set<string>>, keys: seq<string>, limit: string -> int)
    requires forall k :: k in keys ==> k in d.vals
    ensures forall v :: v in ViolationsFrom(d, keys, limit) ==>
      v.username in keys && v.devices == d.vals[v.username]
      && v.devicesCount == |v.devices| && v.maxAllowed == limit(v.username) && v.devicesCount > v.maxAllowed
    ensures forall k :: k in keys && |d.vals[k]| > limit(k) ==>
      exists v :: v in ViolationsFrom(d, keys, limit) && v.username == k
    decreases |keys|
  {
    if keys != [] {
      var init := keys[..|keys| - 1];
      var k := keys[|keys| - 1];
      assert forall x :: x in init ==> x in keys;
      ViolationsFromSpec(d, init, limit);
      forall x | x in keys && |d.vals[x]| > limit(x)
        ensures exists v :: v in ViolationsFrom(d, keys, limit) && v.username == x
      {
        if x != k {
          var j :| 0 <= j < |keys| && keys[j] == x;
          assert init[j] == x;
        } else {
          assert Violation(k, |d.vals[k]|, limit(k), d.vals[k]) in ViolationsFrom(d, keys, limit);
        }
      }
    }
  }

  /** The violation loop over `user_devices.items()`. */
  method CheckViolations(d: ODict<string, set<string>>, limit: string -> int) returns (violations: seq<Violation>)
    requires d.Valid()
    ensures violations == ViolationsFrom(d, d.keys, limit)
  {
    violations := [];
    var i := 0;
    while i < |d.keys|
      invariant 0 <= i <= |d.keys|
      invariant violations == ViolationsFrom(d, d.keys[..i], limit)
    {
      assert d.keys[..i + 1][..i] == d.keys[..i];
      var name := d.keys[i];
      var devices := d.vals[name];
      var maxAllowed := limit(name);
      if |devices| > maxAllowed {
        violations := violations + [Violation(name, |devices|, maxAllowed, devices)];
      }
      i := i + 1;
    }
    assert d.keys[..i] == d.keys;
  }

  /** The limit detect_multi_device_usage applies to every user: that of the
      owner of the first connection's port, or 3 when that port maps to no
      user. Only called with connections present; with none it is 3. */
  function FirstPortLimit(users: seq<User>, conns: seq<Conn>): int {
    if conns == [] then MaxDevicesPerUser
    else
      match FindUserByPort(users, conns[0].dport)
      case Some(info) => info.concurrentConn
      case None => MaxDevicesPerUser
  }

  function Const(n: int): string -> int {
    (name: string) => n
  }

  /** detect_multi_device_usage as written. */
  function ViolationsAsWritten(users: seq<User>, conns: seq<Conn>): seq<Violation> {
    var d := UserDevices(users, conns);
    ViolationsFrom(d, d.keys, Const(FirstPortLimit(users, conns)))
  }

  /** `status = "active" AND username = ?`. */
  function ActiveNamed(name: string): User -> bool {
    (u: User) => u.username == name && u.status == Active
  }

  /** The user's own `concurrent_conn`: that of the first active row with the
      name, or 3 when there is none. */
  function OwnLimit(users: seq<User>, name: string): int {
    match FirstIndex(users, ActiveNamed(name))
    case Some(i) => users[i].concurrentConn
    case None => MaxDevicesPerUser
  }

  function OwnLimits(users: seq<User>): string -> int {
    (name: string) => OwnLimit(users, name)
  }

  /** detect_multi_device_usage with each user checked against its own limit. */
  function ViolationsIntended(users: seq<User>, conns: seq<Conn>): seq<Violation> {
    var d := UserDevices(users, conns);
    ViolationsFrom(d, d.keys, OwnLimits(users))
  }

  /** As written, a user is reported exactly when its connections show more
      distinct devices than the limit of the first connection's owner. */
  lemma ViolationsAsWrittenSpec(users: seq<User>, conns: seq<Conn>, name: string)
    ensures (exists v :: v in ViolationsAsWritten(users, conns) && v.username == name)
      <==> DevicesFor(users, conns, name) != {} && |DevicesFor(users, conns, name)| > FirstPortLimit(users, conns)
    ensures forall v :: v in ViolationsAsWritten(users, conns) ==>
      v.devices == DevicesFor(users, conns, v.username) && v.devicesCount == |v.devices|
      && v.maxAllowed == FirstPortLimit(users, conns)
  {
    var d := UserDevices(users, conns);
    UserDevicesSpec(users, conns);
    ViolationsFromSpec(d, d.keys, Const(FirstPortLimit(users, conns)));
  }

  /** Corrected, a user is reported exactly when its connections show more
      distinct devices than its own `concurrent_conn`, and that limit comes
      from the user's own row (the fallback of 3 is never used for a user
      that owns a connection). */
  lemma ViolationsIntendedSpec(users: seq<User>, conns: seq<Conn>, name: string)
    ensures (exists v :: v in ViolationsIntended(users, conns) && v.username == name)
      <==> DevicesFor(users, conns, name) != {} && |DevicesFor(users, conns, name)| > OwnLimit(users, name)
    ensures forall v :: v in ViolationsIntended(users, conns) ==>
      v.devices == DevicesFor(users, conns, v.username) && v.devicesCount == |v.devices|
      && v.maxAllowed == OwnLimit(users, v.username)
    ensures DevicesFor(users, conns, name) != {} ==>
      exists i :: 0 <= i < |users| && users[i].username == name && users[i].status == Active
        && OwnLimit(users, name) == users[i].concurrentConn
  {
    var d := UserDevices(users, conns);
    UserDevicesSpec(users, conns);
    ViolationsFromSpec(d, d.keys, OwnLimits(users));
    if DevicesFor(users, conns, name) != {} {
      var x :| x in DevicesFor(users, conns, name);
      var j :| 0 <= j < |conns| && Owner(users, conns[j]) == Some(name) && conns[j].deviceId == x;
      OwnerIsActive(users, conns[j], name);
      var k :| 0 <= k < |users| && users[k].username == name && users[k].status == Active;
      assert ActiveNamed(name)(users[k]);
      var i := FirstIndex(users, ActiveNamed(name)).value;
      assert ActiveNamed(name)(users[i]);
    }
  }

  /** When every connection is attributed to one user, the two agree. */
  lemma SingleOwnerAgrees(users: seq<User>, conns: seq<Conn>, name: string)
    requires conns != []
    requires forall i :: 0 <= i < |conns| ==> Owner(users, conns[i]) == Some(name)
    requires forall i :: 0 <= i < |users| && users[i].username == name && users[i].status == Active ==>
      users[i].concurrentConn == OwnLimit(users, name)
    ensures ViolationsAsWritten(users, conns) == ViolationsIntended(users, conns)
  {
    var info := FindUserByPort(users, conns[0].dport).value;
    var i :| 0 <= i < |users| && FirstActiveOnPort(users, conns[0].dport, i)
      && info == UserInfo(users[i].username, users[i].concurrentConn);
    var d := UserDevices(users, conns);
    UserDevicesSpec(users, conns);
    assert FirstPortLimit(users, conns) == OwnLimit(users, name);
    forall k | k in d.keys ensures k == name {
      var x :| x in DevicesFor(users, conns, k);
    }
    SameLimitsOnKeys(d, d.keys, Const(OwnLimit(users, name)), OwnLimits(users));
  }

  lemma {:induction false} SameLimitsOnKeys(d: ODict<string, set<string>>, keys: seq<string>, f: string -> int, g: string -> int)
    requires forall k :: k in keys ==> k in d.vals && f(k) == g(k)
    ensures ViolationsFrom(d, keys, f) == ViolationsFrom(d, keys, g)
    decreases |keys|
  {
    if keys != [] {
      assert forall x :: x in keys[..|keys| - 1] ==> x in keys;
      SameLimitsOnKeys(d, keys[..|keys| - 1], f, g);
    }
  }

  /** A user with limit 1 on port 6000 and a user with limit 5 on port 7000.
      The first connection goes to port 7000, so as written the limit 5 is
      applied to both users, and two devices on port 6000 go unreported. */
  function ExampleUsers(): seq<User> {
    [User("alice", Some("a"), Active, None, Some("6000"), 1, 0, Some(0), false, 0, None, None),
     User("bob", Some("b"), Active, None, Some("7000"), 5, 0, Some(0), false, 0, None, None)]
  }

  function ExampleConns(): seq<Conn> {
    [Conn("10.0.0.1", Some("40000"), "7000", "d1"),
     Conn("10.0.0.2", Some("40001"), "6000", "d2"),
     Conn("10.0.0.3", Some("40002"), "6000", "d3")]
  }

  lemma FirstPortLimitMisses()
    ensures |DevicesFor(ExampleUsers(), ExampleConns(), "alice")| == 2
    ensures OwnLimit(ExampleUsers(), "alice") == 1
    ensures FirstPortLimit(ExampleUsers(), ExampleConns()) == 5
    ensures forall v :: v in ViolationsAsWritten(ExampleUsers(), ExampleConns()) ==> v.username != "alice"
    ensures exists v :: v in ViolationsIntended(ExampleUsers(), ExampleConns()) && v.username == "alice"
  {
    ExampleFacts();
    assert "d2"[1] != "d3"[1];
    PairSize("d2", "d3");
    ViolationsAsWrittenSpec(ExampleUsers(), ExampleConns(), "alice");
    ViolationsIntendedSpec(ExampleUsers(), ExampleConns(), "alice");
  }

  lemma ExampleFacts()
    ensures DevicesFor(ExampleUsers(), ExampleConns(), "alice") == {"d2", "d3"}
    ensures OwnLimit(ExampleUsers(), "alice") == 1
    ensures FirstPortLimit(ExampleUsers(), ExampleConns()) == 5
  {
    ExampleOwners();
    ExampleDevices();
    assert ActiveNamed("alice")(ExampleUsers()[0]);
  }

  lemma ExampleDevices()
    requires Owner(ExampleUsers(), ExampleConns()[0]) == Some("bob")
    requires Owner(ExampleUsers(), ExampleConns()[1]) == Some("alice")
    requires Owner(ExampleUsers(), ExampleConns()[2]) == Some("alice")
    ensures DevicesFor(ExampleUsers(), ExampleConns(), "alice") == {"d2", "d3"}
  {
    var users, conns := ExampleUsers(), ExampleConns();
    var c0, c1, c2 := conns[0], conns[1], conns[2];
    assert "bob" != "alice";
    DevicesForEmpty(users, "alice");
    assert [] + [c0] == [c0];
    DevicesForSnoc(users, [], c0, "alice");
    assert [c0] + [c1] == [c0, c1];
    DevicesForSnoc(users, [c0], c1, "alice");
    assert [c0, c1] + [c2] == conns;
    DevicesForSnoc(users, [c0, c1], c2, "alice");
  }

  lemma DevicesForEmpty(users: seq<User>, name: string)
    ensures DevicesFor(users, [], name) == {}
  {
  }

  lemma ExampleOwners()
    ensures Owner(ExampleUsers(), ExampleConns()[0]) == Some("bob")
    ensures FindUserByPort(ExampleUsers(), "7000") == Some(UserInfo("bob", 5))
    ensures Owner(ExampleUsers(), ExampleConns()[1]) == Some("alice")
    ensures Owner(ExampleUsers(), ExampleConns()[2]) == Some("alice")
  {
    var users := ExampleUsers();
    assert !ActiveOnPort("7000")(users[0]);
    assert ActiveOnPort("7000")(users[1]);
    assert ActiveOnPort("6000")(users[0]);
  }

  /** The two loops of detect_multi_device_usage, with the corrected limit. */
  method FindViolations(users: seq<User>, conns: seq<Conn>) returns (violations: seq<Violation>)
    ensures violations == ViolationsIntended(users, conns)
  {
    var d := GroupDevices(users, conns);
    violations := CheckViolations(d, OwnLimits(users));
  }

  // ----- handle_multi_device_violation -----

  /** One row of `audit_logs`; `created_at` in seconds. */
  datatype AuditRow = AuditRow(adminUser: string, action: string, targetUser: string, details: string, ipAddress: string, createdAt: int)

  /** `target_user = ? AND action = 'multi_device_violation' AND created_at >
      datetime('now', '-1 hour')`. */
  function RecentViolation(name: string, now: int): AuditRow -> bool {
    (a: AuditRow) => a.targetUser == name && a.action == ViolationAction && a.createdAt > now - OneHour
  }

  /** The COUNT(*) of that query. */
  function RecentViolations(audit: seq<AuditRow>, name: string, now: int): nat {
    Count(audit, RecentViolation(name, now))
  }

  /** The third violation within an hour, counting this one, suspends. */
  predicate Suspends(audit: seq<AuditRow>, name: string, now: int) {
    RecentViolations(audit, name, now) >= 2
  }

  /** The row the handler inserts. */
  function AuditFor(v: Violation, now: int, suspend: bool): (r: AuditRow)
    ensures r.targetUser == v.username && r.adminUser == System && r.ipAddress == System && r.createdAt == now
    ensures r.action == (if suspend then SuspendAction else ViolationAction)
  {
    var tail := Dec(v.devicesCount) + " devices (max: " + Dec(v.maxAllowed) + ")";
    if suspend then
      AuditRow(System, SuspendAction, v.username, "Auto-suspended for multi-device violation: " + tail, System, now)
    else
      AuditRow(System, ViolationAction, v.username, "Multi-device violation detected: " + tail, System, now)
  }

  /** The count only looks back: a later clock counts no more old rows. */
  lemma {:induction false} RecentViolationsLater(audit: seq<AuditRow>, name: string, t: int, t': int)
    requires t <= t'
    ensures RecentViolations(audit, name, t') <= RecentViolations(audit, name, t)
    decreases |audit|
  {
    if audit != [] {
      RecentViolationsLater(audit[..|audit| - 1], name, t, t');
    }
  }

  /** Starting from a history with no violation of the user in the last hour,
      the first two violations within the hour are logged and the third
      suspends; a suspension adds no violation row. */
  lemma ThirdViolationSuspends(audit: seq<AuditRow>, v: Violation, t0: int, t1: int, t2: int)
    requires RecentViolations(audit, v.username, t0) == 0
    requires t0 <= t1 <= t2 < t0 + OneHour
    ensures !Suspends(audit, v.username, t0)
    ensures var a1 := audit + [AuditFor(v, t0, false)];
      !Suspends(a1, v.username, t1)
      && var a2 := a1 + [AuditFor(v, t1, false)];
      Suspends(a2, v.username, t2)
      && RecentViolations(a2 + [AuditFor(v, t2, true)], v.username, t2) == 2
  {
    var name := v.username;
    var a1 := audit + [AuditFor(v, t0, false)];
    var a2 := a1 + [AuditFor(v, t1, false)];
    RecentViolationsLater(audit, name, t0, t1);
    RecentViolationsLater(audit, name, t0, t2);
    assert a1[..|a1| - 1] == audit;
    assert a2[..|a2| - 1] == a1;
    assert RecentViolations(a1, name, t1) == 1;
    assert RecentViolations(a1, name, t2) == 1;
    assert RecentViolations(a2, name, t2) == 2;
    var a3 := a2 + [AuditFor(v, t2, true)];
    assert a3[..|a3| - 1] == a2;
  }

  // ----- get_user_connection_stats -----

  datatype Stats = Stats(devices: set<string>, connections: nat, ports: set<string>)

  /** The `user_stats` dict: per owner, its device ids, the number of its
      connections and the ports they go to. */
  function UserStats(users: seq<User>, conns: seq<Conn>): (d: ODict<string, Stats>)
    ensures d.Valid()
    ensures forall k :: k in d.vals ==> |d.vals[k].devices| <= d.vals[k].connections && d.vals[k].connections > 0
    decreases |conns|
  {
    if conns == [] then Empty()
    else
      var c := conns[|conns| - 1];
      AddOwned(UserStats(users, conns[..|conns| - 1]), Owner(users, c), c)
  }

  /** One connection counted against its owner, if it has one. */
  function AddOwned(d: ODict<string, Stats>, owner: Option<string>, c: Conn): (r: ODict<string, Stats>)
    requires d.Valid()
    ensures r.Valid()
  {
    match owner
    case None => d
    case Some(name) => AddStats(d, name, c)
  }

  lemma UserStatsStep(users: seq<User>, conns: seq<Conn>, i: int)
    requires 0 <= i < |conns|
    ensures UserStats(users, conns[..i + 1]) == AddOwned(UserStats(users, conns[..i]), Owner(users, conns[i]), conns[i])
  {
    assert conns[..i + 1][..i] == conns[..i];
  }

  /** The three updates of one connection's entry, created empty if absent. */
  function AddStats(d: ODict<string, Stats>, name: string, c: Conn): (r: ODict<string, Stats>)
    requires d.Valid()
    ensures r.Valid() && r.vals.Keys == d.vals.Keys + {name}
    ensures r.keys == if name in d.vals then d.keys else d.keys + [name]
    ensures forall k :: k in d.vals && k != name ==> r.vals[k] == d.vals[k]
  {
    var s := if name in d.vals then d.vals[name] else Stats({}, 0, {});
    d.Put(name, Stats(s.devices + {c.deviceId}, s.connections + 1, s.ports + {c.dport}))
  }

  /** The connections attributed to name. */
  function OwnedBy(users: seq<User>, name: string): Conn -> bool {
    (c: Conn) => Owner(users, c) == Some(name)
  }

  /** The statistics agree with the grouping: the same owners in the same
      order, the same device sets, and the number of each owner's
      connections. */
  lemma UserStatsSpec(users: seq<User>, conns: seq<Conn>)
    ensures UserStats(users, conns).keys == UserDevices(users, conns).keys
    ensures forall k :: k in UserStats(users, conns).vals ==>
      UserStats(users, conns).vals[k].devices == UserDevices(users, conns).vals[k]
      && UserStats(users, conns).vals[k].connections == Count(conns, OwnedBy(users, k))
  {
    StatsKeys(users, conns);
    StatsDevices(users, conns);
    StatsConnections(users, conns);
    UserDevicesSpec(users, conns);
  }

  lemma {:induction false} StatsKeys(users: seq<User>, conns: seq<Conn>)
    ensures UserStats(users, conns).keys == UserDevices(users, conns).keys
    decreases |conns|
  {
    if conns != [] {
      StatsKeys(users, conns[..|conns| - 1]);
    }
  }

  lemma {:induction false} StatsDevices(users: seq<User>, conns: seq<Conn>)
    ensures forall k :: k in UserStats(users, conns).vals ==>
      UserStats(users, conns).vals[k].devices == DevicesFor(users, conns, k)
    decreases |conns|
  {
    if conns != [] {
      var init := conns[..|conns| - 1];
      var c := conns[|conns| - 1];
      assert conns == init + [c];
      StatsDevices(users, init);
      forall k ensures DevicesFor(users, conns, k)
        == DevicesFor(users, init, k) + (if Owner(users, c) == Some(k) then {c.deviceId} else {})
      {
        DevicesForSnoc(users, init, c, k);
      }
      forall k | k !in UserStats(users, init).vals ensures DevicesFor(users, init, k) == {} {
        NoStatsNoneOwned(users, init, k);
      }
    }
  }

  lemma {:induction false} StatsConnections(users: seq<User>, conns: seq<Conn>)
    ensures forall k :: k in UserStats(users, conns).vals ==>
      UserStats(users, conns).vals[k].connections == Count(conns, OwnedBy(users, k))
    decreases |conns|
  {
    if conns != [] {
      var init := conns[..|conns| - 1];
      StatsConnections(users, init);
      forall k | k !in UserStats(users, init).vals ensures Count(init, OwnedBy(users, k)) == 0 {
        NoStatsNoneOwned(users, init, k);
      }
    }
  }

  lemma {:induction false} NoStatsNoneOwned(users: seq<User>, conns: seq<Conn>, k: string)
    requires k !in UserStats(users, conns).vals
    ensures Count(conns, OwnedBy(users, k)) == 0
    ensures DevicesFor(users, conns, k) == {}
    decreases |conns|
  {
    if conns != [] {
      var init := conns[..|conns| - 1];
      var c := conns[|conns| - 1];
      assert conns == init + [c];
      NoStatsNoneOwned(users, init, k);
      DevicesForSnoc(users, init, c, k);
    }
  }

  /** `devices_count` of each entry is at most its number of connections. */
  lemma DevicesCountBound(users: seq<User>, conns: seq<Conn>, k: string)
    requires k in UserStats(users, conns).vals
    ensures |DevicesFor(users, conns, k)| <= Count(conns, OwnedBy(users, k))
  {
    UserStatsSpec(users, conns);
    UserDevicesSpec(users, conns);
  }

  /** The counting loop of get_user_connection_stats. */
  method CollectStats(users: seq<User>, conns: seq<Conn>) returns (d: ODict<string, Stats>)
    ensures d == UserStats(users, conns)
  {
    d := Empty();
    var i := 0;
    while i < |conns|
      invariant 0 <= i <= |conns|
      invariant d == UserStats(users, conns[..i])
    {
      UserStatsStep(users, conns, i);
      var c := conns[i];
      ghost var next := AddOwned(d, Owner(users, c), c);
      var user := FindUserByPort(users, c.dport);
      if user.Some? {
        d := AddStats(d, user.value.username, c);
      }
      assert d == next;
      i := i + 1;
    }
    assert conns[..i] == conns;
  }

  // ----- the tracker object -----

  /** The tracker together with the tables and the configuration file it
      reads and writes. */
  class Tracker {
    /** `get_device_fingerprint`'s hash. */
    const digest: string -> string
    var users: seq<User>
    var audit: seq<AuditRow>
    /** The JSON configuration; an unreadable file reads as {}. */
    var config: Config
    ghost var commands: seq<Command>

    constructor (digest: string -> string, users: seq<User>, audit: seq<AuditRow>, config: Config)
      ensures this.digest == digest && this.users == users && this.audit == audit && this.config == config
      ensures commands == []
    {
      this.digest := digest;
      this.users := users;
      this.audit := audit;
      this.config := config;
      commands := [];
    }

    /** sync_config_passwords: the live passwords become the credential list
        and the tunnel is restarted; the result is whether the restart
        succeeded. */
    method SyncConfigPasswords(today: Dates.Date, restartOk: bool) returns (ok: bool)
      modifies this`config, this`commands
      ensures config == WithCredentials(old(config), CredentialList(users, today))
      ensures commands == old(commands) + [RestartTunnel]
      ensures ok == restartOk
    {
      config := WithCredentials(config, CredentialList(users, today));
      commands := commands + [RestartTunnel];
      ok := restartOk;
    }

    method GetActiveConnections(stdout: string) returns (conns: seq<Conn>)
      ensures conns == Conns(digest, stdout)
    {
      conns := ParseConnections(digest, stdout);
    }

    method DetectMultiDeviceUsage(stdout: string) returns (violations: seq<Violation>)
      ensures violations == ViolationsIntended(users, Conns(digest, stdout))
    {
      var conns := ParseConnections(digest, stdout);
      violations := FindViolations(users, conns);
    }

    /** handle_multi_device_violation: with two violations of the user already
        logged in the last hour the user is suspended, one suspension row is
        added and the credentials are synced; otherwise one violation row is
        added and nothing else changes. */
    method HandleMultiDeviceViolation(v: Violation, now: int, today: Dates.Date, restartOk: bool)
      modifies this`users, this`audit, this`config, this`commands
      ensures Suspends(old(audit), v.username, now) ==>
        users == UpdateWhereName(old(users), v.username, WithStatus(Suspended))
        && audit == old(audit) + [AuditFor(v, now, true)]
        && config == WithCredentials(old(config), CredentialList(users, today))
        && commands == old(commands) + [RestartTunnel]
    ensures !Suspends(old(audit), v.username, now) ==>
        users == old(users) && audit == old(audit) + [AuditFor(v, now, false)]
        && config == old(config) && commands == old(commands)
    {
      var count := RecentViolations(audit, v.username, now);
      if count >= 2 {
        users := UpdateWhereName(users, v.username, WithStatus(Suspended));
        audit := audit + [AuditFor(v, now, true)];
        var _ := SyncConfigPasswords(today, restartOk);
      } else {
        audit := audit + [AuditFor(v, now, false)];
      }
    }

    method GetUserConnectionStats(stdout: string) returns (stats: ODict<string, Stats>)
      ensures stats == UserStats(users, Conns(digest, stdout))
    {
      var conns := ParseConnections(digest, stdout);
      stats := CollectStats(users, conns);
    }
  }

  /** After a suspension no row of the user is live, so the synced list
      keeps a password only when another live user has it. */
  lemma SuspendedLeavesCredentials(users: seq<User>, name: string, today: Dates.Date, p: string)
    requires p in CredentialList(UpdateWhereName(users, name, WithStatus(Suspended)), today)
    ensures exists i :: (0 <= i < |users| && users[i].username != name
      && IsLive(users[i], today) && users[i].password == Some(p))
  {
    var after := UpdateWhereName(users, name, WithStatus(Suspended));
    CredentialListSpec(after, today);
    var i :| 0 <= i < |after| && IsLive(after[i], today) && after[i].password == Some(p) && p != "";
    assert users[i].username != name;
  }
}
