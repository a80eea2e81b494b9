/** The quota enforcer of bandwidth_monitor.py: every active user with a
    positive limit whose usage has reached the limit (given in GiB) is
    suspended, the suspended names are returned, and the credential list is
    synced when there is at least one; and the usage counter update with its
    `bandwidth_logs` row. */
module BandwidthMonitor {
  import opened Wrappers
  import opened Accounts
  import opened Effects
  import opened Credentials
  import Dates

  /** Bytes per unit of `bandwidth_limit`. */
  const GiB: int := 1024 * 1024 * 1024

  /** `bandwidth_limit > 0 AND status = "active"`: the rows the check looks at. */
  predicate Examined(u: User) {
    u.bandwidthLimit > 0 && u.status == Active
  }

  function LimitBytes(u: User): int {
    u.bandwidthLimit * GiB
  }

  /** `bandwidth_used or 0`. */
  function UsedBytes(u: User): int {
    u.bandwidthUsed.GetOr(0)
  }

  /** What the check does with one selected row. */
  datatype Action = Suspend | Warn | Pass

  /** `usage_percentage >= 1.0` suspends, `>= 0.8` warns, the ratio being
      compared exactly. */
  function Classify(u: User): (a: Action)
    requires Examined(u)
    ensures a == Suspend <==> UsedBytes(u) >= LimitBytes(u)
    ensures a == Warn <==> 8 * LimitBytes(u) <= 10 * UsedBytes(u) < 10 * LimitBytes(u)
  {
    var used, limit := UsedBytes(u), LimitBytes(u);
    if used >= limit then Suspend
    else if 10 * used >= 8 * limit then Warn
    else Pass
  }

  /** A row that the check suspends. */
  predicate OverLimit(u: User) {
    Examined(u) && Classify(u) == Suspend
  }

  /** The `suspended_users` list for these selected rows, in row order. */
  function OverLimitNames(users: seq<User>): seq<string> {
    NamesWhere(users, OverLimit)
  }

  /** `[u.username for u in users if p(u)]`. */
  function NamesWhere(users: seq<User>, p: User -> bool): (r: seq<string>)
    ensures |r| <= |users|
    decreases |users|
  {
    if users == [] then []
    else
      var u := users[|users| - 1];
      NamesWhere(users[..|users| - 1], p) + (if p(u) then [u.username] else [])
  }

  /** A name is returned exactly when some row with that name is over its
      limit; in particular a limit of 0 (unlimited) or a suspended row never
      contributes. */
  lemma OverLimitNamesSpec(users: seq<User>)
    ensures forall name :: name in OverLimitNames(users) <==>
      exists i :: 0 <= i < |users| && OverLimit(users[i]) && users[i].username == name
    ensures (forall i :: 0 <= i < |users| ==> !OverLimit(users[i])) <==> OverLimitNames(users) == []
  {
    NamesWhereSpec(users, OverLimit);
    if OverLimitNames(users) != [] {
      assert SomeWhere(users, OverLimit, OverLimitNames(users)[0]);
    }
    forall i | 0 <= i < |users| && OverLimit(users[i]) ensures OverLimitNames(users) != [] {
      assert SomeWhere(users, OverLimit, users[i].username);
    }
  }

  /** Some row named name satisfies p. */
  ghost predicate SomeWhere(users: seq<User>, p: User -> bool, name: string) {
    exists i :: 0 <= i < |users| && p(users[i]) && users[i].username == name
  }

  /** A name is listed exactly when some row of that name satisfies p. */
  lemma {:induction false} NamesWhereSpec(users: seq<User>, p: User -> bool)
    ensures forall name :: name in NamesWhere(users, p) <==> SomeWhere(users, p, name)
    decreases |users|
  {
    if users != [] {
      NamesWhereSpec(users[..|users| - 1], p);
      forall name ensures name in NamesWhere(users, p) <==> SomeWhere(users, p, name) {
        NamesWhereStep(users, p, name);
      }
    }
  }

  /** One more row adds its name exactly when it satisfies p. */
  lemma NamesWhereStep(users: seq<User>, p: User -> bool, name: string)
    requires users != []
    requires name in NamesWhere(users[..|users| - 1], p) <==> SomeWhere(users[..|users| - 1], p, name)
    ensures name in NamesWhere(users, p) <==> SomeWhere(users, p, name)
  {
    var init := users[..|users| - 1];
    var u := users[|users| - 1];
    var tail := if p(u) then [u.username] else [];
    assert NamesWhere(users, p) == NamesWhere(init, p) + tail;
    InConcat(NamesWhere(init, p), tail, name);
    SomeWhereSnoc(users, p, name);
  }

  /** Membership in a concatenation. */
  lemma InConcat(a: seq<string>, b: seq<string>, x: string)
    ensures x in a + b <==> x in a || x in b
  {
    if x in a + b {
      var k :| 0 <= k < |a + b| && (a + b)[k] == x;
      if k >= |a| {
        assert b[k - |a|] == x;
      }
    }
    if x in b {
      var k :| 0 <= k < |b| && b[k] == x;
      assert (a + b)[|a| + k] == x;
    }
  }

  /** A row named name satisfies p in users exactly when one does before the
      last row, or the last row does. */
  lemma SomeWhereSnoc(users: seq<User>, p: User -> bool, name: string)
    requires users != []
    ensures SomeWhere(users, p, name) <==>
      SomeWhere(users[..|users| - 1], p, name) ||
      (p(users[|users| - 1]) && users[|users| - 1].username == name)
  {
    var init := users[..|users| - 1];
    if SomeWhere(users, p, name) {
      var i :| 0 <= i < |users| && p(users[i]) && users[i].username == name;
      if i < |init| {
        assert init[i] == users[i];
      }
    }
    if SomeWhere(init, p, name) {
      var i :| 0 <= i < |init| && p(init[i]) && init[i].username == name;
      assert users[i] == init[i];
    }
  }

  /** The table after `UPDATE users SET status = "suspended" WHERE username = ?`
      for each name in names. */
  function SuspendNamed(users: seq<User>, names: seq<string>): (r: seq<User>)
    ensures |r| == |users|
    ensures forall i :: 0 <= i < |r| ==>
      r[i] == if users[i].username in names then users[i].(status := Suspended) else users[i]
  {
    seq(|users|, i requires 0 <= i < |users| =>
      if users[i].username in names then users[i].(status := Suspended) else users[i])
  }

  /** check_bandwidth_limits on a table: the rows selected up front, the
      resulting table and the returned names. */
  function CheckedTable(users: seq<User>): seq<User> {
    SuspendNamed(users, OverLimitNames(users))
  }

  /** After the check no row is over its limit, so a second check suspends
      nobody and leaves the table as it is. */
  lemma CheckIdempotent(users: seq<User>)
    ensures OverLimitNames(CheckedTable(users)) == []
    ensures CheckedTable(CheckedTable(users)) == CheckedTable(users)
  {
    var names := OverLimitNames(users);
    var after := CheckedTable(users);
    OverLimitNamesSpec(users);
    OverLimitNamesSpec(after);
    forall i | 0 <= i < |after| ensures !OverLimit(after[i]) {
      if users[i].username !in names {
        assert !OverLimit(users[i]);
      }
    }
    assert SuspendNamed(after, []) == after;
  }

  /** A row whose name nobody over the limit shares keeps its status, in
      particular a row that only reached the warning level. */
  lemma WarnKeepsStatus(users: seq<User>, i: int)
    requires 0 <= i < |users|
    requires forall j :: 0 <= j < |users| && users[j].username == users[i].username ==> !OverLimit(users[j])
    ensures CheckedTable(users)[i] == users[i]
  {
    OverLimitNamesSpec(users);
  }

  /** The boundary cases: usage exactly at the limit suspends, 85% warns. */
  lemma Boundaries(u: User)
    requires u.bandwidthLimit == 10 && u.status == Active
    ensures u.bandwidthUsed == Some(10 * GiB) ==> Classify(u) == Suspend
    ensures u.bandwidthUsed == Some(85 * GiB / 10) ==> Classify(u) == Warn
    ensures u.bandwidthUsed.None? ==> Classify(u) == Pass
  {
  }

  /** One row of `bandwidth_logs`. */
  datatype BandwidthLog = BandwidthLog(username: string, bytesUsed: int)

  /** `SET bandwidth_used = bandwidth_used + ?`. */
  function AddUsage(bytes: int): User -> User {
    (u: User) => u.(bandwidthUsed := SqlAdd(u.bandwidthUsed, bytes))
  }

  /** The selection loop of check_bandwidth_limits over the rows fetched up
      front: the table with the over-limit names suspended, and those names. */
  method SuspendOverLimit(selected: seq<User>, users: seq<User>) returns (after: seq<User>, suspended: seq<string>)
    requires forall i :: 0 <= i < |selected| ==> Examined(selected[i])
    ensures suspended == OverLimitNames(selected)
    ensures after == SuspendNamed(users, suspended)
  {
    after := users;
    suspended := [];
    var i := 0;
    while i < |selected|
      invariant 0 <= i <= |selected|
      invariant suspended == OverLimitNames(selected[..i])
      invariant after == SuspendNamed(users, suspended)
    {
      assert selected[..i + 1][..i] == selected[..i];
      var u := selected[i];
      if Classify(u) == Suspend {
        after := UpdateWhereName(after, u.username, WithStatus(Suspended));
        suspended := suspended + [u.username];
      }
      i := i + 1;
    }
    assert selected[..i] == selected;
  }

  /** `[u for u in users if bandwidth_limit > 0 and status == "active"]`. */
  function Selected(users: seq<User>): (r: seq<User>)
    ensures forall i :: 0 <= i < |r| ==> Examined(r[i])
    ensures OverLimitNames(r) == OverLimitNames(users)
    decreases |users|
  {
    if users == [] then []
    else
      var u := users[|users| - 1];
      var r := Selected(users[..|users| - 1]);
      assert OverLimitNames(r + (if Examined(u) then [u] else []))
        == OverLimitNames(r) + (if Examined(u) && OverLimit(u) then [u.username] else []) by {
        if Examined(u) { assert (r + [u])[..|r|] == r; } else { assert r + [] == r; }
      }
      r + (if Examined(u) then [u] else [])
  }

  /** The monitor with the tables and configuration file it works on. */
  class Monitor {
    var users: seq<User>
    var bandwidthLogs: seq<BandwidthLog>
    /** The JSON configuration; an unreadable file reads as {}. */
    var config: Config
    ghost var commands: seq<Command>

    constructor (users: seq<User>, bandwidthLogs: seq<BandwidthLog>, config: Config)
      ensures this.users == users && this.bandwidthLogs == bandwidthLogs && this.config == config
      ensures commands == []
    {
      this.users := users;
      this.bandwidthLogs := bandwidthLogs;
      this.config := config;
      commands := [];
    }

    /** sync_config_passwords. */
    method SyncConfigPasswords(today: Dates.Date, restartOk: bool) returns (ok: bool)
      modifies this`config, this`commands
      ensures config == WithCredentials(old(config), CredentialList(users, today))
      ensures commands == old(commands) + [RestartTunnel]
      ensures ok == restartOk
    {
      config := WithCredentials(config, CredentialList(users, today));
      commands := commands + [RestartTunnel];
      ok := restartOk;
    }

    /** check_bandwidth_limits: the over-limit names are suspended and
        returned; the credentials are synced exactly when there is one. */
    method CheckBandwidthLimits(today: Dates.Date, restartOk: bool) returns (suspended: seq<string>)
      modifies this`users, this`config, this`commands
      ensures suspended == OverLimitNames(old(users))
      ensures users == CheckedTable(old(users))
      ensures suspended != [] ==>
        config == WithCredentials(old(config), CredentialList(users, today))
        && commands == old(commands) + [RestartTunnel]
      ensures suspended == [] ==> users == old(users) && config == old(config) && commands == old(commands)
    {
      var selected := Selected(users);
      var after;
      after, suspended := SuspendOverLimit(selected, users);
      assert after == CheckedTable(users);
      if suspended != [] {
        users := after;
        var _ := SyncConfigPasswords(today, restartOk);
      } else {
        assert after == users;
      }
    }

    /** update_user_bandwidth: the usage of the named rows grows by bytesUsed
        (NULL stays NULL) and one log row is appended. */
    method UpdateUserBandwidth(username: string, bytesUsed: int)
      modifies this`users, this`bandwidthLogs
      ensures users == UpdateWhereName(old(users), username, AddUsage(bytesUsed))
      ensures bandwidthLogs == old(bandwidthLogs) + [BandwidthLog(username, bytesUsed)]
    {
      users := UpdateWhereName(users, username, AddUsage(bytesUsed));
      bandwidthLogs := bandwidthLogs + [BandwidthLog(username, bytesUsed)];
    }
  }

  /** The usage update touches only the usage of the named rows, by exactly
      the given amount; a NULL counter stays NULL. */
  lemma UpdateUsageSpec(users: seq<User>, name: string, bytes: int, i: int)
    requires 0 <= i < |users|
    ensures var r := UpdateWhereName(users, name, AddUsage(bytes))[i];
      (users[i].username == name ==>
         r == users[i].(bandwidthUsed := r.bandwidthUsed)
         && (users[i].bandwidthUsed.None? <==> r.bandwidthUsed.None?)
         && (r.bandwidthUsed.Some? ==> r.bandwidthUsed.value == users[i].bandwidthUsed.value + bytes))
      && (users[i].username != name ==> r == users[i])
  {
  }
}
