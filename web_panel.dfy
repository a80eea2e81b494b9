/** The account logic of the web panel in templates/web.py: the listen port
    read from the configuration, the status shown for each user, the
    configuration rewrite of `sync_config_passwords`, the validation of a new
    account, extending an expiry, the bulk operations and the server-load
    figure. */
module WebPanel {
  import opened Wrappers
  import opened Text
  import opened Seqs
  import opened Accounts
  import opened Effects
  import opened Credentials
  import Dates
  import Lex

  /** `LISTEN_FALLBACK`. */
  const ListenFallback: string := "5667"
  const DefaultListen: string := ":5667"
  const DefaultCert: string := "/etc/zivpn/zivpn.crt"
  const DefaultKey: string := "/etc/zivpn/zivpn.key"
  const DefaultObfs: string := "zivpn"

  /** The port range `add_user` accepts. */
  const MinPort: int := 6000
  const MaxPort: int := 19999

  /** Days added by a bulk `extend`, and by the extend call when it names none. */
  const BulkExtendDays: int := 7
  const DefaultExtendDays: int := 30

  // ----- get_server_stats -----

  /** `min(100, active_users * 5 + 10)`. */
  function ServerLoad(activeUsers: nat): (load: int)
    ensures 10 <= load <= 100
    ensures load == 100 <==> activeUsers >= 18
    ensures activeUsers < 18 ==> load == 5 * activeUsers + 10
  {
    var x := activeUsers * 5 + 10;
    if x < 100 then x else 100
  }

  /** `SELECT SUM(bandwidth_used) FROM users` followed by `or 0`: NULL
      counters are skipped, and no counter at all gives 0. */
  function TotalBandwidth(users: seq<User>): (total: int)
    ensures (forall i :: 0 <= i < |users| ==> users[i].bandwidthUsed.None?) ==> total == 0
    decreases |users|
  {
    if users == [] then 0
    else TotalBandwidth(users[..|users| - 1]) + users[|users| - 1].bandwidthUsed.GetOr(0)
  }

  datatype ServerStats = ServerStats(totalUsers: nat, activeUsers: nat, totalBandwidth: int, serverLoad: int)

  /** get_server_stats, the gigabyte text of the total left as the byte
      count. */
  function ServerStatsOf(users: seq<User>, today: Dates.Date): (s: ServerStats)
    ensures s.totalUsers == |users| && s.activeUsers == LiveCount(users, today)
    ensures s.activeUsers <= s.totalUsers
    ensures 10 <= s.serverLoad <= 100
    ensures s.totalBandwidth == TotalBandwidth(users)
  {
    var active := LiveCount(users, today);
    ServerStats(|users|, active, TotalBandwidth(users), ServerLoad(active))
  }

  // ----- get_listen_port_from_config -----

  /** The longest run of ASCII digits at the end of t. */
  function DigitSuffix(t: string): (d: string)
    ensures AllDigits(d) && |d| <= |t| && d == t[|t| - |d|..]
    ensures |d| < |t| ==> !IsDigit(t[|t| - |d| - 1])
    decreases |t|
  {
    if t != [] && IsDigit(t[|t| - 1]) then DigitSuffix(t[..|t| - 1]) + [t[|t| - 1]] else []
  }

  /** A digit run reaching the end of t is inside the longest one. */
  lemma {:induction false} DigitSuffixCovers(t: string, k: nat)
    requires k <= |t| && AllDigits(t[k..])
    ensures |DigitSuffix(t)| >= |t| - k
    decreases |t|
  {
    if k < |t| {
      assert IsDigit(t[k..][|t| - 1 - k]);
      assert t[..|t| - 1][k..] == t[k..][..|t| - 1 - k];
      DigitSuffixCovers(t[..|t| - 1], k);
    }
  }

  /** Group 1 of `re.search(r":(\d+)$", t)`. */
  function ColonDigits(t: string): Option<string> {
    var d := DigitSuffix(t);
    if d != [] && |d| < |t| && t[|t| - |d| - 1] == ':' then Some(d) else None
  }

  /** The search matches exactly when t ends in ':' and one or more digits,
      and then yields those digits. */
  lemma ColonDigitsSpec(t: string)
    ensures forall i :: 0 <= i < |t| - 1 && t[i] == ':' && AllDigits(t[i + 1..]) ==> ColonDigits(t) == Some(t[i + 1..])
    ensures ColonDigits(t).Some? ==> exists i :: 0 <= i < |t| - 1 && t[i] == ':' && t[i + 1..] == ColonDigits(t).value
  {
    forall i | 0 <= i < |t| - 1 && t[i] == ':' && AllDigits(t[i + 1..])
      ensures ColonDigits(t) == Some(t[i + 1..])
    {
      var d := DigitSuffix(t);
      DigitSuffixCovers(t, i + 1);
    }
    if ColonDigits(t).Some? {
      var i := |t| - |DigitSuffix(t)| - 1;
      assert t[i + 1..] == ColonDigits(t).value;
    }
  }

  /** get_listen_port_from_config: the digits after a trailing ':' of the
      stripped `listen` value, otherwise "5667". `str()` of a value that is
      not a JSON string never ends in ':' and digits, so only strings
      matter. */
  function ListenPort(cfg: Config): (port: string)
    ensures port == ListenFallback || (port != [] && AllDigits(port))
  {
    match Get(cfg, "listen")
    case JStr(s) => ColonDigits(Strip(s)).GetOr(ListenFallback)
    case _ => ListenFallback
  }

  /** The port written as `host:port` reads back. */
  lemma ListenPortReadsBack(cfg: Config, host: string, port: string)
    requires port != [] && AllDigits(port)
    requires Get(cfg, "listen") == JStr(host + ":" + port) && Strip(host + ":" + port) == host + ":" + port
    ensures ListenPort(cfg) == port
  {
    var t := host + ":" + port;
    ColonDigitsSpec(t);
    assert t[|host|] == ':' && t[|host| + 1..] == port;
  }

  // ----- status_for_user -----

  /** `has_recent_udp_activity(port)`: False for an empty port; otherwise
      whether the conntrack listing shows a flow to that port, the listing's
      answer being the parameter `active`. */
  predicate HasRecentUdpActivity(active: string -> bool, port: string) {
    port != "" && active(port)
  }

  /** The expiry test: a non-empty expiry that strptime reads as a date before
      today. An expiry strptime cannot read counts as not expired. */
  predicate ExpiredOn(expires: Option<string>, today: Dates.Date) {
    expires.Some? && expires.value != "" && Dates.ParseIso(expires.value).Some?
    && Dates.Before(Dates.ParseIso(expires.value).value, today)
  }

  /** The decision of status_for_user once the port to probe is known:
      suspension wins over expiry, expiry over activity. */
  function StatusWith(u: User, checkPort: string, today: Dates.Date, active: string -> bool): (r: string)
    ensures r == "suspended" <==> u.status == Suspended
    ensures r == "Expired" <==> u.status != Suspended && ExpiredOn(u.expires, today)
    ensures r == "Online" <==> (u.status != Suspended && !ExpiredOn(u.expires, today)
      && HasRecentUdpActivity(active, checkPort))
    ensures r == "Offline" <==> (u.status != Suspended && !ExpiredOn(u.expires, today)
      && !HasRecentUdpActivity(active, checkPort))
    ensures u.expires.Some? && Dates.ParseIso(u.expires.value).None? ==> r != "Expired"
  {
    if u.status == Suspended then "suspended"
    else if ExpiredOn(u.expires, today) then "Expired"
    else if HasRecentUdpActivity(active, checkPort) then "Online"
    else "Offline"
  }

  /** `str(u.get("port", ""))` and then `port if port else listen_port`, as
      written: a NULL port is the text "None", which is probed instead of the
      listen port. */
  function CheckPortAsWritten(u: User, listenPort: string): string {
    var port := match u.port case None => "None" case Some(p) => p;
    if port != "" then port else listenPort
  }

  function StatusForUserAsWritten(u: User, listenPort: string, today: Dates.Date, active: string -> bool): string {
    StatusWith(u, CheckPortAsWritten(u, listenPort), today, active)
  }

  /** The port to probe: the user's own port, or the listen port when the
      user has none (NULL or empty). */
  function CheckPort(u: User, listenPort: string): (r: string)
    ensures (u.port.None? || u.port == Some("")) ==> r == listenPort
    ensures u.port.Some? && u.port.value != "" ==> r == u.port.value
  {
    match u.port
    case Some(p) => if p != "" then p else listenPort
    case None => listenPort
  }

  /** status_for_user with a NULL port probing the listen port: suspension
      first, then expiry, then activity on the user's own port, or on the
      listen port when the user has none. */
  function StatusForUser(u: User, listenPort: string, today: Dates.Date, active: string -> bool): (r: string)
    ensures r == "suspended" <==> u.status == Suspended
    ensures r == "Expired" <==> u.status != Suspended && ExpiredOn(u.expires, today)
    ensures r == "Online" <==> (u.status != Suspended && !ExpiredOn(u.expires, today)
      && HasRecentUdpActivity(active, if u.port.None? || u.port == Some("") then listenPort else u.port.value))
    ensures r == "Offline" <==> (u.status != Suspended && !ExpiredOn(u.expires, today)
      && !HasRecentUdpActivity(active, if u.port.None? || u.port == Some("") then listenPort else u.port.value))
  {
    StatusWith(u, CheckPort(u, listenPort), today, active)
  }

  /** Activity seen on exactly one port. */
  function OnlyPort(port: string): string -> bool {
    (p: string) => p == port
  }

  /** An active user without an expiry and with a NULL port, while the listen
      port shows traffic: the code as written probes "None" and reports
      Offline; probing the listen port reports Online. */
  lemma NullPortProbesNone(today: Dates.Date)
    ensures var u := User("alice", Some("pw"), Active, None, None, 1, 0, Some(0), false, 0, None, None);
      StatusForUserAsWritten(u, ListenFallback, today, OnlyPort(ListenFallback)) == "Offline"
      && StatusForUser(u, ListenFallback, today, OnlyPort(ListenFallback)) == "Online"
  {
  }

  /** The two probes differ only for a NULL port. */
  lemma CheckPortsAgree(u: User, listenPort: string)
    requires u.port.Some?
    ensures CheckPortAsWritten(u, listenPort) == CheckPort(u, listenPort)
  {
  }

  // ----- sync_config_passwords -----

  /** A key among `listen`, `cert`, `key` and `obfs` and its default. */
  predicate Defaulted(k: string, default: string) {
    (k == "listen" && default == DefaultListen) || (k == "cert" && default == DefaultCert)
    || (k == "key" && default == DefaultKey) || (k == "obfs" && default == DefaultObfs)
  }

  /** `cfg["listen"] = cfg.get("listen") or ":5667"` and the same for `cert`,
      `key` and `obfs`. */
  function WithDefaults(c: Config): Config {
    WithDefault(WithDefault(WithDefault(WithDefault(c, "listen", DefaultListen), "cert", DefaultCert), "key", DefaultKey), "obfs", DefaultObfs)
  }

  /** Each of the four keys keeps a truthy value and is defaulted otherwise;
      every other key is untouched. */
  lemma WithDefaultsSpec(c: Config)
    ensures WithDefaults(c).Keys == c.Keys + {"listen", "cert", "key", "obfs"}
    ensures forall k :: k in c && k != "listen" && k != "cert" && k != "key" && k != "obfs" ==> WithDefaults(c)[k] == c[k]
    ensures forall k, d :: Defaulted(k, d) ==> WithDefaults(c)[k] == if Truthy(Get(c, k)) then c[k] else JStr(d)
  {
    var c1 := WithDefault(c, "listen", DefaultListen);
    var c2 := WithDefault(c1, "cert", DefaultCert);
    var c3 := WithDefault(c2, "key", DefaultKey);
    var c4 := WithDefault(c3, "obfs", DefaultObfs);
    assert Get(c3, "obfs") == Get(c, "obfs");
    assert Get(c2, "key") == Get(c, "key");
    assert Get(c1, "cert") == Get(c, "cert");
  }

  /** The configuration sync_config_passwords writes: the credentials of
      the live users, then the four defaults. */
  function SyncedConfig(cfg: Config, users: seq<User>, today: Dates.Date): Config {
    WithDefaults(WithCredentials(cfg, CredentialList(users, today)))
  }

  /** What the sync keeps and what it fills in. */
  lemma SyncedConfigSpec(cfg: Config, users: seq<User>, today: Dates.Date)
    ensures var r := SyncedConfig(cfg, users, today);
      r.Keys == cfg.Keys + {"auth", "listen", "cert", "key", "obfs"}
      && (forall k :: k in cfg && k != "auth" && k != "listen" && k != "cert" && k != "key" && k != "obfs" ==> r[k] == cfg[k])
      && r["auth"].JObject? && "mode" in r["auth"].fields && r["auth"].fields["mode"] == JStr("passwords")
      && "config" in r["auth"].fields && r["auth"].fields["config"] == JArray(Strings(CredentialList(users, today)))
      && (forall k, d :: Defaulted(k, d) && Truthy(Get(cfg, k)) ==> r[k] == cfg[k])
      && (forall k, d :: Defaulted(k, d) && !Truthy(Get(cfg, k)) ==> r[k] == JStr(d))
  {
    var pw := CredentialList(users, today);
    SyncedKeys(cfg, pw);
    SyncedAuth(cfg, pw);
    SyncedDefaults(cfg, pw);
  }

  lemma SyncedKeys(cfg: Config, pw: seq<string>)
    ensures var r := WithDefaults(WithCredentials(cfg, pw));
      r.Keys == cfg.Keys + {"auth", "listen", "cert", "key", "obfs"}
      && (forall k :: k in cfg && k != "auth" && k != "listen" && k != "cert" && k != "key" && k != "obfs" ==> r[k] == cfg[k])
  {
    WithDefaultsSpec(WithCredentials(cfg, pw));
  }

  lemma SyncedAuth(cfg: Config, pw: seq<string>)
    ensures var r := WithDefaults(WithCredentials(cfg, pw));
      "auth" in r && r["auth"] == WithCredentials(cfg, pw)["auth"]
  {
    var c := WithCredentials(cfg, pw);
    WithDefaultsSpec(c);
    assert "auth" in c;
  }

  lemma SyncedDefaults(cfg: Config, pw: seq<string>)
    ensures var r := WithDefaults(WithCredentials(cfg, pw));
      (forall k, d :: Defaulted(k, d) && Truthy(Get(cfg, k)) ==> r[k] == cfg[k])
      && (forall k, d :: Defaulted(k, d) && !Truthy(Get(cfg, k)) ==> r[k] == JStr(d))
  {
    var c := WithCredentials(cfg, pw);
    WithDefaultsSpec(c);
    forall k, d | Defaulted(k, d) ensures Get(c, k) == Get(cfg, k) {
      assert k != "auth";
    }
  }

  /** Writing the credentials a configuration already holds changes
      nothing. */
  lemma WithCredentialsFixed(c: Config, pw: seq<string>)
    requires "auth" in c && c["auth"].JObject?
    requires "mode" in c["auth"].fields && c["auth"].fields["mode"] == JStr("passwords")
    requires "config" in c["auth"].fields && c["auth"].fields["config"] == JArray(Strings(pw))
    ensures WithCredentials(c, pw) == c
  {
    var f := c["auth"].fields;
    assert f["mode" := JStr("passwords")]["config" := JArray(Strings(pw))] == f;
  }

  /** Defaulting keys that already hold truthy values changes nothing. */
  lemma WithDefaultsFixed(c: Config)
    requires Truthy(Get(c, "listen")) && Truthy(Get(c, "cert")) && Truthy(Get(c, "key")) && Truthy(Get(c, "obfs"))
    ensures WithDefaults(c) == c
  {
    var c1 := WithDefault(c, "listen", DefaultListen);
    var c2 := WithDefault(c1, "cert", DefaultCert);
    var c3 := WithDefault(c2, "key", DefaultKey);
    assert c1 == c;
    assert c2 == c;
    assert c3 == c;
  }

  /** Syncing twice against the same table writes what syncing once wrote. */
  lemma SyncIdempotent(cfg: Config, users: seq<User>, today: Dates.Date)
    ensures SyncedConfig(SyncedConfig(cfg, users, today), users, today) == SyncedConfig(cfg, users, today)
  {
    var pw := CredentialList(users, today);
    var c := WithCredentials(cfg, pw);
    var r := WithDefaults(c);
    WithDefaultsSpec(c);
    assert r["auth"] == c["auth"];
    WithCredentialsFixed(r, pw);
    assert Defaulted("listen", DefaultListen) && Defaulted("cert", DefaultCert);
    assert Defaulted("key", DefaultKey) && Defaulted("obfs", DefaultObfs);
    WithDefaultsFixed(r);
  }

  /** After a sync the listen port is the configured one, or "5667" when the
      configuration had no usable `listen`. */
  lemma SyncedListenPort(cfg: Config, users: seq<User>, today: Dates.Date)
    ensures ListenPort(SyncedConfig(cfg, users, today)) ==
      if Truthy(Get(cfg, "listen")) then ListenPort(cfg) else ListenFallback
  {
    var c := WithCredentials(cfg, CredentialList(users, today));
    var r := WithDefaults(c);
    WithDefaultsSpec(c);
    assert Get(c, "listen") == Get(cfg, "listen");
    assert Defaulted("listen", DefaultListen);
    if Truthy(Get(cfg, "listen")) {
      assert Get(r, "listen") == Get(cfg, "listen");
    } else {
      DefaultListenPort(r);
    }
  }

  /** The default `listen` value ":5667" reads as port 5667. */
  lemma DefaultListenPort(cfg: Config)
    requires Get(cfg, "listen") == JStr(DefaultListen)
    ensures ListenPort(cfg) == ListenFallback
  {
    assert DefaultListen == "" + ":" + "5667";
    assert Strip("" + ":" + "5667") == "" + ":" + "5667";
    ListenPortReadsBack(cfg, "", "5667");
  }

  // ----- add_user -----

  /** The submitted form, a missing field being "". */
  datatype Form = Form(emailRemark: string, expires: string, port: string,
                       bandwidthLimit: string, speedLimit: string, concurrentConn: string)

  /** The fields of an account that passed validation. */
  datatype NewUser = NewUser(emailRemark: string, expires: string, port: string,
                             bandwidthLimit: int, speedLimit: int, concurrentConn: int)

  /** Why add_user refuses: a number field `int()` cannot read (an unhandled
      ValueError), then the three messages in the order they are checked. */
  datatype AddError = BadNumber | RemarkRequired | InvalidExpiry | InvalidPort

  datatype AddResult = Accepted(user: NewUser) | Rejected(error: AddError)

  /** `int(field or default)`. */
  function FormInt(field: string, default: int): (r: Option<int>)
    ensures field == "" ==> r == Some(default)
  {
    if field == "" then Some(default) else PyInt(field)
  }

  /** The port check: empty, or an integer from 6000 to 19999. */
  predicate PortAcceptable(port: string) {
    port == "" || (PyInt(port).Some? && MinPort <= PyInt(port).value <= MaxPort)
  }

  /** The expiry check: empty, or a date strptime reads. */
  predicate ExpiryAcceptable(expires: string) {
    expires == "" || Dates.ParseIso(expires).Some?
  }

  /** add_user's validation of the stripped fields. */
  function ValidateAdd(f: Form): (r: AddResult)
    ensures r.Accepted? <==> (FormInt(f.bandwidthLimit, 0).Some? && FormInt(f.speedLimit, 0).Some?
      && FormInt(f.concurrentConn, 1).Some? && Strip(f.emailRemark) != ""
      && ExpiryAcceptable(Strip(f.expires)) && PortAcceptable(Strip(f.port)))
    ensures r.Accepted? ==> (r.user.emailRemark == Strip(f.emailRemark) && r.user.expires == Strip(f.expires)
      && r.user.port == Strip(f.port) && r.user.bandwidthLimit == FormInt(f.bandwidthLimit, 0).value
      && r.user.concurrentConn == FormInt(f.concurrentConn, 1).value)
    ensures r == Rejected(RemarkRequired) ==> Strip(f.emailRemark) == ""
    ensures r == Rejected(InvalidExpiry) ==> !ExpiryAcceptable(Strip(f.expires))
    ensures r == Rejected(InvalidPort) ==> !PortAcceptable(Strip(f.port))
  {
    var bw, sp, cc := FormInt(f.bandwidthLimit, 0), FormInt(f.speedLimit, 0), FormInt(f.concurrentConn, 1);
    var remark, expires, port := Strip(f.emailRemark), Strip(f.expires), Strip(f.port);
    if bw.None? || sp.None? || cc.None? then Rejected(BadNumber)
    else if remark == "" then Rejected(RemarkRequired)
    else if expires != "" && Dates.ParseIso(expires).None? then Rejected(InvalidExpiry)
    else if port != "" && (PyInt(port).None? || !(MinPort <= PyInt(port).value <= MaxPort)) then Rejected(InvalidPort)
    else Accepted(NewUser(remark, expires, port, bw.value, sp.value, cc.value))
  }

  /** Every port from 6000 to 19999, written in decimal, passes the port
      check, and no other integer does. */
  lemma PortRange(n: int)
    ensures PortAcceptable(Dec(n)) <==> MinPort <= n <= MaxPort
  {
    PyIntDec(n);
  }

  /** The row create_user_with_uuid inserts: the generated name, the UUID as
      password, status active, the expiry and port as submitted (an empty
      field is stored as ""), and the columns the insert leaves out at 0 or
      NULL. */
  function NewRow(nu: NewUser, username: string, uuid: string): User {
    User(username, Some(uuid), Active, Some(nu.expires), Some(nu.port), nu.concurrentConn,
         nu.bandwidthLimit, Some(0), false, 0, None, None)
  }

  /** An account added with an ISO expiry that is not before today has its
      UUID in the credential list of the sync that follows. */
  lemma AddedUserIsSynced(users: seq<User>, nu: NewUser, username: string, uuid: string, d: Dates.Date, today: Dates.Date)
    requires Dates.Valid(d) && Dates.Valid(today) && nu.expires == Dates.Iso(d) && !Dates.Before(d, today)
    requires uuid != ""
    ensures uuid in CredentialList(users + [NewRow(nu, username, uuid)], today)
  {
    var t := users + [NewRow(nu, username, uuid)];
    UnexpiredIso(d, today);
    CredentialListSpec(t, today);
    assert IsLive(t[|users|], today) && t[|users|].password == Some(uuid);
  }

  /** An account added without an expiry is stored with the expiry "", which
      the SQL test `expires >= CURRENT_DATE` rejects: its UUID is not synced
      unless another live row has the same password. */
  lemma AddedWithoutExpiryNotLive(nu: NewUser, username: string, uuid: string, today: Dates.Date)
    requires nu.expires == ""
    ensures !IsLive(NewRow(nu, username, uuid), today)
  {
    assert |Dates.Iso(today)| == 10;
    assert Lex.Less("", Dates.Iso(today));
  }

  // ----- api_extend_user -----

  /** What the extend call answers: the new expiry, 404, or a failure
      (strptime rejecting the stored expiry, or a date out of range). */
  datatype ExtendOutcome = Extended(expiry: string) | NotFound | Failed

  function HasName(name: string): User -> bool {
    (u: User) => u.username == name
  }

  function WithExpiry(e: string): User -> User {
    (u: User) => u.(expires := Some(e))
  }

  /** The date an expiry is extended from: the stored one when there is one,
      today otherwise; None where strptime raises. */
  function ExtendBase(expires: Option<string>, today: Dates.Date): (r: Option<Dates.Date>)
    requires Dates.Valid(today)
    ensures r.Some? ==> Dates.Valid(r.value)
    ensures (expires.None? || expires == Some("")) ==> r == Some(today)
  {
    if expires.Some? && expires.value != "" then Dates.ParseIso(expires.value) else Some(today)
  }

  /** The new expiry text: base + days, in ISO form. */
  function ExtendedExpiry(expires: Option<string>, days: int, today: Dates.Date): Option<string>
    requires Dates.Valid(today)
  {
    match ExtendBase(expires, today)
    case None => None
    case Some(b) =>
      match Dates.AddDays(b, days)
      case None => None
      case Some(e) => Some(Dates.Iso(e))
  }

  /** The stored expiry reads back as the base moved by days, which for a
      positive number of days is later than the base. */
  lemma ExtendedExpirySpec(expires: Option<string>, days: int, today: Dates.Date)
    requires Dates.Valid(today) && ExtendedExpiry(expires, days, today).Some?
    ensures var b := ExtendBase(expires, today).value;
      Dates.ParseIso(ExtendedExpiry(expires, days, today).value) == Dates.AddDays(b, days)
      && (days > 0 ==> Dates.Before(b, Dates.ParseIso(ExtendedExpiry(expires, days, today).value).value))
  {
    var b := ExtendBase(expires, today).value;
    Dates.ParseIsoRoundTrip(Dates.AddDays(b, days).value);
    Dates.AddDaysMoves(b, days);
  }

  /** Row i is the first row with the name, the one `fetchone()` returns. */
  predicate FirstNamed(users: seq<User>, name: string, i: nat) {
    i < |users| && users[i].username == name && forall j :: 0 <= j < i ==> users[j].username != name
  }

  /** FirstIndex finds exactly that row. */
  lemma FirstNamedIndex(users: seq<User>, name: string)
    ensures forall i: nat :: FirstNamed(users, name, i) ==> FirstIndex(users, HasName(name)) == Some(i)
  {
    forall i: nat | FirstNamed(users, name, i) ensures FirstIndex(users, HasName(name)) == Some(i) {
      assert HasName(name)(users[i]);
      var k := FirstIndex(users, HasName(name)).value;
      assert users[k].username == name;
    }
  }

  /** api_extend_user on a table: the first row with the name (`fetchone`)
      decides the new expiry, which is then written to every row with the
      name; the call fails only when that row's expiry cannot be extended. */
  function ExtendUser(users: seq<User>, name: string, days: int, today: Dates.Date): (r: (ExtendOutcome, seq<User>))
    requires Dates.Valid(today)
    ensures r.0 == NotFound <==> forall i :: 0 <= i < |users| ==> users[i].username != name
    ensures r.0.Extended? ==> exists i :: (0 <= i < |users| && users[i].username == name
      && Some(r.0.expiry) == ExtendedExpiry(users[i].expires, days, today))
    ensures r.0.Extended? ==> r.1 == UpdateWhereName(users, name, WithExpiry(r.0.expiry))
    ensures !r.0.Extended? ==> r.1 == users
    ensures forall i: nat :: FirstNamed(users, name, i) ==>
      (r.0 == Failed <==> ExtendedExpiry(users[i].expires, days, today).None?)
      && (r.0.Extended? ==> Some(r.0.expiry) == ExtendedExpiry(users[i].expires, days, today))
  {
    FirstNamedIndex(users, name);
    match FirstIndex(users, HasName(name))
    case None => (NotFound, users)
    case Some(i) =>
      match ExtendedExpiry(users[i].expires, days, today)
      case None => (Failed, users)
      case Some(e) => (Extended(e), UpdateWhereName(users, name, WithExpiry(e)))
  }

  // ----- bulk_operations -----

  /** The `action` of a bulk request; anything else updates nothing. */
  datatype BulkAction = ExtendAll | SuspendAll | ActivateAll | DeleteAll | OtherAction

  /** `UPDATE users SET expires = date(expires, "+7 days")`: SQLite's date()
      gives NULL for NULL and for text it cannot read. */
  function PlusWeek(): User -> User {
    (u: User) => u.(expires := match u.expires case None => None case Some(s) => Dates.SqliteDatePlus(s, BulkExtendDays))
  }

  function NotNamed(name: string): User -> bool {
    (u: User) => u.username != name
  }

  /** delete_user: every row with the name removed. */
  function DeleteNamed(users: seq<User>, name: string): (r: seq<User>)
    ensures forall i :: 0 <= i < |r| ==> r[i] in users && r[i].username != name
  {
    Filter(users, NotNamed(name))
  }

  /** The statement one listed name runs. */
  function BulkStep(users: seq<User>, action: BulkAction, name: string): seq<User> {
    match action
    case ExtendAll => UpdateWhereName(users, name, PlusWeek())
    case SuspendAll => UpdateWhereName(users, name, WithStatus(Suspended))
    case ActivateAll => UpdateWhereName(users, name, WithStatus(Active))
    case DeleteAll => DeleteNamed(users, name)
    case OtherAction => users
  }

  /** The table after the statements for every listed name, in order. */
  function BulkTable(users: seq<User>, action: BulkAction, names: seq<string>): seq<User>
    decreases |names|
  {
    if names == [] then users
    else BulkStep(BulkTable(users, action, names[..|names| - 1]), action, names[|names| - 1])
  }

  /** A bulk suspend or activate sets the status of exactly the listed users
      and changes nothing else. */
  lemma {:induction false} BulkStatusSpec(users: seq<User>, action: BulkAction, names: seq<string>)
    requires action == SuspendAll || action == ActivateAll
    ensures var s := if action == SuspendAll then Suspended else Active;
      var r := BulkTable(users, action, names);
      |r| == |users| && forall i :: 0 <= i < |r| ==>
        r[i] == if users[i].username in names then users[i].(status := s) else users[i]
    decreases |names|
  {
    if names != [] {
      BulkStatusSpec(users, action, names[..|names| - 1]);
      assert forall x :: x in names <==> x in names[..|names| - 1] || x == names[|names| - 1];
    }
  }

  /** A bulk delete keeps exactly the rows whose name is not listed, in
      order. */
  lemma {:induction false} BulkDeleteSpec(users: seq<User>, names: seq<string>)
    ensures BulkTable(users, DeleteAll, names) == Filter(users, (u: User) => u.username !in names)
    decreases |names|
  {
    if names == [] {
      FilterAll(users, (u: User) => u.username !in names);
    } else {
      var init := names[..|names| - 1];
      var last := names[|names| - 1];
      BulkDeleteSpec(users, init);
      assert forall x :: x in names <==> x in init || x == last;
      FilterFilter(users, (u: User) => u.username !in init, NotNamed(last), (u: User) => u.username !in names);
    }
  }

  /** With every name listed once, a bulk extend adds seven days to the
      expiry of exactly the listed users, through SQLite's date(). */
  lemma {:induction false} BulkExtendSpec(users: seq<User>, names: seq<string>)
    requires forall i, j :: 0 <= i < j < |names| ==> names[i] != names[j]
    ensures var r := BulkTable(users, ExtendAll, names);
      |r| == |users| && forall i :: 0 <= i < |r| ==>
        r[i] == if users[i].username in names then PlusWeek()(users[i]) else users[i]
    decreases |names|
  {
    if names != [] {
      var init := names[..|names| - 1];
      BulkExtendSpec(users, init);
      assert forall x :: x in names <==> x in init || x == names[|names| - 1];
      assert names[|names| - 1] !in init;
    }
  }

  /** A bulk extend of an expiry that is not `YYYY-MM-DD` text (with a month
      01-12 and a day 01-31) clears it, and the user then never expires. */
  lemma BulkExtendClears(u: User, today: Dates.Date)
    requires u.expires.Some? && Dates.SqliteDate(u.expires.value).None?
    ensures PlusWeek()(u).expires.None? && Unexpired(PlusWeek()(u).expires, today)
  {
  }

  /** The loop of bulk_operations. */
  method BulkApply(users: seq<User>, action: BulkAction, names: seq<string>) returns (after: seq<User>)
    ensures after == BulkTable(users, action, names)
  {
    after := users;
    var i := 0;
    while i < |names|
      invariant 0 <= i <= |names|
      invariant after == BulkTable(users, action, names[..i])
    {
      assert names[..i + 1][..i] == names[..i];
      after := BulkStep(after, action, names[i]);
      i := i + 1;
    }
    assert names[..i] == names;
  }

  // ----- the panel -----

  /** The panel with the users table and the configuration file. */
  class Panel {
    var users: seq<User>
    /** The JSON configuration; an unreadable file reads as {}. */
    var config: Config
    ghost var commands: seq<Command>

    constructor (users: seq<User>, config: Config)
      ensures this.users == users && this.config == config && commands == []
    {
      this.users := users;
      this.config := config;
      commands := [];
    }

    /** sync_config_passwords: the configuration is rewritten and the tunnel
        restarted. */
    method SyncConfigPasswords(today: Dates.Date)
      modifies this`config, this`commands
      ensures config == SyncedConfig(old(config), old(users), today)
      ensures commands == old(commands) + [RestartTunnel]
    {
      config := SyncedConfig(config, users, today);
      commands := commands + [RestartTunnel];
    }

    /** add_user: an accepted form adds one row and syncs; a rejected one
        changes nothing. */
    method AddUser(f: Form, username: string, uuid: string, today: Dates.Date) returns (r: AddResult)
      modifies this
      ensures r == ValidateAdd(f)
      ensures r.Accepted? ==> (users == old(users) + [NewRow(r.user, username, uuid)]
        && config == SyncedConfig(old(config), users, today) && commands == old(commands) + [RestartTunnel])
      ensures r.Rejected? ==> users == old(users) && config == old(config) && commands == old(commands)
    {
      r := ValidateAdd(f);
      if r.Accepted? {
        users := users + [NewRow(r.user, username, uuid)];
        SyncConfigPasswords(today);
      }
    }

    /** api_extend_user; it does not sync the configuration. */
    method ExtendExpiry(name: string, days: Option<int>, today: Dates.Date) returns (r: ExtendOutcome)
      requires Dates.Valid(today)
      modifies this`users
      ensures (r, users) == ExtendUser(old(users), name, days.GetOr(DefaultExtendDays), today)
    {
      var out := ExtendUser(users, name, days.GetOr(DefaultExtendDays), today);
      r, users := out.0, out.1;
    }

    /** bulk_operations: the statements for the listed names, then a sync,
        whatever the action. */
    method BulkOperations(action: BulkAction, names: seq<string>, today: Dates.Date)
      modifies this
      ensures users == BulkTable(old(users), action, names)
      ensures config == SyncedConfig(old(config), users, today)
      ensures commands == old(commands) + [RestartTunnel]
    {
      users := BulkApply(users, action, names);
      SyncConfigPasswords(today);
    }

    /** The suspend and activate routes: an empty name changes nothing;
        otherwise the rows with the name take the status and the panel
        syncs. */
    method SetStatus(name: string, status: string, today: Dates.Date)
      modifies this
      ensures name == "" ==> users == old(users) && config == old(config) && commands == old(commands)
      ensures name != "" ==> (users == UpdateWhereName(old(users), name, WithStatus(status))
        && config == SyncedConfig(old(config), users, today) && commands == old(commands) + [RestartTunnel])
    {
      if name != "" {
        users := UpdateWhereName(users, name, WithStatus(status));
        SyncConfigPasswords(today);
      }
    }

    method GetServerStats(today: Dates.Date) returns (s: ServerStats)
      ensures s == ServerStatsOf(users, today)
    {
      s := ServerStatsOf(users, today);
    }
  }
}
