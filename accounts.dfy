/** The `users` table the engine reads and updates, the SQL predicates the
    modules share over it, and the credential list pushed to the tunnel server.
    The table is a sequence in row order, which is the order in which SQLite
    hands rows to `fetchone()` and `fetchall()` for these queries. */
module Accounts {
  import opened Wrappers
  import opened Seqs
  import Lex
  import Dates

  const Active: string := "active"
  const Suspended: string := "suspended"
  /** The tunnel server's own UDP port. */
  const DefaultPort: string := "5667"

  /** One row of `users`; None is SQL NULL. `expires` is the stored text,
      normally an ISO date. */
  datatype User = User(
    username: string,
    password: Option<string>,
    status: string,
    expires: Option<string>,
    port: Option<string>,
    concurrentConn: int,
    bandwidthLimit: int,
    bandwidthUsed: Option<int>,
    isOnline: bool,
    totalConnections: int,
    lastLogin: Option<int>,
    lastIp: Option<string>)

  /** `expires IS NULL OR expires >= CURRENT_DATE`: a text comparison against
      today's ISO date. */
  predicate Unexpired(expires: Option<string>, today: Dates.Date) {
    expires.None? || !Lex.Less(expires.value, Dates.Iso(today))
  }

  /** `status = "active" AND (expires IS NULL OR expires >= CURRENT_DATE)`. */
  predicate IsLive(u: User, today: Dates.Date) {
    u.status == Active && Unexpired(u.expires, today)
  }

  /** For an expiry stored as an ISO date the SQL filter keeps the user exactly
      up to and including the expiry day. */
  lemma UnexpiredIso(d: Dates.Date, today: Dates.Date)
    requires Dates.Valid(d) && Dates.Valid(today)
    ensures Unexpired(Some(Dates.Iso(d)), today) <==> !Dates.Before(d, today)
  {
    Dates.IsoOrder(d, today);
  }

  /** `bandwidth_used + x` in SQL, where NULL absorbs the addition. */
  function SqlAdd(a: Option<int>, x: int): (r: Option<int>)
    ensures r.None? <==> a.None?
    ensures r.Some? ==> r.value - a.value == x
  {
    match a
    case None => None
    case Some(v) => Some(v + x)
  }

  /** The index of the row `fetchone()` returns for a WHERE clause p. */
  function FirstIndex(users: seq<User>, p: User -> bool): (r: Option<nat>)
    ensures r.Some? ==>
      r.value < |users| && p(users[r.value]) && forall j :: 0 <= j < r.value ==> !p(users[j])
    ensures r.None? <==> forall j :: 0 <= j < |users| ==> !p(users[j])
    decreases |users|
  {
    if users == [] then None
    else if p(users[0]) then Some(0)
    else
      match FirstIndex(users[1..], p)
      case None => None
      case Some(i) => Some(i + 1)
  }

  /** The columns `username, concurrent_conn` a port lookup selects. */
  datatype UserInfo = UserInfo(username: string, concurrentConn: int)

  /** `port = ? OR ? = "5667"`. */
  function PortOrDefault(port: string): User -> bool {
    (u: User) => u.port == Some(port) || port == DefaultPort
  }

  /** users[i] is the first row whose port is exactly port. */
  ghost predicate FirstWithPort(users: seq<User>, port: string, i: int)
    requires 0 <= i < |users|
  {
    users[i].port == Some(port) && forall k :: 0 <= k < i ==> users[k].port != Some(port)
  }

  /** `UPDATE users SET ... WHERE username = name`: f applied to the rows with
      that name, every other row unchanged. */
  function UpdateWhereName(users: seq<User>, name: string, f: User -> User): (r: seq<User>)
    ensures |r| == |users|
    ensures forall i :: 0 <= i < |r| ==>
      r[i] == if users[i].username == name then f(users[i]) else users[i]
  {
    seq(|users|, i requires 0 <= i < |users| => if users[i].username == name then f(users[i]) else users[i])
  }

  function WithStatus(s: string): User -> User {
    (u: User) => u.(status := s)
  }

  /** The passwords that `SELECT password FROM users WHERE status = "active" AND
      password IS NOT NULL AND password != "" AND (expires IS NULL OR expires >=
      CURRENT_DATE)` returns, in row order. */
  function LivePasswords(users: seq<User>, today: Dates.Date): (r: seq<string>)
    decreases |users|
  {
    if users == [] then []
    else
      var u := users[|users| - 1];
      LivePasswords(users[..|users| - 1], today)
        + (if IsLive(u, today) && u.password.Some? && u.password.value != "" then [u.password.value] else [])
  }

  predicate HasLivePassword(users: seq<User>, today: Dates.Date, p: string) {
    exists i :: 0 <= i < |users| && IsLive(users[i], today) && users[i].password == Some(p) && p != ""
  }

  lemma {:induction false} LivePasswordsSpec(users: seq<User>, today: Dates.Date)
    ensures forall p :: p in LivePasswords(users, today) <==> HasLivePassword(users, today, p)
    decreases |users|
  {
    if users != [] {
      var init := users[..|users| - 1];
      LivePasswordsSpec(init, today);
      forall p ensures p in LivePasswords(users, today) <==> HasLivePassword(users, today, p) {
        if HasLivePassword(users, today, p) {
          var i :| 0 <= i < |users| && IsLive(users[i], today) && users[i].password == Some(p) && p != "";
          if i < |init| { assert init[i] == users[i]; }
        }
        if HasLivePassword(init, today, p) {
          var i :| 0 <= i < |init| && IsLive(init[i], today) && init[i].password == Some(p) && p != "";
          assert users[i] == init[i];
        }
      }
    }
  }

  /** `sorted({str(u["password"]) for u in active_users})`. */
  function CredentialList(users: seq<User>, today: Dates.Date): seq<string> {
    Lex.SortedSet(LivePasswords(users, today))
  }

  /** The credential list is ascending, duplicate-free, and holds exactly the
      non-empty passwords of live users; it is the only list with these
      properties. */
  lemma CredentialListSpec(users: seq<User>, today: Dates.Date)
    ensures Lex.StrictlySorted(CredentialList(users, today))
    ensures forall p :: p in CredentialList(users, today) <==> HasLivePassword(users, today, p)
    ensures forall other: seq<string> ::
      Lex.StrictlySorted(other) && (forall p :: p in other <==> HasLivePassword(users, today, p))
      ==> other == CredentialList(users, today)
  {
    LivePasswordsSpec(users, today);
    var r := CredentialList(users, today);
    assert forall p :: p in r <==> p in Lex.Elems(r);
    forall other: seq<string> |
      Lex.StrictlySorted(other) && (forall p :: p in other <==> HasLivePassword(users, today, p))
      ensures other == r
    {
      assert Lex.Elems(other) == Lex.Elems(r);
      Lex.SortedUnique(other, r);
    }
  }

  /** Number of live users (`SELECT COUNT(*) FROM users WHERE status = "active"
      AND (expires IS NULL OR expires >= CURRENT_DATE)`). */
  function LiveCount(users: seq<User>, today: Dates.Date): (n: nat)
    ensures n <= |users|
  {
    Count(users, u => IsLive(u, today))
  }
}
