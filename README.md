# ZIVPN connection tracking and enforcement, modelled in Dafny

ZIVPN runs a UDP tunnel server. Its accounts live in a SQLite `users` table, and
several Python services watch the kernel's connection table (`conntrack -L`) to do
the following:

- work out which account each flow belongs to;
- keep session and live-connection tables up to date;
- drop flows beyond an account's `concurrent_conn` limit (`conntrack -D`);
- detect one account used from several devices and suspend repeat offenders;
- suspend accounts over their bandwidth quota;
- rewrite the tunnel's `config.json` credential list and restart the tunnel (`systemctl restart`).

The same engine exists in seven drifting copies. Each copy is modelled as its own
module, with its own details: which token wins, which end of a flow is the client,
which ordering picks the flows to drop, and which status filter applies.

| module | file | form |
|---|---|---|
| `ConnectionManager` | connection_manager.py | class `Manager` over `users`, `sessions`, `live`, `lastCleanup`; pure parser and lookups |
| `TemplateConnectionManager` | templates/connection_manager.py | class `Manager` over `users`, `active`, `logs`; loops as methods |
| `ConnectionTracker` | connection_tracker.py | class `Tracker` over `users`, `audit`, `config` |
| `BandwidthMonitor` | bandwidth_monitor.py | class `Monitor` over `users`, `bandwidthLogs`, `config` |
| `ServicesConnectionManager` | services/connection_manager.py | class `Manager` over `users` |
| `AdvancedMonitor` | services/advanced_monitor.py | class `Monitor` over `users`, `sessions` |
| `WebPanel` | templates/web.py | class `Panel` over `users`, `config`; pure status, port and validation functions |

Shared modules:

- `Wrappers`: `Option`.
- `Seqs`: filter, count, take, stable sort by a key.
- `OrderedDicts`: Python's insertion-ordered `dict`.
- `Text`: `split`, `strip`, `startswith`, `int()`, `str()`, the regular expression `key([^\s]+)`, the `grep -E` port filter, and the token scan `part.split('=')[1]`.
- `Lex`: text order and `sorted(set(...))`.
- `Dates`: calendar dates, `strptime("%Y-%m-%d")`, `timedelta`, SQLite `date()`, and the text comparison `expires >= CURRENT_DATE`.
- `Accounts`: the `users` row and the queries every copy shares.
- `Credentials`: the JSON config and the `auth` rewrite.
- `Effects`: the commands issued to the host.

How the outside world is modelled:

- Each database table is a `seq` or `map` field of the class that owns it. The SQL statements become functions on those values.
- `conntrack` output is an input string. A non-zero exit code is an input too, where the code reads it.
- `conntrack -D` and `systemctl restart` are appended to a ghost `commands` log.
- Wall-clock time `now` is an integer number of seconds. The calendar day `today` is a `Dates.Date` parameter.
- MD5 and "does conntrack show traffic on this port" are function parameters.

Each loop of the source is a `method` whose `ensures` ties its result to a specification
function. The properties the source promises are proved as lemmas about those
functions.

## Model

| member | source | states |
|---|---|---|
| Text.ExtractValueSpec | connection_manager.py:135-142 | `extract_value` is None exactly when no occurrence of the key is followed by a non-space character; otherwise it is the maximal non-whitespace run after the first such occurrence |
| Text.LastValueSpec | connection_tracker.py:130-136 | the token loop's value for a key is set iff some token starts with the key, and is then the text after the key up to the next `=` in the last such token |
| Text.ScanFields | templates/connection_manager.py:88-96 | the four-way token loop leaves in each variable the last value for its key |
| Text.PyIntDec | templates/web.py:1798 | `int(str(n)) == n` for every integer, so a port written in decimal parses back to itself |
| ConnectionManager.LineFlowOrientation | connection_manager.py:91-113 | a line gives a flow iff it mentions port 5667 and has all four tokens, with 5667 at one end; when `dport` is 5667 the client is `src`/`sport`, otherwise `dst`/`dport` |
| ConnectionManager.Connections | connection_manager.py:88-89 | a non-zero exit code gives an empty connection map |
| ConnectionManager.ConnectionsSpec | connection_manager.py:88-120 | the map's keys are exactly the `client_ip:client_port` keys of parsed lines, each entry is the last line with its key, and the server port is always 5667 |
| ConnectionManager.ParseConnections | connection_manager.py:79-129 | the parsing loop computes `Connections` |
| ConnectionManager.MapConnectionToUser | connection_manager.py:144-184 | the three rules in order: first user with that port (any status); else the newest active session from the address; else the first active user on a NULL, empty or 5667 port; None iff no rule matches |
| ConnectionManager.NewestActiveFrom | connection_manager.py:161-165 | the chosen session is active, from the address, and started no earlier than any other such session |
| ConnectionManager.Upsert | connection_manager.py:215-219 | `INSERT OR REPLACE` leaves exactly one row with the id, keeps every other row, and keeps ids unique |
| ConnectionManager.CompleteId | connection_manager.py:223-229 | every row keeps its id, rows with another id are untouched, and afterwards no row with the id is active |
| ConnectionManager.CompleteIdIdempotent | connection_manager.py:223-229 | a second completion of the same id changes nothing, even at a later time (the `status = 'active'` guard) |
| ConnectionManager.AddBytes | connection_manager.py:242-246 | no column but `bytes_received` changes in any row |
| ConnectionManager.AddBytesTotal | connection_manager.py:242-246 | the table's `bytes_received` total grows by the bytes times the number of active rows with the id |
| ConnectionManager.Manager.UpdateUserSession | connection_manager.py:192-255 | `connect` inserts a session only when no active one has the id; every call upserts the live row; `disconnect` completes the session and deletes the live row; `update` with bytes > 0 adds them to the session and to `bandwidth_used`; a colliding insert rolls the call back; ids stay unique |
| ConnectionManager.ExcessSpec | connection_manager.py:279-297 | nothing is dropped within the limit; over it, `count - limit` rows are dropped (capped by the rows the user has) |
| ConnectionManager.ExcessOldest | connection_manager.py:291-297 | the dropped rows are those with the smallest `last_update` |
| ConnectionManager.EnforceTargets | connection_manager.py:268-300 | every drop targets a live row of an active, unexpired user who is over the limit |
| ConnectionManager.Manager.EnforceConnectionLimits | connection_manager.py:263-300 | the command log grows by exactly the drops of `EnforceCommands` |
| ConnectionManager.CleanupSpec | connection_manager.py:332-353 | the live rows kept are exactly those with `last_update >= now - 180`; a session changes iff it is active and some stale row has its user and address |
| ConnectionManager.Manager.CleanupStaleConnections | connection_manager.py:327-355 | live rows become the fresh rows; sessions of stale (user, address) pairs are completed; nothing else changes |
| ConnectionManager.Manager.TrackFlow | connection_manager.py:438-449 | a flow mapped to a user upserts that user's live row stamped now; an unmapped flow changes nothing; users, sessions, the cleanup stamp and the command log are untouched |
| ConnectionManager.Manager.TrackConnections | connection_manager.py:437-450 | the tracking loop leaves the live table equal to `TrackRows` over the flows in key order and touches nothing else |
| ConnectionManager.RefreshedSurvivesCleanup | connection_manager.py:437-457 | a flow attributed to a user in this tick leaves a live row refreshed at `now` that the same tick's cleanup keeps |
| ConnectionManager.Manager.MonitorStep | connection_manager.py:433-457 | one loop iteration: every attributed flow is tracked as an `update`; enforcement and cleanup run only when more than 30 s have passed since the last cleanup, which then moves to `now` |
| TemplateConnectionManager.SightingOfSpec | templates/connection_manager.py:74-120 | blank lines are skipped; an entry is emitted only when both `src=` and `dport=` occur, and the last such token of each decides the value |
| TemplateConnectionManager.SightingOf | templates/connection_manager.py:97-102 | a `bytes=` token never sets the counters: both stay 0 |
| TemplateConnectionManager.LastStampSpec | templates/connection_manager.py:105-111 | the timestamp is the last `[..]` token that parses as an integer, and None (so `now`) when none does |
| TemplateConnectionManager.GetActiveConnections | templates/connection_manager.py:64-125 | the parsing loop computes `Sightings` |
| TemplateConnectionManager.UserFromPort | templates/connection_manager.py:130-138 | port 5667 gives the first user of any status; any other port needs an exact `users.port` match |
| TemplateConnectionManager.LiveEntriesMapped | templates/connection_manager.py:221-242 | every live entry has a username and comes from an observed connection |
| TemplateConnectionManager.LiveEntriesOf | templates/connection_manager.py:229-237 | each live entry's duration is `now - connected_at` |
| TemplateConnectionManager.ExcessEntriesSpec | templates/connection_manager.py:263-277 | within the limit nothing is dropped; over it, exactly `count - limit` of the user's entries are dropped; they are the shortest-duration ones, and together with the kept ones form a permutation of the user's entries |
| Seqs.SortByStable | templates/connection_manager.py:271 | `list.sort(key=...)` is stable: for every key, the entries with that key come out in the order they went in, so ties in `duration` are dropped in table order |
| TemplateConnectionManager.ExcessEntriesOwn | templates/connection_manager.py:263 | only the user's own entries are dropped |
| TemplateConnectionManager.Manager.EnforceConnectionLimits | templates/connection_manager.py:244-277 | the command log grows by exactly the drops for active, unexpired users |
| TemplateConnectionManager.ReconcileClean | templates/connection_manager.py:149-210 | afterwards the set of `active_connections` keys equals the keys of the observed connections that carry a username, and each such row is stamped `now` |
| TemplateConnectionManager.ReconcileNewLogs | templates/connection_manager.py:174-189 | exactly one log row is appended per new key, opened at `now` |
| TemplateConnectionManager.ReconcileKeptLogs | templates/connection_manager.py:162-173 | every log row that is closed, or whose key did not vanish, is unchanged |
| TemplateConnectionManager.ReconcileClosedLogs | templates/connection_manager.py:192-204 | the open log rows of a vanished key get `disconnected_at = now` and `duration = now - connected_at` |
| TemplateConnectionManager.ReconcileTwice | templates/connection_manager.py:162-173 | a second pass with the same input adds no log rows |
| TemplateConnectionManager.ReconcileRepeatAborts | templates/connection_manager.py:162-181 | as written: for any entries in which one named endpoint (over `_`-free addresses and ports) occurs at two positions i < j, the second sighting finds its key already popped or its row already inserted, the INSERT violates UNIQUE and the whole pass rolls back, whatever comes before, between or after |
| TemplateConnectionManager.ReconcileFixedAgrees | templates/connection_manager.py:155-189 | wherever the pass as written commits, the corrected pass gives the same tables |
| TemplateConnectionManager.ReconcileFixedClean | templates/connection_manager.py:149-210 | corrected (the repeated-key row of ## Findings): for any entries over `_`-free endpoints, repeated or not, the pass commits; afterwards `active_connections` meets UNIQUE, holds exactly the named endpoints seen, each stamped `now`, and one log row was opened per endpoint not active before |
| TemplateConnectionManager.ReconcileFixedKeepsUnique | templates/connection_manager.py:53 | corrected: the pass keeps `UNIQUE(username, client_ip, server_port)` for every input |
| TemplateConnectionManager.ReconcileKeepsUnique | templates/connection_manager.py:53 | as written: whenever the pass commits, it keeps `UNIQUE(username, client_ip, server_port)` |
| TemplateConnectionManager.Manager.UpdateConnectionLogs | templates/connection_manager.py:142-214 | corrected (the repeated-key row of ## Findings): the tables become `ReconcileFixed` of the old ones; it requires and keeps the UNIQUE invariant `Valid()`, and, relying on it, over `_`-free endpoints the active rows are exactly the named endpoints seen, each stamped `now` |
| TemplateConnectionManager.BandwidthRollup | templates/connection_manager.py:300-311 | each user with active rows gains their summed `bytes_sent + bytes_recv` in `bandwidth_used` (NULL stays NULL); users without rows are unchanged |
| TemplateConnectionManager.Manager.UpdateUserBandwidth | templates/connection_manager.py:295-313 | `users` becomes the rolled-up table |
| TemplateConnectionManager.Manager.MonitorRound | templates/connection_manager.py:360-370 | one loop iteration, keeping `Valid()`: the tables become the corrected reconciliation of the first conntrack reading, the command log grows by the drops for the second reading, and `users` is rolled up over the new active table |
| ConnectionTracker.DeviceIdSeparates | connection_tracker.py:105-108 | for an injective digest, two fingerprints are equal iff the (ip, port) pairs are |
| ConnectionTracker.MissingPortIsUnknown | connection_tracker.py:143 | a missing `sport` is fingerprinted as `unknown` |
| ConnectionTracker.ConnOfSpec | connection_tracker.py:120-144 | a line yields a connection only with both `src=` and `dport=`, the last token of each deciding, and never without one of them |
| ConnectionTracker.ParseConnections | connection_tracker.py:110-150 | the parsing loop computes `Conns` |
| ConnectionTracker.FindUserByPort | connection_tracker.py:156-165 | only a user with exactly that port and status `active` is returned, the first such one; None iff there is none |
| ConnectionTracker.UserDevicesSpec | connection_tracker.py:182-191 | a user has a device set iff some connection maps to them, and it is the set of fingerprints of those connections |
| ConnectionTracker.ViolationsFromSpec | connection_tracker.py:194-204 | a violation is emitted for a user iff `\|devices\| > max_allowed`, with the user's devices and count |
| ConnectionTracker.ViolationsAsWrittenSpec | connection_tracker.py:195-196 | as written, `max_allowed` for every user comes from the first observed connection's port, or 3 |
| ConnectionTracker.ViolationsIntendedSpec | connection_tracker.py:182-204 | corrected: a user violates iff their device count exceeds their own `concurrent_conn` |
| ConnectionTracker.SingleOwnerAgrees | connection_tracker.py:195-196 | when every connection belongs to one user, the two limits agree |
| ConnectionTracker.FirstPortLimitMisses | connection_tracker.py:195-196 | bob's connection is seen first, so alice's 2 devices are checked against bob's limit 5, not her own 1 |
| ConnectionTracker.Tracker.DetectMultiDeviceUsage | connection_tracker.py:173-207 | the corrected violation list |
| ConnectionTracker.Tracker.HandleMultiDeviceViolation | connection_tracker.py:215-267 | with 2 or more violation rows in the last hour: suspend, append one `auto_suspend_multi_device` row and sync; otherwise append one `multi_device_violation` row and change nothing else |
| ConnectionTracker.ThirdViolationSuspends | connection_tracker.py:223-229 | starting clean, the third violation within an hour is the one that suspends |
| ConnectionTracker.RecentViolationsLater | connection_tracker.py:223-227 | the one-hour count never grows as time passes |
| ConnectionTracker.Tracker.SyncConfigPasswords | connection_tracker.py:69-99 | the config's `auth` gets mode `passwords` and the credential list; one restart is issued; the result is the restart's success |
| ConnectionTracker.SuspendedLeavesCredentials | connection_tracker.py:229-249 | after suspending a user, every remaining credential belongs to another live account |
| ConnectionTracker.UserStatsSpec | connection_tracker.py:279-293 | per user: the device set and the number of connections mapped to them |
| ConnectionTracker.DevicesCountBound | connection_tracker.py:296-298 | `devices_count <= connections` |
| ConnectionTracker.Tracker.GetUserConnectionStats | connection_tracker.py:274-301 | the stats loop computes `UserStats` |
| Accounts.CredentialListSpec | connection_tracker.py:73-80 | the list is strictly sorted, holds exactly the non-empty passwords of active, unexpired users, and is the only such list |
| Accounts.UnexpiredIso | connection_tracker.py:76 | on well-formed dates `expires >= CURRENT_DATE` in text order is `expires` not before today |
| Credentials.WithCredentials | connection_tracker.py:83-87 | `auth` becomes an object with mode `passwords` and the list, keeping its other fields when it was already an object; other keys are unchanged |
| BandwidthMonitor.Classify | bandwidth_monitor.py:118-138 | suspend iff `used >= limit * 1024^3`; warn iff `0.8 * limit_bytes <= used < limit_bytes`; NULL usage counts as 0 |
| BandwidthMonitor.Selected | bandwidth_monitor.py:108-112 | only active users with `bandwidth_limit > 0` are examined |
| BandwidthMonitor.OverLimitNamesSpec | bandwidth_monitor.py:116-133 | a name is returned iff an examined user with it is over the limit |
| BandwidthMonitor.Boundaries | bandwidth_monitor.py:122-138 | with a 10 GiB limit, 10 GiB suspends, 8.5 GiB warns, NULL passes |
| BandwidthMonitor.WarnKeepsStatus | bandwidth_monitor.py:137-138 | a user under the limit keeps their row |
| BandwidthMonitor.CheckIdempotent | bandwidth_monitor.py:111 | a second check suspends no one and leaves the table as it was |
| BandwidthMonitor.SuspendOverLimit | bandwidth_monitor.py:116-133 | the loop suspends exactly the returned names |
| BandwidthMonitor.Monitor.CheckBandwidthLimits | bandwidth_monitor.py:103-146 | the returned list is exactly the users suspended in this call; sync and restart happen iff it is non-empty |
| BandwidthMonitor.Monitor.UpdateUserBandwidth | bandwidth_monitor.py:173-189 | `bandwidth_used` gains the bytes and one `bandwidth_logs` row is appended |
| BandwidthMonitor.UpdateUsageSpec | bandwidth_monitor.py:177-181 | only the named users change, only in `bandwidth_used`, and NULL stays NULL |
| ServicesConnectionManager.FlowOfSpec | services/connection_manager.py:50-62 | a line yields a flow only when it contains `src=` and `dport=`, the last token of each deciding |
| ServicesConnectionManager.FlowsOfSpec | services/connection_manager.py:48-67 | every parsed line's `src_ip:dport` key is present, and every entry comes from some parsed line |
| ServicesConnectionManager.KeySeparates | services/connection_manager.py:63 | for addresses without `:`, two flows share a key iff they share address and port |
| ServicesConnectionManager.Manager.GetActiveConnections | services/connection_manager.py:40-70 | the parsing loop computes `Flows` |
| ServicesConnectionManager.UserByPort | services/connection_manager.py:75-83 | port 5667 gives the first user; any other port needs an exact `users.port` match |
| ServicesConnectionManager.GroupByPortSpec | services/connection_manager.py:92-97 | a group exists for exactly the ports seen, and holds that port's flows in order |
| ServicesConnectionManager.GroupsPartition | services/connection_manager.py:92-97 | every flow is in exactly its own port's group |
| ServicesConnectionManager.PortDropsSpec | services/connection_manager.py:100-114 | unmapped groups and groups within the limit drop nothing; a group over the limit drops exactly `n - limit` flows, the first ones in group order |
| ServicesConnectionManager.DropsOverSound | services/connection_manager.py:100-114 | every drop belongs to a mapped group over its limit |
| ServicesConnectionManager.Manager.EnforceConnectionLimits | services/connection_manager.py:87-114 | the command log grows by exactly the drops |
| ServicesConnectionManager.PortCountsSpec | services/connection_manager.py:138-142 | each port's counter is the number of flows on it |
| ServicesConnectionManager.PortCountsTotal | services/connection_manager.py:131-142 | the per-port counters sum to the number of flows |
| ServicesConnectionManager.Manager.GetConnectionStats | services/connection_manager.py:127-144 | `total_connections` is the connection count and equals the sum of the per-port counts |
| AdvancedMonitor.DetailOfSpec | services/advanced_monitor.py:51-69 | a line yields an entry only when it contains `src=` and `dport=`, the last token of each deciding |
| AdvancedMonitor.DetailsOfSpec | services/advanced_monitor.py:49-77 | every parsed line's `src_ip:dport` key is present, and every entry comes from some parsed line |
| AdvancedMonitor.Monitor.GetDetailedConnections | services/advanced_monitor.py:41-80 | the parsing loop computes `Details` |
| AdvancedMonitor.MapPortToUser | services/advanced_monitor.py:85-93 | a matching user's name (any user for 5667), otherwise `unknown_<port>` |
| AdvancedMonitor.OwnerTests | services/advanced_monitor.py:108-109 | the corrected owner test agrees with the source's whenever the source accepts, and whenever the name does not start with `unknown` |
| AdvancedMonitor.UnknownPrefixMissed | services/advanced_monitor.py:109 | an account literally named `unknown_fan` is never marked online by the prefix test |
| AdvancedMonitor.RowAfterSpec | services/advanced_monitor.py:104-120 | corrected (the owner test of ## Findings): after the pass a user is online iff some connection maps to them; `total_connections` grows by that number; `last_ip` and `last_login` come from the last such connection; nothing else changes |
| AdvancedMonitor.OnlineTableSpec | services/advanced_monitor.py:104-120 | corrected (the owner test of ## Findings): `is_online = 1` exactly for the users mapped from some current connection, and the connection count grows accordingly |
| AdvancedMonitor.UpdateUsers | services/advanced_monitor.py:104-120 | corrected (the owner test of ## Findings): the reset-then-mark loop computes `OnlineTable` |
| AdvancedMonitor.SessionsAfterSpec | services/advanced_monitor.py:123-127 | corrected (the owner test of ## Findings): the session row of each mapped `conn_key` is upserted active at `now`; every other row is unchanged |
| AdvancedMonitor.Monitor.UpdateOnlineStatus | services/advanced_monitor.py:97-129 | corrected (the owner test of ## Findings): users and sessions become the online table and the upserted sessions |
| AdvancedMonitor.ExpireSpec | services/advanced_monitor.py:142-146 | no active session is older than 10 minutes; newer rows are unchanged; only `is_active` changes; cleanup is idempotent |
| AdvancedMonitor.FreshSessionsSurvive | services/advanced_monitor.py:123-146 | a session refreshed in this pass survives the cleanup active |
| AdvancedMonitor.Monitor.CleanupOldSessions | services/advanced_monitor.py:137-147 | sessions become the expired map |
| WebPanel.ServerLoad | templates/web.py:1610 | `min(100, 5 * active + 10)`: between 10 and 100, and 100 exactly from 18 active users on |
| WebPanel.ServerStatsOf | templates/web.py:1603-1617 | total users, active (live) users no more than total, load within bounds, summed bandwidth |
| WebPanel.ColonDigitsSpec | templates/web.py:1624 | `:(\d+)$` matches iff a `:` is followed by digits to the end, and yields those digits |
| WebPanel.ListenPort | templates/web.py:1621-1625 | the result is `5667` or a non-empty digit string |
| WebPanel.ListenPortReadsBack | templates/web.py:1621-1625 | `listen = "host:port"` yields `port` |
| WebPanel.StatusWith | templates/web.py:1640-1656 | "suspended" iff suspended; else "Expired" iff the expiry parses and is before today; else "Online" iff the port shows activity; else "Offline"; a malformed expiry is never "Expired" |
| WebPanel.CheckPort | templates/web.py:1637-1638 | corrected: a NULL or empty port checks the listen port; otherwise the user's port |
| WebPanel.StatusForUser | templates/web.py:1636-1656 | corrected (the port choice of ## Findings): "suspended" iff suspended; else "Expired" iff the expiry parses and is before today; else "Online" iff the probed port shows activity, else "Offline"; the probed port is the listen port when the user's port is NULL or empty, and the user's port otherwise |
| WebPanel.NullPortProbesNone | templates/web.py:1637-1638 | as written, a NULL port is probed as the string `None`, so an active default-port user shows "Offline" |
| WebPanel.CheckPortsAgree | templates/web.py:1637-1638 | for non-NULL ports both port choices agree |
| WebPanel.SyncedConfigSpec | templates/web.py:1658-1676 | `auth` has mode `passwords` and the sorted live credentials; `listen`, `cert`, `key`, `obfs` are kept when set and non-empty, and filled with defaults otherwise; other keys are unchanged |
| WebPanel.WithDefaultsSpec | templates/web.py:1673-1676 | the four defaults are filled only when missing or falsy |
| WebPanel.SyncIdempotent | templates/web.py:1658-1676 | syncing twice is syncing once |
| WebPanel.SyncedListenPort | templates/web.py:1673 | after a sync the listen port is the configured one, or 5667 |
| WebPanel.Panel.SyncConfigPasswords | templates/web.py:1658-1679 | the config becomes the synced config and one restart is issued |
| WebPanel.FormInt | templates/web.py:1782-1784 | an empty number field takes the default |
| WebPanel.ValidateAdd | templates/web.py:1778-1802 | accepted iff the numbers parse, the remark is non-empty, the expiry is empty or a valid date, and the port is empty or a number in 6000..19999; each rejection names its cause |
| WebPanel.PortRange | templates/web.py:1796-1802 | a decimal port is accepted iff it lies in 6000..19999 |
| WebPanel.AddedUserIsSynced | templates/web.py:1804-1806 | a new account with a non-past expiry is in the synced credentials |
| WebPanel.AddedWithoutExpiryNotLive | templates/web.py:1780 | a new account saved with an empty expiry is not live |
| WebPanel.Panel.AddUser | templates/web.py:1774-1806 | a rejected form changes nothing; an accepted one appends the row and syncs |
| WebPanel.ExtendBase | templates/web.py:1926-1930 | no expiry extends from today |
| WebPanel.ExtendedExpirySpec | templates/web.py:1926-1930 | the new expiry reads back as base + days, and is later than the base for positive days |
| WebPanel.ExtendUser | templates/web.py:1925-1937 | NotFound iff no row has the name; otherwise the first row (`fetchone`) decides: Failed iff its expiry cannot be extended (strptime fails or the date leaves the calendar), else Extended with exactly its base + days, written to every row with the name; a failed or unknown call leaves the table untouched |
| WebPanel.Panel.ExtendExpiry | templates/web.py:1917-1937 | the table and outcome of `ExtendUser` with 30 days by default |
| WebPanel.BulkStatusSpec | templates/web.py:1873-1878 | bulk suspend or activate changes only the listed users, and only their status |
| WebPanel.BulkExtendSpec | templates/web.py:1870-1872 | bulk extend adds 7 days to each listed user, and only to them |
| WebPanel.BulkExtendClears | templates/web.py:1872 | an expiry that is not `YYYY-MM-DD` text becomes NULL, which never expires |
| WebPanel.BulkDeleteSpec | templates/web.py:1879-1881 | bulk delete removes exactly the listed users |
| WebPanel.BulkApply | templates/web.py:1870-1881 | the loop computes `BulkTable` |
| WebPanel.Panel.BulkOperations | templates/web.py:1860-1885 | the table becomes `BulkTable` and the config is synced |
| WebPanel.Panel.SetStatus | templates/web.py:1889-1915 | an empty user name changes nothing; otherwise the status is set and the config synced |
| Dates.ParseIsoRoundTrip | templates/web.py:1646 | `strptime` reads back every date written as `YYYY-MM-DD` |
| Dates.IsoOrder | templates/web.py:1663 | text order of `YYYY-MM-DD` strings is date order |
| Dates.AddDaysMoves | templates/web.py:1928 | adding positive days moves a date later, negative days earlier |

## Left out

- Real time: `datetime.now()` (local) and SQLite `datetime('now')`/`CURRENT_DATE` (UTC) are both the `now`/`today` parameters; the zone difference is not modelled.
- ConnectionManager.RefreshedSurvivesCleanup: assumes local time is at most 3 minutes ahead of UTC. The source stamps `last_update` with UTC `datetime('now')` (connection_manager.py:218). It builds the cutoff from local `datetime.now() - 3 minutes` (:332) and compares the two as text. In a zone more than 3 minutes east of UTC, a row refreshed in this very tick is already stale, and the same tick's cleanup deletes it and completes its sessions.
- TemplateConnectionManager.ReconcileClosedLogs: `duration = now - connected_at` takes both in one clock. In the source, `connected_at` is the UTC column default (templates/connection_manager.py:49) and `now` is local `datetime.now()` (:146); they are subtracted at :194-195, so the stored duration is off by the zone offset.
- Subprocesses: `conntrack -L` is an input string; `conntrack -D` and `systemctl restart` are ghost log entries; their timeouts and exceptions are not modelled, except where a restart's exit status is returned (parameter `restartOk`).
- Exit codes: only connection_manager.py reads conntrack's exit code; the other copies are modelled on stdout alone, as they are written.
- The fixed conntrack column layout behind `awk '{print $7,$8}'` in services/connection_manager.py:44 is modelled as field selection on blank-separated fields.
- MD5 (RFC 1321) is a parameter; only its determinism and, where assumed, injectivity are used.
- `has_recent_udp_activity` (templates/web.py:1627-1634) is a parameter `active`; the empty-port guard is modelled.
- Threads, locks and the `while ... sleep` loops: one iteration at most (`MonitorStep`, `MonitorRound`); `tracker_loop`, `monitor_loop` of bandwidth_monitor.py and `start`/`stop` are not modelled.
- `get_real_time_bandwidth` (bandwidth_monitor.py:154-171) only counts lines for a log message.
- `get_live_connections_stats`, `get_user_connection_history`, `debug_current_state` of connection_manager.py, `cleanup_old_connections` and `get_connection_stats` of templates/connection_manager.py, and `get_connection_stats` of services/advanced_monitor.py: read-only reporting or hourly log pruning outside the engine.
- `get_user_connection_info` (connection_tracker.py:345-348) is a dictionary lookup on `GetUserConnectionStats`.
- SQLite errors and rollbacks: each method either completes or, where the source's own constraints force it (a repeated key in templates/connection_manager.py as written, a colliding session id in connection_manager.py), is rolled back. Other database failures are not modelled.
- In `add_user`, an `int()` that fails on a number field raises before any check (an HTTP 500 in the source); the model reports it as the rejection `BadNumber`. A failure inside `save_user` is not modelled.
- SQLite type affinity: ports are compared as text, and integers as Python integers (no 64-bit limit).
- Floating point: the bandwidth ratio is compared exactly in integers (`10 * used >= 8 * limit_bytes`), so float rounding of very large counters is not modelled.
- Session duration (`Complete`): it is `now - start_time` in whole seconds. The source computes `CAST((julianday('now') - julianday(start_time)) * 86400 AS INTEGER)` (connection_manager.py:226 and :347), a floating-point difference truncated toward zero, which can come out one second short.
- `GROUP BY` order in templates/connection_manager.py:300-304 and `list(set(...))` order in connection_tracker.py:203: order-free results are modelled as sets or order-independent updates.
- `read_json` and `write_json_atomic`: an unreadable config is the empty map; the file write is the new `config` field.
- `str()` of a non-string `listen` value in templates/web.py:1623: any non-string value yields the fallback port.
- Unicode digits: `\d` in templates/web.py:1624, Text.PyInt and Dates.ParseIso accept only the ASCII digits 0-9. Python's `int()` (form fields, ports, conntrack stamps) and `strptime`'s `%Y`/`%m`/`%d` also accept other Unicode decimal digits, so `int("\u0667\u0660\u0660\u0660") == 7000`. Those inputs are read here as failures.
- The `email_remark` and `speed_limit` columns are validated but not stored in `User`; schema defaults of a new row are taken as 0 and NULL.
- `delete_user` (templates/web.py:1593-1601) also deletes billing and bandwidth log rows, which are not part of this model.
- AdvancedMonitor.Monitor.UpdateOnlineStatus, AdvancedMonitor.Monitor.CleanupOldSessions, AdvancedMonitor.SessionsAfter and AdvancedMonitor.Expire: these assume a `user_sessions` table with the columns `client_ip`, `last_activity` and `is_active`, keyed by `session_id` for `INSERT OR REPLACE`. services/advanced_monitor.py does not create that table, and the only `user_sessions` schema in the repository (connection_manager.py:42-54) has none of those columns. Under that schema the `INSERT` at services/advanced_monitor.py:123-127 raises as soon as one connection is matched to a user; the exception is caught at :132, before the commit at :129, so the pass commits nothing, not even the `is_online = 0` reset. Also under that schema, `cleanup_old_sessions` (:143-146) raises into its caller. The model describes the passes as if the columns existed.
- Flask routing, login, sessions, the HTML template, templates/api.py, telegram/bot.py and analytics.py are not part of this model.
- TemplateConnectionManager.StampOf: takes every integer `int()` reads from a `[...]` token. In the source, `datetime.fromtimestamp` raises for a value outside its platform range, such as `[99999999999999]`. The bare `except: pass` at templates/connection_manager.py:107-110 swallows that, and the earlier stamp (or now) is kept; the model uses the value instead.
- `updated_at = CURRENT_TIMESTAMP`, written next to `bandwidth_used` by bandwidth_monitor.py:179 and templates/connection_manager.py:309, is not a `User` column here. BandwidthMonitor.Monitor.UpdateUserBandwidth and TemplateConnectionManager.Manager.UpdateUserBandwidth leave it out.
- ConnectionManager.Excess: breaks ties in `last_update` in table order, as a stable sort does. SQLite leaves the order of tied rows under `ORDER BY last_update ASC LIMIT ?` (connection_manager.py:291-297) unspecified.
- SqliteDate: reads only the date-only form `YYYY-MM-DD` (year 0001-9999); SQLite's `date()` also reads `YYYY-MM-DD HH:MM[:SS]`, the `T` separator, Julian day numbers and year 0000, which are read here as NULL. The writers of `expires` in this core store only date-only text, `''` or NULL.
- BulkExtendSpec: states the bulk extend only for duplicate-free name lists; a name listed twice is extended twice.
- bandwidth_monitor.py multiplies `bandwidth_limit` by 1024^3, so the limit is in GiB, not bytes.
- bandwidth_monitor.py appends no `bandwidth` violation row when it suspends a user.
- Dates are calendar triples with their ISO text, not day numbers, because `expires` is a TEXT column compared in text order.

## Findings

| source | as written | input that shows it | evidently intended | confidence | as-written member | corrected member |
|---|---|---|---|---|---|---|
| templates/web.py:1637-1638 | `str(u.get("port",""))` turns a NULL port into the string `None`, so activity is probed on port `None` | user alice, status active, port NULL, traffic on the listen port 5667: shown "Offline" | a user without a port is checked on the listen port | medium, not executed | WebPanel.NullPortProbesNone | WebPanel.StatusForUser |
| connection_tracker.py:195-196 | `max_allowed` for every user comes from the first observed connection's port | bob (limit 5, port 7000) seen first, alice (limit 1, port 6000) with 2 devices: no violation for alice | each user is checked against their own `concurrent_conn` | high, not executed | ConnectionTracker.ViolationsAsWrittenSpec | ConnectionTracker.ViolationsIntendedSpec |
| services/advanced_monitor.py:109 | `not username.startswith('unknown')` also skips real accounts whose name starts with `unknown` | account `unknown_fan` on port 7000 with a connection: never marked online | only the `unknown_<port>` fallback is skipped | low, not executed | AdvancedMonitor.UnknownPrefixMissed | AdvancedMonitor.Owner |
| templates/connection_manager.py:162-181 | a key sighted twice in one pass is popped from `existing_conns` or inserted on its first sighting, so the second sighting INSERTs again, violates `UNIQUE(username, client_ip, server_port)`, skips the commit, and the whole tick's reconciliation is lost | alice on port 7000; two clients 198.51.100.7 and 198.51.100.8 both send from source port 7000 to the server 203.0.113.5. Each `conntrack -L` line ends with the reply tuple `src=203.0.113.5 dst=<client> sport=5667 dport=7000`, and the parser keeps the last `src=` and `dport=`. So both lines give client_ip 203.0.113.5 and server_port 7000, both map to alice, and both sightings have the key `alice_203.0.113.5_7000`. No row is updated, inserted or closed in that tick | a repeated sighting refreshes the row it already has | medium, not executed | TemplateConnectionManager.ReconcileRepeatAborts | TemplateConnectionManager.ReconcileFixedClean |
