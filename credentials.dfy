/** The tunnel server's JSON configuration and the edit every
    `sync_config_passwords` makes to it before writing it back. */
module Credentials {

  datatype Json =
      JNull
    | JBool(b: bool)
    | JNum(n: int)
    | JStr(s: string)
    | JArray(items: seq<Json>)
    | JObject(fields: map<string, Json>)

  /** The top-level JSON object of the configuration file. */
  type Config = map<string, Json>

  /** `cfg.get(k)`, None being JNull. */
  function Get(cfg: Config, k: string): Json {
    if k in cfg then cfg[k] else JNull
  }

  /** Python truthiness of a JSON value (`x or default` keeps x iff this holds). */
  predicate Truthy(j: Json) {
    match j
    case JNull => false
    case JBool(b) => b
    case JNum(n) => n != 0
    case JStr(s) => s != []
    case JArray(items) => items != []
    case JObject(fields) => fields != map[]
  }

  function Strings(xs: seq<string>): (r: seq<Json>)
    ensures |r| == |xs| && forall i :: 0 <= i < |r| ==> r[i] == JStr(xs[i])
  {
    seq(|xs|, i requires 0 <= i < |xs| => JStr(xs[i]))
  }

  /** `if not isinstance(cfg.get("auth"), dict): cfg["auth"] = {}`, then
      `cfg["auth"]["mode"] = "passwords"` and `cfg["auth"]["config"] = pw`. */
  function WithCredentials(cfg: Config, pw: seq<string>): (r: Config)
    ensures r.Keys == cfg.Keys + {"auth"}
    ensures forall k :: k in cfg && k != "auth" ==> r[k] == cfg[k]
    ensures r["auth"].JObject?
    ensures "mode" in r["auth"].fields && r["auth"].fields["mode"] == JStr("passwords")
    ensures "config" in r["auth"].fields && r["auth"].fields["config"] == JArray(Strings(pw))
    ensures "auth" in cfg && cfg["auth"].JObject? ==>
      r["auth"].fields.Keys == cfg["auth"].fields.Keys + {"mode", "config"}
      && forall k :: k in cfg["auth"].fields && k != "mode" && k != "config" ==>
           r["auth"].fields[k] == cfg["auth"].fields[k]
    ensures !("auth" in cfg && cfg["auth"].JObject?) ==> r["auth"].fields.Keys == {"mode", "config"}
  {
    var auth := if "auth" in cfg && cfg["auth"].JObject? then cfg["auth"].fields else map[];
    cfg["auth" := JObject(auth["mode" := JStr("passwords")]["config" := JArray(Strings(pw))])]
  }

  /** `cfg[k] = cfg.get(k) or default`. */
  function WithDefault(cfg: Config, k: string, default: string): (r: Config)
    ensures r.Keys == cfg.Keys + {k}
    ensures forall k' :: k' in cfg && k' != k ==> r[k'] == cfg[k']
    ensures Truthy(Get(cfg, k)) ==> r[k] == cfg[k]
    ensures !Truthy(Get(cfg, k)) ==> r[k] == JStr(default)
  {
    cfg[k := if Truthy(Get(cfg, k)) then cfg[k] else JStr(default)]
  }
}
