/** Access roles of the web server (server/server.py, `Server.auth_message` and
    `Server.authenticate`).

    The last component of the request path picks a role, after a trailing "/" and a
    trailing "/websocket" are removed.  Each role is protected by the first non-empty
    password among those configured for it and the roles below it; a role without
    any password is open.  A configured password of the form "name:secret" asks for a
    user name as well. */
module Auth {
  import opened Numeric

  /** The `admin`, `expert` and `user` passwords of the server configuration. */
  datatype Config = Config(admin: string, expert: string, user: string)

  datatype Role = Benjamin | Admin | Expert | User

  function RoleName(r: Role): string
  {
    match r
    case Benjamin => "benjamin"
    case Admin => "admin"
    case Expert => "expert"
    case User => "user"
  }

  /** The suffixes removed from the path, in the order they are tried. */
  const EXTRAS: seq<string> := ["/", "/websocket"]

  predicate EndsWith(s: string, suffix: string)
  {
    |suffix| <= |s| && s[|s| - |suffix|..] == suffix
  }

  /** The path after trying to remove each of `extras` in turn. */
  function StripExtras(path: string, extras: seq<string>): (r: string)
    ensures |r| <= |path| && r == path[..|r|]
  {
    if extras == [] then path
    else
      var p := StripExtras(path, extras[..|extras| - 1]);
      var extra := extras[|extras| - 1];
      if EndsWith(p, extra) then p[..|p| - |extra|] else p
  }

  /** The role a (stripped) path asks for; the suffixes are tested in priority
      order. */
  function RoleFor(path: string): Role
  {
    if EndsWith(path, "/benjamin") then Benjamin
    else if EndsWith(path, "/admin") then Admin
    else if EndsWith(path, "/expert") then Expert
    else User
  }

  /** Python's `a or b` on strings: `a` unless it is empty. */
  function Or(a: string, b: string): (r: string)
    ensures r == "" <==> a == "" && b == ""
    ensures r == a || r == b
  {
    if a != "" then a else b
  }

  /** The password that protects a role. */
  function PasswordFor(r: Role, cfg: Config): string
  {
    match r
    case Benjamin => Or(cfg.admin, Or(cfg.expert, cfg.user))
    case Admin => Or(cfg.admin, Or(cfg.expert, cfg.user))
    case Expert => Or(cfg.expert, cfg.user)
    case User => cfg.user
  }

  function Prompt(r: Role): string
  {
    "Please identify yourself for " + RoleName(r) + " access"
  }

  /** Appending "/websocket" or "/websocket/" to a path is undone by the stripping:
      what is left is the path itself, not the path stripped again. */
  lemma WebsocketAlias(base: string)
    ensures StripExtras(base + "/websocket", EXTRAS) == base
    ensures StripExtras(base + "/websocket/", EXTRAS) == base
  {
    assert EXTRAS[..|EXTRAS| - 1] == ["/"] && ["/"][..0] == [];
    var s := base + "/websocket";
    assert !EndsWith(s, "/") by {
      assert s[|s| - 1] == 't';
    }
    assert EndsWith(s, "/websocket") by {
      assert s[|s| - 10..] == "/websocket";
    }
    assert s[..|s| - 10] == base;
    assert StripExtras(s, ["/"]) == s;
    var t := base + "/websocket/";
    assert EndsWith(t, "/") by {
      assert t[|t| - 1..] == "/";
    }
    assert t[..|t| - 1] == s;
    assert StripExtras(t, ["/"]) == s;
  }

  /** A path that ends in neither "/" nor "/websocket" asks for the same role with
      "/websocket" or "/websocket/" appended.  (For "/admin/" it does not: the alias
      strips to "/admin/", which asks for the user role.) */
  lemma WebsocketRole(base: string)
    requires !EndsWith(base, "/") && !EndsWith(base, "/websocket")
    ensures RoleFor(StripExtras(base + "/websocket", EXTRAS)) == RoleFor(StripExtras(base, EXTRAS))
    ensures RoleFor(StripExtras(base + "/websocket/", EXTRAS)) == RoleFor(StripExtras(base, EXTRAS))
  {
    WebsocketAlias(base);
    assert EXTRAS[..|EXTRAS| - 1] == ["/"] && ["/"][..0] == [];
    assert StripExtras(base, ["/"]) == base;
  }

  /** The four roles are told apart by their suffixes alone: no path ends in two of
      them, so the priority order never decides between two matches. */
  lemma {:induction false} RoleBySuffix(path: string)
    ensures RoleFor(path) == Benjamin <==> EndsWith(path, "/benjamin")
    ensures RoleFor(path) == Admin <==> EndsWith(path, "/admin")
    ensures RoleFor(path) == Expert <==> EndsWith(path, "/expert")
    ensures RoleFor(path) == User <==>
      !EndsWith(path, "/benjamin") && !EndsWith(path, "/admin") && !EndsWith(path, "/expert")
  {
    var n := |path|;
    if EndsWith(path, "/benjamin") {
      assert path[n - 6] == "/benjamin"[3];
      assert path[n - 7] == "/benjamin"[2];
    }
    if EndsWith(path, "/admin") {
      assert path[n - 1] == "/admin"[5];
    }
  }

  /** A role is open only when every password it falls back to is empty. */
  lemma OpenOnlyWithoutPasswords(r: Role, cfg: Config)
    ensures PasswordFor(r, cfg) == "" <==>
      cfg.user == "" && (r == User || cfg.expert == "") && (r in {User, Expert} || cfg.admin == "")
  {
  }

  /** With a user password set, no role is open; higher roles are never less
      protected than lower ones. */
  lemma UserPasswordProtectsAll(cfg: Config, r: Role)
    requires cfg.user != ""
    ensures PasswordFor(r, cfg) != ""
  {
    OpenOnlyWithoutPasswords(r, cfg);
  }

  /** Index of the first ':' in `s`, if there is one. */
  function FirstColon(s: string): (i: Option<nat>)
    ensures i.None? <==> ':' !in s
    ensures i.Some? ==> i.value < |s| && s[i.value] == ':' && ':' !in s[..i.value]
  {
    if s == [] then None
    else if s[0] == ':' then Some(0)
    else
      var j := FirstColon(s[1..]);
      if j.None? then None
      else
        assert s[..j.value + 1] == [s[0]] + s[1..][..j.value];
        Some(j.value + 1)
  }

  /** `authenticate`: when the password configured for the role contains ':', the
      part before the first ':' is the user name and the rest the password, and both
      must match; otherwise only the password is compared.  A key of `data` that the
      comparison needs and that is missing raises `KeyError`, which is `None` here. */
  function Authenticate(data: map<string, string>): (r: Option<bool>)
    ensures r.None? <==>
      "pwd" !in data || "password" !in data || (':' in data["pwd"] && "user" !in data)
    ensures r.Some? && ':' !in data["pwd"] ==> (r.value <==> data["password"] == data["pwd"])
  {
    if "pwd" !in data then None
    else
      var pwd := data["pwd"];
      var i := FirstColon(pwd);
      if i.Some? then
        if "user" !in data || "password" !in data then None
        else Some(data["user"] == pwd[..i.value] && data["password"] == pwd[i.value + 1..])
      else if "password" !in data then None
      else Some(data["password"] == pwd)
  }

  /** A "name:secret" password accepts exactly that name (which has no ':') with that
      secret. */
  lemma {:induction false} AuthenticateNamed(data: map<string, string>)
    requires "pwd" in data && "user" in data && "password" in data
    requires ':' in data["pwd"]
    ensures Authenticate(data) == Some(
      ':' !in data["user"] && data["pwd"] == data["user"] + ":" + data["password"])
  {
    var pwd := data["pwd"];
    var i := FirstColon(pwd).value;
    assert pwd == pwd[..i] + ":" + pwd[i + 1..];
    if ':' !in data["user"] && pwd == data["user"] + ":" + data["password"] {
      var u := data["user"];
      assert pwd[|u|] == ':';
      assert ':' !in pwd[..|u|] by {
        assert pwd[..|u|] == u;
      }
      assert pwd[i + 1..] == data["password"];
    }
  }

  /** The connection's request path and its `data` dictionary, into which
      `AuthMessage` writes the role and the password that protects it. */
  class Connection {
    const path: string
    var data: map<string, string>

    constructor (path: string, data: map<string, string>)
      ensures this.path == path && this.data == data
    {
      this.path := path;
      this.data := data;
    }
  }

  /** `auth_message`: strips the extras off the path, records the role it asks for
      and its password, and returns a prompt when that password is not empty. */
  method AuthMessage(connection: Connection, cfg: Config, isWebsocket: bool) returns (msg: Option<string>)
    modifies connection
    ensures connection.data ==
      old(connection.data)["role" := RoleName(RoleFor(StripExtras(connection.path, EXTRAS)))]
                          ["pwd" := PasswordFor(RoleFor(StripExtras(connection.path, EXTRAS)), cfg)]
    ensures msg.Some? <==> PasswordFor(RoleFor(StripExtras(connection.path, EXTRAS)), cfg) != ""
    ensures msg.Some? ==> msg.value == Prompt(RoleFor(StripExtras(connection.path, EXTRAS)))
  {
    var path := connection.path;
    for i := 0 to |EXTRAS|
      invariant path == StripExtras(connection.path, EXTRAS[..i])
    {
      assert EXTRAS[..i + 1][..i] == EXTRAS[..i];
      var extra := EXTRAS[i];
      if EndsWith(path, extra) {
        path := path[..|path| - |extra|];
      }
    }
    assert EXTRAS[..|EXTRAS|] == EXTRAS;
    var role: Role;
    var pwd: string;
    if EndsWith(path, "/benjamin") {
      role, pwd := Benjamin, Or(cfg.admin, Or(cfg.expert, cfg.user));
    } else if EndsWith(path, "/admin") {
      role, pwd := Admin, Or(cfg.admin, Or(cfg.expert, cfg.user));
    } else if EndsWith(path, "/expert") {
      role, pwd := Expert, Or(cfg.expert, cfg.user);
    } else {
      role, pwd := User, cfg.user;
    }
    connection.data := connection.data["role" := RoleName(role)];
    connection.data := connection.data["pwd" := pwd];
    msg := if pwd != "" then Some(Prompt(role)) else None;
  }
}
