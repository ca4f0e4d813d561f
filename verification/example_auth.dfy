/**
 * The reference authentication backend (`example-backend-auth.py`): the
 * same checks as the external backend, answering with a pair of flags and
 * no user record, over a table without roles and without the streamer
 * account.
 */
module ExampleAuth {
  import opened AuthReply
  import ExternalAuth

  /** One row of `USERS`; an empty `ips` list admits every address. */
  datatype User = User(password: string, permissions: seq<string>, ips: seq<string>)

  /** `USERS`. */
  const Users: map<string, User> := map[
    "admin" := User("admin123", ["read", "publish", "api", "metrics", "playback"], []),
    "viewer" := User("viewer123", ["read", "playback"], []),
    "guest" := User("guest123", ["read"], [])
  ]

  /** `(is_authenticated, has_permission)`. */
  datatype Decision = Decision(isAuthenticated: bool, hasPermission: bool)

  /**
   * `authenticate_user`: the user must exist, the password must match and
   * the address must be allowed, in that order, before the action is looked
   * up among the user's permissions. `path` takes no part.
   */
  function AuthenticateUser(users: map<string, User>, username: string, password: string,
                            ip: string, action: string, path: string): (d: Decision)
    ensures d.isAuthenticated <==>
      username in users && users[username].password == password
      && (users[username].ips == [] || ip in users[username].ips)
    ensures d.hasPermission <==> d.isAuthenticated && action in users[username].permissions
  {
    if username !in users then Decision(false, false)
    else
      var user := users[username];
      if user.password != password then Decision(false, false)
      else if user.ips != [] && ip !in user.ips then Decision(false, false)
      else if action !in user.permissions then Decision(true, false)
      else Decision(true, true)
  }

  /** A row of the external backend's table without its role. */
  function FromExternal(u: ExternalAuth.User): User {
    User(u.password, u.permissions, u.ips)
  }

  function TableFromExternal(users: map<string, ExternalAuth.User>): (r: map<string, User>)
    ensures r.Keys == users.Keys
    ensures forall name :: name in users ==> r[name] == FromExternal(users[name])
  {
    map name | name in users :: FromExternal(users[name])
  }

  /**
   * Over the same table both backends take the same decision; the external
   * one also hands back the user's record when it authenticates.
   */
  lemma AgreesWithExternal(users: map<string, ExternalAuth.User>, username: string, password: string,
                           ip: string, action: string, path: string)
    ensures var d := AuthenticateUser(TableFromExternal(users), username, password, ip, action, path);
      var x := ExternalAuth.AuthenticateUser(users, username, password, ip, action, path);
      d.isAuthenticated == x.isAuthenticated && d.hasPermission == x.hasPermission
  {
  }

  /** This table is the external backend's without the streamer account. */
  lemma TableIsExternalWithoutStreamer()
    ensures Users == TableFromExternal(ExternalAuth.Users - {"streamer"})
  {
    var t := TableFromExternal(ExternalAuth.Users - {"streamer"});
    assert t.Keys == {"admin", "viewer", "guest"};
  }

  /** `mediamtx_auth`: read the form, decide, and answer. */
  function MediamtxAuth(form: Form): (r: Reply)
    ensures r.status == 401 <==>
      !(FormGet(form, "user") in Users && Users[FormGet(form, "user")].password == FormGet(form, "pass"))
    ensures r.status == 200 <==>
      && FormGet(form, "user") in Users
      && Users[FormGet(form, "user")].password == FormGet(form, "pass")
      && FormGet(form, "action") in Users[FormGet(form, "user")].permissions
    ensures r.status in {200, 401, 403}
  {
    var username := FormGet(form, "user");
    var password := FormGet(form, "pass");
    var ip := FormGet(form, "ip");
    var action := FormGet(form, "action");
    var path := FormGet(form, "path");
    var d := AuthenticateUser(Users, username, password, ip, action, path);
    assert username in Users ==> Users[username].ips == [];
    StatusReply(d.isAuthenticated, d.hasPermission)
  }

  /**
   * The streamer account is unknown here: it is refused with 401 where the
   * external backend lets it read.
   */
  lemma StreamerUnknownHere()
    ensures MediamtxAuth(ExternalAuth.RequestForm("streamer", "streamer123", "read")) == Reply("Unauthorized", 401)
    ensures ExternalAuth.MediamtxAuth(ExternalAuth.RequestForm("streamer", "streamer123", "read")) == Reply("OK", 200)
  {
    var form := ExternalAuth.RequestForm("streamer", "streamer123", "read");
    assert FormGet(form, "user") == "streamer" && FormGet(form, "pass") == "streamer123";
    assert FormGet(form, "action") == "read";
    assert "streamer" !in Users;
  }

  /** For every account this table has, both backends answer every form alike. */
  lemma SameAnswerForSharedAccounts(form: Form)
    requires FormGet(form, "user") != "streamer"
    ensures MediamtxAuth(form) == ExternalAuth.MediamtxAuth(form)
  {
    TableIsExternalWithoutStreamer();
    var u := FormGet(form, "user");
    assert u in Users <==> u in ExternalAuth.Users;
    if u in Users {
      assert Users[u] == FromExternal(ExternalAuth.Users[u]);
    }
  }
}
