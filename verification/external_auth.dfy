/**
 * The external authentication backend
 * (`backend/external-authentication-backend.py`): the streaming server posts
 * the user, password, client address, action and path of every request,
 * and the backend answers 200, 401 or 403 from a fixed user table.
 */
module ExternalAuth {
  import opened Wrappers
  import opened AuthReply

  /** One row of `USERS`; an empty `ips` list admits every address. */
  datatype User = User(password: string, permissions: seq<string>, ips: seq<string>, role: string)

  /** `USERS`. */
  const Users: map<string, User> := map[
    "admin" := User("admin123", ["read", "publish", "api", "metrics", "playback"], [], "admin"),
    "viewer" := User("viewer123", ["read", "playback"], [], "viewer"),
    "guest" := User("guest123", ["read"], [], "guest"),
    "streamer" := User("streamer123", ["read", "publish", "playback"], [], "streamer")
  ]

  /** `(is_authenticated, has_permission, user_info)`. */
  datatype Decision = Decision(isAuthenticated: bool, hasPermission: bool, userInfo: Option<User>)

  /** The password matches and the address is allowed. */
  predicate Admits(u: User, password: string, ip: string) {
    u.password == password && (u.ips == [] || ip in u.ips)
  }

  /**
   * `authenticate_user`: the user must exist, the password must match and
   * the address must be allowed, checked in that order, before the action
   * is looked up among the user's permissions. `path` takes no part.
   */
  function AuthenticateUser(users: map<string, User>, username: string, password: string,
                            ip: string, action: string, path: string): (d: Decision)
    ensures d.isAuthenticated <==> username in users && Admits(users[username], password, ip)
    ensures d.hasPermission <==> d.isAuthenticated && action in users[username].permissions
    ensures d.isAuthenticated ==> d.userInfo == Some(users[username])
    ensures !d.isAuthenticated ==> d.userInfo.None?
  {
    if username !in users then Decision(false, false, None)
    else
      var user := users[username];
      if user.password != password then Decision(false, false, None)
      else if user.ips != [] && ip !in user.ips then Decision(false, false, None)
      else if action !in user.permissions then Decision(true, false, Some(user))
      else Decision(true, true, Some(user))
  }

  /** The decision is the same whatever path is asked for. */
  lemma PathIgnored(users: map<string, User>, username: string, password: string,
                    ip: string, action: string, p1: string, p2: string)
    ensures AuthenticateUser(users, username, password, ip, action, p1)
         == AuthenticateUser(users, username, password, ip, action, p2)
  {
  }

  /** Every user in the table may connect from any address. */
  lemma NoAddressRestrictions(username: string, password: string, ip: string)
    requires username in Users
    ensures Admits(Users[username], password, ip) <==> Users[username].password == password
  {
  }

  /** `mediamtx_auth`: read the form, decide, and answer. */
  function MediamtxAuth(form: Form): (r: Reply)
    ensures r.status == 401 <==>
      !(FormGet(form, "user") in Users && Users[FormGet(form, "user")].password == FormGet(form, "pass"))
    ensures r.status == 200 <==>
      && FormGet(form, "user") in Users
      && Users[FormGet(form, "user")].password == FormGet(form, "pass")
      && FormGet(form, "action") in Users[FormGet(form, "user")].permissions
    ensures r.status in {200, 401, 403}
  {
    var username := FormGet(form, "user");
    var password := FormGet(form, "pass");
    var ip := FormGet(form, "ip");
    var action := FormGet(form, "action");
    var path := FormGet(form, "path");
    var d := AuthenticateUser(Users, username, password, ip, action, path);
    assert username in Users ==> Users[username].ips == [];
    StatusReply(d.isAuthenticated, d.hasPermission)
  }

  /** The form of one request, field by field. */
  function RequestForm(user: string, pass: string, action: string): Form {
    map["user" := user, "pass" := pass, "ip" := "127.0.0.1", "action" := action, "path" := "live"]
  }

  /** Only the admin account, with its own password, may read metrics or use the API. */
  lemma OnlyAdminForMetricsAndApi(form: Form)
    requires FormGet(form, "action") in {"metrics", "api"}
    ensures MediamtxAuth(form).status == 200 <==>
      FormGet(form, "user") == "admin" && FormGet(form, "pass") == "admin123"
  {
    var u := FormGet(form, "user");
    var a := FormGet(form, "action");
    if u in Users && u != "admin" {
      assert a !in Users[u].permissions;
    }
  }

  /** A viewer with the right password who asks to publish is refused with 403. */
  lemma ViewerMayNotPublish()
    ensures MediamtxAuth(RequestForm("viewer", "viewer123", "publish")) == Reply("Forbidden", 403)
  {
    var form := RequestForm("viewer", "viewer123", "publish");
    assert FormGet(form, "user") == "viewer" && FormGet(form, "pass") == "viewer123";
    assert FormGet(form, "action") == "publish";
  }

  /** The streamer account may publish. */
  lemma StreamerMayPublish()
    ensures MediamtxAuth(RequestForm("streamer", "streamer123", "publish")) == Reply("OK", 200)
  {
    var form := RequestForm("streamer", "streamer123", "publish");
    assert FormGet(form, "user") == "streamer" && FormGet(form, "pass") == "streamer123";
    assert FormGet(form, "action") == "publish";
  }

  /** A wrong password is refused with 401 whatever the action. */
  lemma WrongPasswordUnauthorized(form: Form)
    requires FormGet(form, "user") in Users
    requires FormGet(form, "pass") != Users[FormGet(form, "user")].password
    ensures MediamtxAuth(form) == Reply("Unauthorized", 401)
  {
  }

  /** A form without a `user` field is refused with 401. */
  lemma MissingUserUnauthorized(form: Form)
    requires "user" !in form
    ensures MediamtxAuth(form) == Reply("Unauthorized", 401)
  {
    assert "" !in Users;
  }

  /** Known credentials without an `action` field are refused with 403. */
  lemma MissingActionForbidden(form: Form)
    requires "action" !in form
    requires FormGet(form, "user") in Users
    requires FormGet(form, "pass") == Users[FormGet(form, "user")].password
    ensures MediamtxAuth(form) == Reply("Forbidden", 403)
  {
    var u := FormGet(form, "user");
    assert "" !in Users[u].permissions;
  }
}
