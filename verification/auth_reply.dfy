/**
 * What the two authentication backends share: reading a field of the
 * posted form, and turning an authentication decision into the
 * body/status pair the streaming server acts on.
 */
module AuthReply {

  /** A Flask view's `(body, status)` return value. */
  datatype Reply = Reply(body: string, status: int)

  /** The posted form, one value per field. */
  type Form = map<string, string>

  /** `request.form.get(key, '')`. */
  function FormGet(form: Form, key: string): (v: string)
    ensures key in form ==> v == form[key]
    ensures key !in form ==> v == ""
  {
    if key in form then form[key] else ""
  }

  /**
   * The tail of `mediamtx_auth`: a caller who is not authenticated is
   * refused with 401, an authenticated one without the permission with
   * 403, and anyone else is let in with 200.
   */
  function StatusReply(isAuthenticated: bool, hasPermission: bool): (r: Reply)
    ensures r.status == 401 <==> !isAuthenticated
    ensures r.status == 403 <==> isAuthenticated && !hasPermission
    ensures r.status == 200 <==> isAuthenticated && hasPermission
    ensures r.status == 401 ==> r.body == "Unauthorized"
    ensures r.status == 403 ==> r.body == "Forbidden"
    ensures r.status == 200 ==> r.body == "OK"
  {
    if !isAuthenticated then Reply("Unauthorized", 401)
    else if !hasPermission then Reply("Forbidden", 403)
    else Reply("OK", 200)
  }
}
