/** The profile controller (src/controllers/profile.controller.js): the
    checks that guard the three profile updates before their one remote call. */
module Profile {
  import opened Common

  /** The remote calls of the profile handlers. */
  datatype ProfileCall =
    | UpdateUserProfile(username: string, data: Json)
    | UpdateUserPassword(username: string, currentPassword: string, newPassword: string)
    | UpdateUserPreferences(username: string, data: Json)

  /** `updateProfile`, lines 51-78: a falsy body is refused. */
  function UpdateProfile(username: string, body: Option<Json>, call: Outcome<()>): (r: (seq<ProfileCall>, Reply))
    ensures !PresentJson(body) ==> r == ([], Reply(400, false, "Profile data is required"))
    ensures PresentJson(body) ==> r.0 == [UpdateUserProfile(username, body.value)]
    ensures PresentJson(body) && call.Ok? ==> r.1 == Reply(200, true, "Profile updated successfully")
    ensures PresentJson(body) && call.Fail? ==> r.1 == FailureReply(call.error, "Failed to update profile")
  {
    if !PresentJson(body) then ([], Reply(400, false, "Profile data is required"))
    else
      var calls := [UpdateUserProfile(username, body.value)];
      match call
      case Ok(_) => (calls, Reply(200, true, "Profile updated successfully"))
      case Fail(e) => (calls, FailureReply(e, "Failed to update profile"))
  }

  /** `changePassword`, lines 83-120: all three fields first, then the
      confirmation; only the current and the new password are forwarded. */
  function ChangePassword(username: string, current: Option<string>, newPassword: Option<string>, confirm: Option<string>,
                          call: Outcome<()>): (r: (seq<ProfileCall>, Reply))
    ensures !Present(current) || !Present(newPassword) || !Present(confirm) ==>
              r == ([], Reply(400, false, "All password fields are required"))
    ensures Present(current) && Present(newPassword) && Present(confirm) && newPassword != confirm ==>
              r == ([], Reply(400, false, "New password and confirmation do not match"))
    ensures r.0 != [] <==> Present(current) && Present(newPassword) && confirm == newPassword
    ensures r.0 != [] ==> r.0 == [UpdateUserPassword(username, current.value, newPassword.value)]
    ensures r.0 != [] && call.Ok? ==> r.1 == Reply(200, true, "Password changed successfully")
    ensures r.0 != [] && call.Fail? ==> r.1 == FailureReply(call.error, "Failed to change password")
  {
    if !Present(current) || !Present(newPassword) || !Present(confirm) then
      ([], Reply(400, false, "All password fields are required"))
    else if newPassword != confirm then
      ([], Reply(400, false, "New password and confirmation do not match"))
    else
      var calls := [UpdateUserPassword(username, current.value, newPassword.value)];
      match call
      case Ok(_) => (calls, Reply(200, true, "Password changed successfully"))
      case Fail(e) => (calls, FailureReply(e, "Failed to change password"))
  }

  /** `updatePreferences`, lines 125-152. */
  function UpdatePreferences(username: string, body: Option<Json>, call: Outcome<()>): (r: (seq<ProfileCall>, Reply))
    ensures !PresentJson(body) ==> r == ([], Reply(400, false, "Preferences data is required"))
    ensures PresentJson(body) ==> r.0 == [UpdateUserPreferences(username, body.value)]
    ensures PresentJson(body) && call.Ok? ==> r.1 == Reply(200, true, "Preferences updated successfully")
    ensures PresentJson(body) && call.Fail? ==> r.1 == FailureReply(call.error, "Failed to update preferences")
  {
    if !PresentJson(body) then ([], Reply(400, false, "Preferences data is required"))
    else
      var calls := [UpdateUserPreferences(username, body.value)];
      match call
      case Ok(_) => (calls, Reply(200, true, "Preferences updated successfully"))
      case Fail(e) => (calls, FailureReply(e, "Failed to update preferences"))
  }

  /** The missing-field message wins over the mismatch message: a request
      missing its confirmation is told about the missing field. */
  lemma MissingFieldCheckedFirst(username: string, current: string, newPassword: string, call: Outcome<()>)
    requires current != "" && newPassword != ""
    ensures ChangePassword(username, Some(current), Some(newPassword), None, call).1.message == "All password fields are required"
    ensures ChangePassword(username, Some(current), Some(newPassword), Some(""), call).1.message == "All password fields are required"
  {
  }

  /** A failed profile update answers with the service's status, or 500. */
  lemma ProfileFailureStatus(username: string, body: Option<Json>, e: Error)
    requires PresentJson(body)
    ensures var reply := UpdateProfile(username, body, Fail(e)).1;
            !reply.success && reply.status == (if e.status.Some? && e.status.value != 0 then e.status.value else 500)
  {
  }
}
