/** The dashboard controller (src/controllers/dashboard.controller.js): the
    storage total shown on the dashboard, and the account handlers that
    verify the password before they change or delete the account. */
module Dashboard {
  import opened Common

  /** The remote calls of the dashboard handlers. */
  datatype DashboardCall =
    | GetUser(username: string)
    | ListFiles(username: string)
    | VerifyPassword(username: string, password: string)
    | PutEmail(username: string, email: string)
    | PutPassword(username: string, password: string)
    | DeleteUser(username: string)
    | DestroySession

  // ---------------------------------------------------------------------
  // Storage total
  // ---------------------------------------------------------------------

  /** `file.size || 0` */
  function SizeOrZero(e: FileEntry): int
  {
    if e.size.Some? then e.size.value else 0
  }

  /** `filesData.filter(file => file.type === 'file')` */
  function OnlyFiles(s: seq<FileEntry>): (r: seq<FileEntry>)
    ensures forall e :: e in r <==> e in s && e.kind == "file"
    ensures |r| <= |s|
  {
    if s == [] then []
    else if s[0].kind == "file" then [s[0]] + OnlyFiles(s[1..])
    else OnlyFiles(s[1..])
  }

  /** `.reduce((total, file) => total + (file.size || 0), acc)`, from the left. */
  function Reduce(acc: int, s: seq<FileEntry>): int
    decreases |s|
  {
    if s == [] then acc else Reduce(acc + SizeOrZero(s[0]), s[1..])
  }

  /** Lines 29-31. */
  function StorageTotal(files: seq<FileEntry>): int
  {
    Reduce(0, OnlyFiles(files))
  }

  /** The reference definition: the sum of the sizes of the entries of type
      'file', a missing size counting as 0. */
  function UsedBytes(s: seq<FileEntry>): int
  {
    if s == [] then 0 else (if s[0].kind == "file" then SizeOrZero(s[0]) else 0) + UsedBytes(s[1..])
  }

  /** The sum of the sizes, from the right. */
  function SumSizes(s: seq<FileEntry>): int
  {
    if s == [] then 0 else SizeOrZero(s[0]) + SumSizes(s[1..])
  }

  lemma {:induction false} ReduceIsSum(acc: int, s: seq<FileEntry>)
    ensures Reduce(acc, s) == acc + SumSizes(s)
    decreases |s|
  {
    if s != [] {
      ReduceIsSum(acc + SizeOrZero(s[0]), s[1..]);
    }
  }

  lemma {:induction false} SumOfFilesIsUsed(s: seq<FileEntry>)
    ensures SumSizes(OnlyFiles(s)) == UsedBytes(s)
  {
    if s != [] {
      SumOfFilesIsUsed(s[1..]);
    }
  }

  /** The dashboard's storage total is the sum of the sizes of the files. */
  lemma StorageTotalIsUsedBytes(files: seq<FileEntry>)
    ensures StorageTotal(files) == UsedBytes(files)
  {
    ReduceIsSum(0, OnlyFiles(files));
    SumOfFilesIsUsed(files);
  }

  /** The total of two listings together is the sum of their totals. */
  lemma {:induction false} UsedBytesConcat(a: seq<FileEntry>, b: seq<FileEntry>)
    ensures UsedBytes(a + b) == UsedBytes(a) + UsedBytes(b)
  {
    if a == [] {
      assert a + b == b;
    } else {
      assert (a + b)[0] == a[0] && (a + b)[1..] == a[1..] + b;
      UsedBytesConcat(a[1..], b);
    }
  }

  /** Adding a directory, a symlink or any other non-file entry anywhere in
      the listing leaves the total unchanged. */
  lemma NonFileEntryChangesNothing(a: seq<FileEntry>, e: FileEntry, b: seq<FileEntry>)
    requires e.kind != "file"
    ensures StorageTotal(a + [e] + b) == StorageTotal(a + b)
  {
    StorageTotalIsUsedBytes(a + [e] + b);
    StorageTotalIsUsedBytes(a + b);
    UsedBytesConcat(a + [e], b);
    UsedBytesConcat(a, [e]);
    UsedBytesConcat(a, b);
    assert UsedBytes([e]) == 0 by { assert [e][1..] == []; }
  }

  // ---------------------------------------------------------------------
  // getDashboardView
  // ---------------------------------------------------------------------

  /** The user record the API returns. */
  datatype UserData = UserData(username: string, email: string)

  /** The rendered dashboard: the user, the storage total in bytes (the page
      shows it through `formatFileSize`) and the error line. */
  datatype DashboardView = DashboardView(username: string, email: string, storageBytes: int, error: Option<string>)

  /** Lines 12-59: the user record, then the listing; any failure renders the
      session's user name, no email and 0 bytes. */
  function GetDashboardView(session: string, user: Outcome<UserData>, listing: Outcome<seq<FileEntry>>): (r: (seq<DashboardCall>, DashboardView))
    ensures user.Fail? ==> r.0 == [GetUser(session)]
    ensures user.Ok? ==> r.0 == [GetUser(session), ListFiles(session)]
    ensures user.Ok? && listing.Ok? ==>
              r.1 == DashboardView(user.value.username, user.value.email, UsedBytes(listing.value), None)
    ensures (user.Fail? || listing.Fail?) ==>
              && r.1.username == session && r.1.email == "" && r.1.storageBytes == 0
              && r.1.error == Some(StringOr((if user.Fail? then user.error else listing.error).message, "Failed to load user data"))
  {
    match user
    case Fail(e) => ([GetUser(session)], DashboardView(session, "", 0, Some(StringOr(e.message, "Failed to load user data"))))
    case Ok(u) =>
      var calls := [GetUser(session), ListFiles(session)];
      match listing
      case Fail(e) => (calls, DashboardView(session, "", 0, Some(StringOr(e.message, "Failed to load user data"))))
      case Ok(files) =>
        StorageTotalIsUsedBytes(files);
        (calls, DashboardView(u.username, u.email, StorageTotal(files), None))
  }

  // ---------------------------------------------------------------------
  // Account handlers
  // ---------------------------------------------------------------------

  /** The catch blocks of lines 91-94, 145-148 and 201-204: the API's answer
      (`error.response?.status || 500`, `error.response?.data?.message || fallback`). */
  function ResponseFailure(e: Error, fallback: string): (r: Reply)
    ensures !r.success
    ensures e.response.Some? && e.response.value.status != 0 ==> r.status == e.response.value.status
    ensures (e.response.None? || e.response.value.status == 0) ==> r.status == 500
    ensures e.response.Some? ==> r.message == StringOr(e.response.value.message, fallback)
    ensures e.response.None? ==> r.message == fallback
  {
    match e.response
    case None => Reply(500, false, fallback)
    case Some(resp) => Reply(if resp.status != 0 then resp.status else 500, false, StringOr(resp.message, fallback))
  }

  /** A call that changes the account or the session. */
  predicate Mutates(c: DashboardCall)
  {
    c.PutEmail? || c.PutPassword? || c.DeleteUser? || c.DestroySession?
  }

  /** Every mutating call of the trace comes after the verification of `password`, which opens it. */
  predicate VerifiedFirst(calls: seq<DashboardCall>, username: string, password: string)
  {
    forall i :: 0 <= i < |calls| && Mutates(calls[i]) ==> i > 0 && calls[0] == VerifyPassword(username, password)
  }

  /** `updateEmail`, lines 64-96. */
  function UpdateEmail(username: string, email: Option<string>, put: Outcome<()>): (r: (seq<DashboardCall>, Reply))
    ensures !Present(email) ==> r == ([], Reply(400, false, "Email is required"))
    ensures Present(email) ==> r.0 == [PutEmail(username, email.value)]
    ensures Present(email) && put.Ok? ==> r.1 == Reply(200, true, "Email updated successfully")
    ensures Present(email) && put.Fail? ==> r.1 == ResponseFailure(put.error, "Failed to update email")
  {
    if !Present(email) then ([], Reply(400, false, "Email is required"))
    else
      var calls := [PutEmail(username, email.value)];
      match put
      case Ok(_) => (calls, Reply(200, true, "Email updated successfully"))
      case Fail(e) => (calls, ResponseFailure(e, "Failed to update email"))
  }

  /** `updatePassword`, lines 101-150: the current password is verified with a
      session request before the new one is sent. */
  function UpdatePassword(username: string, current: Option<string>, newPassword: Option<string>,
                          verify: Outcome<()>, put: Outcome<()>): (r: (seq<DashboardCall>, Reply))
    ensures !Present(current) || !Present(newPassword) ==>
              r == ([], Reply(400, false, "Current password and new password are required"))
    ensures Present(current) && Present(newPassword) ==> VerifiedFirst(r.0, username, current.value) && |r.0| >= 1
    ensures Present(current) && Present(newPassword) && verify.Fail? ==>
              r == ([VerifyPassword(username, current.value)], Reply(401, false, "Current password is incorrect"))
    ensures Present(current) && Present(newPassword) && verify.Ok? ==>
              && r.0 == [VerifyPassword(username, current.value), PutPassword(username, newPassword.value)]
              && r.1 == (if put.Ok? then Reply(200, true, "Password updated successfully")
                         else ResponseFailure(put.error, "Failed to update password"))
  {
    if !Present(current) || !Present(newPassword) then ([], Reply(400, false, "Current password and new password are required"))
    else
      var check := VerifyPassword(username, current.value);
      match verify
      case Fail(_) => ([check], Reply(401, false, "Current password is incorrect"))
      case Ok(_) =>
        var calls := [check, PutPassword(username, newPassword.value)];
        match put
        case Ok(_) => (calls, Reply(200, true, "Password updated successfully"))
        case Fail(e) => (calls, ResponseFailure(e, "Failed to update password"))
  }

  /** `deleteAccount`, lines 155-206: verify, delete the account, then destroy
      the session; a failed delete keeps the session. */
  function DeleteAccount(username: string, password: Option<string>, verify: Outcome<()>, delete: Outcome<()>): (r: (seq<DashboardCall>, Reply))
    ensures !Present(password) ==> r == ([], Reply(400, false, "Password is required to delete account"))
    ensures Present(password) ==> VerifiedFirst(r.0, username, password.value) && |r.0| >= 1
    ensures Present(password) && verify.Fail? ==>
              r == ([VerifyPassword(username, password.value)], Reply(401, false, "Password is incorrect"))
    ensures Present(password) && verify.Ok? && delete.Ok? ==>
              r == ([VerifyPassword(username, password.value), DeleteUser(username), DestroySession],
                    Reply(200, true, "Account deleted successfully"))
    ensures Present(password) && verify.Ok? && delete.Fail? ==>
              r == ([VerifyPassword(username, password.value), DeleteUser(username)],
                    ResponseFailure(delete.error, "Failed to delete account"))
  {
    if !Present(password) then ([], Reply(400, false, "Password is required to delete account"))
    else
      var check := VerifyPassword(username, password.value);
      match verify
      case Fail(_) => ([check], Reply(401, false, "Password is incorrect"))
      case Ok(_) =>
        match delete
        case Ok(_) => ([check, DeleteUser(username), DestroySession], Reply(200, true, "Account deleted successfully"))
        case Fail(e) => ([check, DeleteUser(username)], ResponseFailure(e, "Failed to delete account"))
  }

  /** A wrong password never reaches a mutating call, in either handler. */
  lemma FailedVerificationMutatesNothing(username: string, current: Option<string>, newPassword: Option<string>,
                                         e: Error, put: Outcome<()>, delete: Outcome<()>)
    ensures forall c :: c in UpdatePassword(username, current, newPassword, Fail(e), put).0 ==> !Mutates(c)
    ensures forall c :: c in DeleteAccount(username, current, Fail(e), delete).0 ==> !Mutates(c)
  {
  }
}
