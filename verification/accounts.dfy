/** The account handlers as transitions over the user collection: register,
    log in and out, refresh the session, change or reset the password and
    update the profile. Each handler returns the new collection, its outcome
    and the cookies it sets or clears. Hashing, token signing and checking,
    the avatar upload and the email delivery are parameters. */
module Accounts {
  import opened Basics
  import opened Api

  /** A stored user document. `None` marks a field that is unset. */
  datatype User = User(
    fullName: string, username: string, email: string, phone: string,
    password: string, avatar: string,
    refreshToken: Option<string>,
    resetTokenHash: Option<string>, resetExpiry: Option<int>)

  /** The user collection in insertion order; a user's id is its position. */
  type Store = seq<User>

  /** The four fields the signup and profile forms share. */
  datatype Profile = Profile(fullName: string, username: string, email: string, phone: string)

  /** What became of the avatar: no file in the request, an upload that
      returned nothing, or an upload that returned a `secure_url`. */
  datatype AvatarUpload = NoFile | UploadFailed | Uploaded(secureUrl: string)

  /** Data a handler puts in its `ApiResponse`. */
  datatype Payload =
    | UserDoc(id: UserId, user: User)
    | ProfileDoc(id: UserId, avatar: string, profile: Profile)

  datatype CookieOp = SetCookie(name: string, value: string) | ClearCookie(name: string)

  /** One handler invocation: the collection afterwards, the outcome, and the
      cookie operations on the reply. */
  datatype Step = Step(store: Store, outcome: Outcome<Payload>, cookies: seq<CookieOp>)

  const Unauthorized := ApiError(401, "Unauthorized request.")
  const UsernameExists := ApiError(400, "Username already exists.")
  const EmailExists := ApiError(400, "Email already exists.")
  const PhoneExists := ApiError(400, "Phone number already exists.")
  const AvatarRequired := ApiError(400, "Avatar is required.")
  const AvatarUploadFailed := ApiError(500, "Failed to upload avatar.")
  const OldPasswordIncorrect := ApiError(400, "Old password is incorrect.")
  const UserDoesNotExist := ApiError(404, "User does not exist.")
  const ResetEmailFailed := ApiError(500, "Failed to send the reset password email.")
  const ResetTokenInvalid := ApiError(400, "Invalid or expired reset password token.")

  predicate UsernameTaken(store: Store, name: string) {
    exists i :: 0 <= i < |store| && store[i].username == name
  }

  predicate EmailTaken(store: Store, email: string) {
    exists i :: 0 <= i < |store| && store[i].email == email
  }

  predicate PhoneTaken(store: Store, phone: string) {
    exists i :: 0 <= i < |store| && store[i].phone == phone
  }

  /** No two users share a username, an email or a phone number. */
  predicate Unique(store: Store) {
    forall i, j :: 0 <= i < j < |store| ==>
      && store[i].username != store[j].username
      && store[i].email != store[j].email
      && store[i].phone != store[j].phone
  }

  // ---------------------------------------------------------------- register

  function NewUser(p: Profile, password: string, avatar: string): User {
    User(p.fullName, p.username, p.email, p.phone, password, avatar, None, None, None)
  }

  /** `registerUser`: the first of username, email and phone already held by
      someone is a 400; then a missing avatar is a 400 and a failed upload a
      500; otherwise exactly one user is appended with the uploaded URL as
      avatar, and the reply is 201. */
  function Register(store: Store, p: Profile, password: string, avatar: AvatarUpload): (r: Step)
    ensures UsernameTaken(store, p.username) ==> r.outcome == Throw(UsernameExists)
    ensures !UsernameTaken(store, p.username) && EmailTaken(store, p.email) ==> r.outcome == Throw(EmailExists)
    ensures !UsernameTaken(store, p.username) && !EmailTaken(store, p.email) && PhoneTaken(store, p.phone) ==>
      r.outcome == Throw(PhoneExists)
    ensures !UsernameTaken(store, p.username) && !EmailTaken(store, p.email) && !PhoneTaken(store, p.phone) ==>
      && (avatar.NoFile? ==> r.outcome == Throw(AvatarRequired))
      && (avatar.UploadFailed? ==> r.outcome == Throw(AvatarUploadFailed))
    ensures r.outcome.Respond? <==>
      !UsernameTaken(store, p.username) && !EmailTaken(store, p.email) && !PhoneTaken(store, p.phone) && avatar.Uploaded?
    ensures r.outcome.Respond? ==>
      && r.store == store + [NewUser(p, password, avatar.secureUrl)]
      && r.outcome == Respond(201, "User registered successfully.", None)
    ensures r.outcome.Throw? ==> r.store == store
    ensures r.cookies == []
  {
    if UsernameTaken(store, p.username) then Step(store, Throw(UsernameExists), [])
    else if EmailTaken(store, p.email) then Step(store, Throw(EmailExists), [])
    else if PhoneTaken(store, p.phone) then Step(store, Throw(PhoneExists), [])
    else match avatar
      case NoFile => Step(store, Throw(AvatarRequired), [])
      case UploadFailed => Step(store, Throw(AvatarUploadFailed), [])
      case Uploaded(url) =>
        Step(store + [NewUser(p, password, url)], Respond(201, "User registered successfully.", None), [])
  }

  /** Registration keeps usernames, emails and phone numbers unique. */
  lemma RegisterKeepsUnique(store: Store, p: Profile, password: string, avatar: AvatarUpload)
    requires Unique(store)
    ensures Unique(Register(store, p, password, avatar).store)
  {
    var r := Register(store, p, password, avatar);
    if r.outcome.Respond? {
      var s := r.store;
      var n := |store|;
      assert s[n] == NewUser(p, password, avatar.secureUrl);
      forall i, j | 0 <= i < j < |s|
        ensures s[i].username != s[j].username && s[i].email != s[j].email && s[i].phone != s[j].phone
      {
        if j == n {
          assert s[i] == store[i];
          assert store[i].username != p.username;
          assert store[i].email != p.email;
          assert store[i].phone != p.phone;
        } else {
          assert s[i] == store[i] && s[j] == store[j];
        }
      }
    }
  }

  // ---------------------------------------------------------- login, logout

  /** `loginUser` for the user the credentials check authenticated: store a
      freshly issued refresh token on that user and set both token cookies. */
  function Login(store: Store, id: UserId, access: string, issued: string): (r: Step)
    requires id < |store|
    ensures |r.store| == |store| && r.store[id].refreshToken == Some(issued)
    ensures r.store[id] == store[id].(refreshToken := Some(issued))
    ensures forall j :: 0 <= j < |store| && j != id ==> r.store[j] == store[j]
    ensures r.outcome == Respond(200, "User logged in successfully.", Some(UserDoc(id, store[id])))
    ensures r.cookies == [SetCookie("accessToken", access), SetCookie("refreshToken", issued)]
  {
    Step(store[id := store[id].(refreshToken := Some(issued))],
      Respond(200, "User logged in successfully.", Some(UserDoc(id, store[id]))),
      [SetCookie("accessToken", access), SetCookie("refreshToken", issued)])
  }

  /** `logoutUser`: unset the caller's stored refresh token and clear both
      cookies. An unknown id updates nothing. */
  function Logout(store: Store, caller: UserId): (r: Step)
    ensures |r.store| == |store|
    ensures caller < |store| ==> r.store[caller].refreshToken.None?
    ensures caller < |store| ==> r.store[caller] == store[caller].(refreshToken := None)
    ensures forall j :: 0 <= j < |store| && j != caller ==> r.store[j] == store[j]
    ensures r.outcome == Respond(200, "User logged out successfully.", None)
    ensures r.cookies == [ClearCookie("accessToken"), ClearCookie("refreshToken")]
  {
    var s := if caller < |store| then store[caller := store[caller].(refreshToken := None)] else store;
    Step(s, Respond(200, "User logged out successfully.", None),
      [ClearCookie("accessToken"), ClearCookie("refreshToken")])
  }

  // --------------------------------------------------------------- refresh

  /** `refreshAccessToken`. `decode` stands for verifying the token's
      signature and reading its user id; a token it refuses raises the
      library's own error, which is not an `ApiError`. */
  function Refresh(store: Store, cookie: Option<string>, decode: string -> Result<UserId, string>,
                   access: string, issued: string, stack: string): (r: Step)
    ensures r.outcome.Respond? ==> r.outcome == Respond(200, "Access token refreshed.", None)
    ensures r.outcome.Respond? ==> r.cookies == [SetCookie("accessToken", access), SetCookie("refreshToken", issued)]
    ensures r.outcome.Throw? ==> r.store == store && r.cookies == []
    ensures cookie.None? || cookie == Some("") ==> r.outcome == Throw(Unauthorized)
  {
    match cookie
    case None => Step(store, Throw(Unauthorized), [])
    case Some(token) =>
      if token == "" then Step(store, Throw(Unauthorized), [])
      else match decode(token)
        case Failure(msg) => Step(store, Throw(OtherError(msg, stack)), [])
        case Success(id) =>
          if id >= |store| then Step(store, Throw(Unauthorized), [])
          else if store[id].refreshToken != Some(token) then Step(store, Throw(Unauthorized), [])
          else
            Step(store[id := store[id].(refreshToken := Some(issued))],
              Respond(200, "Access token refreshed.", None),
              [SetCookie("accessToken", access), SetCookie("refreshToken", issued)])
  }

  /** A refresh succeeds exactly for a non-empty cookie whose token verifies
      to an existing user who has that very token stored; it then replaces
      that user's stored token by the new one and touches no one else. Every
      other failure than a refused signature is a 401. */
  lemma RefreshVerdict(store: Store, cookie: Option<string>, decode: string -> Result<UserId, string>,
                       access: string, issued: string, stack: string)
    ensures Refresh(store, cookie, decode, access, issued, stack).outcome.Respond? <==>
      && cookie.Some? && cookie.value != ""
      && decode(cookie.value).Success? && decode(cookie.value).value < |store|
      && store[decode(cookie.value).value].refreshToken == Some(cookie.value)
    ensures Refresh(store, cookie, decode, access, issued, stack).outcome.Respond? ==>
      var id := decode(cookie.value).value;
      && |Refresh(store, cookie, decode, access, issued, stack).store| == |store|
      && Refresh(store, cookie, decode, access, issued, stack).store[id].refreshToken == Some(issued)
      && Refresh(store, cookie, decode, access, issued, stack).store[id] == store[id].(refreshToken := Some(issued))
      && forall j :: 0 <= j < |store| && j != id ==> Refresh(store, cookie, decode, access, issued, stack).store[j] == store[j]
    ensures (cookie.Some? && decode(cookie.value).Success? &&
             Refresh(store, cookie, decode, access, issued, stack).outcome.Throw?) ==>
      Refresh(store, cookie, decode, access, issued, stack).outcome == Throw(Unauthorized)
  {
  }

  /** Rotation: once a refresh has replaced token `t` by a different token,
      presenting `t` again is refused with 401. */
  lemma RotationRejectsOldToken(store: Store, t: string, decode: string -> Result<UserId, string>,
                                access: string, issued: string, stack: string,
                                access2: string, issued2: string)
    requires Refresh(store, Some(t), decode, access, issued, stack).outcome.Respond?
    requires issued != t
    ensures Refresh(Refresh(store, Some(t), decode, access, issued, stack).store, Some(t), decode, access2, issued2, stack).outcome
         == Throw(Unauthorized)
  {
    RefreshVerdict(store, Some(t), decode, access, issued, stack);
  }

  /** After a user logs out, no token that verifies to that user refreshes. */
  lemma LogoutRevokes(store: Store, caller: UserId, t: string, decode: string -> Result<UserId, string>,
                      access: string, issued: string, stack: string)
    requires decode(t) == Success(caller)
    ensures Refresh(Logout(store, caller).store, Some(t), decode, access, issued, stack).outcome == Throw(Unauthorized)
  {
  }

  /** The refresh token a login issues refreshes the session, provided it
      verifies to the logged-in user. */
  lemma LoginThenRefresh(store: Store, id: UserId, access: string, issued: string,
                         decode: string -> Result<UserId, string>, access2: string, issued2: string, stack: string)
    requires id < |store| && issued != ""
    requires decode(issued) == Success(id)
    ensures Refresh(Login(store, id, access, issued).store, Some(issued), decode, access2, issued2, stack).outcome
         == Respond(200, "Access token refreshed.", None)
  {
  }

  // --------------------------------------------------------- change password

  /** `changeCurrentPassword`: `matches` stands for comparing a candidate
      with the stored password. A wrong current password is a 400 and
      changes nothing; otherwise only the caller's password changes. */
  function ChangePassword(store: Store, caller: UserId, current: string, newPassword: string,
                          matches: (string, string) -> bool): (r: Step)
    requires caller < |store|
    ensures r.outcome.Throw? <==> !matches(store[caller].password, current)
    ensures r.outcome.Throw? ==> r.outcome == Throw(OldPasswordIncorrect) && r.store == store
    ensures r.outcome.Respond? ==>
      && r.outcome == Respond(200, "Password changed successfully.", None)
      && r.store == store[caller := store[caller].(password := newPassword)]
    ensures r.cookies == []
  {
    if !matches(store[caller].password, current) then Step(store, Throw(OldPasswordIncorrect), [])
    else Step(store[caller := store[caller].(password := newPassword)],
      Respond(200, "Password changed successfully.", None), [])
  }

  /** A password change touches only the caller's password: every other user
      and every other field of the caller stay as they were. */
  lemma ChangePasswordFrame(store: Store, caller: UserId, current: string, newPassword: string,
                            matches: (string, string) -> bool)
    requires caller < |store|
    ensures var s := ChangePassword(store, caller, current, newPassword, matches).store;
      && |s| == |store|
      && (forall j :: 0 <= j < |store| && j != caller ==> s[j] == store[j])
      && s[caller].(password := store[caller].password) == store[caller]
  {
  }

  // ------------------------------------------------------------ update profile

  /** The profile query's conflict test: some user holds the requested value
      and that value is not the caller's own (`$and` of an equality and a
      `$ne` on the same field). */
  predicate UsernameClash(store: Store, caller: UserId, name: string)
    requires caller < |store|
  {
    exists i :: 0 <= i < |store| && store[i].username == name && store[i].username != store[caller].username
  }

  predicate EmailClash(store: Store, caller: UserId, email: string)
    requires caller < |store|
  {
    exists i :: 0 <= i < |store| && store[i].email == email && store[i].email != store[caller].email
  }

  predicate PhoneClash(store: Store, caller: UserId, phone: string)
    requires caller < |store|
  {
    exists i :: 0 <= i < |store| && store[i].phone == phone && store[i].phone != store[caller].phone
  }

  /** `avatar?.secure_url || req.user?.avatar`: a non-empty uploaded URL,
      otherwise the avatar the caller had. */
  function NextAvatar(current: string, avatar: AvatarUpload): (a: string)
    ensures avatar.Uploaded? && avatar.secureUrl != "" ==> a == avatar.secureUrl
    ensures !avatar.Uploaded? || avatar.secureUrl == "" ==> a == current
    ensures a == "" ==> current == ""
  {
    if avatar.Uploaded? && avatar.secureUrl != "" then avatar.secureUrl else current
  }

  /** `updateUserProfile` for the authenticated caller. */
  function UpdateProfile(store: Store, caller: UserId, p: Profile, avatar: AvatarUpload): (r: Step)
    requires caller < |store|
    ensures UsernameClash(store, caller, p.username) ==> r.outcome == Throw(UsernameExists)
    ensures !UsernameClash(store, caller, p.username) && EmailClash(store, caller, p.email) ==> r.outcome == Throw(EmailExists)
    ensures (!UsernameClash(store, caller, p.username) && !EmailClash(store, caller, p.email)
             && PhoneClash(store, caller, p.phone)) ==> r.outcome == Throw(PhoneExists)
    ensures (!UsernameClash(store, caller, p.username) && !EmailClash(store, caller, p.email)
             && !PhoneClash(store, caller, p.phone) && avatar.UploadFailed?) ==> r.outcome == Throw(AvatarUploadFailed)
    ensures r.outcome.Respond? <==>
      && !UsernameClash(store, caller, p.username) && !EmailClash(store, caller, p.email)
      && !PhoneClash(store, caller, p.phone) && !avatar.UploadFailed?
    ensures r.outcome.Throw? ==> r.store == store
    ensures r.cookies == []
  {
    var me := store[caller];
    if UsernameClash(store, caller, p.username) then Step(store, Throw(UsernameExists), [])
    else if EmailClash(store, caller, p.email) then Step(store, Throw(EmailExists), [])
    else if PhoneClash(store, caller, p.phone) then Step(store, Throw(PhoneExists), [])
    else if avatar.UploadFailed? then Step(store, Throw(AvatarUploadFailed), [])
    else
      var a := NextAvatar(me.avatar, avatar);
      Step(store[caller := me.(avatar := a, fullName := p.fullName, username := p.username,
                               email := p.email, phone := p.phone)],
        Respond(200, "User profile updated successfully.", Some(ProfileDoc(caller, a, p))), [])
  }

  /** A conflict on a field is reported exactly when the requested value
      differs from the caller's own and someone holds it; in a collection
      with unique values that someone is another user. Resubmitting one's own
      values is therefore never a conflict. */
  lemma ClashIff(store: Store, caller: UserId, p: Profile)
    requires caller < |store|
    ensures UsernameClash(store, caller, p.username) <==>
      p.username != store[caller].username && UsernameTaken(store, p.username)
    ensures EmailClash(store, caller, p.email) <==>
      p.email != store[caller].email && EmailTaken(store, p.email)
    ensures PhoneClash(store, caller, p.phone) <==>
      p.phone != store[caller].phone && PhoneTaken(store, p.phone)
    ensures Unique(store) && UsernameClash(store, caller, p.username) ==>
      exists j :: 0 <= j < |store| && j != caller && store[j].username == p.username
  {
  }

  /** A successful update writes the four submitted fields and the next
      avatar onto the caller: a non-empty uploaded URL, or else the previous
      avatar. It leaves the password, the refresh token and the reset fields
      alone, touches no other user, and answers with what it wrote. */
  lemma UpdateProfileEffect(store: Store, caller: UserId, p: Profile, avatar: AvatarUpload)
    requires caller < |store|
    requires UpdateProfile(store, caller, p, avatar).outcome.Respond?
    ensures var r := UpdateProfile(store, caller, p, avatar);
      && |r.store| == |store|
      && (forall j :: 0 <= j < |store| && j != caller ==> r.store[j] == store[j])
      && r.store[caller].fullName == p.fullName && r.store[caller].username == p.username
      && r.store[caller].email == p.email && r.store[caller].phone == p.phone
      && r.store[caller].password == store[caller].password
      && r.store[caller].refreshToken == store[caller].refreshToken
      && r.store[caller].resetTokenHash == store[caller].resetTokenHash
      && r.store[caller].resetExpiry == store[caller].resetExpiry
      && (avatar.NoFile? ==> r.store[caller].avatar == store[caller].avatar)
      && (avatar.Uploaded? && avatar.secureUrl != "" ==> r.store[caller].avatar == avatar.secureUrl)
      && r.store[caller] == store[caller].(avatar := NextAvatar(store[caller].avatar, avatar),
                                             fullName := p.fullName, username := p.username,
                                             email := p.email, phone := p.phone)
      && r.outcome == Respond(200, "User profile updated successfully.",
                              Some(ProfileDoc(caller, r.store[caller].avatar, p)))
  {
  }

  /** Profile updates keep usernames, emails and phone numbers unique. */
  lemma UpdateProfileKeepsUnique(store: Store, caller: UserId, p: Profile, avatar: AvatarUpload)
    requires caller < |store| && Unique(store)
    ensures Unique(UpdateProfile(store, caller, p, avatar).store)
  {
    var r := UpdateProfile(store, caller, p, avatar);
    if r.outcome.Respond? {
      var s := r.store;
      ClashIff(store, caller, p);
      forall i, j | 0 <= i < j < |s|
        ensures s[i].username != s[j].username && s[i].email != s[j].email && s[i].phone != s[j].phone
      {
        if i == caller || j == caller {
          var other := if i == caller then j else i;
          assert s[other] == store[other];
          assert s[caller].username == p.username;
          if p.username == store[caller].username {
            assert store[other].username != store[caller].username;
          } else {
            assert !UsernameTaken(store, p.username);
          }
          if p.email == store[caller].email {
            assert store[other].email != store[caller].email;
          } else {
            assert !EmailTaken(store, p.email);
          }
          if p.phone == store[caller].phone {
            assert store[other].phone != store[caller].phone;
          } else {
            assert !PhoneTaken(store, p.phone);
          }
        } else {
          assert s[i] == store[i] && s[j] == store[j];
        }
      }
    }
  }

  // ------------------------------------------------------------ password reset

  /** The reset query: the stored hash equals `digest` and the stored expiry
      is strictly later than `now`. */
  predicate ResetValid(u: User, digest: string, now: int) {
    u.resetTokenHash == Some(digest) && u.resetExpiry.Some? && u.resetExpiry.value > now
  }

  function ResetHolder(store: Store, digest: string, now: int): (r: Option<nat>)
    ensures r.Some? ==> r.value < |store| && ResetValid(store[r.value], digest, now)
    ensures r.None? <==> forall j :: 0 <= j < |store| ==> !ResetValid(store[j], digest, now)
  {
    FirstIndex(store, (u: User) => ResetValid(u, digest, now))
  }

  function EmailHolder(store: Store, email: string): (r: Option<nat>)
    ensures r.Some? ==> r.value < |store| && store[r.value].email == email
    ensures r.None? <==> !EmailTaken(store, email)
  {
    FirstIndex(store, (u: User) => u.email == email)
  }

  /** `resetPasswordRequest`: for a registered email, store the digest of a
      fresh token and its expiry on the first user with that email, then
      send the email. The token stays stored even when sending fails. */
  function ResetPasswordRequest(store: Store, email: string, token: string, expiry: int,
                                sha: string -> string, emailSent: bool): (r: Step)
    ensures !EmailTaken(store, email) ==> r == Step(store, Throw(UserDoesNotExist), [])
    ensures EmailTaken(store, email) ==>
      r.outcome == (if emailSent then Respond(200, "Reset password email sent.", None) else Throw(ResetEmailFailed))
    ensures |r.store| == |store|
    ensures EmailTaken(store, email) ==>
      var h := EmailHolder(store, email).value;
      && r.store[h] == store[h].(resetTokenHash := Some(sha(token)), resetExpiry := Some(expiry))
      && forall j :: 0 <= j < |store| && j != h ==> r.store[j] == store[j]
    ensures r.cookies == []
  {
    match EmailHolder(store, email)
    case None => Step(store, Throw(UserDoesNotExist), [])
    case Some(i) =>
      var s := store[i := store[i].(resetTokenHash := Some(sha(token)), resetExpiry := Some(expiry))];
      Step(s, if emailSent then Respond(200, "Reset password email sent.", None) else Throw(ResetEmailFailed), [])
  }

  /** `resetPassword`: the first user whose stored digest matches the
      token's and whose expiry is still ahead gets the new password, and both
      reset fields are cleared. */
  function ResetPassword(store: Store, token: string, newPassword: string, now: int,
                         sha: string -> string): (r: Step)
    ensures r.outcome.Throw? ==> r == Step(store, Throw(ResetTokenInvalid), [])
    ensures r.outcome.Respond? ==> r.outcome == Respond(200, "Password reset successfully.", None)
    ensures |r.store| == |store|
    ensures r.cookies == []
  {
    match ResetHolder(store, sha(token), now)
    case None => Step(store, Throw(ResetTokenInvalid), [])
    case Some(i) =>
      Step(store[i := store[i].(password := newPassword, resetTokenHash := None, resetExpiry := None)],
        Respond(200, "Password reset successfully.", None), [])
  }

  /** A reset succeeds exactly when some user holds the token's digest with
      an expiry strictly after `now`; the user it changes ends with the new
      password and no reset fields, and no one else changes. */
  lemma ResetPasswordVerdict(store: Store, token: string, newPassword: string, now: int, sha: string -> string)
    ensures ResetPassword(store, token, newPassword, now, sha).outcome.Respond? <==>
      exists i :: 0 <= i < |store| && ResetValid(store[i], sha(token), now)
    ensures ResetPassword(store, token, newPassword, now, sha).outcome.Respond? ==>
      exists i :: 0 <= i < |store| && ResetValid(store[i], sha(token), now)
        && ResetPassword(store, token, newPassword, now, sha).store
           == store[i := store[i].(password := newPassword, resetTokenHash := None, resetExpiry := None)]
  {
    var h := ResetHolder(store, sha(token), now);
    if h.Some? {
      assert ResetValid(store[h.value], sha(token), now);
    }
  }

  /** At most one user holds `digest` as a reset hash. */
  predicate HeldByAtMostOne(store: Store, digest: string) {
    forall i, j ::
      (0 <= i < |store| && 0 <= j < |store| && store[i].resetTokenHash == Some(digest)
       && store[j].resetTokenHash == Some(digest)) ==> i == j
  }

  /** A reset token works once: after it has reset a password, using it
      again fails, at any time, when only one user held its digest. */
  lemma ResetIsSingleUse(store: Store, token: string, pw1: string, pw2: string, now1: int, now2: int,
                         sha: string -> string)
    requires HeldByAtMostOne(store, sha(token))
    requires ResetPassword(store, token, pw1, now1, sha).outcome.Respond?
    ensures ResetPassword(ResetPassword(store, token, pw1, now1, sha).store, token, pw2, now2, sha).outcome
         == Throw(ResetTokenInvalid)
  {
    var i := ResetHolder(store, sha(token), now1).value;
    var s := ResetPassword(store, token, pw1, now1, sha).store;
    assert s == store[i := store[i].(password := pw1, resetTokenHash := None, resetExpiry := None)];
    forall j | 0 <= j < |s|
      ensures !ResetValid(s[j], sha(token), now2)
    {
      if j != i {
        assert s[j] == store[j];
        assert store[j].resetTokenHash != Some(sha(token));
      }
    }
  }

  /** The reset lifecycle: after a request for a registered email stores the
      digest of a token no one else held, resetting with that token succeeds
      exactly while `now` is before the stored expiry, and it is the
      requesting user whose password changes. This holds whether or not the
      email went out. */
  lemma RequestThenReset(store: Store, email: string, token: string, expiry: int, sha: string -> string,
                         emailSent: bool, newPassword: string, now: int)
    requires EmailTaken(store, email)
    requires forall j :: 0 <= j < |store| ==> store[j].resetTokenHash != Some(sha(token))
    ensures var s1 := ResetPasswordRequest(store, email, token, expiry, sha, emailSent).store;
      && (ResetPassword(s1, token, newPassword, now, sha).outcome.Respond? <==> now < expiry)
      && (now < expiry ==>
            ResetPassword(s1, token, newPassword, now, sha).store[EmailHolder(store, email).value].password == newPassword)
  {
    var i := EmailHolder(store, email).value;
    var s1 := ResetPasswordRequest(store, email, token, expiry, sha, emailSent).store;
    assert s1 == store[i := store[i].(resetTokenHash := Some(sha(token)), resetExpiry := Some(expiry))];
    forall j | 0 <= j < |s1| && j != i
      ensures !ResetValid(s1[j], sha(token), now)
    {
      assert s1[j] == store[j];
    }
    if now < expiry {
      assert ResetValid(s1[i], sha(token), now);
      FirstIndexOfUnique(s1, (u: User) => ResetValid(u, sha(token), now), i);
      assert ResetHolder(s1, sha(token), now) == Some(i);
    } else {
      assert !ResetValid(s1[i], sha(token), now);
    }
  }
}
