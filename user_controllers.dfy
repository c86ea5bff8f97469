/**
 * The decision logic of the user controller of the authentication backend
 * and the per-user refresh-token state it maintains.
 *
 * The document store is a map from user id to user record. What the
 * controller obtains from outside is a parameter: the tokens that signing
 * produces, the user id that verifying a presented refresh token yields,
 * what the upload helper gives back, the fresh id the store assigns. Password
 * hashing and comparison are functions fixed when the controller is built.
 */
module UserControllers {
  import opened Wrappers
  import opened JsBuiltins

  type UserId = nat

  /** A stored user. `password` holds the hash the schema's pre-save hook
      computes; `refreshToken` is the one refresh token the server accepts
      for the user, if any. */
  datatype User = User(
    fullname: string,
    username: string,
    email: string,
    password: string,
    avatar: string,
    coverImage: string,
    refreshToken: Option<string>)

  /** A user as sent to clients: without password and refresh token. */
  datatype Profile = Profile(
    id: UserId,
    fullname: string,
    username: string,
    email: string,
    avatar: string,
    coverImage: string)

  datatype TokenPair = TokenPair(accessToken: string, refreshToken: string)

  datatype Data =
    | NoData
    | UserProfile(profile: Profile)
    | Session(user: Profile, tokens: TokenPair)
    | Tokens(tokens: TokenPair)

  /** A successful reply: HTTP status, payload and message. */
  datatype ApiResponse = ApiResponse(status: int, data: Data, message: string)

  /** A failed request: an `ApiError` with its status and message, or an
      exception of another kind (a `TypeError` on a missing document), whose
      response the error middleware decides. */
  datatype ErrorReply = ApiError(status: int, message: string) | Uncaught

  type Reply = Result<ApiResponse, ErrorReply>

  const TokenGenerationFailed := ApiError(500, "Something went wrong while generating the access token")
  const FieldsRequired := ApiError(400, "All fields are required")
  const UserExists := ApiError(409, "User already exists")
  const AvatarMissing := ApiError(400, "Avatar file is missing")
  const AvatarUploadFailed := ApiError(500, "Failure uploading avatar on cloudinary")
  const CoverUploadFailed := ApiError(500, "Failure uploading coverImage on cloudinary")
  const CreateFailed := ApiError(500, "Something went wrong while registering the user and images were deleted")
  const LoginIdentifierRequired := ApiError(400, "Username or email is required")
  const NoSuchUser := ApiError(404, "User does not exist")
  const InvalidCredentials := ApiError(401, "Invalid user credentials")
  const RefreshTokenRequired := ApiError(401, "Rrequired refresh token")
  const RefreshFailed := ApiError(401, "Something went wrong while refreshing the access token")
  const InvalidOldPassword := ApiError(400, "Invalid old password")
  const DetailsRequired := ApiError(400, "Fullname and email are required")

  function ProfileOf(id: UserId, u: User): Profile {
    Profile(id, u.fullname, u.username, u.email, u.avatar, u.coverImage)
  }

  // ---------------------------------------------------------------------
  // Refresh tokens
  // ---------------------------------------------------------------------

  /** `token` is the refresh token stored on user `id`, the only one a
      refresh request for that user can succeed with. */
  predicate Accepts(users: map<UserId, User>, id: UserId, token: string) {
    id in users && users[id].refreshToken == Some(token)
  }

  /** The store after a token pair is issued to `id`: the new refresh token
      replaces whatever was stored. */
  function Rotated(users: map<UserId, User>, id: UserId, token: string): (r: map<UserId, User>)
    requires id in users
    ensures r.Keys == users.Keys
    ensures Accepts(r, id, token)
    ensures r[id] == users[id].(refreshToken := Some(token))
    ensures forall other :: other in users && other != id ==> r[other] == users[other]
  {
    users[id := users[id].(refreshToken := Some(token))]
  }

  /** The store after `id` logs out: no refresh token stored for it. */
  function LoggedOut(users: map<UserId, User>, id: UserId): (r: map<UserId, User>)
    ensures r.Keys == users.Keys
    ensures forall token :: !Accepts(r, id, token)
    ensures id in users ==> r[id] == users[id].(refreshToken := None)
    ensures forall other :: other in users && other != id ==> r[other] == users[other]
  {
    if id in users then users[id := users[id].(refreshToken := None)] else users
  }

  /** The store after `id` logs out, as written, under a document mapper
      that strips `undefined` keys from an update (as Mongoose does from
      version 6 on): `$set: { refreshToken: undefined }` is then an empty
      update, and every stored token stays accepted. */
  function LoggedOutAsWritten(users: map<UserId, User>, id: UserId): (r: map<UserId, User>)
    ensures r.Keys == users.Keys
    ensures forall other, token :: Accepts(r, other, token) <==> Accepts(users, other, token)
  {
    users
  }

  /** Read that way, the refresh token a user held before logging out still
      refreshes after it; the clearing `LoggedOut` intends rejects it. */
  lemma LogoutAsWrittenKeepsToken(users: map<UserId, User>, id: UserId, token: string)
    requires Accepts(users, id, token)
    ensures RefreshAllowed(LoggedOutAsWritten(users, id), Some(token), Some(id))
    ensures !RefreshAllowed(LoggedOut(users, id), Some(token), Some(id))
  {
  }

  /** The refresh-token history after `token` is handed out to `id`. */
  ghost function Recorded(handedOut: map<UserId, seq<string>>, id: UserId, token: string): map<UserId, seq<string>> {
    handedOut[id := (if id in handedOut then handedOut[id] else []) + [token]]
  }

  /** `req.cookies.refreshToken || req.body.refreshToken`: the cookie when it
      is a non-empty string, else the body field when it is one. */
  function PresentedToken(cookie: Option<string>, body: Option<string>): (r: Option<string>)
    ensures r.Some? <==> Truthy(cookie) || Truthy(body)
    ensures r.Some? ==> r.value != "" && (r == cookie || r == body)
    ensures Truthy(cookie) ==> r == cookie
  {
    if Truthy(cookie) then cookie else if Truthy(body) then body else None
  }

  /** The checks of the refresh endpoint's try block all pass: verifying the
      presented token named a user, that user exists, and the presented
      token equals the one stored on it. */
  predicate RefreshAllowed(users: map<UserId, User>, presented: Option<string>, subject: Option<UserId>) {
    presented.Some? && subject.Some? && Accepts(users, subject.value, presented.value)
  }

  /** At most one refresh token is accepted per user. */
  lemma AtMostOneAccepted(users: map<UserId, User>, id: UserId, t1: string, t2: string)
    requires Accepts(users, id, t1) && Accepts(users, id, t2)
    ensures t1 == t2
  {
  }

  /** Issuing a new token pair makes the new refresh token the accepted one
      and revokes the previous one; other users are unaffected. */
  lemma RotationRevokesPrevious(users: map<UserId, User>, id: UserId, previous: string, next: string)
    requires id in users && previous != next
    ensures Accepts(Rotated(users, id, next), id, next)
    ensures !RefreshAllowed(Rotated(users, id, next), Some(previous), Some(id))
    ensures forall other, t :: other != id ==>
      (Accepts(Rotated(users, id, next), other, t) <==> Accepts(users, other, t))
  {
  }

  /** After logout no refresh request for the user succeeds, with any token. */
  lemma LogoutRevokesAll(users: map<UserId, User>, id: UserId, presented: Option<string>)
    ensures !RefreshAllowed(LoggedOut(users, id), presented, Some(id))
    ensures forall other, t :: other != id ==>
      (Accepts(LoggedOut(users, id), other, t) <==> Accepts(users, other, t))
  {
  }

  // ---------------------------------------------------------------------
  // Registration helpers
  // ---------------------------------------------------------------------

  /** `findOne({ $or: [{ username }, { email }] })` at registration finds a
      user: the same lookup as at login, with both keys present. */
  predicate Taken(users: map<UserId, User>, username: string, email: string)
    ensures Taken(users, username, email) <==>
      exists id :: id in users && LoginMatch(users[id], Some(username), Some(email))
  {
    exists id :: id in users && (users[id].username == username || users[id].email == email)
  }

  /** What the upload helper `uploadOnCloudinary` gives back for a local
      file: the hosted URL; null, when the upload fails and the local temp
      file is removed (03_backenddesign/src/utils/cloudinary.js:24-28); or a
      rejection, when removing the temp file throws (lines 22 and 25). */
  datatype Upload = Uploaded(url: string) | ReturnedNull | Threw

  /** The (avatar, cover image) URLs registration stores, as the code is
      written. Only a rejected upload reaches its catch block. A null avatar
      surfaces only when the user document is built (a TypeError, reported
      as `CreateFailed`), and a null cover is stored as "", as if none had
      been sent. */
  function StoredImagesAsWritten(avatarUpload: Upload, coverPath: Option<string>, coverUpload: Upload)
    : (r: Result<(string, string), ErrorReply>)
    ensures r.Success? <==> avatarUpload.Uploaded? && !(Truthy(coverPath) && coverUpload.Threw?)
    ensures avatarUpload.Threw? ==> r == Failure(AvatarUploadFailed)
    ensures !avatarUpload.Threw? && Truthy(coverPath) && coverUpload.Threw? ==> r == Failure(CoverUploadFailed)
    ensures avatarUpload.ReturnedNull? && !(Truthy(coverPath) && coverUpload.Threw?) ==> r == Failure(CreateFailed)
    ensures r.Success? ==> r.value.0 == avatarUpload.url
    ensures r.Success? ==> r.value.1 == (if Truthy(coverPath) && coverUpload.Uploaded? then coverUpload.url else "")
  {
    if avatarUpload.Threw? then Failure(AvatarUploadFailed)
    else if Truthy(coverPath) && coverUpload.Threw? then Failure(CoverUploadFailed)
    else if avatarUpload.ReturnedNull? then Failure(CreateFailed)
    else if Truthy(coverPath) && coverUpload.Uploaded? then Success((avatarUpload.url, coverUpload.url))
    else Success((avatarUpload.url, ""))
  }

  /** The (avatar, cover image) URLs registration stores, with each upload
      that yields no URL answered by the 500 its catch block is written to
      raise. A cover image is stored only when one was sent; none sent means
      "". */
  function StoredImages(avatarUpload: Upload, coverPath: Option<string>, coverUpload: Upload)
    : (r: Result<(string, string), ErrorReply>)
    ensures r.Success? <==> avatarUpload.Uploaded? && (Truthy(coverPath) ==> coverUpload.Uploaded?)
    ensures !avatarUpload.Uploaded? ==> r == Failure(AvatarUploadFailed)
    ensures avatarUpload.Uploaded? && Truthy(coverPath) && !coverUpload.Uploaded? ==> r == Failure(CoverUploadFailed)
    ensures r.Success? ==> r.value.0 == avatarUpload.url
    ensures r.Success? ==> r.value.1 == (if Truthy(coverPath) then coverUpload.url else "")
  {
    if !avatarUpload.Uploaded? then Failure(AvatarUploadFailed)
    else if !Truthy(coverPath) then Success((avatarUpload.url, ""))
    else if !coverUpload.Uploaded? then Failure(CoverUploadFailed)
    else Success((avatarUpload.url, coverUpload.url))
  }

  /** As written, a cover image whose upload returned null is silently
      dropped and registration goes on; the catch block meant a 500. */
  lemma CoverUploadFailureIgnored(avatarUrl: string, coverPath: Option<string>)
    requires Truthy(coverPath)
    ensures StoredImagesAsWritten(Uploaded(avatarUrl), coverPath, ReturnedNull) == Success((avatarUrl, ""))
    ensures StoredImages(Uploaded(avatarUrl), coverPath, ReturnedNull) == Failure(CoverUploadFailed)
  {
  }

  /** As written, an avatar upload that returned null is reported with the
      generic creation 500, not the avatar message its catch block meant. */
  lemma AvatarUploadFailureMisreported(coverPath: Option<string>, coverUpload: Upload)
    requires !(Truthy(coverPath) && coverUpload.Threw?)
    ensures StoredImagesAsWritten(ReturnedNull, coverPath, coverUpload) == Failure(CreateFailed)
    ensures StoredImages(ReturnedNull, coverPath, coverUpload) == Failure(AvatarUploadFailed)
  {
  }

  /** The code as written and the corrected definition give the same
      result whenever neither requested upload returned null: a rejected
      helper reaches the catch block either way. */
  lemma AsWrittenAgreesUnlessNull(avatarUpload: Upload, coverPath: Option<string>, coverUpload: Upload)
    requires !avatarUpload.ReturnedNull?
    requires Truthy(coverPath) ==> !coverUpload.ReturnedNull?
    ensures StoredImagesAsWritten(avatarUpload, coverPath, coverUpload) == StoredImages(avatarUpload, coverPath, coverUpload)
  {
  }

  /** The lookup of `findOne({ $or: [{ username }, { email }] })`: an absent
      key matches nothing. */
  predicate LoginMatch(u: User, username: Option<string>, email: Option<string>)
    ensures LoginMatch(u, username, email) ==> username == Some(u.username) || email == Some(u.email)
    ensures username.None? && email.None? ==> !LoginMatch(u, username, email)
  {
    (username.Some? && u.username == username.value) || (email.Some? && u.email == email.value)
  }

  function Last(s: seq<string>): string
    requires |s| > 0
  {
    s[|s| - 1]
  }

  // ---------------------------------------------------------------------
  // The controller
  // ---------------------------------------------------------------------

  class Controller {
    /** The user collection of the document store. */
    var users: map<UserId, User>
    /** The schema's pre-save hook: the hash stored for a plain password. */
    const hash: string -> string
    /** `user.isPasswordCorrect(plain)`: the plain password against the stored hash. */
    const passwordMatches: (string, string) -> bool
    /** Every refresh token handed out to each user, oldest first. */
    ghost var handedOut: map<UserId, seq<string>>

    /** The refresh-token invariant: a user's stored refresh token, if any,
        is the last one handed out to that user. */
    ghost predicate Valid()
      reads this
    {
      forall id :: id in users && users[id].refreshToken.Some? ==>
        id in handedOut && |handedOut[id]| > 0 && users[id].refreshToken.value == Last(handedOut[id])
    }

    constructor (hash: string -> string, passwordMatches: (string, string) -> bool)
      ensures Valid()
      ensures users == map[] && handedOut == map[]
      ensures this.hash == hash && this.passwordMatches == passwordMatches
    {
      this.hash := hash;
      this.passwordMatches := passwordMatches;
      users := map[];
      handedOut := map[];
    }

    /** Only the most recently handed-out refresh token of a user can be
        accepted; any earlier one is rejected when replayed. */
    lemma ReplayRejected(id: UserId, token: string)
      requires Valid()
      requires id in handedOut && token in handedOut[id] && token != Last(handedOut[id])
      ensures !Accepts(users, id, token)
    {
    }

    /** `generateAccessAndRefreshTokens`: the new refresh token is stored on
        the user, replacing any earlier one, and the pair is returned; an
        unknown user is a 500. */
    method GenerateAccessAndRefreshTokens(id: UserId, accessToken: string, refreshToken: string)
      returns (r: Result<TokenPair, ErrorReply>)
      requires Valid()
      modifies this
      ensures Valid()
      ensures id !in old(users) ==>
        r == Failure(TokenGenerationFailed) && users == old(users) && handedOut == old(handedOut)
      ensures id in old(users) ==>
        && r == Success(TokenPair(accessToken, refreshToken))
        && users == Rotated(old(users), id, refreshToken)
        && handedOut == Recorded(old(handedOut), id, refreshToken)
    {
      if id !in users {
        r := Failure(TokenGenerationFailed);
        return;
      }
      handedOut := Recorded(handedOut, id, refreshToken);
      users := Rotated(users, id, refreshToken);
      r := Success(TokenPair(accessToken, refreshToken));
    }

    /** `registerUser`, as written: blank fields are a 400, an existing
        username or email a 409 (checked before any upload), a missing avatar
        a 400. A rejected upload is its catch block's 500; a null avatar
        upload is the generic 500 of the creation step; a null cover upload
        is stored as "". Otherwise the user is
        stored with the hashed password, the uploaded image URLs and no
        refresh token, and its profile is sent with 201. */
    method RegisterUser(
      fullname: Option<string>, email: Option<string>, username: Option<string>, password: Option<string>,
      avatarPath: Option<string>, coverPath: Option<string>,
      avatarUpload: Upload, coverUpload: Upload,
      newId: UserId)
      returns (reply: Reply)
      requires Valid()
      requires newId !in users
      modifies this
      ensures Valid() && handedOut == old(handedOut)
      ensures reply.Failure? ==> users == old(users)
      ensures IsBlank(fullname) || IsBlank(username) || IsBlank(email) || IsBlank(password) ==>
        reply == Failure(FieldsRequired)
      ensures !(IsBlank(fullname) || IsBlank(username) || IsBlank(email) || IsBlank(password)) ==>
        && (Taken(old(users), username.value, email.value) ==> reply == Failure(UserExists))
        && (!Taken(old(users), username.value, email.value) && !Truthy(avatarPath) ==>
              reply == Failure(AvatarMissing))
        && (!Taken(old(users), username.value, email.value) && Truthy(avatarPath) ==>
              match StoredImagesAsWritten(avatarUpload, coverPath, coverUpload)
              case Failure(e) => reply == Failure(e)
              case Success(images) =>
                var u := User(fullname.value, username.value, email.value, hash(password.value),
                              images.0, images.1, None);
                && users == old(users)[newId := u]
                && reply == Success(ApiResponse(201, UserProfile(ProfileOf(newId, u)), "Users registered successfully")))
      ensures (!(IsBlank(fullname) || IsBlank(username) || IsBlank(email) || IsBlank(password))
               && !Taken(old(users), username.value, email.value) && Truthy(avatarPath)) ==>
        && (avatarUpload.Threw? ==> reply == Failure(AvatarUploadFailed))
        && (!avatarUpload.Threw? && Truthy(coverPath) && coverUpload.Threw? ==> reply == Failure(CoverUploadFailed))
        && (avatarUpload.ReturnedNull? && !(Truthy(coverPath) && coverUpload.Threw?) ==> reply == Failure(CreateFailed))
        && (avatarUpload.Uploaded? && !(Truthy(coverPath) && coverUpload.Threw?) ==>
              && reply.Success? && newId in users && users[newId].avatar == avatarUpload.url
              && users[newId].coverImage == (if Truthy(coverPath) && coverUpload.Uploaded? then coverUpload.url else ""))
      ensures reply.Success? ==>
        forall id :: id in old(users) ==>
          users[id].username != users[newId].username && users[id].email != users[newId].email
    {
      if IsBlank(fullname) || IsBlank(username) || IsBlank(email) || IsBlank(password) {
        reply := Failure(FieldsRequired);
        return;
      }
      if Taken(users, username.value, email.value) {
        reply := Failure(UserExists);
        return;
      }
      if !Truthy(avatarPath) {
        reply := Failure(AvatarMissing);
        return;
      }
      match StoredImagesAsWritten(avatarUpload, coverPath, coverUpload)
      case Failure(e) =>
        reply := Failure(e);
      case Success(images) =>
        var u := User(fullname.value, username.value, email.value, hash(password.value),
                      images.0, images.1, None);
        assert forall id :: id in users ==> users[id].username != u.username && users[id].email != u.email;
        users := users[newId := u];
        reply := Success(ApiResponse(201, UserProfile(ProfileOf(newId, u)), "Users registered successfully"));
    }

    /** `loginUser`: neither username nor email is a 400, no matching user a
        404, a wrong password a 401; otherwise a token pair is issued to the
        matching user, whose stored refresh token becomes the new one. When
        several users match, the store returns one of them. */
    method LoginUser(username: Option<string>, email: Option<string>, password: string,
                     accessToken: string, refreshToken: string)
      returns (reply: Reply)
      requires Valid()
      modifies this
      ensures Valid()
      ensures reply.Failure? ==> users == old(users) && handedOut == old(handedOut)
      ensures !Truthy(username) && !Truthy(email) ==> reply == Failure(LoginIdentifierRequired)
      ensures (Truthy(username) || Truthy(email)) ==>
        && ((forall id :: id in old(users) ==> !LoginMatch(old(users)[id], username, email)) <==>
              reply == Failure(NoSuchUser))
        && (reply == Failure(InvalidCredentials) ==>
              exists id :: id in old(users) && LoginMatch(old(users)[id], username, email)
                && !passwordMatches(password, old(users)[id].password))
        && (reply.Failure? ==> reply == Failure(NoSuchUser) || reply == Failure(InvalidCredentials))
      ensures reply.Success? ==>
        exists id :: id in old(users) && LoginMatch(old(users)[id], username, email)
          && passwordMatches(password, old(users)[id].password)
          && users == Rotated(old(users), id, refreshToken)
          && handedOut == Recorded(old(handedOut), id, refreshToken)
          && reply.value == ApiResponse(200, Session(ProfileOf(id, users[id]), TokenPair(accessToken, refreshToken)),
                                        "User logged in successfully")
    {
      if !Truthy(username) && !Truthy(email) {
        reply := Failure(LoginIdentifierRequired);
        return;
      }
      if forall id :: id in users ==> !LoginMatch(users[id], username, email) {
        reply := Failure(NoSuchUser);
        return;
      }
      var id :| id in users && LoginMatch(users[id], username, email);
      if !passwordMatches(password, users[id].password) {
        reply := Failure(InvalidCredentials);
        return;
      }
      var issued := GenerateAccessAndRefreshTokens(id, accessToken, refreshToken);
      reply := Success(ApiResponse(200, Session(ProfileOf(id, users[id]), issued.value), "User logged in successfully"));
    }

    /** `logoutUser`: the authenticated user's stored refresh token is
        cleared (nothing changes for an unknown id) and 200 is sent. This is
        the clearing the update intends; `LoggedOutAsWritten` is the store
        under a mapper that strips the `undefined` key. */
    method LogoutUser(id: UserId) returns (reply: Reply)
      requires Valid()
      modifies this
      ensures Valid() && handedOut == old(handedOut)
      ensures users == LoggedOut(old(users), id)
      ensures forall token :: !Accepts(users, id, token)
      ensures reply == Success(ApiResponse(200, NoData, "User logged out successfully"))
    {
      users := LoggedOut(users, id);
      reply := Success(ApiResponse(200, NoData, "User logged out successfully"));
    }

    /** `refreshAccessToken`: no presented token is a 401; every failure of
        the verify, lookup and compare steps (including the user-not-found
        404 thrown inside them) becomes the same 401 and changes nothing.
        Otherwise a new pair is issued and the presented token stops being
        accepted, unless signing produced the very same token. */
    method RefreshAccessToken(cookie: Option<string>, body: Option<string>, subject: Option<UserId>,
                              accessToken: string, refreshToken: string)
      returns (reply: Reply)
      requires Valid()
      modifies this
      ensures Valid()
      ensures reply.Failure? ==> users == old(users) && handedOut == old(handedOut)
      ensures PresentedToken(cookie, body).None? ==> reply == Failure(RefreshTokenRequired)
      ensures PresentedToken(cookie, body).Some? && !RefreshAllowed(old(users), PresentedToken(cookie, body), subject) ==>
        reply == Failure(RefreshFailed)
      ensures reply.Success? <==> RefreshAllowed(old(users), PresentedToken(cookie, body), subject)
      ensures reply.Success? ==>
        && users == Rotated(old(users), subject.value, refreshToken)
        && handedOut == Recorded(old(handedOut), subject.value, refreshToken)
        && reply.value == ApiResponse(200, Tokens(TokenPair(accessToken, refreshToken)), "Access token refreshed successfully")
        && (refreshToken != PresentedToken(cookie, body).value ==> !Accepts(users, subject.value, PresentedToken(cookie, body).value))
    {
      var incoming := PresentedToken(cookie, body);
      if incoming.None? {
        reply := Failure(RefreshTokenRequired);
        return;
      }
      if subject.None? || subject.value !in users || users[subject.value].refreshToken != incoming {
        reply := Failure(RefreshFailed);
        return;
      }
      var issued := GenerateAccessAndRefreshTokens(subject.value, accessToken, refreshToken);
      reply := Success(ApiResponse(200, Tokens(issued.value), "Access token refreshed successfully"));
    }

    /** `changeCurrentPassword`: an unknown user fails before any check, a
        wrong old password is a 400; otherwise the new password's hash is
        stored. The stored refresh token is left as it was. */
    method ChangeCurrentPassword(id: UserId, oldPassword: string, newPassword: string)
      returns (reply: Reply)
      requires Valid()
      modifies this
      ensures Valid() && handedOut == old(handedOut)
      ensures id !in old(users) ==> reply == Failure(Uncaught) && users == old(users)
      ensures id in old(users) && !passwordMatches(oldPassword, old(users)[id].password) ==>
        reply == Failure(InvalidOldPassword) && users == old(users)
      ensures id in old(users) && passwordMatches(oldPassword, old(users)[id].password) ==>
        && users == old(users)[id := old(users)[id].(password := hash(newPassword))]
        && reply == Success(ApiResponse(200, NoData, "Password changed successfully"))
      ensures forall other, token :: Accepts(users, other, token) <==> Accepts(old(users), other, token)
    {
      if id !in users {
        reply := Failure(Uncaught);
        return;
      }
      if !passwordMatches(oldPassword, users[id].password) {
        reply := Failure(InvalidOldPassword);
        return;
      }
      users := users[id := users[id].(password := hash(newPassword))];
      reply := Success(ApiResponse(200, NoData, "Password changed successfully"));
    }

    /** `updateAccountDetails`: a missing or empty full name or email is a
        400 (no trimming here, unlike registration); otherwise both are set
        on the user and its profile is sent with 200, or no data when the id
        is unknown. Email uniqueness is not checked. */
    method UpdateAccountDetails(id: UserId, fullname: Option<string>, email: Option<string>)
      returns (reply: Reply)
      requires Valid()
      modifies this
      ensures Valid() && handedOut == old(handedOut)
      ensures !Truthy(fullname) || !Truthy(email) ==> reply == Failure(DetailsRequired) && users == old(users)
      ensures Truthy(fullname) && Truthy(email) && id !in old(users) ==>
        reply == Success(ApiResponse(200, NoData, "Account details updated successfully")) && users == old(users)
      ensures Truthy(fullname) && Truthy(email) && id in old(users) ==>
        && users == old(users)[id := old(users)[id].(fullname := fullname.value, email := email.value)]
        && reply == Success(ApiResponse(200, UserProfile(ProfileOf(id, users[id])), "Account details updated successfully"))
    {
      if !Truthy(fullname) || !Truthy(email) {
        reply := Failure(DetailsRequired);
        return;
      }
      if id !in users {
        reply := Success(ApiResponse(200, NoData, "Account details updated successfully"));
        return;
      }
      users := users[id := users[id].(fullname := fullname.value, email := email.value)];
      reply := Success(ApiResponse(200, UserProfile(ProfileOf(id, users[id])), "Account details updated successfully"));
    }
  }

  /** A session as a client sees it through the handlers' contracts: login
      issues `first`; refreshing with it issues `second`; replaying `first`
      is then rejected; after logout even `second` is rejected. */
  method SessionLifecycle(c: Controller, id: UserId, name: string, password: string,
                          first: string, second: string, third: string, access: string)
    requires c.Valid() && id in c.users
    requires c.users[id].username == name
    requires forall other :: other in c.users && other != id ==> c.users[other].username != name
    requires c.passwordMatches(password, c.users[id].password)
    requires name != "" && first != "" && second != "" && first != second
    modifies c
  {
    ghost var history := if id in c.handedOut then c.handedOut[id] else [];
    var login := c.LoginUser(Some(name), None, password, access, first);
    assert login.Success? && Accepts(c.users, id, first);

    var refreshed := c.RefreshAccessToken(Some(first), None, Some(id), access, second);
    assert refreshed.Success? && Accepts(c.users, id, second);
    assert c.handedOut[id] == history + [first] + [second];
    c.ReplayRejected(id, first);

    var replayed := c.RefreshAccessToken(Some(first), None, Some(id), access, third);
    assert replayed == Failure(RefreshFailed);

    var loggedOut := c.LogoutUser(id);
    var afterLogout := c.RefreshAccessToken(None, Some(second), Some(id), access, third);
    assert afterLogout == Failure(RefreshFailed);
  }
}
