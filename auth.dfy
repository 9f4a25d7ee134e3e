/** The account handlers as transitions of the user table. bcrypt and JWT are outside the
    model: `hash` and `passwordMatches` stand for `bcrypt.hash` and `bcrypt.compare`, a
    `verify...` function for `jwt.verify` with the matching key (the id in the payload,
    or nothing when the token is rejected), and the tokens `jwt.sign` produces arrive as
    arguments. Each `save()` and `findByIdAndUpdate` that matches a user is recorded, by
    user id, in the ghost log `writes`. */
module Auth {
  import opened Options
  import opened Users

  datatype RegisterReply = Registered(email: string) | EmailInUse   // 201 | 409

  datatype ConfirmError =
    | TokenRejected   // `jwt.verify` threw
    | InvalidToken    // "Invalid token."
    | UserNotFound    // "User not found."

  datatype ConfirmReply = Confirmed(user: User) | ConfirmFailed(error: ConfirmError)

  /** 200 with the new tokens and the user's id, or 401 "Email or password is wrong". */
  datatype LoginReply = LoggedIn(accessToken: string, refreshToken: string, id: UserId) | WrongCredentials

  datatype RefreshError =
    | RefreshRejected   // `jwt.verify` threw; 403 with its message
    | TokenInvalid      // 403 "Token invalid"

  datatype RefreshReply = Refreshed(accessToken: string, refreshToken: string) | RefreshFailed(error: RefreshError)

  const ConflictStatus: int := 409
  const WrongCredentialsStatus: int := 401
  const ForbiddenStatus: int := 403

  /** `findOne({ email })` finds a document: some stored user has exactly this email. */
  predicate EmailTaken(users: map<UserId, User>, email: string)
    ensures EmailTaken(users, email) <==> exists u :: u in users.Values && u.email == email
  {
    exists id :: id in users && users[id].email == email
  }

  /** No two users share an email. */
  ghost predicate EmailsUnique(users: map<UserId, User>) {
    forall a, b :: a in users && b in users && users[a].email == users[b].email ==> a == b
  }

  /** `findOne({ refreshToken: token })` finds a document: some stored user currently
      holds exactly `token` as refresh token. */
  predicate RefreshTokenHeld(users: map<UserId, User>, token: string)
    ensures RefreshTokenHeld(users, token) <==> exists u :: u in users.Values && u.refreshToken == Some(token)
  {
    exists id :: id in users && users[id].refreshToken == Some(token)
  }

  /** The user with both tokens replaced. */
  function WithTokens(u: User, accessToken: string, refreshToken: string): (r: User)
    ensures r.accessToken == Some(accessToken) && r.refreshToken == Some(refreshToken)
    ensures r.(accessToken := u.accessToken, refreshToken := u.refreshToken) == u
  {
    u.(accessToken := Some(accessToken), refreshToken := Some(refreshToken))
  }

  class UserTable {
    var users: map<UserId, User>
    ghost var writes: seq<UserId>

    constructor (users0: map<UserId, User>)
      ensures users == users0 && writes == []
    {
      users, writes := users0, [];
    }

    /** `register`: 409 and no new user when the email is in use; otherwise a new,
        unconfirmed user storing `hash(password)`. `newId` is the fresh id the store
        assigns. */
    method Register(name: string, email: string, password: string, hash: string -> string, newId: UserId)
      returns (r: RegisterReply)
      requires newId !in users
      modifies this
      ensures r == EmailInUse <==> EmailTaken(old(users), email)
      ensures r == EmailInUse ==> users == old(users) && writes == old(writes)
      ensures r.Registered? ==>
        && r.email == email
        && users == old(users)[newId := NewUser(name, email, hash(password))]
        && !users[newId].emailConfirmed && users[newId].password == hash(password)
        && writes == old(writes) + [newId]
      ensures EmailsUnique(old(users)) ==> EmailsUnique(users)
    {
      if EmailTaken(users, email) {
        return EmailInUse;
      }
      var newUser := NewUser(name, email, hash(password));
      users := users[newId := newUser];
      writes := writes + [newId];
      r := Registered(email);
    }

    /** `confirmEmail`: fails when the token does not verify or carries another user's id,
        or when the user does not exist; otherwise the user ends confirmed, and a user
        already confirmed is neither changed nor saved, so a second call is a no-op. */
    method ConfirmEmail(userId: UserId, token: string, verifyConfirm: string -> Option<UserId>)
      returns (r: ConfirmReply)
      modifies this
      ensures verifyConfirm(token).None? ==> r == ConfirmFailed(TokenRejected)
      ensures verifyConfirm(token).Some? && verifyConfirm(token).value != userId ==> r == ConfirmFailed(InvalidToken)
      ensures verifyConfirm(token) == Some(userId) && userId !in old(users) ==> r == ConfirmFailed(UserNotFound)
      ensures r.Confirmed? <==> verifyConfirm(token) == Some(userId) && userId in old(users)
      ensures r.ConfirmFailed? ==> users == old(users) && writes == old(writes)
      ensures r.Confirmed? ==>
        && r.user == old(users)[userId].(emailConfirmed := true)
        && users == old(users)[userId := r.user]
        && writes == old(writes) + (if old(users)[userId].emailConfirmed then [] else [userId])
      ensures r.Confirmed? && old(users)[userId].emailConfirmed ==> users == old(users) && writes == old(writes)
      ensures EmailsUnique(old(users)) ==> EmailsUnique(users)
    {
      var decoded := verifyConfirm(token);
      if decoded.None? {
        return ConfirmFailed(TokenRejected);
      }
      if decoded.value != userId {
        return ConfirmFailed(InvalidToken);
      }
      if userId !in users {
        return ConfirmFailed(UserNotFound);
      }
      var user := users[userId];
      if !user.emailConfirmed {
        user := user.(emailConfirmed := true);
        users := users[userId := user];
        writes := writes + [userId];
      }
      r := Confirmed(user);
    }

    /** `login`: the same 401 for an unknown email and for a wrong password; on success
        the new access and refresh tokens are stored on that user and nothing else changes. */
    method Login(email: string, password: string, passwordMatches: (string, string) -> bool,
                 accessToken: string, refreshToken: string)
      returns (r: LoginReply)
      modifies this
      ensures !EmailTaken(old(users), email) ==> r == WrongCredentials
      ensures r == WrongCredentials ==> users == old(users) && writes == old(writes)
      ensures r.LoggedIn? ==>
        && r.accessToken == accessToken && r.refreshToken == refreshToken
        && r.id in old(users) && old(users)[r.id].email == email
        && passwordMatches(password, old(users)[r.id].password)
        && users == old(users)[r.id := WithTokens(old(users)[r.id], accessToken, refreshToken)]
        && writes == old(writes) + [r.id]
      ensures EmailsUnique(old(users)) ==>
        (r.LoggedIn? <==> exists id :: id in old(users) && old(users)[id].email == email
                                       && passwordMatches(password, old(users)[id].password))
      ensures EmailsUnique(old(users)) ==> EmailsUnique(users)
    {
      if !EmailTaken(users, email) {
        return WrongCredentials;
      }
      var id :| id in users && users[id].email == email;
      if !passwordMatches(password, users[id].password) {
        return WrongCredentials;
      }
      users := users[id := WithTokens(users[id], accessToken, refreshToken)];
      writes := writes + [id];
      r := LoggedIn(accessToken, refreshToken, id);
    }

    /** `refresh`: 403 unless the token verifies and some user stores exactly it; then both
        tokens are replaced on the user the token's payload names (which matches nothing,
        and writes nothing, when that user is gone). */
    method Refresh(token: string, verifyRefresh: string -> Option<UserId>,
                   accessToken: string, refreshToken: string)
      returns (r: RefreshReply)
      modifies this
      ensures verifyRefresh(token).None? ==> r == RefreshFailed(RefreshRejected)
      ensures verifyRefresh(token).Some? && !RefreshTokenHeld(old(users), token) ==> r == RefreshFailed(TokenInvalid)
      ensures r.Refreshed? <==> verifyRefresh(token).Some? && RefreshTokenHeld(old(users), token)
      ensures r.RefreshFailed? ==> users == old(users) && writes == old(writes)
      ensures r.Refreshed? ==>
        var id := verifyRefresh(token).value;
        && r == Refreshed(accessToken, refreshToken)
        && (id in old(users) ==>
              users == old(users)[id := WithTokens(old(users)[id], accessToken, refreshToken)]
              && writes == old(writes) + [id])
        && (id !in old(users) ==> users == old(users) && writes == old(writes))
      ensures EmailsUnique(old(users)) ==> EmailsUnique(users)
    {
      var decoded := verifyRefresh(token);
      if decoded.None? {
        return RefreshFailed(RefreshRejected);
      }
      if !RefreshTokenHeld(users, token) {
        return RefreshFailed(TokenInvalid);
      }
      var id := decoded.value;
      if id in users {
        users := users[id := WithTokens(users[id], accessToken, refreshToken)];
        writes := writes + [id];
      }
      r := Refreshed(accessToken, refreshToken);
    }

    /** `logout`: both tokens of the signed-in user become `""`, no other field changes. */
    method Logout(id: UserId)
      modifies this
      ensures id in old(users) ==>
        && users == old(users)[id := WithTokens(old(users)[id], "", "")]
        && !HasToken(users[id].accessToken) && !HasToken(users[id].refreshToken)
        && writes == old(writes) + [id]
      ensures id !in old(users) ==> users == old(users) && writes == old(writes)
      ensures EmailsUnique(old(users)) ==> EmailsUnique(users)
    {
      if id in users {
        users := users[id := WithTokens(users[id], "", "")];
        writes := writes + [id];
      }
    }
  }
}
