/** AuthService: registration, login, and the password-reset token
    lifecycle (issue, check, consume). The password hash (SHA-256 in Base64),
    the JWT issuer and the Guid of a reset token are parameters; the clock is
    the parameter `now`. */
module Auth {
  import opened Common
  import opened Query
  import opened Tables

  /** A reset token is valid for one hour. */
  const ResetTokenLifetime: int := Hour

  datatype UserResponse = UserResponse(
    id: int,
    username: string,
    email: string,
    avatarUrl: Option<string>,
    bio: Option<string>,
    createdAt: int)

  datatype AuthResponse = AuthResponse(token: string, user: UserResponse)

  datatype AuthError =
    | EmailInUse          // "Bu e-posta zaten kullaniliyor."
    | WrongCredentials    // "E-posta veya sifre hatali."
    | InvalidResetToken   // "Geçersiz veya süresi dolmuş token."

  function HasEmail(email: string): User -> bool
  {
    (u: User) => u.email == email
  }

  /** Users.FirstOrDefaultAsync(u => u.Email == email), as an index. */
  function UserIndexByEmail(users: seq<User>, email: string): Option<nat>
  {
    FirstWhere(HasEmail(email), users)
  }

  function Response(jwt: User -> string, u: User): AuthResponse
  {
    AuthResponse(jwt(u), UserResponse(u.id, u.username, u.email, u.avatarUrl, u.bio, u.createdAt))
  }

  /** The row RegisterAsync stores: the hash of the password, never the
      password, no bio and no reset token. */
  function NewUser(id: int, username: string, email: string, passwordHash: string, avatarUrl: Option<string>, now: int)
    : User
  {
    User(id, username, email, passwordHash, avatarUrl, None, now, None, None)
  }

  /** LoginAsync on the user table. */
  function LoginResult(users: seq<User>, hash: string -> string, jwt: User -> string, email: string, password: string)
    : Result<AuthResponse, AuthError>
  {
    match UserIndexByEmail(users, email)
    case None => Failure(WrongCredentials)
    case Some(i) =>
      if hash(password) != users[i].passwordHash then Failure(WrongCredentials)
      else Success(Response(jwt, users[i]))
  }

  /** With unique e-mail addresses, a login succeeds exactly when a user has
      that address and the hash of the password is the stored hash, and it
      answers for that user. */
  lemma LoginIff(users: seq<User>, hash: string -> string, jwt: User -> string, email: string, password: string)
    requires EmailsUnique(users)
    ensures LoginResult(users, hash, jwt, email, password).Success? <==>
            exists k :: 0 <= k < |users| && users[k].email == email && users[k].passwordHash == hash(password)
    ensures LoginResult(users, hash, jwt, email, password).Success? ==>
            var r := LoginResult(users, hash, jwt, email, password).value;
            r.user.email == email &&
            exists k :: 0 <= k < |users| && users[k].id == r.user.id && users[k].passwordHash == hash(password)
  {
    if exists k :: 0 <= k < |users| && users[k].email == email && users[k].passwordHash == hash(password) {
      var k :| 0 <= k < |users| && users[k].email == email && users[k].passwordHash == hash(password);
      var i := UserIndexByEmail(users, email).value;
      SameEmailSameUser(users, i, k);
    }
  }

  /** Under unique e-mail addresses, an address names one row. */
  lemma SameEmailSameUser(users: seq<User>, i: nat, k: nat)
    requires EmailsUnique(users)
    requires i < |users| && k < |users| && users[i].email == users[k].email
    ensures i == k
  {
  }

  /** The user table after the reset token of `email` is set. */
  function WithResetToken(users: seq<User>, email: string, token: string, now: int): seq<User>
  {
    match UserIndexByEmail(users, email)
    case None => users
    case Some(i) => users[i := users[i].(resetToken := Some(token), resetExpires := Some(now + ResetTokenLifetime))]
  }

  /** ResetPasswordAsync's check: the user exists, the stored token is the
      given one, and the expiry is not before now (a null expiry is not). */
  predicate CanReset(users: seq<User>, email: string, token: string, now: int)
  {
    var i := UserIndexByEmail(users, email);
    i.Some? && users[i.value].resetToken == Some(token) &&
    !(users[i.value].resetExpires.Some? && users[i.value].resetExpires.value < now)
  }

  /** ResetPasswordAsync on the user table. */
  function ResetResult(users: seq<User>, email: string, token: string, newHash: string, now: int)
    : Result<seq<User>, AuthError>
  {
    if !CanReset(users, email, token, now) then Failure(InvalidResetToken)
    else
      var i := UserIndexByEmail(users, email).value;
      Success(users[i := users[i].(passwordHash := newHash, resetToken := None, resetExpires := None)])
  }

  /** Changing one user's password or token keeps addresses and the pairing
      of token and expiry. */
  lemma UpdateKeepsInvariants(users: seq<User>, i: nat, u: User)
    requires i < |users| && EmailsUnique(users) && ResetTokensPaired(users)
    requires u.email == users[i].email
    requires u.resetToken.Some? <==> u.resetExpires.Some?
    ensures EmailsUnique(users[i := u]) && ResetTokensPaired(users[i := u])
  {
    var after := users[i := u];
    forall a, b | 0 <= a < b < |after| ensures after[a].email != after[b].email {
      assert after[a].email == users[a].email && after[b].email == users[b].email;
    }
  }

  /** The whole reset lifecycle: after a token is issued for a user, the same
      token within the hour resets the password, the new password then logs
      in, the old token is cleared, and the same token cannot be used again. */
  lemma ResetLifecycle(users: seq<User>, hash: string -> string, jwt: User -> string, email: string, token: string,
                       issuedAt: int, usedAt: int, newPassword: string)
    requires EmailsUnique(users)
    requires exists k :: 0 <= k < |users| && users[k].email == email
    requires usedAt <= issuedAt + ResetTokenLifetime
    ensures var issued := WithResetToken(users, email, token, issuedAt);
            var reset := ResetResult(issued, email, token, hash(newPassword), usedAt);
            reset.Success? &&
            LoginResult(reset.value, hash, jwt, email, newPassword).Success? &&
            ResetResult(reset.value, email, token, hash(newPassword), usedAt).Failure?
  {
    var i := UserIndexByEmail(users, email).value;
    var issued := WithResetToken(users, email, token, issuedAt);
    UpdateKeepsIndex(users, i, issued[i], email);
    var reset := ResetResult(issued, email, token, hash(newPassword), usedAt).value;
    UpdateKeepsIndex(issued, i, reset[i], email);
  }

  /** Updating a user without changing the e-mail address keeps every lookup by address. */
  lemma UpdateKeepsIndex(users: seq<User>, i: nat, u: User, email: string)
    requires i < |users| && u.email == users[i].email
    ensures UserIndexByEmail(users[i := u], email) == UserIndexByEmail(users, email)
  {
    var after := users[i := u];
    assert forall k :: 0 <= k < |after| ==> HasEmail(email)(after[k]) == HasEmail(email)(users[k]);
    var a, b := UserIndexByEmail(after, email), UserIndexByEmail(users, email);
    if a.Some? && b.Some? {
      assert !(a.value < b.value) && !(b.value < a.value);
    }
  }

  /** A token used after its hour has passed is refused. */
  lemma ExpiredTokenRefused(users: seq<User>, email: string, token: string, issuedAt: int, usedAt: int, newHash: string)
    requires exists k :: 0 <= k < |users| && users[k].email == email
    requires usedAt > issuedAt + ResetTokenLifetime
    ensures ResetResult(WithResetToken(users, email, token, issuedAt), email, token, newHash, usedAt) == Failure(InvalidResetToken)
  {
    var i := UserIndexByEmail(users, email).value;
    var issued := WithResetToken(users, email, token, issuedAt);
    UpdateKeepsIndex(users, i, issued[i], email);
  }

  class AuthService {
    const db: Database
    /** HashPassword: SHA-256 of the UTF-8 bytes, in Base64. */
    const hash: string -> string
    /** JwtService.GenerateToken */
    const jwt: User -> string

    constructor (db: Database, hash: string -> string, jwt: User -> string)
      ensures this.db == db && this.hash == hash && this.jwt == jwt
    {
      this.db := db;
      this.hash := hash;
      this.jwt := jwt;
    }

    /** RegisterAsync: a taken address fails and stores nothing; otherwise one
        user is added with the hash of the password, and a token is issued
        for it. */
    method Register(username: string, email: string, password: string, avatarUrl: Option<string>, now: int)
      returns (r: Result<AuthResponse, AuthError>)
      requires db.Valid()
      modifies db`users, db`nextUserId
      ensures db.Valid()
      ensures (exists k :: 0 <= k < |old(db.users)| && old(db.users)[k].email == email) ==>
                r == Failure(EmailInUse) && db.users == old(db.users) && db.nextUserId == old(db.nextUserId)
      ensures (forall k :: 0 <= k < |old(db.users)| ==> old(db.users)[k].email != email) ==>
                db.users == old(db.users) + [NewUser(old(db.nextUserId), username, email, hash(password), avatarUrl, now)] &&
                db.nextUserId == old(db.nextUserId) + 1 &&
                r == Success(Response(jwt, NewUser(old(db.nextUserId), username, email, hash(password), avatarUrl, now)))
    {
      // Users.AnyAsync(u => u.Email == email)
      var i := 0;
      while i < |db.users|
        invariant 0 <= i <= |db.users|
        invariant forall k :: 0 <= k < i ==> db.users[k].email != email
      {
        if db.users[i].email == email {
          return Failure(EmailInUse);
        }
        i := i + 1;
      }
      var user := NewUser(db.nextUserId, username, email, hash(password), avatarUrl, now);
      db.users := db.users + [user];
      db.nextUserId := db.nextUserId + 1;
      r := Success(Response(jwt, user));
    }

    /** LoginAsync */
    function Login(email: string, password: string): (r: Result<AuthResponse, AuthError>)
      reads db
      ensures r.Success? ==>
                exists k :: 0 <= k < |db.users| && db.users[k].email == email &&
                  db.users[k].passwordHash == hash(password) && r.value == Response(jwt, db.users[k])
      ensures (forall k :: 0 <= k < |db.users| ==> db.users[k].email != email) ==> r == Failure(WrongCredentials)
    {
      LoginResult(db.users, hash, jwt, email, password)
    }

    /** GeneratePasswordResetTokenAsync: for a known address the token and an
        expiry one hour ahead are stored; an unknown address changes nothing.
        The e-mail with the reset link is not part of this model. */
    method GeneratePasswordResetToken(email: string, token: string, now: int)
      requires db.Valid()
      modifies db`users
      ensures db.Valid()
      ensures db.users == WithResetToken(old(db.users), email, token, now)
    {
      var i := 0;
      while i < |db.users| && db.users[i].email != email
        invariant 0 <= i <= |db.users|
        invariant forall k :: 0 <= k < i ==> db.users[k].email != email
      {
        i := i + 1;
      }
      if i == |db.users| {
        return;
      }
      var user := db.users[i].(resetToken := Some(token), resetExpires := Some(now + ResetTokenLifetime));
      UpdateKeepsInvariants(db.users, i, user);
      db.users := db.users[i := user];
    }

    /** ResetPasswordAsync: a missing user, another token or an expired one
        fails and changes nothing; otherwise the new password's hash is stored
        and the token is cleared. */
    method ResetPassword(email: string, token: string, newPassword: string, now: int)
      returns (r: Result<(), AuthError>)
      requires db.Valid()
      modifies db`users
      ensures db.Valid()
      ensures r.Success? <==> CanReset(old(db.users), email, token, now)
      ensures r.Failure? ==> r.error == InvalidResetToken && db.users == old(db.users)
      ensures r.Success? ==> Success(db.users) == ResetResult(old(db.users), email, token, hash(newPassword), now)
    {
      var i := 0;
      while i < |db.users| && db.users[i].email != email
        invariant 0 <= i <= |db.users|
        invariant forall k :: 0 <= k < i ==> db.users[k].email != email
      {
        i := i + 1;
      }
      if i == |db.users| || db.users[i].resetToken != Some(token) ||
         (db.users[i].resetExpires.Some? && db.users[i].resetExpires.value < now) {
        return Failure(InvalidResetToken);
      }
      var user := db.users[i].(passwordHash := hash(newPassword), resetToken := None, resetExpires := None);
      UpdateKeepsInvariants(db.users, i, user);
      db.users := db.users[i := user];
      r := Success(());
    }
  }

  /** Registering a new address and then logging in with the same password
      succeeds, for the registered user. */
  lemma RegisterThenLogin(users: seq<User>, hash: string -> string, jwt: User -> string, id: int, username: string,
                          email: string, password: string, avatarUrl: Option<string>, now: int)
    requires forall k :: 0 <= k < |users| ==> users[k].email != email
    ensures var after := users + [NewUser(id, username, email, hash(password), avatarUrl, now)];
            LoginResult(after, hash, jwt, email, password) == Success(Response(jwt, after[|users|]))
  {
    var after := users + [NewUser(id, username, email, hash(password), avatarUrl, now)];
    assert forall k :: 0 <= k < |users| ==> after[k] == users[k];
  }

  /** Registration keeps e-mail addresses unique. */
  lemma RegisterKeepsEmailsUnique(users: seq<User>, u: User)
    requires EmailsUnique(users)
    requires forall k :: 0 <= k < |users| ==> users[k].email != u.email
    ensures EmailsUnique(users + [u])
  {
  }
}
