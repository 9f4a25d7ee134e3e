/** The user record of the user table: the fields of the user schema with their defaults. */
module Users {
  import opened Options

  type UserId = string

  datatype Theme = Light | Dark | Violet

  datatype User = User(
    name: string,
    email: string,
    password: string,          // the bcrypt hash, never the plaintext
    theme: Theme,
    emailConfirmed: bool,
    avatarURL: Option<string>,
    accessToken: Option<string>,
    refreshToken: Option<string>)

  /** A user as registration creates it: unconfirmed, default theme, no avatar, no tokens. */
  function NewUser(name: string, email: string, passwordHash: string): (u: User)
    ensures u.name == name && u.email == email && u.password == passwordHash
    ensures !u.emailConfirmed && u.theme == Violet
    ensures u.avatarURL == None && u.accessToken == None && u.refreshToken == None
  {
    User(name, email, passwordHash, Violet, false, None, None, None)
  }

  /** JavaScript truthiness of an optional string field: present and not empty. */
  predicate HasToken(t: Option<string>) {
    t.Some? && t.value != ""
  }
}
