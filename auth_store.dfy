/**
  The client's auth store: three fields overwritten together by setAuth,
  logout and updateUser, plus the 'token' entry of localStorage that setAuth
  writes and logout removes.
*/
module ClientAuth {

  datatype Option<T> = None | Some(value: T)

  /** The client's User shape; profile_image and bio are optional. */
  datatype User = User(id: int, username: string, email: string, profileImage: Option<string>, bio: Option<string>)

  /** A Partial<User>: each field is present (Some) or absent (None). */
  datatype UserPatch = UserPatch(
    id: Option<int>,
    username: Option<string>,
    email: Option<string>,
    profileImage: Option<string>,
    bio: Option<string>)

  function Pick<T>(update: Option<T>, current: T): T {
    if update.Some? then update.value else current
  }

  /** `{ ...user, ...updates }`: fields present in the patch override. */
  function Merge(u: User, p: UserPatch): (v: User)
    ensures p.id.None? ==> v.id == u.id
    ensures p.id.Some? ==> v.id == p.id.value
    ensures p.username.None? ==> v.username == u.username
    ensures p.username.Some? ==> v.username == p.username.value
    ensures p.email.None? ==> v.email == u.email
    ensures p.email.Some? ==> v.email == p.email.value
    ensures p.profileImage.None? ==> v.profileImage == u.profileImage
    ensures p.profileImage.Some? ==> v.profileImage == p.profileImage
    ensures p.bio.None? ==> v.bio == u.bio
    ensures p.bio.Some? ==> v.bio == p.bio
  {
    User(Pick(p.id, u.id), Pick(p.username, u.username), Pick(p.email, u.email),
         if p.profileImage.Some? then p.profileImage else u.profileImage,
         if p.bio.Some? then p.bio else u.bio)
  }

  /** The empty patch changes nothing, and patching twice is patching once
      with the later fields winning. */
  lemma MergeLaws(u: User, p: UserPatch, q: UserPatch)
    ensures Merge(u, UserPatch(None, None, None, None, None)) == u
    ensures Merge(Merge(u, p), q) == Merge(u, UserPatch(
      if q.id.Some? then q.id else p.id,
      if q.username.Some? then q.username else p.username,
      if q.email.Some? then q.email else p.email,
      if q.profileImage.Some? then q.profileImage else p.profileImage,
      if q.bio.Some? then q.bio else p.bio))
  {
  }

  class AuthStore {
    var user: Option<User>
    var token: Option<string>
    var isAuthenticated: bool
    /** localStorage.getItem('token') */
    var storedToken: Option<string>

    /** Signed in exactly when there is a user and exactly when there is a
        token, and a held token is the one in localStorage. */
    ghost predicate Valid()
      reads this
    {
      && (isAuthenticated <==> user.Some?)
      && (user.Some? <==> token.Some?)
      && (token.Some? ==> storedToken == token)
    }

    /** The store's initial state; localStorage keeps whatever it held. */
    constructor (saved: Option<string>)
      ensures Valid()
      ensures user.None? && token.None? && !isAuthenticated
      ensures storedToken == saved
    {
      user := None;
      token := None;
      isAuthenticated := false;
      storedToken := saved;
    }

    method SetAuth(u: User, t: string)
      modifies this
      ensures Valid()
      ensures user == Some(u) && token == Some(t) && isAuthenticated
      ensures storedToken == Some(t)
    {
      storedToken := Some(t);
      user, token, isAuthenticated := Some(u), Some(t), true;
    }

    method Logout()
      modifies this
      ensures Valid()
      ensures user.None? && token.None? && !isAuthenticated
      ensures storedToken.None?
    {
      storedToken := None;
      user, token, isAuthenticated := None, None, false;
    }

    method UpdateUser(updates: UserPatch)
      requires Valid()
      modifies this`user
      ensures Valid()
      ensures old(user).None? ==> user.None?
      ensures old(user).Some? ==> user == Some(Merge(old(user).value, updates))
      ensures token == old(token) && isAuthenticated == old(isAuthenticated)
    {
      user := if user.Some? then Some(Merge(user.value, updates)) else None;
    }
  }
}
