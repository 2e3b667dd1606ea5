/** The users application: accounts with unique login and e-mail, and the
    Follow relation between a subscriber and an author. */
module UserModels {
  import opened Common

  /** An account. The password and the djoser token are not modelled. */
  datatype User = User(username: string, email: string, firstName: string, lastName: string)

  /** A Follow row: `user` subscribes to `author`. The unique constraint
      `unique_follow` on (user, author) makes the table a set. Nothing forbids
      `user == author`. */
  datatype Follow = Follow(user: UserId, author: UserId)

  predicate UniqueUsernames(users: map<UserId, User>)
  {
    forall a, b :: a in users && b in users && a != b ==> users[a].username != users[b].username
  }

  predicate UniqueEmails(users: map<UserId, User>)
  {
    forall a, b :: a in users && b in users && a != b ==> users[a].email != users[b].email
  }

  /** Whether inserting an account with these fields would break a unique
      constraint. */
  predicate Clashes(users: map<UserId, User>, u: User)
  {
    exists k :: k in users && (users[k].username == u.username || users[k].email == u.email)
  }

  /** The Follow rows that survive deleting a user: CASCADE on both foreign
      keys. */
  function FollowsWithout(follows: set<Follow>, gone: UserId): set<Follow>
  {
    set f | f in follows && f.user != gone && f.author != gone
  }
}
