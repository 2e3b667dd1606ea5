/** The user viewset's subscription actions: following and unfollowing an
    author, and listing one's subscriptions. */
module UserViews {
  import opened Common
  import opened UserModels
  import opened Database
  import Serializers

  /** What `subscribe` does to the Follow table, and its status.
      `IsAuthenticated` refuses the anonymous user, `get_object_or_404` an
      unknown author. POST inserts the row (a second insert breaks
      `unique_follow`; nothing stops a user following themself). Every other
      method answers 204, DELETE after removing the row if there is one. */
  function FollowAction(follows: set<Follow>, users: map<UserId, User>, viewer: Viewer, verb: HttpMethod,
                        author: UserId): (r: (Status, set<Follow>))
    ensures viewer.Anonymous? ==> r == (NotAuthenticated401, follows)
    ensures viewer.Authenticated? && author !in users ==> r == (NotFound404, follows)
    ensures viewer.Authenticated? ==> forall f :: f != Follow(viewer.id, author) ==> (f in r.1 <==> f in follows)
    ensures r.0 == Created201 <==> viewer.Authenticated? && author in users && verb == Post && Follow(viewer.id, author) !in follows
    ensures r.0 == Created201 ==> Follow(viewer.id, author) in r.1
    ensures viewer.Authenticated? && author in users && verb != Post ==> r.0 == NoContent204
    ensures r.0 == NoContent204 && verb == Delete ==> Follow(viewer.id, author) !in r.1
    ensures verb != Delete && r.0 != Created201 ==> r.1 == follows
    ensures viewer.Authenticated? && author in users && verb == Post && Follow(viewer.id, author) in follows
      ==> r == (IntegrityError, follows)
    ensures viewer.Authenticated? && author in users && verb == Delete
      ==> r == (NoContent204, follows - {Follow(viewer.id, author)})
  {
    match viewer
    case Anonymous => (NotAuthenticated401, follows)
    case Authenticated(user, _) =>
      var f := Follow(user, author);
      if author !in users then (NotFound404, follows)
      else if verb == Post then
        if f in follows then (IntegrityError, follows) else (Created201, follows + {f})
      else if verb == Delete then (NoContent204, follows - {f})
      else (NoContent204, follows)
  }

  /** Unfollowing twice is the same as once, and both answers are 204. */
  lemma UnfollowIdempotent(follows: set<Follow>, users: map<UserId, User>, viewer: Viewer, author: UserId)
    requires viewer.Authenticated? && author in users
    ensures var once := FollowAction(follows, users, viewer, Delete, author);
      once.0 == NoContent204 && FollowAction(once.1, users, viewer, Delete, author) == once
  {
    var f := Follow(viewer.id, author);
    assert (follows - {f}) - {f} == follows - {f};
  }

  /** A user may subscribe to themself. */
  lemma SelfFollowAllowed(follows: set<Follow>, users: map<UserId, User>, viewer: Viewer)
    requires viewer.Authenticated? && viewer.id in users && Follow(viewer.id, viewer.id) !in follows
    ensures FollowAction(follows, users, viewer, Post, viewer.id).0 == Created201
  {
  }

  /** The `subscribe` action. */
  method Subscribe(store: Store, viewer: Viewer, verb: HttpMethod, author: UserId) returns (s: Status)
    requires store.Valid() && (viewer.Authenticated? ==> viewer.id in store.tables.users)
    modifies store`tables
    ensures store.Valid()
    ensures (s, store.tables.follows) == FollowAction(old(store.tables.follows), old(store.tables.users), viewer, verb, author)
    ensures store.tables == old(store.tables).(follows := store.tables.follows)
  {
    if viewer.Anonymous? {
      return NotAuthenticated401;
    }
    if author !in store.tables.users {
      return NotFound404;
    }
    var f := Follow(viewer.id, author);
    if verb == Post {
      if f in store.tables.follows {
        return IntegrityError;
      }
      store.tables := store.tables.(follows := store.tables.follows + {f});
      return Created201;
    }
    if verb == Delete {
      store.tables := store.tables.(follows := store.tables.follows - {f});
    }
    return NoContent204;
  }

  /** `subscriptions`: the Follow rows whose subscriber is the viewer. */
  function Subscriptions(follows: set<Follow>, viewer: Viewer): (r: Result<set<Follow>, Status>)
    ensures viewer.Anonymous? <==> r == Err(NotAuthenticated401)
    ensures viewer.Authenticated? ==> r.Ok?
    ensures r.Ok? ==> forall f :: f in r.value <==> f in follows && f.user == viewer.id
  {
    match viewer
    case Anonymous => Err(NotAuthenticated401)
    case Authenticated(user, _) => Ok(set f | f in follows && f.user == user)
  }

  /** After following an author the row is on the viewer's list, shown as
      subscribed; after unfollowing it is gone, and the user flag on the
      author's profile reads the same. */
  lemma SubscriptionsAfterAction(follows: set<Follow>, users: map<UserId, User>, viewer: Viewer, verb: HttpMethod,
                                 author: UserId)
    requires viewer.Authenticated? && author in users
    ensures var after := FollowAction(follows, users, viewer, verb, author);
      after.0 == Created201 ==>
        && Follow(viewer.id, author) in Subscriptions(after.1, viewer).value
        && Serializers.FollowIsSubscribed(after.1, Follow(viewer.id, author))
        && Serializers.IsSubscribed(after.1, viewer, author)
    ensures var after := FollowAction(follows, users, viewer, verb, author);
      verb == Delete ==>
        && Follow(viewer.id, author) !in Subscriptions(after.1, viewer).value
        && !Serializers.IsSubscribed(after.1, viewer, author)
  {
  }

  /** Every listed row reads as subscribed. */
  lemma ListedRowsSubscribed(follows: set<Follow>, viewer: Viewer, f: Follow)
    requires Subscriptions(follows, viewer).Ok? && f in Subscriptions(follows, viewer).value
    ensures Serializers.FollowIsSubscribed(follows, f)
    ensures Serializers.IsSubscribed(follows, viewer, f.author)
  {
  }
}
