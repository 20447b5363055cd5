/**
 * The views over the database, without rendering: each resolves its
 * slug or username (NotFound when it does not resolve), then builds its
 * feed or updates the follow table. The acting user of `follow_index`,
 * `profile_follow` and `profile_unfollow` is an existing, logged-in user.
 */
module Views {
  import opened Wrappers
  import opened Models
  import opened Tables
  import opened Ordering
  import opened FollowGraph
  import opened Feeds
  import opened Store

  /** The context of `group_posts`: the group and its feed. */
  datatype GroupPage = GroupPage(group: Group, posts: seq<Post>)

  /** The context of `profile`: the author, the `following` flag and the author's feed. */
  datatype ProfilePage = ProfilePage(author: User, following: bool, posts: seq<Post>)

  /** `group_posts`: NotFound for an unknown slug, otherwise that group's posts. */
  function GroupPosts(s: Database, slug: string): (r: Result<GroupPage>)
    ensures r.Failure? <==> slug !in Slugs(s)
    ensures r.Failure? ==> r.error == NotFound
    ensures r.Success? ==>
      && r.value.group in s.groups
      && r.value.group.slug == slug
      && NewestFirst(r.value.posts)
      && (forall p :: p in r.value.posts <==> p in s.posts && p.group == Some(r.value.group.id))
      && forall p :: multiset(r.value.posts)[p] ==
           if p.group == Some(r.value.group.id) then multiset(s.posts)[p] else 0
  {
    match FindGroup(s, slug)
    case None => Failure(NotFound)
    case Some(g) => Success(GroupPage(g, GroupFeed(s.posts, g.id)))
  }

  /**
   * `profile`: NotFound for an unknown username, otherwise the author's
   * posts and whether the viewer (None when anonymous) follows the author.
   */
  function Profile(s: Database, viewer: Option<UserId>, username: string): (r: Result<ProfilePage>)
    ensures r.Failure? <==> username !in Column(s.users, UsernameKey)
    ensures r.Failure? ==> r.error == NotFound
    ensures r.Success? ==>
      && r.value.author in s.users
      && r.value.author.username == username
      && (r.value.following <==> viewer.Some? && IsFollowing(s.follows, viewer.value, r.value.author.id))
      && NewestFirst(r.value.posts)
      && (forall p :: p in r.value.posts <==> p in s.posts && p.author == r.value.author.id)
      && forall p :: multiset(r.value.posts)[p] ==
           if p.author == r.value.author.id then multiset(s.posts)[p] else 0
  {
    match FindUser(s, username)
    case None => Failure(NotFound)
    case Some(author) =>
      var following := viewer.Some? && IsFollowing(s.follows, viewer.value, author.id);
      Success(ProfilePage(author, following, ProfileFeed(s.posts, author.id)))
  }

  /** `follow_index`: the posts of the authors the viewer follows. */
  function FollowIndex(s: Database, viewer: UserId): (r: seq<Post>)
    requires viewer in UserIds(s)
    ensures NewestFirst(r)
    ensures forall p :: p in r <==> p in s.posts && p.author in AuthorsFollowedBy(s.follows, viewer)
    ensures forall p :: multiset(r)[p] == multiset(s.posts)[p] * multiset(s.follows)[Follow(viewer, p.author)]
  {
    FollowFeed(s.posts, s.follows, viewer)
  }

  /**
   * `profile_follow`: NotFound for an unknown username; otherwise the
   * acting user follows the author, unless that is themselves or already so.
   */
  function ProfileFollow(s: Database, actor: UserId, username: string): (r: Result<Database>)
    requires actor in UserIds(s)
    ensures r.Failure? <==> username !in Column(s.users, UsernameKey)
    ensures r.Failure? ==> r.error == NotFound
    ensures r.Success? ==> r.value.(follows := s.follows) == s
    ensures r.Success? ==>
      var author := FindUser(s, username).value.id;
      && (IsFollowing(r.value.follows, actor, author) <==> actor != author || IsFollowing(s.follows, actor, author))
      && (actor == author || IsFollowing(s.follows, actor, author) ==> r.value.follows == s.follows)
      && (actor != author && !IsFollowing(s.follows, actor, author) ==>
            multiset(r.value.follows) == multiset(s.follows) + multiset{Follow(actor, author)})
  {
    match FindUser(s, username)
    case None => Failure(NotFound)
    case Some(author) => Success(s.(follows := FollowAuthor(s.follows, actor, author.id).edges))
  }

  /**
   * `profile_unfollow`: NotFound for an unknown username; otherwise every
   * row in which the acting user follows the author is deleted.
   */
  function ProfileUnfollow(s: Database, actor: UserId, username: string): (r: Result<Database>)
    requires actor in UserIds(s)
    ensures r.Failure? <==> username !in Column(s.users, UsernameKey)
    ensures r.Failure? ==> r.error == NotFound
    ensures r.Success? ==> r.value.(follows := s.follows) == s
    ensures r.Success? ==>
      var author := FindUser(s, username).value.id;
      && !IsFollowing(r.value.follows, actor, author)
      && (forall e :: e != Follow(actor, author) ==> multiset(r.value.follows)[e] == multiset(s.follows)[e])
  {
    match FindUser(s, username)
    case None => Failure(NotFound)
    case Some(author) => Success(s.(follows := Unfollow(s.follows, actor, author.id)))
  }

  /** Following keeps every database constraint and the follow-table invariant. */
  lemma ProfileFollowKeepsValid(s: Database, actor: UserId, username: string)
    requires Valid(s) && actor in UserIds(s)
    ensures ProfileFollow(s, actor, username).Success? ==> Valid(ProfileFollow(s, actor, username).value)
  {
    var r := ProfileFollow(s, actor, username);
    if r.Success? {
      var author := FindUser(s, username).value;
      FollowKeepsWellFormed(s.follows, actor, author.id);
      assert author.id in UserIds(s);
      forall e | e in r.value.follows ensures e.user in UserIds(s) && e.author in UserIds(s) {
        if e !in s.follows {
          assert multiset(r.value.follows)[e] > 0;
        }
      }
    }
  }

  /** Unfollowing keeps every database constraint and the follow-table invariant. */
  lemma ProfileUnfollowKeepsValid(s: Database, actor: UserId, username: string)
    requires Valid(s) && actor in UserIds(s)
    ensures ProfileUnfollow(s, actor, username).Success? ==> Valid(ProfileUnfollow(s, actor, username).value)
  {
    var r := ProfileUnfollow(s, actor, username);
    if r.Success? {
      var author := FindUser(s, username).value;
      UnfollowKeepsWellFormed(s.follows, actor, author.id);
    }
  }

  /** After following another author, that author's profile shows the viewer as following. */
  lemma FollowSetsFollowingFlag(s: Database, actor: UserId, username: string)
    requires actor in UserIds(s)
    requires ProfileFollow(s, actor, username).Success?
    requires FindUser(s, username).value.id != actor
    ensures Profile(ProfileFollow(s, actor, username).value, Some(actor), username).value.following
  {
  }

  /** An anonymous viewer never sees the `following` flag set. */
  lemma AnonymousNeverFollowing(s: Database, username: string)
    ensures Profile(s, None, username).Success? ==> !Profile(s, None, username).value.following
  {
  }
}
