/**
 * The database: one table per model, and the `on_delete` rules of the
 * foreign keys. `Valid` combines the constraints the database keeps
 * (primary keys and unique columns, every foreign key pointing at an
 * existing row) with the follow-table invariant, which no database
 * constraint keeps and only the follow guard maintains.
 */
module Store {
  import opened Wrappers
  import opened Models
  import opened Tables
  import FollowGraph

  datatype Database = Database(
    users: seq<User>,
    groups: seq<Group>,
    posts: seq<Post>,
    comments: seq<Comment>,
    follows: seq<Follow>)

  function UserIds(s: Database): set<UserId> { Column(s.users, UserKey) }
  function GroupIds(s: Database): set<GroupId> { Column(s.groups, GroupKey) }
  function Slugs(s: Database): set<string> { Column(s.groups, SlugKey) }
  function PostIds(s: Database): set<PostId> { Column(s.posts, PostKey) }

  /** Primary keys, `User.username` and `Group.slug` hold no repeated value. */
  predicate KeysUnique(s: Database) {
    && UniqueBy(s.users, UserKey)
    && UniqueBy(s.users, UsernameKey)
    && UniqueBy(s.groups, GroupKey)
    && UniqueBy(s.groups, SlugKey)
    && UniqueBy(s.posts, PostKey)
    && UniqueBy(s.comments, CommentKey)
  }

  /** Every post's author exists, and so does its group when it has one. */
  predicate PostRefsValid(s: Database) {
    forall p :: p in s.posts ==>
      && p.author in UserIds(s)
      && (p.group.Some? ==> p.group.value in GroupIds(s))
  }

  /** Every comment's post and author exist. */
  predicate CommentRefsValid(s: Database) {
    forall c :: c in s.comments ==> c.post in PostIds(s) && c.author in UserIds(s)
  }

  /** Both ends of every follow row exist. */
  predicate FollowRefsValid(s: Database) {
    forall e :: e in s.follows ==> e.user in UserIds(s) && e.author in UserIds(s)
  }

  predicate Valid(s: Database) {
    && KeysUnique(s)
    && PostRefsValid(s)
    && CommentRefsValid(s)
    && FollowRefsValid(s)
    && FollowGraph.WellFormed(s.follows)
  }

  /** `get_object_or_404(User, username=...)`. */
  function FindUser(s: Database, username: string): (r: Option<User>)
    ensures r.Some? ==> r.value in s.users && r.value.username == username
    ensures r.None? <==> username !in Column(s.users, UsernameKey)
  {
    Find(s.users, (u: User) => u.username == username)
  }

  /** `get_object_or_404(Group, slug=...)`. */
  function FindGroup(s: Database, slug: string): (r: Option<Group>)
    ensures r.Some? ==> r.value in s.groups && r.value.slug == slug
    ensures r.None? <==> slug !in Slugs(s)
  {
    Find(s.groups, (g: Group) => g.slug == slug)
  }

  /** An identifier larger than every group's. */
  function FreshGroupId(groups: seq<Group>): (r: GroupId)
    ensures forall g :: g in groups ==> g.id < r
  {
    if |groups| == 0 then 0
    else
      var rest := FreshGroupId(groups[1..]);
      assert forall g :: g in groups ==> g == groups[0] || g in groups[1..];
      if groups[0].id < rest then rest else groups[0].id + 1
  }

  /** Creating a group; the unique `slug` column refuses a slug already in use. */
  function CreateGroup(s: Database, title: string, slug: string, description: string): (r: Result<Database>)
    ensures r.Failure? <==> slug in Slugs(s)
    ensures r.Failure? ==> r.error == IntegrityError
    ensures r.Success? ==>
      && |r.value.groups| == |s.groups| + 1
      && r.value.groups[..|s.groups|] == s.groups
      && var g := r.value.groups[|s.groups|];
         g.id !in GroupIds(s) && g.title == title && g.slug == slug && g.description == description
    ensures r.Success? ==> r.value.(groups := s.groups) == s
  {
    if slug in Slugs(s) then Failure(IntegrityError)
    else Success(s.(groups := s.groups + [Group(FreshGroupId(s.groups), title, slug, description)]))
  }

  /** Deleting a post; its comments go with it (CASCADE). */
  function DeletePost(s: Database, id: PostId): (r: Database)
    ensures forall p :: p in r.posts <==> p in s.posts && p.id != id
    ensures forall c :: c in r.comments <==> c in s.comments && c.post != id
    ensures forall p :: multiset(r.posts)[p] == if p.id != id then multiset(s.posts)[p] else 0
    ensures forall c :: multiset(r.comments)[c] == if c.post != id then multiset(s.comments)[c] else 0
    ensures r.users == s.users && r.groups == s.groups && r.follows == s.follows
  {
    s.(posts := Filter(s.posts, (p: Post) => p.id != id),
       comments := Filter(s.comments, (c: Comment) => c.post != id))
  }

  /** A post with its group cleared if that group is `id`. */
  function ClearGroup(p: Post, id: GroupId): Post {
    if p.group == Some(id) then p.(group := None) else p
  }

  /** Deleting a group; its posts stay, with their group set to none (SET_NULL). */
  function DeleteGroup(s: Database, id: GroupId): (r: Database)
    ensures forall g :: g in r.groups <==> g in s.groups && g.id != id
    ensures |r.posts| == |s.posts|
    ensures forall i :: 0 <= i < |s.posts| ==>
      && r.posts[i].group == (if s.posts[i].group == Some(id) then None else s.posts[i].group)
      && r.posts[i] == s.posts[i].(group := r.posts[i].group)
    ensures r.users == s.users && r.comments == s.comments && r.follows == s.follows
  {
    s.(groups := Filter(s.groups, (g: Group) => g.id != id),
       posts := seq(|s.posts|, i requires 0 <= i < |s.posts| => ClearGroup(s.posts[i], id)))
  }

  /** The posts `user` wrote; deleting the user deletes them, and their comments with them. */
  function PostIdsBy(s: Database, user: UserId): set<PostId> {
    set p | p in s.posts && p.author == user :: p.id
  }

  /**
   * Deleting a user (CASCADE everywhere): their posts, their comments, the
   * comments on their posts, and every follow row on either side.
   */
  function DeleteUser(s: Database, id: UserId): (r: Database)
    ensures forall u :: u in r.users <==> u in s.users && u.id != id
    ensures forall p :: p in r.posts <==> p in s.posts && p.author != id
    ensures forall c :: c in r.comments <==>
      c in s.comments && c.author != id && c.post !in PostIdsBy(s, id)
    ensures forall e :: e in r.follows <==> e in s.follows && e.user != id && e.author != id
    ensures forall p :: multiset(r.posts)[p] == if p.author != id then multiset(s.posts)[p] else 0
    ensures forall c :: multiset(r.comments)[c] ==
                 if c.author != id && c.post !in PostIdsBy(s, id) then multiset(s.comments)[c] else 0
    ensures forall e :: multiset(r.follows)[e] ==
                 if e.user != id && e.author != id then multiset(s.follows)[e] else 0
    ensures r.groups == s.groups
  {
    var gone := PostIdsBy(s, id);
    Database(
      Filter(s.users, (u: User) => u.id != id),
      s.groups,
      Filter(s.posts, (p: Post) => p.author != id),
      Filter(s.comments, (c: Comment) => c.author != id && c.post !in gone),
      Filter(s.follows, (e: Follow) => e.user != id && e.author != id))
  }

  lemma CreateGroupKeepsValid(s: Database, title: string, slug: string, description: string)
    requires Valid(s)
    ensures CreateGroup(s, title, slug, description).Success? ==>
              Valid(CreateGroup(s, title, slug, description).value)
  {
    var r := CreateGroup(s, title, slug, description);
    if r.Success? {
      var g := Group(FreshGroupId(s.groups), title, slug, description);
      UniqueByAppend(s.groups, g, GroupKey);
      UniqueByAppend(s.groups, g, SlugKey);
      assert GroupIds(s) <= GroupIds(r.value);
    }
  }

  lemma DeletePostKeepsValid(s: Database, id: PostId)
    requires Valid(s)
    ensures Valid(DeletePost(s, id))
  {
    var r := DeletePost(s, id);
    FilterKeepsUniqueBy(s.posts, (p: Post) => p.id != id, PostKey);
    FilterKeepsUniqueBy(s.comments, (c: Comment) => c.post != id, CommentKey);
    forall c | c in r.comments ensures c.post in PostIds(r) {
      var p :| p in s.posts && p.id == c.post;
      assert p in r.posts;
    }
  }

  lemma DeleteGroupKeepsValid(s: Database, id: GroupId)
    requires Valid(s)
    ensures Valid(DeleteGroup(s, id))
  {
    var r := DeleteGroup(s, id);
    FilterKeepsUniqueBy(s.groups, (g: Group) => g.id != id, GroupKey);
    FilterKeepsUniqueBy(s.groups, (g: Group) => g.id != id, SlugKey);
    DeleteGroupKeepsPostIds(s, id);
    DeleteGroupKeepsPostRefs(s, id);
  }

  /** Clearing groups changes no post's identifier. */
  lemma DeleteGroupKeepsPostIds(s: Database, id: GroupId)
    requires UniqueBy(s.posts, PostKey)
    ensures UniqueBy(DeleteGroup(s, id).posts, PostKey)
    ensures PostIds(DeleteGroup(s, id)) == PostIds(s)
  {
    var r := DeleteGroup(s, id);
    forall i, j | 0 <= i < j < |r.posts| ensures PostKey(r.posts[i]) != PostKey(r.posts[j]) {
      assert r.posts[i].id == s.posts[i].id && r.posts[j].id == s.posts[j].id;
    }
    forall x | x in PostIds(s) ensures x in PostIds(r) {
      var p :| p in s.posts && p.id == x;
      var i :| 0 <= i < |s.posts| && s.posts[i] == p;
      assert r.posts[i] in r.posts;
    }
    forall x | x in PostIds(r) ensures x in PostIds(s) {
      var p :| p in r.posts && p.id == x;
      var i :| 0 <= i < |r.posts| && r.posts[i] == p;
      assert s.posts[i] in s.posts;
    }
  }

  /** After the group is gone, no post points at it, and every other reference still resolves. */
  lemma DeleteGroupKeepsPostRefs(s: Database, id: GroupId)
    requires PostRefsValid(s)
    ensures PostRefsValid(DeleteGroup(s, id))
  {
    var r := DeleteGroup(s, id);
    forall p | p in r.posts
      ensures p.author in UserIds(r) && (p.group.Some? ==> p.group.value in GroupIds(r))
    {
      var i :| 0 <= i < |r.posts| && r.posts[i] == p;
      assert s.posts[i] in s.posts;
      if p.group.Some? {
        var g :| g in s.groups && g.id == p.group.value;
        assert g in r.groups;
      }
    }
  }

  lemma DeleteUserKeepsValid(s: Database, id: UserId)
    requires Valid(s)
    ensures Valid(DeleteUser(s, id))
  {
    var r := DeleteUser(s, id);
    var gone := PostIdsBy(s, id);
    FilterKeepsUniqueBy(s.users, (u: User) => u.id != id, UserKey);
    FilterKeepsUniqueBy(s.users, (u: User) => u.id != id, UsernameKey);
    FilterKeepsUniqueBy(s.posts, (p: Post) => p.author != id, PostKey);
    FilterKeepsUniqueBy(s.comments, (c: Comment) => c.author != id && c.post !in gone, CommentKey);
    FilterKeepsNoDuplicates(s.follows, (e: Follow) => e.user != id && e.author != id);
    forall x | x in UserIds(s) && x != id ensures x in UserIds(r) {
      var u :| u in s.users && u.id == x;
      assert u in r.users;
    }
    forall c | c in r.comments ensures c.post in PostIds(r) {
      var p :| p in s.posts && p.id == c.post;
      assert p.author != id;
      assert p in r.posts;
    }
  }

  /** `post.comments.all()`: the comments on one post. */
  function CommentsOf(s: Database, post: PostId): (r: seq<Comment>)
    ensures forall c :: c in r <==> c in s.comments && c.post == post
    ensures forall c :: multiset(r)[c] == if c.post == post then multiset(s.comments)[c] else 0
  {
    Filter(s.comments, (c: Comment) => c.post == post)
  }

  /** Once a post is deleted, querying its comments returns nothing. */
  lemma DeletePostLeavesNoComments(s: Database, id: PostId)
    ensures CommentsOf(DeletePost(s, id), id) == []
  {
    var r := CommentsOf(DeletePost(s, id), id);
    forall c ensures multiset(r)[c] == 0 {
      assert c !in r;
    }
    assert multiset(r) == multiset{};
  }

  /** Deleting a group empties that group's post list and keeps every post of other groups as it was. */
  lemma DeleteGroupDetachesPosts(s: Database, id: GroupId)
    ensures forall p :: p in DeleteGroup(s, id).posts ==> p.group != Some(id)
    ensures forall p :: p in s.posts && p.group != Some(id) ==> p in DeleteGroup(s, id).posts
  {
    var r := DeleteGroup(s, id);
    forall p | p in s.posts && p.group != Some(id) ensures p in r.posts {
      var i :| 0 <= i < |s.posts| && s.posts[i] == p;
      assert r.posts[i] == p;
    }
  }

  /** A deleted user's comments, and every comment on their posts, are gone; other comments remain. */
  lemma DeleteUserRemovesComments(s: Database, id: UserId)
    ensures forall c :: c in DeleteUser(s, id).comments ==> c.author != id
    ensures forall c, p :: c in DeleteUser(s, id).comments && p in s.posts && p.id == c.post ==> p.author != id
    ensures forall c :: c in s.comments && c.author != id && c.post !in PostIdsBy(s, id) ==> c in DeleteUser(s, id).comments
  {
  }

  /** No follow row names a deleted user on either side; every other row remains. */
  lemma DeleteUserRemovesFollows(s: Database, id: UserId)
    ensures forall e :: e in DeleteUser(s, id).follows ==> e.user != id && e.author != id
    ensures forall e :: e in s.follows && e.user != id && e.author != id ==> e in DeleteUser(s, id).follows
  {
  }
}
