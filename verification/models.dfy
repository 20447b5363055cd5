/**
 * The blog's records: users, groups, posts, comments and follow rows, and
 * the string forms of posts and groups. Identifiers are primary keys;
 * timestamps are plain integers supplied from outside.
 */
module Models {
  import opened Wrappers

  type UserId = nat
  type GroupId = nat
  type PostId = nat
  type CommentId = nat

  /** Number of characters of a post's text shown as its string form. */
  const LEN_STR_POST: nat := 15

  datatype User = User(id: UserId, username: string)

  /** A topical group; `slug` is a unique column. */
  datatype Group = Group(id: GroupId, title: string, slug: string, description: string)

  /**
   * A post. `author` is a CASCADE foreign key to User, `group` a nullable
   * SET_NULL foreign key to Group, `image` the stored file name ("" if none).
   */
  datatype Post = Post(
    id: PostId,
    text: string,
    author: UserId,
    group: Option<GroupId>,
    image: string,
    pubDate: int)

  /** A comment; both `post` and `author` are CASCADE foreign keys. */
  datatype Comment = Comment(
    id: CommentId,
    post: PostId,
    author: UserId,
    text: string,
    created: int)

  /** One row of the follow table: `user` follows `author`. Both are CASCADE foreign keys. */
  datatype Follow = Follow(user: UserId, author: UserId)

  /** Primary-key and unique-column accessors, used to state uniqueness of a table. */
  function UserKey(u: User): UserId { u.id }
  function UsernameKey(u: User): string { u.username }
  function GroupKey(g: Group): GroupId { g.id }
  function SlugKey(g: Group): string { g.slug }
  function PostKey(p: Post): PostId { p.id }
  function CommentKey(c: Comment): CommentId { c.id }

  /** A post's string form: its text cut to at most LEN_STR_POST characters. */
  function PostStr(p: Post): (r: string)
    ensures r <= p.text
    ensures |r| == if |p.text| < LEN_STR_POST then |p.text| else LEN_STR_POST
  {
    if |p.text| <= LEN_STR_POST then p.text else p.text[..LEN_STR_POST]
  }

  /** A short text is its own string form; a long one is cut to exactly LEN_STR_POST characters. */
  lemma PostStrShortIsWhole(p: Post)
    ensures |p.text| <= LEN_STR_POST <==> PostStr(p) == p.text
  {
  }

  /** A group's string form is its title. */
  function GroupStr(g: Group): (r: string)
    ensures r == g.title
  {
    g.title
  }
}
