/**
  The tables behind the entities and the constraints the schema declares on them:
  primary keys (the Follower key is the pair of its two user ids), the unique
  email and url columns, the foreign keys, and the delete cascades from a user to
  its posts and comments and from a post to its media and comments.

  The database engine, not the program, enforces these declarations; here they are
  the invariant `Valid` of an immutable store value, and a delete is a function
  from one store to the next. Each table is a sequence of rows in table order,
  which is also the order in which a relationship lists its rows.
 */
module Schema {

  import opened Wrappers
  import opened Models

  datatype FollowerRow = FollowerRow(userFromId: int, userToId: int)
  datatype PostRow = PostRow(id: int, posterId: int)
  datatype CommentRow = CommentRow(id: int, commentText: string, authorId: int, postId: int)

  /** The five tables. A user row and a media row hold no relationship, so they are the entities themselves. */
  datatype Store = Store(
    users: seq<User>,
    followers: seq<FollowerRow>,
    posts: seq<PostRow>,
    media: seq<Media>,
    comments: seq<CommentRow>)

  // Sequence helpers

  /** `ys` is `xs` with some elements left out and the others in their order in `xs`. */
  ghost predicate Subsequence<T>(ys: seq<T>, xs: seq<T>)
    decreases |xs|
  {
    if ys == [] then true
    else if xs == [] then false
    else (ys[0] == xs[0] && Subsequence(ys[1..], xs[1..])) || Subsequence(ys, xs[1..])
  }

  /**
    The elements of `xs` that `keep` accepts, each as often as in `xs`, in their
    order in `xs`.
   */
  function Filter<T(!new)>(xs: seq<T>, keep: T -> bool): (ys: seq<T>)
    ensures forall y :: y in ys <==> y in xs && keep(y)
  {
    if xs == [] then []
    else (if keep(xs[0]) then [xs[0]] else []) + Filter(xs[1..], keep)
  }

  /** Filtering keeps each accepted element as often as `xs` holds it, and no other. */
  lemma {:induction false} FilterCounts<T(!new)>(xs: seq<T>, keep: T -> bool)
    ensures forall y :: multiset(Filter(xs, keep))[y] == if keep(y) then multiset(xs)[y] else 0
  {
    if xs != [] {
      FilterCounts(xs[1..], keep);
      assert xs == [xs[0]] + xs[1..];
    }
  }

  /** Filtering keeps the order of the elements it keeps. */
  lemma {:induction false} FilterIsSubsequence<T(!new)>(xs: seq<T>, keep: T -> bool)
    ensures Subsequence(Filter(xs, keep), xs)
  {
    if xs != [] {
      var rest := Filter(xs[1..], keep);
      FilterIsSubsequence(xs[1..], keep);
      if keep(xs[0]) {
        var ys := [xs[0]] + rest;
        assert Filter(xs, keep) == ys && ys[0] == xs[0] && ys[1..] == rest;
      } else {
        assert Filter(xs, keep) == rest;
      }
    }
  }

  /** The first element of `xs` that `wanted` accepts, if any. */
  function Find<T(!new)>(xs: seq<T>, wanted: T -> bool): (r: Option<T>)
    ensures r.Some? ==> r.value in xs && wanted(r.value)
    ensures r.None? <==> forall x :: x in xs ==> !wanted(x)
  {
    if xs == [] then None
    else if wanted(xs[0]) then Some(xs[0])
    else Find(xs[1..], wanted)
  }

  /** Every earlier element of `xs` stands in relation `r` to every later one. */
  ghost predicate Pairwise<T>(xs: seq<T>, r: (T, T) -> bool)
  {
    forall i, j :: 0 <= i < j < |xs| ==> r(xs[i], xs[j])
  }

  /** The head of a pairwise-related sequence is related to every later element. */
  lemma PairwiseHead<T>(xs: seq<T>, r: (T, T) -> bool)
    requires Pairwise(xs, r) && xs != []
    ensures forall y :: y in xs[1..] ==> r(xs[0], y)
  {
    forall y | y in xs[1..] ensures r(xs[0], y) {
      var k :| 0 <= k < |xs[1..]| && xs[1..][k] == y;
      assert xs[k + 1] == y;
    }
  }

  /** Putting `x` in front of a pairwise-related sequence keeps it so when `x` is related to all of it. */
  lemma PairwiseCons<T>(x: T, xs: seq<T>, r: (T, T) -> bool)
    requires Pairwise(xs, r)
    requires forall y :: y in xs ==> r(x, y)
    ensures Pairwise([x] + xs, r)
  {
    var ys := [x] + xs;
    forall i, j | 0 <= i < j < |ys| ensures r(ys[i], ys[j]) {
      assert ys[j] == xs[j - 1];
      if i > 0 {
        assert ys[i] == xs[i - 1];
      }
    }
  }

  lemma {:induction false} FilterKeepsPairwise<T(!new)>(xs: seq<T>, keep: T -> bool, r: (T, T) -> bool)
    requires Pairwise(xs, r)
    ensures Pairwise(Filter(xs, keep), r)
  {
    if xs != [] {
      var rest := Filter(xs[1..], keep);
      FilterKeepsPairwise(xs[1..], keep, r);
      if keep(xs[0]) {
        assert Filter(xs, keep) == [xs[0]] + rest;
        PairwiseHead(xs, r);
        PairwiseCons(xs[0], rest, r);
      } else {
        assert Filter(xs, keep) == rest;
      }
    }
  }

  // Declared keys and unique columns

  /** `id` is the user's primary key and `email` is unique. */
  predicate DistinctUsers(a: User, b: User) { a.id != b.id && a.email != b.email }
  /** The pair (user_from_id, user_to_id) is the follower's primary key. */
  predicate DistinctFollowers(a: FollowerRow, b: FollowerRow) { a != b }
  predicate DistinctPosts(a: PostRow, b: PostRow) { a.id != b.id }
  /** `media_id` is the media's primary key and `url` is unique. */
  predicate DistinctMedia(a: Media, b: Media) { a.mediaId != b.mediaId && a.url != b.url }
  predicate DistinctComments(a: CommentRow, b: CommentRow) { a.id != b.id }

  ghost predicate KeysUnique(s: Store)
  {
    && Pairwise(s.users, DistinctUsers)
    && Pairwise(s.followers, DistinctFollowers)
    && Pairwise(s.posts, DistinctPosts)
    && Pairwise(s.media, DistinctMedia)
    && Pairwise(s.comments, DistinctComments)
  }

  // Declared foreign keys

  function UserIds(s: Store): set<int> { set u | u in s.users :: u.id }
  function PostIds(s: Store): set<int> { set p | p in s.posts :: p.id }

  ghost predicate RefsResolve(s: Store)
  {
    && (forall f :: f in s.followers ==> f.userFromId in UserIds(s) && f.userToId in UserIds(s))
    && (forall p :: p in s.posts ==> p.posterId in UserIds(s))
    && (forall m :: m in s.media ==> m.postId in PostIds(s))
    && (forall c :: c in s.comments ==> c.authorId in UserIds(s) && c.postId in PostIds(s))
  }

  /**
    A store that respects every constraint the schema declares: in each table no two
    rows share a primary key, no two users an email, no two media items a url, and
    every foreign key names an existing row.
   */
  ghost predicate Valid(s: Store)
    ensures Valid(s) ==> forall i, j :: 0 <= i < |s.users| && 0 <= j < |s.users| && i != j ==>
      s.users[i].id != s.users[j].id && s.users[i].email != s.users[j].email
    ensures Valid(s) ==> forall i, j :: 0 <= i < |s.followers| && 0 <= j < |s.followers| && i != j ==>
      s.followers[i] != s.followers[j]
    ensures Valid(s) ==> forall i, j :: 0 <= i < |s.posts| && 0 <= j < |s.posts| && i != j ==>
      s.posts[i].id != s.posts[j].id
    ensures Valid(s) ==> forall i, j :: 0 <= i < |s.media| && 0 <= j < |s.media| && i != j ==>
      s.media[i].mediaId != s.media[j].mediaId && s.media[i].url != s.media[j].url
    ensures Valid(s) ==> forall i, j :: 0 <= i < |s.comments| && 0 <= j < |s.comments| && i != j ==>
      s.comments[i].id != s.comments[j].id
  {
    if KeysUnique(s) && RefsResolve(s) then
      PairwiseEitherWay(s.users, DistinctUsers);
      PairwiseEitherWay(s.followers, DistinctFollowers);
      PairwiseEitherWay(s.posts, DistinctPosts);
      PairwiseEitherWay(s.media, DistinctMedia);
      PairwiseEitherWay(s.comments, DistinctComments);
      true
    else false
  }

  /** Any two distinct positions of `xs` stand in relation `r`, one way round or the other. */
  lemma PairwiseEitherWay<T>(xs: seq<T>, r: (T, T) -> bool)
    requires Pairwise(xs, r)
    ensures forall i, j :: 0 <= i < |xs| && 0 <= j < |xs| && i != j ==> r(xs[i], xs[j]) || r(xs[j], xs[i])
  {
    forall i, j | 0 <= i < |xs| && 0 <= j < |xs| && i != j
      ensures r(xs[i], xs[j]) || r(xs[j], xs[i])
    {
      if i < j { assert r(xs[i], xs[j]); } else { assert r(xs[j], xs[i]); }
    }
  }

  /** In a valid store no two users share an email. */
  lemma EmailIdentifiesUser(s: Store, a: User, b: User)
    requires Valid(s) && a in s.users && b in s.users
    ensures a.email == b.email <==> a == b
  {
    var i :| 0 <= i < |s.users| && s.users[i] == a;
    var j :| 0 <= j < |s.users| && s.users[j] == b;
    if i < j { assert DistinctUsers(s.users[i], s.users[j]); }
    if j < i { assert DistinctUsers(s.users[j], s.users[i]); }
  }

  /** In a valid store no two media items share a url. */
  lemma UrlIdentifiesMedia(s: Store, a: Media, b: Media)
    requires Valid(s) && a in s.media && b in s.media
    ensures a.url == b.url <==> a == b
  {
    var i :| 0 <= i < |s.media| && s.media[i] == a;
    var j :| 0 <= j < |s.media| && s.media[j] == b;
    if i < j { assert DistinctMedia(s.media[i], s.media[j]); }
    if j < i { assert DistinctMedia(s.media[j], s.media[i]); }
  }

  /** A valid store holds at most one follower edge per ordered pair of users. */
  lemma OneEdgePerPair(s: Store, i: int, j: int)
    requires Valid(s) && 0 <= i < |s.followers| && 0 <= j < |s.followers|
    ensures s.followers[i] == s.followers[j] <==> i == j
  {
    if i < j { assert DistinctFollowers(s.followers[i], s.followers[j]); }
    if j < i { assert DistinctFollowers(s.followers[j], s.followers[i]); }
  }

  // Cascading deletes

  function UserKept(deadUsers: set<int>): User -> bool
  {
    (u: User) => u.id !in deadUsers
  }

  function PostKept(deadPosts: set<int>): PostRow -> bool
  {
    (p: PostRow) => p.id !in deadPosts
  }

  function MediaKept(deadPosts: set<int>): Media -> bool
  {
    (m: Media) => m.postId !in deadPosts
  }

  function CommentKept(deadUsers: set<int>, deadPosts: set<int>): CommentRow -> bool
  {
    (c: CommentRow) => c.authorId !in deadUsers && c.postId !in deadPosts
  }

  /** The posts that go: those deleted directly and those whose poster is deleted. */
  function DeadPosts(s: Store, deadUsers: set<int>, deadPosts: set<int>): set<int>
  {
    deadPosts + set p | p in s.posts && p.posterId in deadUsers :: p.id
  }

  /**
    Deletes the users `deadUsers` and the posts `deadPosts` with every row the
    declared cascades take along: a user's posts and comments, and a deleted post's
    media and comments. No cascade is declared on the follower table, so it is kept
    as it is.
   */
  function Cascade(s: Store, deadUsers: set<int>, deadPosts: set<int>): (t: Store)
    ensures forall u :: u in t.users <==> u in s.users && u.id !in deadUsers
    ensures forall p :: p in t.posts <==> p in s.posts && p.id !in DeadPosts(s, deadUsers, deadPosts)
    ensures forall p :: p in t.posts ==> p.posterId !in deadUsers
    ensures forall m :: m in t.media <==> m in s.media && m.postId !in DeadPosts(s, deadUsers, deadPosts)
    ensures forall c :: c in t.comments <==>
      c in s.comments && c.authorId !in deadUsers && c.postId !in DeadPosts(s, deadUsers, deadPosts)
    ensures t.followers == s.followers
    ensures Subsequence(t.users, s.users) && Subsequence(t.posts, s.posts)
    ensures Subsequence(t.media, s.media) && Subsequence(t.comments, s.comments)
  {
    var gone := DeadPosts(s, deadUsers, deadPosts);
    FilterIsSubsequence(s.users, UserKept(deadUsers));
    FilterIsSubsequence(s.posts, PostKept(gone));
    FilterIsSubsequence(s.media, MediaKept(gone));
    FilterIsSubsequence(s.comments, CommentKept(deadUsers, gone));
    Store(
      Filter(s.users, UserKept(deadUsers)),
      s.followers,
      Filter(s.posts, PostKept(gone)),
      Filter(s.media, MediaKept(gone)),
      Filter(s.comments, CommentKept(deadUsers, gone)))
  }

  /**
    Deleting a valid store's rows keeps every declared key and unique column, and
    keeps every foreign key resolved exactly when no follower row names a deleted
    user: the follower table has no cascade, so such a row would be left dangling.
   */
  lemma {:induction false} CascadeKeepsValid(s: Store, deadUsers: set<int>, deadPosts: set<int>)
    requires Valid(s)
    ensures KeysUnique(Cascade(s, deadUsers, deadPosts))
    ensures Valid(Cascade(s, deadUsers, deadPosts)) <==>
      forall f :: f in s.followers ==> f.userFromId !in deadUsers && f.userToId !in deadUsers
  {
    var t := Cascade(s, deadUsers, deadPosts);
    var gone := DeadPosts(s, deadUsers, deadPosts);
    FilterKeepsPairwise(s.users, UserKept(deadUsers), DistinctUsers);
    FilterKeepsPairwise(s.posts, PostKept(gone), DistinctPosts);
    FilterKeepsPairwise(s.media, MediaKept(gone), DistinctMedia);
    FilterKeepsPairwise(s.comments, CommentKept(deadUsers, gone), DistinctComments);
    assert KeysUnique(t);

    assert UserIds(t) == UserIds(s) - deadUsers by {
      forall x | x in UserIds(s) - deadUsers ensures x in UserIds(t) {
        var u :| u in s.users && u.id == x;
        assert u in t.users;
      }
    }
    assert PostIds(t) == PostIds(s) - gone by {
      forall x | x in PostIds(s) - gone ensures x in PostIds(t) {
        var p :| p in s.posts && p.id == x;
        assert p in t.posts;
      }
    }
    forall p | p in t.posts ensures p.posterId in UserIds(t) {
      assert p.posterId in deadUsers ==> p.id in gone;
    }
    if forall f :: f in s.followers ==> f.userFromId !in deadUsers && f.userToId !in deadUsers {
      assert RefsResolve(t);
    } else {
      var f :| f in s.followers && (f.userFromId in deadUsers || f.userToId in deadUsers);
      assert f in t.followers && !(f.userFromId in UserIds(t) && f.userToId in UserIds(t));
    }
  }

  /**
    Deleting user `uid`: the user row goes, and with it every post it wrote, every
    comment it wrote, and the media and comments of those posts. Every other row
    stays, in its place, no row is added, and the follower table is unchanged.
   */
  function DeleteUser(s: Store, uid: int): (t: Store)
    ensures uid !in UserIds(t)
    ensures forall p :: p in t.posts ==> p.posterId != uid
    ensures forall c :: c in t.comments ==> c.authorId != uid
    ensures forall u :: u in t.users <==> u in s.users && u.id != uid
    ensures forall p :: p in t.posts <==> p in s.posts && p.id !in PostsBy(s, uid)
    ensures forall m :: m in t.media <==> m in s.media && m.postId !in PostsBy(s, uid)
    ensures forall c :: c in t.comments <==>
      c in s.comments && c.authorId != uid && c.postId !in PostsBy(s, uid)
    ensures Subsequence(t.users, s.users) && Subsequence(t.posts, s.posts)
    ensures Subsequence(t.media, s.media) && Subsequence(t.comments, s.comments)
    ensures t.followers == s.followers
  {
    assert DeadPosts(s, {uid}, {}) == PostsBy(s, uid);
    var t := Cascade(s, {uid}, {});
    forall p | p in t.posts ensures p.posterId != uid {
      assert p.posterId == uid ==> p.id in PostsBy(s, uid);
    }
    t
  }

  /** The ids of the posts whose poster is `uid`: the rows of that user's `posts` list. */
  function PostsBy(s: Store, uid: int): set<int>
  {
    set p | p in s.posts && p.posterId == uid :: p.id
  }

  /**
    Deleting post `pid`: the post row goes, and with it its media and its comments.
    Every other row stays, in its place, and no row is added.
   */
  function DeletePost(s: Store, pid: int): (t: Store)
    ensures pid !in PostIds(t)
    ensures t.users == s.users && t.followers == s.followers
    ensures forall p :: p in t.posts <==> p in s.posts && p.id != pid
    ensures forall m :: m in t.media <==> m in s.media && m.postId != pid
    ensures forall c :: c in t.comments <==> c in s.comments && c.postId != pid
    ensures Subsequence(t.posts, s.posts) && Subsequence(t.media, s.media)
    ensures Subsequence(t.comments, s.comments)
  {
    assert DeadPosts(s, {}, {pid}) == {pid};
    var t := Cascade(s, {}, {pid});
    assert Filter(s.users, UserKept({})) == s.users by {
      FilterKeepsEverything(s.users, UserKept({}));
    }
    t
  }

  /** A filter that accepts every element returns the sequence unchanged. */
  lemma {:induction false} FilterKeepsEverything<T(!new)>(xs: seq<T>, keep: T -> bool)
    requires forall x :: x in xs ==> keep(x)
    ensures Filter(xs, keep) == xs
  {
    if xs != [] {
      FilterKeepsEverything(xs[1..], keep);
      assert [xs[0]] + xs[1..] == xs;
    }
  }

  /** A user delete keeps a valid store valid exactly when no follower edge names that user. */
  lemma DeleteUserKeepsValid(s: Store, uid: int)
    requires Valid(s)
    ensures Valid(DeleteUser(s, uid)) <==>
      forall f :: f in s.followers ==> f.userFromId != uid && f.userToId != uid
  {
    CascadeKeepsValid(s, {uid}, {});
  }

  /** A post delete always keeps a valid store valid. */
  lemma DeletePostKeepsValid(s: Store, pid: int)
    requires Valid(s)
    ensures Valid(DeletePost(s, pid))
  {
    CascadeKeepsValid(s, {}, {pid});
  }

  // Relationships resolved by foreign key

  function UserWithId(uid: int): User -> bool
  {
    (u: User) => u.id == uid
  }

  /** The comment row with its author loaded through `author_id`. */
  predicate LoadedFrom(s: Store, row: CommentRow, c: Comment)
  {
    && c.id == row.id && c.commentText == row.commentText && c.postId == row.postId
    && c.author in s.users && c.author.id == row.authorId
  }

  /** Loads each comment row's author; fails if an author_id names no user. */
  function LoadComments(s: Store, rows: seq<CommentRow>): (r: Option<seq<Comment>>)
    ensures r.Some? <==> forall c :: c in rows ==> c.authorId in UserIds(s)
    ensures r.Some? ==> |r.value| == |rows|
    ensures r.Some? ==> forall i :: 0 <= i < |rows| ==> LoadedFrom(s, rows[i], r.value[i])
  {
    if rows == [] then Some([])
    else
      var row := rows[0];
      match (Find(s.users, UserWithId(row.authorId)), LoadComments(s, rows[1..]))
      case (Some(author), Some(rest)) =>
        Some([Comment(row.id, row.commentText, author, row.postId)] + rest)
      case (None, _) =>
        assert row.authorId !in UserIds(s);
        None
      case (_, None) =>
        None
  }

  /** `Post.media_items`: the media rows whose post_id is `pid`, in table order. */
  function MediaOf(s: Store, pid: int): (ms: seq<Media>)
    ensures forall m :: m in ms <==> m in s.media && m.postId == pid
    ensures forall m :: multiset(ms)[m] == if m.postId == pid then multiset(s.media)[m] else 0
    ensures Subsequence(ms, s.media)
  {
    var keep := (m: Media) => m.postId == pid;
    FilterCounts(s.media, keep);
    FilterIsSubsequence(s.media, keep);
    Filter(s.media, keep)
  }

  /** `Post.comments`: the comment rows whose post_id is `pid`, in table order. */
  function CommentsOf(s: Store, pid: int): (cs: seq<CommentRow>)
    ensures forall c :: c in cs <==> c in s.comments && c.postId == pid
    ensures forall c :: multiset(cs)[c] == if c.postId == pid then multiset(s.comments)[c] else 0
    ensures Subsequence(cs, s.comments)
  {
    var keep := (c: CommentRow) => c.postId == pid;
    FilterCounts(s.comments, keep);
    FilterIsSubsequence(s.comments, keep);
    Filter(s.comments, keep)
  }

  /** Loads post `pid` with its poster, its media list and its comment list. */
  function LoadPost(s: Store, pid: int): (r: Option<Post>)
    ensures r.Some? ==> pid in PostIds(s)
    ensures r.Some? ==> r.value.id == pid && r.value.poster in s.users
    ensures r.Some? ==> exists row :: row in s.posts && row.id == pid && r.value.poster.id == row.posterId
    ensures r.Some? ==> r.value.mediaItems == MediaOf(s, pid)
    ensures r.Some? ==> |r.value.comments| == |CommentsOf(s, pid)|
    ensures r.Some? ==> forall i :: 0 <= i < |CommentsOf(s, pid)| ==> LoadedFrom(s, CommentsOf(s, pid)[i], r.value.comments[i])
  {
    match Find(s.posts, (p: PostRow) => p.id == pid)
    case None => None
    case Some(row) =>
      match (Find(s.users, UserWithId(row.posterId)), LoadComments(s, CommentsOf(s, pid)))
      case (Some(poster), Some(cs)) => Some(Post(pid, poster, MediaOf(s, pid), cs))
      case _ => None
  }

  /**
    In a valid store every post loads, and its view lists one media view per media
    row with that post_id and one comment view per comment row with that post_id,
    and holds no password.
   */
  lemma LoadPostInValidStore(s: Store, pid: int)
    requires Valid(s)
    ensures LoadPost(s, pid).Some? <==> pid in PostIds(s)
    ensures LoadPost(s, pid).Some? ==>
      var v := LoadPost(s, pid).value.Serialize();
      && |v.fields[2].1.items| == |MediaOf(s, pid)|
      && |v.fields[3].1.items| == |CommentsOf(s, pid)|
      && !Json.HasKey(v, "password")
  {
    if pid in PostIds(s) {
      var row :| row in s.posts && row.id == pid;
      var found := Find(s.posts, (p: PostRow) => p.id == pid);
      assert found.Some?;
      assert found.value.posterId in UserIds(s);
      assert Find(s.users, UserWithId(found.value.posterId)).Some?;
    }
  }

  /** Loads a follower row with both of its users. */
  function LoadFollower(s: Store, row: FollowerRow): (r: Option<Follower>)
    ensures r.Some? <==> row.userFromId in UserIds(s) && row.userToId in UserIds(s)
    ensures r.Some? ==> r.value.userFrom in s.users && r.value.userFrom.id == row.userFromId
    ensures r.Some? ==> r.value.userTo in s.users && r.value.userTo.id == row.userToId
  {
    match (Find(s.users, UserWithId(row.userFromId)), Find(s.users, UserWithId(row.userToId)))
    case (Some(a), Some(b)) => Some(Follower(a, b))
    case (None, _) =>
      assert row.userFromId !in UserIds(s);
      None
    case (_, None) =>
      assert row.userToId !in UserIds(s);
      None
  }

  /** In a valid store every follower row loads, and its view names the row's two users. */
  lemma LoadFollowerInValidStore(s: Store, row: FollowerRow)
    requires Valid(s) && row in s.followers
    ensures LoadFollower(s, row).Some?
    ensures var v := LoadFollower(s, row).value.Serialize();
      && Json.Keys(v) == ["user_from", "user_to"]
      && v.fields[0].1.fields[0].1 == Json.Int(row.userFromId)
      && v.fields[1].1.fields[0].1 == Json.Int(row.userToId)
  {
  }

  // Worked examples

  /** One user, one post, one picture. */
  function ExampleStore(): Store
  {
    Store([User(1, "a@x.com", "secret", true)], [], [PostRow(1, 1)],
          [Media(1, Picture, "http://img", 1)], [])
  }

  /** The example post loads with its poster, its one picture and no comments. */
  lemma ExampleLoadsPost()
    ensures Valid(ExampleStore())
    ensures LoadPost(ExampleStore(), 1) ==
      Some(Post(1, User(1, "a@x.com", "secret", true), [Media(1, Picture, "http://img", 1)], []))
  {
    var s := ExampleStore();
    var u := User(1, "a@x.com", "secret", true);
    var m := Media(1, Picture, "http://img", 1);
    assert UserIds(s) == {1} && PostIds(s) == {1};
    assert Valid(s);
    assert Find(s.posts, (p: PostRow) => p.id == 1) == Some(PostRow(1, 1));
    assert Find(s.users, UserWithId(1)) == Some(u);
    assert MediaOf(s, 1) == [m] by {
      assert Filter(s.media[1..], (m: Media) => m.postId == 1) == [];
    }
    assert CommentsOf(s, 1) == [];
  }

  /** The example post's view, written out in full: the password does not appear. */
  lemma PostViewExample()
    ensures
      && Valid(ExampleStore())
      && LoadPost(ExampleStore(), 1).Some?
      && LoadPost(ExampleStore(), 1).value.Serialize() ==
         Json.Obj([("post_id", Json.Int(1)),
                   ("poster", Json.Obj([("id", Json.Int(1)), ("email", Json.Str("a@x.com"))])),
                   ("media_items", Json.Arr([Json.Obj([("media_id", Json.Int(1)), ("type", Json.Str("Picture")),
                                                       ("url", Json.Str("http://img")), ("post_id", Json.Int(1))])])),
                   ("comments", Json.Arr([]))])
  {
    ExampleLoadsPost();
    var m := Media(1, Picture, "http://img", 1);
    assert MediaViews([m]) == [m.Serialize()];
    assert CommentViews([]) == [];
  }

  /** A follows B: the edge's view holds both users' views and nothing else. */
  lemma FollowerViewExample()
    ensures
      var s := Store([User(1, "a@x.com", "p1", true), User(2, "b@x.com", "p2", false)],
                     [FollowerRow(1, 2)], [], [], []);
      && Valid(s)
      && LoadFollower(s, FollowerRow(1, 2)).Some?
      && LoadFollower(s, FollowerRow(1, 2)).value.Serialize() ==
         Json.Obj([("user_from", Json.Obj([("id", Json.Int(1)), ("email", Json.Str("a@x.com"))])),
                   ("user_to", Json.Obj([("id", Json.Int(2)), ("email", Json.Str("b@x.com"))]))])
  {
    var s := Store([User(1, "a@x.com", "p1", true), User(2, "b@x.com", "p2", false)],
                   [FollowerRow(1, 2)], [], [], []);
    assert UserIds(s) == {1, 2};
  }
}
