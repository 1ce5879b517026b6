/**
  The five entities of the social-media schema and their `serialize` views.

  Each entity is the fully loaded object: its relationships are resolved to the
  related entities, so a foreign-key column that only repeats the related entity's
  id (a post's poster_id, a comment's author_id, a follower's user_from_id and
  user_to_id) is not stored twice. Media and Comment keep post_id as a plain id,
  exactly as their views emit it.

  Every view drops the same two things and nothing else: a user's password and
  is_active flag. `Redacted` resets those two fields, and each view is paired with a
  decoder that recovers the redacted entity from the view.
 */
module Models {

  import opened Wrappers
  import opened Json

  /** The four kinds of media attachment. */
  datatype MediaType = Picture | URL | Video | Text {

    /** The enum member's value: its own name. */
    function Value(): (s: string)
      ensures s in MediaTypeNames
    {
      match this
      case Picture => "Picture"
      case URL => "URL"
      case Video => "Video"
      case Text => "Text"
    }
  }

  /** The values of the four members; no other string names a media type. */
  const MediaTypeNames: set<string> := {"Picture", "URL", "Video", "Text"}

  /** Looks up the member with value `s`; a string that is not a member's value is rejected. */
  function ParseMediaType(s: string): (r: Option<MediaType>)
    ensures r.Some? <==> s in MediaTypeNames
    ensures r.Some? ==> r.value.Value() == s
  {
    if s == "Picture" then Some(Picture)
    else if s == "URL" then Some(URL)
    else if s == "Video" then Some(Video)
    else if s == "Text" then Some(Text)
    else None
  }

  /** Distinct members have distinct values, and each value leads back to its member. */
  lemma MediaTypeValueInjective(a: MediaType, b: MediaType)
    ensures ParseMediaType(a.Value()) == Some(a)
    ensures a.Value() == b.Value() <==> a == b
  {
  }

  datatype User = User(id: int, email: string, password: string, isActive: bool) {

    /** The public view of a user: its id and email; the password is left out. */
    function Serialize(): (r: Val)
      ensures Keys(r) == ["id", "email"]
      ensures !HasKey(r, "password")
      ensures DecodeUser(r) == Some(Redacted())
    {
      Obj([("id", Int(id)), ("email", Str(email))])
    }

    /** This user with the fields its view omits reset: what the view determines. */
    function Redacted(): User
    {
      User(id, email, "", false)
    }
  }

  /** A directed "follows" edge, with both of its users loaded. */
  datatype Follower = Follower(userFrom: User, userTo: User) {

    /** Both ends expanded through the user view. */
    function Serialize(): (r: Val)
      ensures Keys(r) == ["user_from", "user_to"]
      ensures r.fields[0].1 == userFrom.Serialize() && r.fields[1].1 == userTo.Serialize()
      ensures !HasKey(r, "password")
      ensures DecodeFollower(r) == Some(Redacted())
    {
      Obj([("user_from", userFrom.Serialize()), ("user_to", userTo.Serialize())])
    }

    function Redacted(): Follower
    {
      Follower(userFrom.Redacted(), userTo.Redacted())
    }
  }

  /** A media attachment; it refers to its post by id only. */
  datatype Media = Media(mediaId: int, mediaType: MediaType, url: string, postId: int) {

    /** Every column, with the type as its string value and the post as its raw id. */
    function Serialize(): (r: Val)
      ensures Keys(r) == ["media_id", "type", "url", "post_id"]
      ensures r.fields[1].1.Str? && r.fields[1].1.s in MediaTypeNames
      ensures r.fields[3].1 == Int(postId)
      ensures !HasKey(r, "password")
      ensures DecodeMedia(r) == Some(this)
    {
      Obj([("media_id", Int(mediaId)), ("type", Str(mediaType.Value())),
           ("url", Str(url)), ("post_id", Int(postId))])
    }
  }

  /** A comment, with its author loaded; it refers to its post by id only. */
  datatype Comment = Comment(id: int, commentText: string, author: User, postId: int) {

    /** The comment's columns, the author through the user view, the post as its raw id. */
    function Serialize(): (r: Val)
      ensures Keys(r) == ["id", "comment_text", "author", "post_id"]
      ensures r.fields[2].1 == author.Serialize()
      ensures r.fields[3].1 == Int(postId)
      ensures !HasKey(r, "password")
      ensures DecodeComment(r) == Some(Redacted())
    {
      Obj([("id", Int(id)), ("comment_text", Str(commentText)),
           ("author", author.Serialize()), ("post_id", Int(postId))])
    }

    function Redacted(): Comment
    {
      Comment(id, commentText, author.Redacted(), postId)
    }
  }

  /** A post, with its poster, its media list and its comment list loaded. */
  datatype Post = Post(id: int, poster: User, mediaItems: seq<Media>, comments: seq<Comment>) {

    /**
      The post's id, its poster through the user view, and one view per media item
      and per comment, in the order of the post's lists.
     */
    function Serialize(): (r: Val)
      ensures Keys(r) == ["post_id", "poster", "media_items", "comments"]
      ensures r.fields[1].1 == poster.Serialize()
      ensures r.fields[2].1 == Arr(MediaViews(mediaItems))
      ensures r.fields[3].1 == Arr(CommentViews(comments))
      ensures !HasKey(r, "password")
      ensures DecodePost(r) == Some(Redacted())
    {
      Obj([("post_id", Int(id)), ("poster", poster.Serialize()),
           ("media_items", Arr(MediaViews(mediaItems))), ("comments", Arr(CommentViews(comments)))])
    }

    function Redacted(): Post
    {
      Post(id, poster.Redacted(), mediaItems, RedactedComments(comments))
    }
  }

  /** `[media.serialize() for media in ms]`: one view per item, same length, same order. */
  function MediaViews(ms: seq<Media>): (vs: seq<Val>)
    ensures |vs| == |ms|
    ensures forall i :: 0 <= i < |ms| ==> vs[i] == ms[i].Serialize()
    ensures !HasKey(Arr(vs), "password")
    ensures DecodeAll(vs, DecodeMedia) == Some(ms)
  {
    var vs := seq(|ms|, i requires 0 <= i < |ms| => ms[i].Serialize());
    ArrLacksKey(vs, "password");
    DecodeAllInverse(vs, DecodeMedia, ms);
    vs
  }

  /** `[comment.serialize() for comment in cs]`: one view per comment, same length, same order. */
  function CommentViews(cs: seq<Comment>): (vs: seq<Val>)
    ensures |vs| == |cs|
    ensures forall i :: 0 <= i < |cs| ==> vs[i] == cs[i].Serialize()
    ensures !HasKey(Arr(vs), "password")
    ensures DecodeAll(vs, DecodeComment) == Some(RedactedComments(cs))
  {
    var vs := seq(|cs|, i requires 0 <= i < |cs| => cs[i].Serialize());
    ArrLacksKey(vs, "password");
    DecodeAllInverse(vs, DecodeComment, RedactedComments(cs));
    vs
  }

  function RedactedComments(cs: seq<Comment>): seq<Comment>
  {
    seq(|cs|, i requires 0 <= i < |cs| => cs[i].Redacted())
  }

  // What each view determines: two entities have the same view exactly when they
  // agree on everything but their users' passwords and is_active flags.

  lemma UserViewDeterminesRedacted(a: User, b: User)
    ensures a.Serialize() == b.Serialize() <==> a.Redacted() == b.Redacted()
  {
  }

  lemma FollowerViewDeterminesRedacted(a: Follower, b: Follower)
    ensures a.Serialize() == b.Serialize() <==> a.Redacted() == b.Redacted()
  {
  }

  lemma CommentViewDeterminesRedacted(a: Comment, b: Comment)
    ensures a.Serialize() == b.Serialize() <==> a.Redacted() == b.Redacted()
  {
  }

  lemma PostViewDeterminesRedacted(a: Post, b: Post)
    ensures a.Serialize() == b.Serialize() <==> a.Redacted() == b.Redacted()
  {
    if a.Redacted() == b.Redacted() {
      assert |a.comments| == |RedactedComments(a.comments)| == |b.comments|;
      forall i | 0 <= i < |a.comments|
        ensures a.comments[i].Serialize() == b.comments[i].Serialize()
      {
        assert RedactedComments(a.comments)[i] == RedactedComments(b.comments)[i];
        CommentViewDeterminesRedacted(a.comments[i], b.comments[i]);
      }
      assert CommentViews(a.comments) == CommentViews(b.comments);
    }
  }

  // Decoders: the inverse of each view, up to the fields the view leaves out.

  function DecodeUser(v: Val): Option<User>
  {
    if Keys(v) == ["id", "email"] && v.fields[0].1.Int? && v.fields[1].1.Str?
    then Some(User(v.fields[0].1.n, v.fields[1].1.s, "", false))
    else None
  }

  function DecodeFollower(v: Val): Option<Follower>
  {
    if Keys(v) == ["user_from", "user_to"] then
      match (DecodeUser(v.fields[0].1), DecodeUser(v.fields[1].1))
      case (Some(a), Some(b)) => Some(Follower(a, b))
      case _ => None
    else None
  }

  function DecodeMedia(v: Val): Option<Media>
  {
    if Keys(v) == ["media_id", "type", "url", "post_id"]
       && v.fields[0].1.Int? && v.fields[1].1.Str? && v.fields[2].1.Str? && v.fields[3].1.Int?
    then
      match ParseMediaType(v.fields[1].1.s)
      case Some(t) => Some(Media(v.fields[0].1.n, t, v.fields[2].1.s, v.fields[3].1.n))
      case None => None
    else None
  }

  function DecodeComment(v: Val): Option<Comment>
  {
    if Keys(v) == ["id", "comment_text", "author", "post_id"]
       && v.fields[0].1.Int? && v.fields[1].1.Str? && v.fields[3].1.Int?
    then
      match DecodeUser(v.fields[2].1)
      case Some(a) => Some(Comment(v.fields[0].1.n, v.fields[1].1.s, a, v.fields[3].1.n))
      case None => None
    else None
  }

  function DecodePost(v: Val): Option<Post>
  {
    if Keys(v) == ["post_id", "poster", "media_items", "comments"]
       && v.fields[0].1.Int? && v.fields[2].1.Arr? && v.fields[3].1.Arr?
    then
      match (DecodeUser(v.fields[1].1), DecodeAll(v.fields[2].1.items, DecodeMedia),
             DecodeAll(v.fields[3].1.items, DecodeComment))
      case (Some(p), Some(media), Some(comments)) => Some(Post(v.fields[0].1.n, p, media, comments))
      case _ => None
    else None
  }
}
