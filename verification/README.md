# Social-media schema: entities, views and declared constraints

A model, in Dafny, of the data layer of a small Instagram-style backend
(`src/models.py`). The source declares five entities — User, Follower, Post,
Media, Comment — and a `MediaType` enum. Each entity has a `serialize` method
that turns the loaded object into the plain dict/list value the web layer sends
out. The same file also declares the relational constraints: primary keys, unique
columns, foreign keys and delete cascades.

Modules:

- `Json` (`json.dfy`): `Val`, the plain value a `serialize` returns. An object is
  an ordered list of (key, value) pairs, because a Python dict keeps insertion
  order. `HasKey` says that a key occurs at any depth. `DecodeAll` decodes a list
  element by element.
- `Models` (`models.dfy`): `MediaType` with `Value`, and the five entities as
  datatypes with `Serialize` members. Every view drops exactly a user's `password`
  and `is_active` and nothing else. `Redacted` resets those two fields, and a
  decoder per view (`DecodeUser`, `DecodePost`, …) gets the redacted entity back
  from the view. This decoder is the partner of each view. It proves that the
  view loses nothing else. It also proves that two entities have the same view
  exactly when their redacted forms are equal.
- `Schema` (`schema.dfy`): the five tables as sequences of rows. `Valid` states the
  declared constraints. `Cascade`, `DeleteUser` and `DeletePost` state the
  declared delete cascades as functions from one store value to the next.
  `LoadPost` and `LoadFollower` resolve the declared relationships by foreign key.
  This part models the schema's declarations. The program itself contains no
  code for them: the ORM and the database engine enforce them.
- `Wrappers` (`wrappers.dfy`): `Option`.

Loaded entities do not repeat a foreign key that equals the related entity's id:
a post's `poster_id`, a comment's `author_id`, a follower's two user ids. The
table rows in `Schema` keep these columns. Media and Comment keep `post_id` as a
plain integer, exactly as their views emit it. So a view never nests a Post inside
a Post. In Dafny, datatype values are finite and acyclic, so the views terminate
by construction.

No `order_by` is declared on any relationship. The model lists a relationship's
rows in table order.

No cascade is declared on the follower table. `DeleteUser` therefore leaves
follower rows alone, exactly as declared. `DeleteUserKeepsValid` proves that the
store stays valid after the delete exactly when no follower edge names the
deleted user. Otherwise an edge's foreign key is left dangling.

## Model

| member | source | states |
|---|---|---|
| `Models.MediaType.Value` | src/models.py:60-64 | every member's value is one of the four names Picture, URL, Video, Text |
| `Models.ParseMediaType` | src/models.py:60-64 | looking up a member by value succeeds exactly for the four names, and the member found has that value; every other string is rejected |
| `Models.MediaTypeValueInjective` | src/models.py:60-64 | distinct members have distinct values, and each value leads back to its own member |
| `Models.User.Serialize` | src/models.py:20-25 | the view has exactly the keys `id`, `email`, in that order; no `password` key at any depth; it decodes back to the user with password and is_active reset |
| `Models.UserViewDeterminesRedacted` | src/models.py:20-25 | two users have the same view iff they agree on id and email |
| `Models.Follower.Serialize` | src/models.py:36-40 | exactly the keys `user_from`, `user_to`, each the corresponding user's view; no password at any depth; decodes back to the edge with both users redacted |
| `Models.FollowerViewDeterminesRedacted` | src/models.py:36-40 | two edges have the same view iff their redacted forms are equal |
| `Models.Media.Serialize` | src/models.py:76-82 | exactly the keys `media_id`, `type`, `url`, `post_id`; `type` is one of the four enum values; `post_id` is the raw id; the view decodes back to the same media item (lossless) |
| `Models.Comment.Serialize` | src/models.py:95-101 | exactly the keys `id`, `comment_text`, `author`, `post_id`; `author` is the user view; `post_id` is the raw id; no password; decodes back to the redacted comment |
| `Models.CommentViewDeterminesRedacted` | src/models.py:95-101 | two comments have the same view iff their redacted forms are equal |
| `Models.Post.Serialize` | src/models.py:52-58 | exactly the keys `post_id`, `poster`, `media_items`, `comments`; `poster` is the user view; the two lists are the per-item views; no password at any depth; decodes back to the redacted post |
| `Models.MediaViews` | src/models.py:56 | the media list's views have the list's length and order, element i is item i's view, none holds a password, and they decode back to the list |
| `Models.CommentViews` | src/models.py:57 | the same for the comment list, decoding back to the redacted comments |
| `Models.PostViewDeterminesRedacted` | src/models.py:52-58 | two posts have the same view iff they agree on everything but their users' passwords and is_active flags |
| `Schema.Valid` | src/models.py:12-90 | the declared constraints hold: no two rows of a table share a primary key (the follower key being the pair of user ids), no two users share an email, no two media items share a url, and every foreign key (poster_id, author_id, both follower ids, post_id) names an existing row |
| `Schema.EmailIdentifiesUser` | src/models.py:13 | in a valid store two user rows with the same email are the same row |
| `Schema.UrlIdentifiesMedia` | src/models.py:71 | in a valid store two media rows with the same url are the same row |
| `Schema.OneEdgePerPair` | src/models.py:30-31 | in a valid store the follower table holds each ordered pair (user_from_id, user_to_id) at most once |
| `Schema.Cascade` | src/models.py:17-50 | deleting a set of users and a set of posts removes exactly: those users; those posts and every post whose poster is a deleted user; every media item and comment of a removed post; every comment by a deleted user. Every other row stays, in table order; the follower table is unchanged |
| `Schema.CascadeKeepsValid` | src/models.py:17-50 | a cascading delete keeps every key and unique column, and keeps all foreign keys resolved iff no follower row names a deleted user |
| `Schema.DeleteUser` | src/models.py:17-18 | the user is gone, with every post and comment it wrote and every media item and comment of those posts; every other row stays, in table order, and no row is added; the follower table is unchanged |
| `Schema.DeleteUserKeepsValid` | src/models.py:17-34 | a user delete keeps a valid store valid iff no follower edge names that user |
| `Schema.DeletePost` | src/models.py:49-50 | the post is gone with its media and comments; users and followers are unchanged; every other row stays, in table order, and no row is added |
| `Schema.DeletePostKeepsValid` | src/models.py:49-50 | a post delete always keeps a valid store valid |
| `Schema.LoadComments` | src/models.py:89-92 | the comment rows load exactly when every author_id names a user; each loaded comment keeps its row's columns and its author is the user with that id |
| `Schema.MediaOf` | src/models.py:72-74 | a post's media list holds exactly the media rows whose post_id is that post, each as often as the table holds it, in table order |
| `Schema.CommentsOf` | src/models.py:90-93 | a post's comment list holds exactly the comment rows whose post_id is that post, each as often as the table holds it, in table order |
| `Schema.LoadPost` | src/models.py:45-50 | a loaded post has the requested id, a poster from the user table whose id is the post row's poster_id, the post's media rows and one loaded comment per comment row of the post |
| `Schema.LoadPostInValidStore` | src/models.py:49-57 | in a valid store a post loads iff its id is in the table; its view lists as many media views as media rows with that post_id and as many comment views as comment rows, with no password |
| `Schema.LoadFollower` | src/models.py:30-34 | an edge loads iff both user ids name users, and the loaded users carry those ids |
| `Schema.LoadFollowerInValidStore` | src/models.py:30-40 | in a valid store every edge loads, and its view's two user views carry the row's two ids |
| `Schema.PostViewExample` | src/models.py:52-82 | a user a@x.com with one post and one picture gives the post view `{post_id: 1, poster: {id: 1, email: "a@x.com"}, media_items: [{media_id: 1, type: "Picture", url: "http://img", post_id: 1}], comments: []}` |
| `Schema.FollowerViewExample` | src/models.py:36-40 | user 1 following user 2 gives `{user_from: {id: 1, email: …}, user_to: {id: 2, email: …}}` |

## Left out

- The ORM machinery (`db = SQLAlchemy()`, `db.Model`, `mapped_column`, sessions, lazy loading) belongs to a foreign library. Relationships are modelled only by what they mean: the related rows, found by foreign key.
- Database enforcement is not modelled: rejected inserts, constraint errors, transactions and the `String(120)` length limit on email. The declared constraints appear only as the store invariant `Valid`. There are no insert operations, because the source has none of its own.
- `Schema.DeleteUser`: when a follower edge names the deleted user, the outcome depends on the database engine, which the source does not name. An engine that enforces foreign keys rejects the delete. One that does not (SQLite without `PRAGMA foreign_keys=ON`, for example) deletes the user and keeps the dangling edge, which is what the model computes. `Schema.DeleteUserKeepsValid` states exactly when the result stays valid.
- Follower rows are not cascaded when a user is deleted, because no such cascade is declared.
- `delete-orphan` (deleting a child that is removed from its parent's list) is not modelled, because the source never removes a child from a list.
- The `is_active` flag and the password are stored but never used. There is no hashing, authentication, routing or migration in the source.
- Python's dict-to-JSON encoding (for example, key sorting by a web framework) is not part of this model. Views are ordered key/value lists.
