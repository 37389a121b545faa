# fastapi-post: a verified model of the session, comment, like and image logic

This project models the decision logic of a small blogging backend, where users sign up, log in with a session cookie, comment on posts, like posts and upload a profile image. The web framework, the ORM, the password hashing library and the file and bucket storage are not modelled. The model keeps the logic the services and routes place on top of them:

- **Session store and authentication** (`SessionStore`, `Auth`). The login-session table is a map from session id to row. `AuthService` finds, inserts and deletes rows. `Resolve` is the decision `get_current_user` makes, and `GetCurrentUser` is that handler calling `FindSession`. The handler fails with one of three 401 errors, always checked in this order: no session id, unknown session, expired session (`now >= expire`). A session moves from absent to active to expired as time passes, and becomes absent again once it is deleted.
- **Sign-up validation** (`Users`). A password needs at least 8 characters (a 422 error otherwise). After that length check, it also needs one character in `A`..`Z` (a 400 error otherwise). The role defaults to `member`.
- **Comments** (`Comments`). The comment table is a sequence in storage order. The service creates comments, looks them up by id, edits them and deletes them. An edit replaces the content only when the new content is a non-empty string. Listings by post or by author return page `p` of the matching comments: at most 20, starting at offset `(p - 1) * 20`.
- **Likes** (`Likes`, `LikeApi`). The like table supports insert, lookup by (user, post) and the query listing who liked a post. The create-like route first checks that the post exists, then that the user has not liked it yet, and only then inserts the like.
- **Profile images** (`Images`). A new image is ACTIVE when its `user_id` is truthy and PENDING otherwise. After the new image is added, the user's previous ACTIVE image is demoted to PENDING, but only on a best-effort basis. A sweep deletes PENDING images created more than one day ago.

Shared pieces: `Base` holds `Option`, `Result` and Python truthiness (`None`, `0` and `""` are false). `Query` holds the three ORM query shapes the services use: `.where(...).first()`, `.where(...).all()` and `.offset(...).limit(...)`.

Times are integers counted in seconds, and "now" is always a parameter. Each table is a field of the class that models its service. Ids come from a counter `nextId`, which stands in for the database assigning a new primary key.

Assumptions the model makes explicit:

- The session row has an `expire` column of its own, equal to the expiry written into its serialised content. `insert_session` writes the expiry only into `session_data` (src/servicies/auth.py:31-36). `get_current_user`, however, reads `.expire` off the row it finds (src/auth.py:37). The model stores the expiry in both places, and `WellKeyed` keeps them equal.
- The routes read `current_user.id` as the id of the logged-in user. In the model it is `SessionContent.userId`. Taken literally, `get_current_user` returns the row found by `find_session`, and that row's `id` is the session token. The session schema and the session table's declaration (`src/schemas/auth.py`, `src/domains/login_session.py`) are not part of this model.

## Model

| member | source | states |
|---|---|---|
| `Users.SearchUppercase` | src/schemas/user.py:19 | the scan for `[A-Z]` succeeds iff some position of the string holds an upper-case ASCII letter |
| `Users.RoleOrDefault` | src/schemas/user.py:14 | a missing role becomes `member`; a given role is kept |
| `Users.ValidateSignUp` | src/schemas/user.py:8-24 | under 8 characters gives the 422 field error; 8 or more without `A`..`Z` gives the 400 error; the body is accepted iff both hold, with nickname and password unchanged and the role defaulted |
| `Users.EmptyPasswordIsFieldError` | tests/e2e/test_user_e2e.py:101-114 | an empty password yields 422, never the 400 uppercase error |
| `Users.LowercasePasswordIsRejected` | tests/e2e/test_user_e2e.py:78-92 | a long-enough password with no `A`..`Z` is refused with 400 |
| `Users.AcceptedRequestKeepsBody` | src/schemas/user.py:14-24 | an accepted password is returned as sent, with role `member` when none was given |
| `SessionStore.NewLoginSession` | src/servicies/auth.py:31-36 | the stored row has the given id, the content's user and role, and expiry `now + expires_delta` in both the content and the row |
| `SessionStore.Inserted` | src/servicies/auth.py:34-38 | the table gains exactly the new id; every other row is unchanged |
| `SessionStore.Deleted` | src/servicies/auth.py:43-44 | the table loses exactly the given id; every other row is unchanged |
| `SessionStore.AuthService.FindSession` | src/servicies/auth.py:17-26 | returns None iff no row has the id; otherwise the row stored under it, whose id is that id |
| `SessionStore.AuthService.InsertSession` | src/servicies/auth.py:28-41 | stores the content under exactly `session_id` with expiry `now + expires_delta` and returns `session_id`; an id already taken fails and changes nothing |
| `SessionStore.AuthService.DeleteSession` | src/servicies/auth.py:43-45 | removes that row and leaves every other row untouched |
| `SessionStore.InsertThenFind` | src/servicies/auth.py:31-39 | after an insert the id is present, holding the user and the new expiry |
| `SessionStore.DeleteIsIdempotent` | src/servicies/auth.py:43-45 | after a delete the id is absent, and deleting again changes nothing |
| `Auth.Resolve` | src/auth.py:23-43 | succeeds iff the id is truthy, stored and `now < expire`, and then returns the stored row; a missing or empty id gives the no-session-id error, an unknown id gives not-found, and a stored session with `now >= expire` gives expired |
| `Auth.GetCurrentUser` | src/auth.py:20-43 | the handler's answer equals `Resolve` over the table as it stands; it changes nothing, and a success carries an expiry after `now` |
| `Auth.ExpiresAtBoundary` | src/auth.py:37-42 | at `now == expire` a stored session is already expired, and one second earlier it resolves |
| `Auth.ExpiryIsPermanent` | src/auth.py:29-42 | an expired stored session stays expired at every later time and is never reported as not found |
| `Auth.ResolveAfterInsert` | src/auth.py:29-43 | a session just inserted resolves to its row exactly until `login time + ttl`, then reports expired |
| `Auth.ResolveAfterDelete` | src/auth.py:29-35 | a deleted session reports not-found at every time |
| `Auth.OtherSessionsUnaffected` | src/servicies/auth.py:38-44 | inserting or deleting one session does not change how any other id resolves |
| `Comments.PageOffset` | src/service/comment.py:25 | page `p` starts at a multiple of 20, namely the `(p - 1)`-th one |
| `Comments.Page` | src/service/comment.py:26-33 | at most 20 comments, each stored and matching the filter, taken in order from position `(p - 1) * 20` of the matching comments |
| `Comments.PageLocates` | src/service/comment.py:25-30 | the matching comment at position `k` of the full listing is on page `k / 20 + 1`, at slot `k % 20` |
| `Comments.PagePastEndIsEmpty` | src/service/comment.py:29-30 | a page whose offset is past the last matching comment is empty |
| `Comments.EditedContent` | src/service/comment.py:56-57 | the new content wins iff it is truthy (not None, not empty); otherwise the old content stays |
| `Comments.WithContent` | src/service/comment.py:56-59 | only the content of the row with that id changes; ids, authors, posts and all other rows stay |
| `Comments.CommentService.CreateComment` | src/service/comment.py:17-22 | appends exactly one comment with the given author, post and content, under a fresh id, and returns it |
| `Comments.CommentService.CommentListByPost` | src/service/comment.py:24-33 | at most 20 comments, every one stored and on that post |
| `Comments.CommentService.CommentListByUser` | src/service/comment.py:35-44 | at most 20 comments, every one stored and written by that user |
| `Comments.CommentService.CommentOne` | src/service/comment.py:46-51 | None iff no comment has the id; otherwise a stored comment with that id |
| `Comments.CommentService.EditComment` | src/service/comment.py:53-60 | the table after the edit is the old one with only that comment's content replaced, and only when the new content is truthy |
| `Comments.CommentService.DeleteComment` | src/service/comment.py:62-64 | the table keeps, in order, exactly the comments with another id |
| `Comments.CreatedCommentIsFound` | src/service/comment.py:17-22 | a new comment is what `comment_one` returns for its id |
| `Comments.EditedCommentIsFound` | src/service/comment.py:46-60 | after an edit, `comment_one` returns the comment with only its content updated |
| `Comments.DeleteRemovesExactlyOne` | src/service/comment.py:62-64 | after a delete the id is not found, and the table is the old one with exactly that one row cut out |
| `Likes.JoinUsers` | src/servicies/like.py:53 | over a user table keyed by `User.id`, every user returned has the id of some like's `user_id`, and every like whose user exists contributes that user |
| `Likes.LikeService.CreateLike` | src/servicies/like.py:33-40 | appends exactly one like with the given user and post under an id above every stored id, and returns it, keeping ids increasing; it checks no uniqueness |
| `Likes.LikeService.GetLikeByUserAndPost` | src/servicies/like.py:42-50 | returns a stored like by that user on that post, or None iff there is none; the table is only read |
| `Likes.LikeService.GetLikeUsers` | src/servicies/like.py:52-59 | over a user table keyed by `User.id`, joined on `Like.user_id == User.id`: with a truthy post id, returns exactly the users having a like on that post; with None or 0, the users having any like; the table is only read |
| `Likes.AllLikersWithoutFilter` | src/servicies/like.py:53-55 | with post id None or 0, every user who liked anything is listed (user table keyed by `User.id`) |
| `LikeApi.CreateLike` | src/apis/like.py:17-49 | an unknown post gives the 400 post error with nothing inserted; otherwise an existing like by the user gives the 400 already-liked error with nothing inserted; otherwise exactly one like with the session's user and the request's post is added under the next id, which then advances by one, and echoed back; no (user, post) pair is ever recorded twice |
| `LikeApi.AppendKeepsPairsUnique` | src/apis/like.py:31-40 | adding a like for a pair not yet recorded keeps every pair unique |
| `LikeApi.RepeatedLikeIsRejected` | src/apis/like.py:31-40 | with sequential calls, the second like of the same post by the same user is refused, so the table grows by one like at most |
| `Images.NewProfileImage` | src/servicies/image.py:36-43 | the new image is ACTIVE iff `user_id` is truthy, and carries the given name, save type and user, with use type USER_PROFILE |
| `Images.Demoted` | src/servicies/image.py:83-87 | the row with that id becomes PENDING; every other row is unchanged |
| `Images.Fresh` | src/servicies/image.py:110-118 | an image survives the sweep iff it is not a PENDING image created before the cutoff |
| `Images.Stale` | src/servicies/image.py:111-116 | the sweep selects exactly the PENDING images created strictly before the cutoff |
| `Images.WithoutIds` | src/servicies/image.py:117-118 | deleting by id keeps exactly the rows whose id was not deleted |
| `Images.ImageService.RemovePreviousImage` | src/servicies/image.py:68-87 | an unknown id changes nothing; a failed file or bucket deletion raises and changes nothing; otherwise that image becomes PENDING |
| `Images.ImageService.SaveProfileImg` | src/servicies/image.py:21-66 | on a successful upload, appends the new image and returns it, with the previous ACTIVE image demoted only if its removal succeeded; a failed removal is swallowed; a failed upload leaves the table unchanged |
| `Images.ImageService.AddImage` | src/servicies/image.py:44-45 | the new row is appended under the next id |
| `Images.ImageService.RemoveOldPendingImages` | src/servicies/image.py:109-118 | deleting the selected images one by one leaves exactly the images that are not PENDING and older than one day, in order |
| `Images.PreviousImageFoundAfterAdd` | src/servicies/image.py:28-49 | the previous image, found before the new one is added, is still found afterwards, and demoting it never touches the new image |
| `Images.SweepRemovesStale` | src/servicies/image.py:110-118 | with unique ids, deleting the ids of the selected images is the same as keeping the fresh ones |
| `Images.SweepKeepsExactlyFresh` | src/servicies/image.py:112-114 | a stored image is kept iff it is not (PENDING and created before the cutoff) |
| `Images.SaveKeepsOneActive` | src/servicies/image.py:28-49 | when the removal succeeds, each user keeps at most one ACTIVE image |
| `Images.FailedRemovalLeavesTwoActive` | src/servicies/image.py:47-51 | for every table in which a user with a truthy id has an ACTIVE image, a failed removal followed by the save leaves that user with two ACTIVE images, so the demotion really is best effort |

## Left out

- Password hashing and verification (src/auth.py:9-17). They belong to an external library and are not modelled.
- File and bucket I/O (`save_local`, `save_gcp`, `os.remove`, `blob.delete`, `run_in_executor`). Whether each one succeeds is a boolean parameter (`ioOk`, `removalOk`, `uploadOk`). A local file that is already missing counts as a successful removal. The save type only chooses which storage is touched, so it does not affect the table.
- ORM plumbing (`commit`, `flush`, `refresh`, the async engine). Each table is a sequence or map, changed at once. A failed upload raises before the commit, so the request's changes are rolled back; the model restores the table. `remove_old_pending_images` never commits; its deletions are modelled on the request's session.
- Queries without `ORDER BY` (listings, `.first()`, the liker join) are modelled in storage order. The database does not promise that order.
- Stored files. `save_profile_img` deletes the previous image's file before the new file is uploaded (src/servicies/image.py:47-63). When the upload then fails, the table is rolled back and the previous image is ACTIVE again, but its file is already gone. The model holds the table only, so it cannot show this loss.
- The sign-up body's `nickname` and `role` are taken as well-typed. A missing nickname or an unknown role is refused with 422 by the same schema (src/schemas/user.py:9, 14), and the model cannot represent such a request.
- Ids come from a counter that never reuses a value. SQLite may reuse the largest id after that row is deleted.
- JSON serialisation of the session content. The content is a record.
- `SessionStore.AuthService.InsertSession`: the expiry is set on the stored copy of the content. The source also sets it in place on the caller's object, and that update is not modelled.
- `SessionStore.AuthService.DeleteSession`: deleting a row that is no longer stored is a no-op. The ORM's behaviour for a detached object is not modelled.
- `Comments.CommentService.CommentListByPost`: requires page ≥ 1, which the code does not check. A page of 0 or less gives a negative SQL offset, which is not modelled. The same holds for `Comments.CommentService.CommentListByUser`.
- `Comments.CommentService.EditComment` and `Comments.CommentService.DeleteComment`: require that the comment is stored, because the route passes a comment it has just looked up.
- The comment author-or-admin check (403), the 400 for a missing comment, the request-body validation of comments, the duplicate-nickname 409 and routing all live in route files that are not part of this model.
- The post service (`src/servicies/post.py`) is not part of this model. Existing posts are given as a set of ids.
- The image, like, comment and session table declarations (`src/domains/image.py`, `src/domains/like.py`, `src/domain/comment.py`, `src/domains/login_session.py`) are not part of this model. Their enums contain only the values the core uses, and comments carry no timestamp.
- Concurrency. The model is sequential, so the race between the duplicate-like check and the insert is not represented.
- `main.py`, `src/config.py`, `src/database.py`, `src/schemas/post.py`, `src/schemas/like.py` and `src/domains/post.py` contain routing, configuration and data definitions only.
