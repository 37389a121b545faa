/**
 * The comment table and the comment service: create, look up by id, edit
 * (content replaced only by a non-empty value), delete, and the paged
 * listings by post and by author, twenty comments per page.
 */
module Comments {
  import opened Base
  import opened Query

  /** Comments per page of a listing. */
  const ItemsPerPage: nat := 20

  /** A row of the comment table. */
  datatype Comment = Comment(id: nat, authorId: int, postId: int, content: string)

  /** The row filters the service queries with. */
  function ById(commentId: nat): Comment -> bool
  {
    (c: Comment) => c.id == commentId
  }

  function OnPost(postId: int): Comment -> bool
  {
    (c: Comment) => c.postId == postId
  }

  function ByAuthor(authorId: int): Comment -> bool
  {
    (c: Comment) => c.authorId == authorId
  }

  function NotId(commentId: nat): Comment -> bool
  {
    (c: Comment) => c.id != commentId
  }

  /** The primary key of a comment. */
  function CommentId(c: Comment): int
  {
    c.id
  }

  /** Comment ids grow with storage order, so no two rows share an id, and all lie below `nextId`. */
  ghost predicate IdsIncreasing(rows: seq<Comment>, nextId: nat)
  {
    KeysIncreasing(rows, CommentId, nextId)
  }

  /** The offset of a page: pages are numbered from 1. */
  function PageOffset(page: nat): (offset: nat)
    requires page >= 1
    ensures offset % ItemsPerPage == 0 && offset / ItemsPerPage == page - 1
  {
    (page - 1) * ItemsPerPage
  }

  /**
   * One page of the rows matching `p`: at most twenty, all matching, taken in
   * storage order from position `(page - 1) * 20` of the matching rows.
   */
  function Page(rows: seq<Comment>, p: Comment -> bool, page: nat): (r: seq<Comment>)
    requires page >= 1
    ensures |r| <= ItemsPerPage
    ensures forall c :: c in r ==> c in rows && p(c)
    ensures forall k :: 0 <= k < |r| ==> PageOffset(page) + k < |Where(rows, p)| && r[k] == Where(rows, p)[PageOffset(page) + k]
  {
    Window(Where(rows, p), PageOffset(page), ItemsPerPage)
  }

  /** The matching row at position `k` of the whole listing is on page `k / 20 + 1`, at slot `k % 20`. */
  lemma PageLocates(rows: seq<Comment>, p: Comment -> bool, k: nat)
    requires k < |Where(rows, p)|
    ensures var page := k / ItemsPerPage + 1;
      k % ItemsPerPage < |Page(rows, p, page)| && Page(rows, p, page)[k % ItemsPerPage] == Where(rows, p)[k]
  {
    var page := k / ItemsPerPage + 1;
    assert PageOffset(page) + k % ItemsPerPage == k;
  }

  /** A page past the last matching row is empty. */
  lemma PagePastEndIsEmpty(rows: seq<Comment>, p: Comment -> bool, page: nat)
    requires page >= 1 && (page - 1) * ItemsPerPage >= |Where(rows, p)|
    ensures Page(rows, p, page) == []
  {
  }

  /** The content an edit leaves: the new value when it is truthy, the old one otherwise. */
  function EditedContent(current: string, content: Option<string>): (r: string)
    ensures TruthyText(content) ==> r == content.value
    ensures !TruthyText(content) ==> r == current
  {
    if content.Some? && content.value != "" then content.value else current
  }

  /** The table with the content of row `commentId` replaced by `newContent`. */
  function WithContent(rows: seq<Comment>, commentId: nat, newContent: string): (r: seq<Comment>)
    ensures |r| == |rows|
    ensures forall i :: 0 <= i < |rows| ==> r[i].id == rows[i].id && r[i].authorId == rows[i].authorId && r[i].postId == rows[i].postId
    ensures forall i :: 0 <= i < |rows| && rows[i].id != commentId ==> r[i] == rows[i]
    ensures forall i :: 0 <= i < |rows| && rows[i].id == commentId ==> r[i].content == newContent
  {
    seq(|rows|, i requires 0 <= i < |rows| => if rows[i].id == commentId then rows[i].(content := newContent) else rows[i])
  }

  class CommentService {
    /** The comment table in storage order. */
    var comments: seq<Comment>
    /** The id the database hands to the next inserted comment. */
    var nextId: nat

    ghost predicate Valid()
      reads this
    {
      IdsIncreasing(comments, nextId)
    }

    constructor ()
      ensures Valid() && comments == [] && nextId == 0
    {
      comments := [];
      nextId := 0;
    }

    /** `create_comment`: appends one comment with the given author, post and content, under a fresh id. */
    method CreateComment(userId: int, postId: int, content: string) returns (c: Comment)
      requires Valid()
      modifies this
      ensures Valid()
      ensures c == Comment(old(nextId), userId, postId, content)
      ensures comments == old(comments) + [c] && nextId == old(nextId) + 1
    {
      c := Comment(nextId, userId, postId, content);
      comments := comments + [c];
      nextId := nextId + 1;
    }

    /** `comment_list_by_post`: one page of the comments on `postId`. */
    function CommentListByPost(postId: int, page: nat): (r: seq<Comment>)
      reads this
      requires page >= 1
      ensures |r| <= ItemsPerPage
      ensures forall c :: c in r ==> c in comments && c.postId == postId
    {
      Page(comments, OnPost(postId), page)
    }

    /** `comment_list_by_user`: one page of the comments written by `userId`. */
    function CommentListByUser(userId: int, page: nat): (r: seq<Comment>)
      reads this
      requires page >= 1
      ensures |r| <= ItemsPerPage
      ensures forall c :: c in r ==> c in comments && c.authorId == userId
    {
      Page(comments, ByAuthor(userId), page)
    }

    /** `comment_one`: the comment with id `commentId`, or None when there is none. */
    function CommentOne(commentId: nat): (r: Option<Comment>)
      reads this
      ensures r.None? <==> forall i :: 0 <= i < |comments| ==> comments[i].id != commentId
      ensures r.Some? ==> r.value in comments && r.value.id == commentId
    {
      First(comments, ById(commentId))
    }

    /**
     * `edit_comment`: the stored comment's content becomes `content` when
     * that is truthy and stays as it was otherwise; nothing else changes.
     */
    method EditComment(comment: Comment, content: Option<string>)
      requires Valid() && comment in comments
      modifies this
      ensures Valid() && nextId == old(nextId)
      ensures comments == WithContent(old(comments), comment.id, EditedContent(comment.content, content))
    {
      var newContent := comment.content;
      if content.Some? && content.value != "" {
        newContent := content.value;
      }
      comments := WithContent(comments, comment.id, newContent);
    }

    /** `delete_comment`: removes the given comment and keeps every other one, in order. */
    method DeleteComment(comment: Comment)
      requires Valid() && comment in comments
      modifies this
      ensures Valid() && nextId == old(nextId)
      ensures comments == Where(old(comments), NotId(comment.id))
    {
      WhereKeepsKeysIncreasing(comments, CommentId, nextId, NotId(comment.id));
      comments := Where(comments, NotId(comment.id));
    }
  }

  /** With increasing ids, each id names at most one row. */
  lemma IdIsKey(rows: seq<Comment>, nextId: nat, commentId: nat)
    requires IdsIncreasing(rows, nextId)
    ensures AtMostOne(rows, ById(commentId))
  {
  }

  /** A newly created comment is what `comment_one` returns for its id. */
  lemma CreatedCommentIsFound(rows: seq<Comment>, nextId: nat, c: Comment)
    requires IdsIncreasing(rows, nextId) && c.id == nextId
    ensures First(rows + [c], ById(c.id)) == Some(c)
  {
    assert IdsIncreasing(rows + [c], nextId + 1);
    IdIsKey(rows + [c], nextId + 1, c.id);
    FirstOfUnique(rows + [c], ById(c.id), c);
  }

  /** After an edit, `comment_one` returns the comment with only its content updated. */
  lemma EditedCommentIsFound(rows: seq<Comment>, nextId: nat, c: Comment, content: Option<string>)
    requires IdsIncreasing(rows, nextId) && c in rows
    ensures First(WithContent(rows, c.id, EditedContent(c.content, content)), ById(c.id))
         == Some(c.(content := EditedContent(c.content, content)))
  {
    var edited := WithContent(rows, c.id, EditedContent(c.content, content));
    var k :| 0 <= k < |rows| && rows[k] == c;
    assert edited[k] == c.(content := EditedContent(c.content, content));
    assert IdsIncreasing(edited, nextId);
    IdIsKey(edited, nextId, c.id);
    FirstOfUnique(edited, ById(c.id), edited[k]);
  }

  /** Deleting the comment at position `k` removes exactly that row: its id is no longer found and every other row is kept in order. */
  lemma DeleteRemovesExactlyOne(rows: seq<Comment>, nextId: nat, k: nat)
    requires IdsIncreasing(rows, nextId) && k < |rows|
    ensures var rest := Where(rows, NotId(rows[k].id));
      && First(rest, ById(rows[k].id)).None?
      && rest == rows[..k] + rows[k + 1..]
  {
    var c := rows[k];
    forall i | 0 <= i < |rows| && i != k
      ensures NotId(c.id)(rows[i])
    {
      if i < k { assert rows[i].id < rows[k].id; }
      if k < i { assert rows[k].id < rows[i].id; }
    }
    WhereDropsOne(rows, NotId(c.id), k);
  }
}
