/**
 * The comment section attached to a post: the comment records, the rule for
 * posting a new one, the reaction handlers, deletion, and the ownership
 * guard on the delete button. The component's state is the class below; the
 * post's `comments` collection in the store is its `stored` field.
 */
module Comments {
  import opened Common
  import opened Seqs
  import opened Reactions

  /** `createdBy`: the author's identity as it was when the comment was written. */
  datatype Author = Author(uid: Uid, firstName: string, lastName: string)

  /** The fields of a comment other than its id and its ledger; `date` is an opaque timestamp. */
  datatype CommentBody = CommentBody(content: string, createdBy: Author, date: int)

  type Comment = Reactable<CommentBody>

  /** A character that `String.prototype.trim` strips: white space or a line terminator. */
  function IsTrimmed(c: char): (b: bool)
    ensures c == ' ' || c == '\t' || c == '\n' || c == '\r' ==> b
    ensures ('a' <= c <= 'z') || ('A' <= c <= 'Z') || ('0' <= c <= '9') ==> !b
  {
    var n := c as int;
    || n == 0x09 || n == 0x0A || n == 0x0B || n == 0x0C || n == 0x0D || n == 0x20
    || n == 0xA0 || n == 0x1680 || (0x2000 <= n <= 0x200A) || n == 0x2028 || n == 0x2029
    || n == 0x202F || n == 0x205F || n == 0x3000 || n == 0xFEFF
  }

  /** `s` with its leading trimmable characters removed. */
  function TrimStart(s: string): (r: string)
    ensures |r| <= |s| && r == s[|s| - |r|..]
    ensures forall i :: 0 <= i < |s| - |r| ==> IsTrimmed(s[i])
    ensures r == [] || !IsTrimmed(r[0])
    decreases |s|
  {
    if s != [] && IsTrimmed(s[0]) then TrimStart(s[1..]) else s
  }

  /** `s` with its trailing trimmable characters removed. */
  function TrimEnd(s: string): (r: string)
    ensures |r| <= |s| && r == s[..|r|]
    ensures forall i :: |r| <= i < |s| ==> IsTrimmed(s[i])
    ensures r == [] || !IsTrimmed(r[|r| - 1])
    decreases |s|
  {
    if s != [] && IsTrimmed(s[|s| - 1]) then TrimEnd(s[..|s| - 1]) else s
  }

  /** `r` is the slice of `s` at offset `k`, and everything before and after it is trimmable. */
  predicate TrimmedSliceAt(s: string, r: string, k: int) {
    && 0 <= k <= |s| - |r|
    && r == s[k..k + |r|]
    && (forall i :: 0 <= i < k ==> IsTrimmed(s[i]))
    && (forall i :: k + |r| <= i < |s| ==> IsTrimmed(s[i]))
  }

  /** A trimmable-free-end prefix `r` of a trimmable-free-start suffix `t` of `s` is a slice of `s` with only trimmable characters around it. */
  lemma TrimIsSlice(s: string, t: string, r: string)
    requires |t| <= |s| && t == s[|s| - |t|..]
    requires forall i :: 0 <= i < |s| - |t| ==> IsTrimmed(s[i])
    requires |r| <= |t| && r == t[..|r|]
    requires forall i :: |r| <= i < |t| ==> IsTrimmed(t[i])
    ensures TrimmedSliceAt(s, r, |s| - |t|)
  {
    var k := |s| - |t|;
    assert r == s[k..k + |r|];
    forall i | k + |r| <= i < |s| ensures IsTrimmed(s[i]) {
      assert s[i] == t[i - k];
    }
  }

  /**
   * `s.trim()`: the slice of `s` left once the trimmable characters at both
   * ends are gone. It is empty exactly when every character is trimmable.
   */
  function Trim(s: string): (r: string)
    ensures |r| <= |s|
    ensures exists k :: TrimmedSliceAt(s, r, k)
    ensures r == [] || (!IsTrimmed(r[0]) && !IsTrimmed(r[|r| - 1]))
    ensures r == [] <==> forall i :: 0 <= i < |s| ==> IsTrimmed(s[i])
  {
    var t := TrimStart(s);
    var r := TrimEnd(t);
    assert r == [] ==> t == [];
    assert r != [] ==> r[0] == t[0] == s[|s| - |t|];
    TrimIsSlice(s, t, r);
    r
  }

  /** Every character of `text` is one that `trim` removes. */
  predicate Blank(text: string) {
    forall i :: 0 <= i < |text| ==> IsTrimmed(text[i])
  }

  /** `Blank` is the guard `!text.trim()`: the text is blank exactly when trimming leaves nothing. */
  lemma BlankIsEmptyTrim(text: string)
    ensures Blank(text) <==> Trim(text) == ""
  {
  }

  /**
   * The author snapshot written with a new comment: the names come from the
   * user's document when it exists, with "Anonymous" and "" standing in for
   * missing or empty names.
   */
  function AuthorOf(uid: Uid, userDoc: Option<UserDoc>): (a: Author)
    ensures a.uid == uid
    ensures a.firstName != ""
    ensures userDoc.None? ==> a.firstName == "Anonymous" && a.lastName == ""
    ensures userDoc.Some? && userDoc.value.firstName.Some? && userDoc.value.firstName.value != "" ==>
              a.firstName == userDoc.value.firstName.value
    ensures userDoc.Some? && (userDoc.value.firstName.None? || userDoc.value.firstName.value == "") ==>
              a.firstName == "Anonymous"
    ensures userDoc.Some? && userDoc.value.lastName.Some? ==> a.lastName == userDoc.value.lastName.value
    ensures userDoc.Some? && userDoc.value.lastName.None? ==> a.lastName == ""
  {
    match userDoc
    case None => Author(uid, "Anonymous", "")
    case Some(d) => Author(uid, OrElse(d.firstName, "Anonymous"), OrElse(d.lastName, ""))
  }

  /** The record `addDoc` stores and `getDoc` reads back, under the id the store assigned. */
  function NewComment(id: Id, content: string, uid: Uid, userDoc: Option<UserDoc>, now: int): (c: Comment)
    ensures c.id == id && c.body.content == content && c.body.date == now
    ensures c.body.createdBy == AuthorOf(uid, userDoc)
    ensures c.ledger.likes == 0 && c.ledger.dislikes == 0
    ensures c.ledger.likedBy == [] && c.ledger.dislikedBy == []
  {
    Reactable(id, CommentBody(content, AuthorOf(uid, userDoc), now), NoReactions)
  }

  /** The delete button is rendered only for the signed-in author of the comment. */
  function DeleteVisible(user: Option<Uid>, c: Comment): (b: bool)
    ensures b <==> user == Some(c.body.createdBy.uid)
  {
    user.Some? && c.body.createdBy.uid == user.value
  }

  /** A new comment starts consistent, and only its author is offered the delete button. */
  lemma NewCommentInvariants(id: Id, content: string, uid: Uid, userDoc: Option<UserDoc>, now: int, other: Uid)
    requires other != uid
    ensures Consistent(NewComment(id, content, uid, userDoc, now).ledger)
    ensures DeleteVisible(Some(uid), NewComment(id, content, uid, userDoc, now))
    ensures !DeleteVisible(Some(other), NewComment(id, content, uid, userDoc, now))
    ensures !DeleteVisible(None, NewComment(id, content, uid, userDoc, now))
  {
  }

  /** Three examples: the empty text and a run of white space are blank, a padded word is not. */
  lemma BlankExamples()
    ensures Blank("") && Blank(" \t\n")
    ensures !Blank(" hello ")
  {
    assert !IsTrimmed(" hello "[1]);
  }

  /** What a press of "Post Comment" came to. */
  datatype SubmitOutcome =
    | Ignored                        // the text was blank
    | LoginRequired                  // nobody signed in: the alert is shown
    | WriteFailed                    // `addDoc` threw: the error is logged
    | ReadBackFailed(comment: Comment) // stored, but reading it back threw: logged, not shown
    | Posted(comment: Comment)

  class CommentSection {
    /** The comments on display, newest first. */
    var comments: seq<Comment>
    /** The text area's content. */
    var newComment: string
    var loading: bool
    /** The signed-in principal as the auth listener last reported it. */
    var user: Option<Uid>
    /** The post's `comments` collection in the store, by document id. */
    var stored: map<Id, Comment>

    constructor (postComments: map<Id, Comment>)
      ensures comments == [] && newComment == "" && loading && user == None
      ensures stored == postComments
    {
      comments := [];
      newComment := "";
      loading := true;
      user := None;
      stored := postComments;
    }

    /** The auth listener: a signed-in principal is recorded, a sign-out is ignored. */
    method OnAuthStateChanged(current: Option<Uid>)
      modifies this
      ensures user == if current.Some? then current else old(user)
      ensures comments == old(comments) && newComment == old(newComment)
      ensures loading == old(loading) && stored == old(stored)
    {
      if current.Some? {
        user := current;
      }
    }

    /** The initial query; `None` when it threw. Either way loading ends. */
    method FetchComments(snapshot: Option<seq<Comment>>)
      modifies this
      ensures comments == if snapshot.Some? then snapshot.value else old(comments)
      ensures !loading
      ensures newComment == old(newComment) && user == old(user) && stored == old(stored)
    {
      if snapshot.Some? {
        comments := snapshot.value;
      }
      loading := false;
    }

    /** Typing into the text area. */
    method SetNewComment(text: string)
      modifies this
      ensures newComment == text
      ensures comments == old(comments) && loading == old(loading)
      ensures user == old(user) && stored == old(stored)
    {
      newComment := text;
    }

    /**
     * "Post Comment": blank text is ignored, a missing principal gets an alert,
     * otherwise the record is added and read back and, once read back, shown
     * at the head of the list and the text area is cleared. `userDoc` is the
     * user's document as read, `freshId` the id the store assigns, `now` the
     * client clock; `addOk` and `readOk` say whether `addDoc` and the
     * following `getDoc` succeed. When the add succeeds and the read-back
     * throws, the comment is stored but neither listed nor cleared.
     */
    method HandleCommentSubmit(userDoc: Option<UserDoc>, freshId: Id, now: int, addOk: bool, readOk: bool)
      returns (outcome: SubmitOutcome)
      modifies this
      ensures Blank(old(newComment)) ==> outcome == Ignored
      ensures !Blank(old(newComment)) && old(user).None? ==> outcome == LoginRequired
      ensures !Blank(old(newComment)) && old(user).Some? && !addOk ==> outcome == WriteFailed
      ensures !Blank(old(newComment)) && old(user).Some? && addOk && !readOk ==>
                outcome == ReadBackFailed(NewComment(freshId, old(newComment), old(user).value, userDoc, now))
      ensures !Blank(old(newComment)) && old(user).Some? && addOk && readOk ==>
                outcome == Posted(NewComment(freshId, old(newComment), old(user).value, userDoc, now))
      ensures outcome.Posted? ==>
                && comments == [outcome.comment] + old(comments)
                && stored == old(stored)[freshId := outcome.comment]
                && newComment == ""
      ensures outcome.ReadBackFailed? ==>
                && comments == old(comments)
                && stored == old(stored)[freshId := outcome.comment]
                && newComment == old(newComment)
      ensures !outcome.Posted? && !outcome.ReadBackFailed? ==>
                comments == old(comments) && stored == old(stored) && newComment == old(newComment)
      ensures user == old(user) && loading == old(loading)
      ensures old(Synced(comments, stored)) && freshId !in old(stored) && outcome.Posted? ==> Synced(comments, stored)
      ensures old(Synced(comments, stored)) && freshId !in old(stored) && outcome.ReadBackFailed? ==> !Synced(comments, stored)
    {
      if Blank(newComment) {
        return Ignored;
      }
      if user.None? {
        return LoginRequired;
      }
      var created := NewComment(freshId, newComment, user.value, userDoc, now);
      if !addOk {
        return WriteFailed;
      }
      PrependKeepsSync(comments, stored, created);
      AddUnlistedBreaksSync(comments, stored, created);
      stored := stored[freshId := created];
      if !readOk {
        return ReadBackFailed(created);
      }
      comments := [created] + comments;
      newComment := "";
      outcome := Posted(created);
    }

    /**
     * The like button, given the fields of the comment as rendered. With no
     * principal, or one already in `likedBy`, nothing happens. Otherwise the
     * ledger is computed with a local counter adjusted in place, written to
     * the store (which fails when `writeOk` is false or the document is gone),
     * and on success patched into the comment with that id.
     */
    method HandleLikeComment(commentId: Id, likes: int, likedBy: seq<Uid>, dislikes: int, dislikedBy: seq<Uid>, writeOk: bool)
      modifies this
      ensures var acted := old(user).Some? && old(user).value !in likedBy && writeOk && commentId in old(stored);
        if acted then
          var l := CommentLiked(likes, likedBy, dislikes, dislikedBy, old(user).value);
          && comments == PatchLedger(old(comments), commentId, l)
          && stored == old(stored)[commentId := old(stored)[commentId].(ledger := l)]
        else
          comments == old(comments) && stored == old(stored)
      ensures user == old(user) && newComment == old(newComment) && loading == old(loading)
      ensures old(Synced(comments, stored)) ==> Synced(comments, stored)
    {
      if user.None? {
        return;
      }
      var uid := user.value;
      if uid in likedBy {
        return;
      }
      var updatedLikedBy := likedBy + [uid];
      var updatedDislikedBy := dislikedBy;
      var updatedDislikes := dislikes;
      if uid in dislikedBy {
        updatedDislikedBy := Remove(dislikedBy, uid);
        updatedDislikes := updatedDislikes - 1;
      }
      var written := Ledger(likes + 1, updatedDislikes, updatedLikedBy, updatedDislikedBy);
      assert written == CommentLiked(likes, likedBy, dislikes, dislikedBy, uid);
      if !writeOk || commentId !in stored {
        return;
      }
      PatchKeepsSync(comments, stored, commentId, written);
      stored := stored[commentId := stored[commentId].(ledger := written)];
      comments := PatchLedger(comments, commentId, written);
    }

    /**
     * The dislike button, the mirror image of the like button, except that the
     * like counter it writes is recomputed from `likedBy` rather than taken
     * from the stored counter (which the handler is not given).
     */
    method HandleDislikeComment(commentId: Id, dislikes: int, likedBy: seq<Uid>, dislikedBy: seq<Uid>, writeOk: bool)
      modifies this
      ensures var acted := old(user).Some? && old(user).value !in dislikedBy && writeOk && commentId in old(stored);
        if acted then
          var l := Disliked(dislikes, likedBy, dislikedBy, old(user).value);
          && comments == PatchLedger(old(comments), commentId, l)
          && stored == old(stored)[commentId := old(stored)[commentId].(ledger := l)]
        else
          comments == old(comments) && stored == old(stored)
      ensures user == old(user) && newComment == old(newComment) && loading == old(loading)
      ensures old(Synced(comments, stored)) ==> Synced(comments, stored)
    {
      if user.None? {
        return;
      }
      var uid := user.value;
      if uid in dislikedBy {
        return;
      }
      var updatedDislikedBy := dislikedBy + [uid];
      var updatedLikedBy := likedBy;
      var updatedLikes := |likedBy|;
      if uid in likedBy {
        updatedLikedBy := Remove(likedBy, uid);
        updatedLikes := updatedLikes - 1;
      }
      var written := Ledger(updatedLikes, dislikes + 1, updatedLikedBy, updatedDislikedBy);
      assert written == Disliked(dislikes, likedBy, dislikedBy, uid);
      if !writeOk || commentId !in stored {
        return;
      }
      PatchKeepsSync(comments, stored, commentId, written);
      stored := stored[commentId := stored[commentId].(ledger := written)];
      comments := PatchLedger(comments, commentId, written);
    }

    /**
     * The delete button's handler. It checks nothing about the principal:
     * the only ownership check is that the button is rendered for the author
     * alone (`DeleteVisible`). Deleting a missing document succeeds.
     */
    method HandleDeleteComment(commentId: Id, writeOk: bool)
      modifies this
      ensures comments == if writeOk then RemoveById(old(comments), commentId) else old(comments)
      ensures stored == if writeOk then old(stored) - {commentId} else old(stored)
      ensures user == old(user) && newComment == old(newComment) && loading == old(loading)
      ensures old(Synced(comments, stored)) ==> Synced(comments, stored)
    {
      if !writeOk {
        return;
      }
      var stored' := stored - {commentId};
      var comments' := RemoveById(comments, commentId);
      if Synced(comments, stored) {
        RemoveKeepsSync(comments, stored, commentId);
        assert Synced(comments', stored');
      }
      stored, comments := stored', comments';
    }
  }
}
