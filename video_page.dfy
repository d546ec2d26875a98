/**
 * The video page: the list of video posts with their reaction ledgers, the
 * like and dislike handlers, and the view counter bumped when a video starts
 * playing. The page's state is the class below; the `posts` documents of type
 * "video" in the store are its `stored` field.
 */
module Videos {
  import opened Common
  import opened Seqs
  import opened Reactions

  /** The field of a video post the handlers touch besides its ledger. */
  datatype VideoBody = VideoBody(views: int)

  type Video = Reactable<VideoBody>

  /** The store after `handleView(videoId, currentViews)` writes; a missing document makes the write throw. */
  function ViewRecorded(stored: map<Id, Video>, videoId: Id, currentViews: int): (r: map<Id, Video>)
    ensures r.Keys == stored.Keys
    ensures videoId in stored ==> r[videoId].body.views == currentViews + 1
    ensures videoId in stored ==> r[videoId].id == stored[videoId].id && r[videoId].ledger == stored[videoId].ledger
    ensures forall k :: k in stored && k != videoId ==> r[k] == stored[k]
  {
    if videoId in stored then stored[videoId := stored[videoId].(body := stored[videoId].body.(views := currentViews + 1))]
    else stored
  }

  /**
   * `k` plays of the rendered video `v` as the page handles them: every play
   * passes the count `v` was rendered with, because the page never updates it.
   */
  function PlaysAsWritten(stored: map<Id, Video>, v: Video, k: nat): (r: map<Id, Video>)
    decreases k
  {
    if k == 0 then stored else PlaysAsWritten(ViewRecorded(stored, v.id, v.body.views), v, k - 1)
  }

  /** However many times the video is played, its stored count ends one above the rendered count. */
  lemma {:induction false} ReplaysCountOnce(stored: map<Id, Video>, v: Video, k: nat)
    requires v.id in stored && k >= 1
    ensures v.id in PlaysAsWritten(stored, v, k)
    ensures PlaysAsWritten(stored, v, k)[v.id].body.views == v.body.views + 1
    decreases k
  {
    if k > 1 {
      ReplaysCountOnce(ViewRecorded(stored, v.id, v.body.views), v, k - 1);
    }
  }

  /**
   * `k` plays when each successful write is also copied into the rendered
   * video, so that the next play passes the count just written. Gives the
   * store and the rendered video afterwards.
   */
  function PlaysCorrected(stored: map<Id, Video>, v: Video, k: nat): (r: (map<Id, Video>, Video))
    decreases k
  {
    if k == 0 then (stored, v)
    else
      var after := ViewRecorded(stored, v.id, v.body.views);
      PlaysCorrected(after, v.(body := v.body.(views := v.body.views + 1)), k - 1)
  }

  /** With the write mirrored locally, `k` plays add `k` views and the rendered copy agrees with the store. */
  lemma {:induction false} PlaysAllCounted(stored: map<Id, Video>, v: Video, k: nat)
    requires v.id in stored
    ensures var (st, w) := PlaysCorrected(stored, v, k);
      && v.id in st && w.id == v.id
      && w.body.views == v.body.views + k
      && (k >= 1 ==> st[v.id].body.views == v.body.views + k)
    decreases k
  {
    if k > 0 {
      PlaysAllCounted(ViewRecorded(stored, v.id, v.body.views), v.(body := v.body.(views := v.body.views + 1)), k - 1);
    }
  }

  class VideoPage {
    /** The videos on display. */
    var videos: seq<Video>
    /** The signed-in principal, or `None` after a sign-out. */
    var userId: Option<Uid>
    /** The video posts in the store, by document id. */
    var stored: map<Id, Video>

    constructor (posts: map<Id, Video>)
      ensures videos == [] && userId == None && stored == posts
    {
      videos := [];
      userId := None;
      stored := posts;
    }

    /** The auth listener: the principal is recorded, and cleared on sign-out. */
    method OnAuthStateChanged(current: Option<Uid>)
      modifies this
      ensures userId == current
      ensures videos == old(videos) && stored == old(stored)
    {
      userId := current;
    }

    /** The initial query's result replaces the list. */
    method FetchVideos(fetched: seq<Video>)
      modifies this
      ensures videos == fetched
      ensures userId == old(userId) && stored == old(stored)
    {
      videos := fetched;
    }

    /**
     * A video starts playing: the count it was rendered with, plus one, is
     * written to the store. The page's own list is not touched.
     */
    method HandleView(videoId: Id, currentViews: int, writeOk: bool)
      modifies this
      ensures stored == if writeOk then ViewRecorded(old(stored), videoId, currentViews) else old(stored)
      ensures videos == old(videos) && userId == old(userId)
    {
      if writeOk && videoId in stored {
        stored := stored[videoId := stored[videoId].(body := stored[videoId].body.(views := currentViews + 1))];
      }
    }

    /**
     * The like button, given the fields of the video as rendered. With no
     * principal, or one already in `likedBy`, nothing happens. Otherwise the
     * like counter is the given one plus one and the dislike counter is
     * recounted from `dislikedBy` and adjusted in place; the ledger is written
     * and, on success, patched into the video with that id.
     */
    method HandleLike(videoId: Id, currentLikes: int, likedBy: seq<Uid>, dislikedBy: seq<Uid>, writeOk: bool)
      modifies this
      ensures var acted := old(userId).Some? && old(userId).value !in likedBy && writeOk && videoId in old(stored);
        if acted then
          var l := VideoLiked(currentLikes, likedBy, dislikedBy, old(userId).value);
          && videos == PatchLedger(old(videos), videoId, l)
          && stored == old(stored)[videoId := old(stored)[videoId].(ledger := l)]
        else
          videos == old(videos) && stored == old(stored)
      ensures userId == old(userId)
      ensures old(Synced(videos, stored)) ==> Synced(videos, stored)
    {
      if userId.None? {
        return;
      }
      var uid := userId.value;
      if uid in likedBy {
        return;
      }
      var updatedLikes := currentLikes + 1;
      var updatedLikedBy := likedBy + [uid];
      var updatedDislikes := |dislikedBy|;
      var updatedDislikedBy := dislikedBy;
      if uid in dislikedBy {
        updatedDislikes := updatedDislikes - 1;
        updatedDislikedBy := Remove(dislikedBy, uid);
      }
      var written := Ledger(updatedLikes, updatedDislikes, updatedLikedBy, updatedDislikedBy);
      assert written == VideoLiked(currentLikes, likedBy, dislikedBy, uid);
      if !writeOk || videoId !in stored {
        return;
      }
      PatchKeepsSync(videos, stored, videoId, written);
      stored := stored[videoId := stored[videoId].(ledger := written)];
      videos := PatchLedger(videos, videoId, written);
    }

    /** The dislike button: the mirror image of the like button. */
    method HandleDislike(videoId: Id, currentDislikes: int, likedBy: seq<Uid>, dislikedBy: seq<Uid>, writeOk: bool)
      modifies this
      ensures var acted := old(userId).Some? && old(userId).value !in dislikedBy && writeOk && videoId in old(stored);
        if acted then
          var l := Disliked(currentDislikes, likedBy, dislikedBy, old(userId).value);
          && videos == PatchLedger(old(videos), videoId, l)
          && stored == old(stored)[videoId := old(stored)[videoId].(ledger := l)]
        else
          videos == old(videos) && stored == old(stored)
      ensures userId == old(userId)
      ensures old(Synced(videos, stored)) ==> Synced(videos, stored)
    {
      if userId.None? {
        return;
      }
      var uid := userId.value;
      if uid in dislikedBy {
        return;
      }
      var updatedDislikes := currentDislikes + 1;
      var updatedDislikedBy := dislikedBy + [uid];
      var updatedLikes := |likedBy|;
      var updatedLikedBy := likedBy;
      if uid in likedBy {
        updatedLikes := updatedLikes - 1;
        updatedLikedBy := Remove(likedBy, uid);
      }
      var written := Ledger(updatedLikes, updatedDislikes, updatedLikedBy, updatedDislikedBy);
      assert written == Disliked(currentDislikes, likedBy, dislikedBy, uid);
      if !writeOk || videoId !in stored {
        return;
      }
      PatchKeepsSync(videos, stored, videoId, written);
      stored := stored[videoId := stored[videoId].(ledger := written)];
      videos := PatchLedger(videos, videoId, written);
    }
  }
}
