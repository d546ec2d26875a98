/**
 * The reaction ledger shared by comments and videos: two counters and the two
 * lists of uids that cast each reaction, the values a like or a dislike writes
 * back, and the id-keyed patches that keep the page's local list in step with
 * the store after each write.
 */
module Reactions {
  import opened Common
  import opened Seqs

  /** The `likes`, `dislikes`, `likedBy` and `dislikedBy` fields of a comment or a video. */
  datatype Ledger = Ledger(likes: int, dislikes: int, likedBy: seq<Uid>, dislikedBy: seq<Uid>)

  /** The ledger every new comment is written with. */
  const NoReactions := Ledger(0, 0, [], [])

  /**
   * The intended shape of a ledger: each counter equals the length of its list,
   * no uid is listed twice, and no uid has both liked and disliked.
   */
  predicate Consistent(l: Ledger) {
    && l.likes == |l.likedBy|
    && l.dislikes == |l.dislikedBy|
    && NoDup(l.likedBy)
    && NoDup(l.dislikedBy)
    && forall u :: u in l.likedBy ==> u !in l.dislikedBy
  }

  /** A document that carries a ledger: a comment or a video, identified by `id`. */
  datatype Reactable<D> = Reactable(id: Id, body: D, ledger: Ledger)

  /**
   * What liking a comment writes, from the arguments the handler is given.
   * The like counter is the stored one plus one; the dislike counter is the
   * stored one, less one if the uid had disliked.
   */
  function CommentLiked(likes: int, likedBy: seq<Uid>, dislikes: int, dislikedBy: seq<Uid>, uid: Uid): (l: Ledger)
    ensures l.likes == likes + 1 && l.likedBy == likedBy + [uid]
    ensures uid !in l.dislikedBy
    ensures uid in dislikedBy ==> l.dislikes == dislikes - 1
    ensures uid !in dislikedBy ==> l.dislikes == dislikes && l.dislikedBy == dislikedBy
    ensures multiset(l.dislikedBy) == multiset(dislikedBy)[uid := 0]
  {
    if uid in dislikedBy then
      Ledger(likes + 1, dislikes - 1, likedBy + [uid], Remove(dislikedBy, uid))
    else
      assert multiset(dislikedBy)[uid := 0] == multiset(dislikedBy);
      Ledger(likes + 1, dislikes, likedBy + [uid], dislikedBy)
  }

  /**
   * What liking a video writes. The like counter is the stored one plus one,
   * but the dislike counter is recomputed from the length of `dislikedBy`.
   */
  function VideoLiked(currentLikes: int, likedBy: seq<Uid>, dislikedBy: seq<Uid>, uid: Uid): (l: Ledger)
    ensures l.likes == currentLikes + 1 && l.likedBy == likedBy + [uid]
    ensures uid !in l.dislikedBy
    ensures l.dislikes == if uid in dislikedBy then |dislikedBy| - 1 else |dislikedBy|
    ensures uid !in dislikedBy ==> l.dislikedBy == dislikedBy
    ensures multiset(l.dislikedBy) == multiset(dislikedBy)[uid := 0]
  {
    if uid in dislikedBy then
      Ledger(currentLikes + 1, |dislikedBy| - 1, likedBy + [uid], Remove(dislikedBy, uid))
    else
      assert multiset(dislikedBy)[uid := 0] == multiset(dislikedBy);
      Ledger(currentLikes + 1, |dislikedBy|, likedBy + [uid], dislikedBy)
  }

  /**
   * What disliking a comment or a video writes (both handlers compute the same
   * thing from the same arguments). The dislike counter is the stored one plus
   * one; the like counter is recomputed from the length of `likedBy`.
   */
  function Disliked(dislikes: int, likedBy: seq<Uid>, dislikedBy: seq<Uid>, uid: Uid): (l: Ledger)
    ensures l.dislikes == dislikes + 1 && l.dislikedBy == dislikedBy + [uid]
    ensures uid !in l.likedBy
    ensures l.likes == if uid in likedBy then |likedBy| - 1 else |likedBy|
    ensures uid !in likedBy ==> l.likedBy == likedBy
    ensures multiset(l.likedBy) == multiset(likedBy)[uid := 0]
  {
    if uid in likedBy then
      Ledger(|likedBy| - 1, dislikes + 1, Remove(likedBy, uid), dislikedBy + [uid])
    else
      assert multiset(likedBy)[uid := 0] == multiset(likedBy);
      Ledger(|likedBy|, dislikes + 1, likedBy, dislikedBy + [uid])
  }

  /** Appending a uid the list lacks keeps it duplicate-free and makes it one longer. */
  lemma AppendFresh(xs: seq<Uid>, uid: Uid)
    requires NoDup(xs) && uid !in xs
    ensures NoDup(xs + [uid]) && |xs + [uid]| == |xs| + 1
  {
    NoDupSnoc(xs, uid);
  }

  /** Liking a comment the user has not liked keeps a consistent ledger consistent. */
  lemma CommentLikeKeepsConsistent(l: Ledger, uid: Uid)
    requires Consistent(l) && uid !in l.likedBy
    ensures Consistent(CommentLiked(l.likes, l.likedBy, l.dislikes, l.dislikedBy, uid))
  {
    AppendFresh(l.likedBy, uid);
    RemoveLength(l.dislikedBy, uid);
  }

  /** Liking a video the user has not liked keeps a consistent ledger consistent. */
  lemma VideoLikeKeepsConsistent(l: Ledger, uid: Uid)
    requires Consistent(l) && uid !in l.likedBy
    ensures Consistent(VideoLiked(l.likes, l.likedBy, l.dislikedBy, uid))
  {
    AppendFresh(l.likedBy, uid);
    RemoveLength(l.dislikedBy, uid);
  }

  /** Disliking something the user has not disliked keeps a consistent ledger consistent. */
  lemma DislikeKeepsConsistent(l: Ledger, uid: Uid)
    requires Consistent(l) && uid !in l.dislikedBy
    ensures Consistent(Disliked(l.dislikes, l.likedBy, l.dislikedBy, uid))
  {
    AppendFresh(l.dislikedBy, uid);
    RemoveLength(l.likedBy, uid);
  }

  /**
   * A video like repairs the dislike counter: whatever the stored counter
   * said, the written one is the length of the written list, provided the
   * list had no duplicates.
   */
  lemma VideoLikeRecountsDislikes(currentLikes: int, likedBy: seq<Uid>, dislikedBy: seq<Uid>, uid: Uid)
    requires NoDup(dislikedBy)
    ensures VideoLiked(currentLikes, likedBy, dislikedBy, uid).dislikes
         == |VideoLiked(currentLikes, likedBy, dislikedBy, uid).dislikedBy|
  {
    RemoveLength(dislikedBy, uid);
  }

  /**
   * Because a video like recounts dislikes, it needs no correct dislike
   * counter: the written ledger is consistent whatever the stored `dislikes`
   * was, as long as the like counter and the lists were in order.
   */
  lemma VideoLikeRepairsDislikes(l: Ledger, uid: Uid)
    requires l.likes == |l.likedBy| && NoDup(l.likedBy) && NoDup(l.dislikedBy)
    requires forall u :: u in l.likedBy ==> u !in l.dislikedBy
    requires uid !in l.likedBy
    ensures Consistent(VideoLiked(l.likes, l.likedBy, l.dislikedBy, uid))
  {
    AppendFresh(l.likedBy, uid);
    RemoveLength(l.dislikedBy, uid);
  }

  /**
   * A recounted counter is repaired, an incremented one carries its error
   * forward: a wrong dislike count of 7 is corrected by a video like, while a
   * wrong like count of 5 on a comment becomes 6 over a one-entry list.
   */
  lemma CounterErrorsRepairedOrCarried()
    ensures !Consistent(Ledger(0, 7, [], ["a"]))
    ensures VideoLiked(0, [], ["a"], "b") == Ledger(1, 1, ["b"], ["a"])
    ensures Consistent(VideoLiked(0, [], ["a"], "b"))
    ensures CommentLiked(5, [], 0, [], "b") == Ledger(6, 0, ["b"], [])
    ensures !Consistent(CommentLiked(5, [], 0, [], "b"))
  {
    assert NoDup(["b"]) && NoDup(["a"]);
  }

  /** Likewise a dislike repairs the like counter. */
  lemma DislikeRecountsLikes(dislikes: int, likedBy: seq<Uid>, dislikedBy: seq<Uid>, uid: Uid)
    requires NoDup(likedBy)
    ensures Disliked(dislikes, likedBy, dislikedBy, uid).likes
         == |Disliked(dislikes, likedBy, dislikedBy, uid).likedBy|
  {
    RemoveLength(likedBy, uid);
  }

  /**
   * Switching a like to a dislike on a consistent ledger: one like less, one
   * dislike more, and the uid moves from one list to the other.
   */
  lemma SwitchLikeToDislike(l: Ledger, uid: Uid)
    requires Consistent(l) && uid in l.likedBy
    ensures var n := Disliked(l.dislikes, l.likedBy, l.dislikedBy, uid);
      && n.likes == l.likes - 1 && n.dislikes == l.dislikes + 1
      && uid !in n.likedBy && uid in n.dislikedBy
  {
  }

  /** Switching a dislike to a like on a consistent comment ledger, the mirror image. */
  lemma SwitchDislikeToLike(l: Ledger, uid: Uid)
    requires Consistent(l) && uid in l.dislikedBy
    ensures var n := CommentLiked(l.likes, l.likedBy, l.dislikes, l.dislikedBy, uid);
      && n.likes == l.likes + 1 && n.dislikes == l.dislikes - 1
      && uid in n.likedBy && uid !in n.dislikedBy
  {
  }

  /**
   * The filter drops every copy of the uid while the counter drops by one, so
   * a ledger whose list holds a uid twice comes out inconsistent.
   */
  lemma DuplicateDislikeBreaksCount()
    ensures CommentLiked(0, [], 2, ["u", "u"], "u") == Ledger(1, 1, ["u"], [])
    ensures VideoLiked(0, [], ["u", "u"], "u") == Ledger(1, 1, ["u"], [])
    ensures !Consistent(Ledger(1, 1, ["u"], []))
  {
    assert "u" in ["u", "u"];
    assert Remove(["u", "u"], "u") == [];
  }

  /**
   * A worked run from a new comment: user A likes, A then dislikes, B then likes.
   */
  lemma ReactionScenario(a: Uid, b: Uid)
    requires a != b
    ensures var l1 := CommentLiked(0, [], 0, [], a);
      && l1 == Ledger(1, 0, [a], [])
      && var l2 := Disliked(l1.dislikes, l1.likedBy, l1.dislikedBy, a);
      && l2 == Ledger(0, 1, [], [a])
      && CommentLiked(l2.likes, l2.likedBy, l2.dislikes, l2.dislikedBy, b) == Ledger(1, 1, [b], [a])
  {
    assert a in [a];
    assert Remove([a], a) == [];
  }

  // ----- the page's list of reactables, patched by id -----

  /** The ids present in a list. */
  ghost function Ids<D>(s: seq<Reactable<D>>): set<Id> {
    set e | e in s :: e.id
  }

  /** `list.map((e) => e.id === id ? { ...e, <ledger fields> } : e)`. */
  function PatchLedger<D>(s: seq<Reactable<D>>, id: Id, l: Ledger): (r: seq<Reactable<D>>)
    ensures |r| == |s|
    ensures forall i :: 0 <= i < |s| ==> r[i].id == s[i].id && r[i].body == s[i].body
    ensures forall i :: 0 <= i < |s| && s[i].id != id ==> r[i] == s[i]
    ensures forall i :: 0 <= i < |s| && s[i].id == id ==> r[i].ledger == l
  {
    seq(|s|, i requires 0 <= i < |s| => if s[i].id == id then s[i].(ledger := l) else s[i])
  }

  /** `list.filter((e) => e.id !== id)`. */
  function RemoveById<D(==,!new)>(s: seq<Reactable<D>>, id: Id): (r: seq<Reactable<D>>)
    ensures forall e :: e in r <==> e in s && e.id != id
    ensures forall e :: multiset(r)[e] == if e.id != id then multiset(s)[e] else 0
    ensures IsSubsequence(r, s)
    ensures id !in Ids(s) ==> r == s
    ensures UniqueIds(s) ==> UniqueIds(r)
  {
    var keep := (e: Reactable<D>) => e.id != id;
    FilterIsSubsequence(keep, s);
    FilterKeepsAll(keep, s);
    FilterIdsUnique(keep, s);
    Filter(keep, s)
  }

  /** Patching twice with the same ledger is patching once. */
  lemma PatchIdempotent<D>(s: seq<Reactable<D>>, id: Id, l: Ledger)
    ensures PatchLedger(PatchLedger(s, id, l), id, l) == PatchLedger(s, id, l)
  {
  }

  /** Patching an id the list does not hold changes nothing. */
  lemma PatchAbsent<D>(s: seq<Reactable<D>>, id: Id, l: Ledger)
    requires id !in Ids(s)
    ensures PatchLedger(s, id, l) == s
  {
    forall i | 0 <= i < |s| ensures s[i].id != id {
      assert s[i] in s;
    }
  }

  // ----- local list against the store -----

  /** No two entries of the list share an id. */
  ghost predicate UniqueIds<D(!new)>(s: seq<Reactable<D>>) {
    forall i, j :: 0 <= i < j < |s| ==> s[i].id != s[j].id
  }

  /**
   * The local list shows exactly the stored documents, each once and as
   * stored: what a full re-fetch would show, up to order.
   */
  ghost predicate Synced<D(!new)>(local: seq<Reactable<D>>, stored: map<Id, Reactable<D>>) {
    && UniqueIds(local)
    && Ids(local) == stored.Keys
    && forall e :: e in local ==> e.id in stored && stored[e.id] == e
  }

  /** A like or dislike patched into both the store and the list keeps them in step. */
  lemma PatchKeepsSync<D(!new)>(local: seq<Reactable<D>>, stored: map<Id, Reactable<D>>, id: Id, l: Ledger)
    requires id in stored
    ensures Synced(local, stored) ==> Synced(PatchLedger(local, id, l), stored[id := stored[id].(ledger := l)])
  {
    if !Synced(local, stored) {
      return;
    }
    var r := PatchLedger(local, id, l);
    var st := stored[id := stored[id].(ledger := l)];
    forall e | e in r ensures e.id in st && st[e.id] == e {
      var i :| 0 <= i < |r| && r[i] == e;
      assert local[i] in local;
    }
    forall x | x in st.Keys ensures x in Ids(r) {
      assert x in Ids(local);
      var e :| e in local && e.id == x;
      var i :| 0 <= i < |local| && local[i] == e;
      assert r[i] in r;
    }
  }

  /** A delete applied to both the store and the list keeps them in step. */
  lemma RemoveKeepsSync<D(!new)>(local: seq<Reactable<D>>, stored: map<Id, Reactable<D>>, id: Id)
    requires Synced(local, stored)
    ensures Synced(RemoveById(local, id), stored - {id})
  {
    var r := RemoveById(local, id);
    forall x | x in (stored - {id}).Keys ensures x in Ids(r) {
      assert x in Ids(local);
      var e :| e in local && e.id == x;
      assert e in r;
    }
  }

  /** Putting an entry whose id is new at the head of a list keeps the ids unique. */
  lemma UniqueIdsCons<D(!new)>(e: Reactable<D>, s: seq<Reactable<D>>)
    requires UniqueIds(s) && forall f :: f in s ==> f.id != e.id
    ensures UniqueIds([e] + s)
  {
    var r := [e] + s;
    forall i, j | 0 <= i < j < |r| ensures r[i].id != r[j].id {
      if i == 0 {
        assert r[j] in s;
      } else {
        assert r[i] == s[i - 1] && r[j] == s[j - 1];
      }
    }
  }

  lemma UniqueIdsTail<D(!new)>(s: seq<Reactable<D>>)
    requires UniqueIds(s) && s != []
    ensures UniqueIds(s[1..]) && forall f :: f in s[1..] ==> f.id != s[0].id
  {
    forall f | f in s[1..] ensures f.id != s[0].id {
      var k :| 0 <= k < |s[1..]| && s[1..][k] == f;
      assert s[k + 1] == f;
    }
  }

  /** Filtering keeps the ids of a list unique. */
  lemma {:induction false} FilterIdsUnique<D(!new)>(p: Reactable<D> -> bool, s: seq<Reactable<D>>)
    ensures UniqueIds(s) ==> UniqueIds(Filter(p, s))
    decreases |s|
  {
    if s != [] && UniqueIds(s) {
      UniqueIdsTail(s);
      FilterIdsUnique(p, s[1..]);
      if p(s[0]) {
        UniqueIdsCons(s[0], Filter(p, s[1..]));
      }
    }
  }

  /** A document added to the store but not to the list puts the two out of step. */
  lemma AddUnlistedBreaksSync<D(!new)>(local: seq<Reactable<D>>, stored: map<Id, Reactable<D>>, e: Reactable<D>)
    ensures Synced(local, stored) && e.id !in stored ==> !Synced(local, stored[e.id := e])
  {
  }

  /** A new document written to the store and put at the head of the list keeps them in step. */
  lemma PrependKeepsSync<D(!new)>(local: seq<Reactable<D>>, stored: map<Id, Reactable<D>>, e: Reactable<D>)
    ensures Synced(local, stored) && e.id !in stored ==> Synced([e] + local, stored[e.id := e])
  {
    if !Synced(local, stored) || e.id in stored {
      return;
    }
    var r := [e] + local;
    UniqueIdsCons(e, local);
    forall x | x in stored[e.id := e].Keys ensures x in Ids(r) {
      if x != e.id {
        assert x in Ids(local);
        var f :| f in local && f.id == x;
        assert f in r;
      } else {
        assert e in r;
      }
    }
    forall x | x in Ids(r) ensures x in stored[e.id := e].Keys {
      var f :| f in r && f.id == x;
      if f != e {
        assert f in local;
      }
    }
  }
}
