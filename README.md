# Reactions, comments and question lists of DEV@Deakin, in Dafny

DEV@Deakin is a React client over a hosted document store. Most of its
behaviour belongs to vendor SDKs. The logic it writes itself sits in three
views, and this project models that logic:

- **The comment section** (`src/CommentSection.jsx`). Each post has an ordered
  list of comments, newest first. A comment is posted only when its text is
  not blank and someone is signed in. A new comment goes at the head of the
  list. A comment is deleted by id. Each comment has a like/dislike ledger.
- **The video page** (`src/VideoPage.jsx`). Videos get the same like/dislike
  switch, with a different mix of stored and recomputed counters. There is
  also a view counter that goes up when a video starts playing.
- **The question page** (`src/QuestionPage.jsx`). It has a case-insensitive
  filter on title, tag and date, a set of expanded questions, delete by id,
  and the map from author uid to display name.

Modules:

- `Seqs` (`seqs.dfy`): the JavaScript `filter` and `[...new Set(xs)]`, with
  what they preserve (order, multiplicity, no duplicates).
- `Common` (`common.dfy`): uids, document ids and user documents. It also
  gives the two ways the views turn a missing name into text: `a || b` and
  `${a}`.
- `Reactions` (`reactions.dfy`): the ledger. `Ledger` holds `likes`,
  `dislikes`, `likedBy` and `dislikedBy`. The module has the three computations
  a reaction writes, the id-keyed patch and delete of the local list, and
  `Synced`, which says the local list agrees with the store. A comment and a
  video are both a `Reactable` (id, body, ledger). The flat fields of the
  source's records are grouped that way.
- `Comments` (`comment_section.dfy`): class `CommentSection`, holding the
  component's state (`comments`, `newComment`, `loading`, `user`) and the
  post's stored comments.
- `Videos` (`video_page.dfy`): class `VideoPage` (`videos`, `userId` and the
  stored video posts).
- `Questions` (`question_page.dfy`): the filter predicate and the other list
  operations, the `BuildUserNames` loop, and class `QuestionPage`.

The store is a `map` from document id to record, held by each class. A write
either succeeds and replaces that state, or fails and changes nothing. A write
fails when the handler's `writeOk` argument is false. Posting a comment makes
two store calls inside its `try` block, `addDoc` and the read-back `getDoc`,
and each has its own flag (`addOk`, `readOk`). An update also fails when the
document does not exist. Deleting a missing document succeeds, as it does
in the store.

Behaviour that the code has and a reader might not expect. The model keeps
all of it:

- The reaction counters come from different places:
  - Liking a comment writes the given `likes + 1` and the given `dislikes`,
    less one if the uid had disliked.
  - Liking a video writes `currentLikes + 1` and recounts dislikes from
    `dislikedBy`.
  - Disliking either kind writes `dislikes + 1` and recounts likes from
    `likedBy`.
- Withdrawing a reaction removes every copy of the uid from the list, but
  lowers the counter by one. One might expect each counter always to equal
  its list's length.
  - If the lists start duplicate-free and in step with the counters, a
    reaction keeps them that way (`Reactions.CommentLikeKeepsConsistent` and
    its two siblings).
  - A counter that is recounted from its list is correct afterwards whatever
    it was before (`Reactions.VideoLikeRepairsDislikes`).
  - A counter that is incremented or decremented carries an earlier error
    forward (`Reactions.CounterErrorsRepairedOrCarried`).
  - A duplicate in a list makes a withdrawal leave the counter and the list
    out of step (`Reactions.DuplicateDislikeBreaksCount`).
- The comment section's auth listener records a signed-in user and ignores a
  sign-out. The video page's listener clears it.
- The delete handler checks nothing. The only ownership check is that the
  button is rendered for the comment's author (`Comments.DeleteVisible`).
- A question whose `tags` field is missing or empty is never listed, even
  when the tag filter is empty.

## Model

| member | source | states |
|---|---|---|
| `Seqs.Filter` | src/QuestionPage.jsx:101-112 | `filter` keeps exactly the elements satisfying the predicate, each as often as in the input, and never lengthens the list |
| `Seqs.FilterIsSubsequence` | src/QuestionPage.jsx:101-112 | the result of `filter` is a subsequence of its input, so the input's order is kept |
| `Seqs.Remove` | src/VideoPage.jsx:84 | `filter((id) => id !== uid)` drops every copy of the uid and nothing else, and keeps the remaining uids in their order. It returns the list unchanged when the uid is absent, and keeps a duplicate-free list duplicate-free |
| `Seqs.RemoveLength` | src/VideoPage.jsx:83-84 | on a duplicate-free list the filter shortens the list by exactly one when the uid was there, which is the amount the counter is lowered by |
| `Seqs.Distinct` | src/QuestionPage.jsx:43-45 | `[...new Set(uids)]` holds every uid of the input once and nothing else |
| `Reactions.CommentLiked` | src/CommentSection.jsx:128-142 | liking a comment writes likes + 1 and appends the uid to likedBy. If the uid had disliked, it is withdrawn and the given dislike count drops by one. Otherwise the dislike fields are kept. The uid is never left in dislikedBy |
| `Reactions.VideoLiked` | src/VideoPage.jsx:76-93 | liking a video writes currentLikes + 1 and appends the uid. Dislikes become the length of dislikedBy, less one with the uid withdrawn if it was there |
| `Reactions.Disliked` | src/CommentSection.jsx:178-192 | disliking (the comment handler, and identically src/VideoPage.jsx:133-150) writes dislikes + 1 and appends the uid. Likes become the length of likedBy, less one with the uid withdrawn if it was there |
| `Reactions.CommentLikeKeepsConsistent` | src/CommentSection.jsx:128-142 | a comment like by a uid not yet in likedBy keeps a consistent ledger consistent: counters equal list lengths, no duplicates, no uid in both lists |
| `Reactions.VideoLikeKeepsConsistent` | src/VideoPage.jsx:76-93 | the same for a video like |
| `Reactions.DislikeKeepsConsistent` | src/VideoPage.jsx:133-150 | the same for a dislike, of a video or a comment |
| `Reactions.VideoLikeRecountsDislikes` | src/VideoPage.jsx:80-85 | when dislikedBy is duplicate-free, a video like writes a dislike count equal to the written list's length, whatever the stored counter was |
| `Reactions.VideoLikeRepairsDislikes` | src/VideoPage.jsx:80-93 | a video like by a new uid leaves the ledger consistent when the likes counter matched its list and both lists were duplicate-free, even if the stored dislike counter was wrong, because dislikes are recounted |
| `Reactions.CounterErrorsRepairedOrCarried` | src/VideoPage.jsx:76-85 | worked input: a ledger whose dislike counter is wrong becomes consistent after a video like, which recounts dislikes. A comment like from a ledger whose like counter is wrong stays inconsistent, because it increments the stored counter |
| `Reactions.DislikeRecountsLikes` | src/CommentSection.jsx:179-185 | when likedBy is duplicate-free, a dislike writes a like count equal to the written list's length |
| `Reactions.SwitchLikeToDislike` | src/CommentSection.jsx:178-192 | on a consistent ledger, disliking after liking gives one like less and one dislike more, and moves the uid from likedBy to dislikedBy |
| `Reactions.SwitchDislikeToLike` | src/CommentSection.jsx:128-142 | on a consistent ledger, liking a comment after disliking it gives one like more and one dislike less, and moves the uid the other way |
| `Reactions.DuplicateDislikeBreaksCount` | src/VideoPage.jsx:82-85 | with the uid listed twice, a like leaves a dislike count of 1 over an empty list (comment and video alike), which is an inconsistent ledger |
| `Reactions.ReactionScenario` | src/CommentSection.jsx:128-192 | from a new comment: A likes (1, 0, [A], []), A dislikes (0, 1, [], [A]), then B likes (1, 1, [B], [A]) |
| `Reactions.PatchLedger` | src/CommentSection.jsx:144-156 | the local patch keeps the length, every id and body, and every entry with another id. It gives the entries with that id the written ledger |
| `Reactions.PatchIdempotent` | src/VideoPage.jsx:96-108 | applying the same patch twice is the same as applying it once |
| `Reactions.PatchAbsent` | src/VideoPage.jsx:96-108 | patching an id the list does not hold changes nothing |
| `Reactions.RemoveById` | src/CommentSection.jsx:217-219 | deleting by id keeps exactly the entries with another id, each as many times as before, in order. It changes nothing when the id is absent and keeps ids unique |
| `Reactions.PatchKeepsSync` | src/CommentSection.jsx:137-156 | writing a ledger to the stored document and patching the local list with it keeps the list showing exactly the stored documents |
| `Reactions.RemoveKeepsSync` | src/CommentSection.jsx:212-219 | deleting the document and filtering the list keeps them in step |
| `Reactions.PrependKeepsSync` | src/CommentSection.jsx:94-103 | adding a document under a fresh id and putting it at the head of the list keeps them in step |
| `Reactions.AddUnlistedBreaksSync` | src/CommentSection.jsx:94-107 | adding a document under a fresh id without listing it puts a list that was in step with the store out of step |
| `Common.OrElse` | src/CommentSection.jsx:72-73 | the logical-or default on a name field gives the field when it is present and non-empty, and the fallback when it is missing or empty. The result is empty only if the fallback is |
| `Common.Interpolated` | src/QuestionPage.jsx:52 | `${field}` gives the field's text when present and "undefined" when missing |
| `Comments.AuthorOf` | src/CommentSection.jsx:66-74 | the author snapshot carries the poster's uid and a non-empty first name. The first name is the document's when present and non-empty, and "Anonymous" otherwise, including when there is no document. The last name is the document's when present, and "" when the document or the field is missing |
| `Comments.NewComment` | src/CommentSection.jsx:76-88 | a new comment has the given id, text and date and the author snapshot. It starts with likes = dislikes = 0 and empty likedBy and dislikedBy |
| `Comments.NewCommentInvariants` | src/CommentSection.jsx:330 | a new comment's ledger is consistent. Its delete button is shown to its author and to nobody else, including nobody when signed out |
| `Comments.IsTrimmed` | src/CommentSection.jsx:58 | the characters `trim` strips include space, tab, line feed and carriage return, and never an ASCII letter or digit |
| `Comments.Trim` | src/CommentSection.jsx:58 | `trim` returns a contiguous slice of the text, and every character before or after that slice is strippable. It leaves nothing exactly when every character is strippable. Otherwise what it leaves starts and ends with a character it does not strip |
| `Comments.BlankIsEmptyTrim` | src/CommentSection.jsx:58 | `Blank` (every character strippable) holds exactly when `text.trim()` is empty, i.e. when the guard `!newComment.trim()` returns early |
| `Comments.BlankExamples` | src/CommentSection.jsx:58 | three examples: the empty text and " \t\n" are blank, " hello " is not |
| `Comments.DeleteVisible` | src/CommentSection.jsx:330 | the delete button is rendered exactly when someone is signed in and is the comment's author |
| `Comments.CommentSection.constructor` | src/CommentSection.jsx:19-23 | the component starts with no comments, an empty text area, loading, and no user |
| `Comments.CommentSection.OnAuthStateChanged` | src/CommentSection.jsx:25-32 | a reported user replaces the recorded one. A sign-out leaves it as it was |
| `Comments.CommentSection.FetchComments` | src/CommentSection.jsx:34-55 | the query result replaces the list, a failed query leaves it, and loading ends either way |
| `Comments.CommentSection.SetNewComment` | src/CommentSection.jsx:309-314 | typing replaces the text area's content and nothing else |
| `Comments.CommentSection.HandleCommentSubmit` | src/CommentSection.jsx:57-109 | blank text: ignored. No user: alert. Failed `addDoc`: nothing changes. `addDoc` succeeds but the read-back `getDoc` throws: the comment is stored, the list and the text area are unchanged, and a list that was in step with the store no longer is. Otherwise the new comment is stored under the fresh id and becomes the head of the list, with the old comments after it in order, and the text area is cleared. The list then stays in step with the store |
| `Comments.CommentSection.HandleLikeComment` | src/CommentSection.jsx:111-160 | with no user, a uid already in likedBy, or a failed write, nothing changes. Otherwise the ledger `CommentLiked` computes is written to the stored comment and patched into the listed comments with that id, and the list stays in step with the store |
| `Comments.CommentSection.HandleDislikeComment` | src/CommentSection.jsx:162-210 | the same for a dislike, with the ledger `Disliked` computes |
| `Comments.CommentSection.HandleDeleteComment` | src/CommentSection.jsx:212-223 | on success the document is removed and exactly the entries with that id leave the list, in order. A failed delete changes nothing |
| `Videos.ViewRecorded` | src/VideoPage.jsx:54-57 | a view sets the stored video's views to the given count + 1 and changes no other field and no other video. A missing document changes nothing |
| `Videos.ReplaysCountOnce` | src/VideoPage.jsx:54-57 | however many times a rendered video is played, its stored count ends at the rendered count + 1 |
| `Videos.PlaysAllCounted` | src/VideoPage.jsx:54-57 | if each view were also copied into the rendered video, k plays would add k views |
| `Videos.VideoPage.constructor` | src/VideoPage.jsx:16-19 | the page starts with no videos and no user |
| `Videos.VideoPage.OnAuthStateChanged` | src/VideoPage.jsx:22-33 | the recorded user becomes whatever the listener reports, and a sign-out clears it |
| `Videos.VideoPage.FetchVideos` | src/VideoPage.jsx:36-51 | the query result replaces the list |
| `Videos.VideoPage.HandleView` | src/VideoPage.jsx:54-57 | a play writes the count + 1 to the store and leaves the page's list as it was |
| `Videos.VideoPage.HandleLike` | src/VideoPage.jsx:60-114 | with no user, a uid already in likedBy, or a failed write, nothing changes. Otherwise the ledger `VideoLiked` computes is stored and patched into the videos with that id, and the list stays in step with the store |
| `Videos.VideoPage.HandleDislike` | src/VideoPage.jsx:117-171 | the same for a dislike, with the ledger `Disliked` computes |
| `Questions.LowerChar` | src/QuestionPage.jsx:103-104 | `toLowerCase` on a character maps an ASCII capital to its small letter and leaves every other character alone; no capital remains |
| `Questions.Lower` | src/QuestionPage.jsx:103-104 | `toLowerCase` keeps the length, lowers each character in place, and leaves no ASCII capital |
| `Questions.Includes` | src/QuestionPage.jsx:102-107 | `includes` holds exactly when the needle occurs at some offset of the haystack |
| `Questions.Matches` | src/QuestionPage.jsx:101-111 | a question matches when the lowered title filter occurs in its lowered title, it has a non-empty `tags` field in which the lowered tag filter occurs, and the date filter is empty or equal to its date |
| `Questions.FilteredQuestions` | src/QuestionPage.jsx:99-113 | the filtered list holds exactly the questions that match on title, tag and date, each as many times as in the list, in list order |
| `Questions.EmptyFilterMatchesAll` | src/QuestionPage.jsx:102-104 | an empty title (or tag) filter matches every title (or tag) |
| `Questions.NoFiltersListsTagged` | src/QuestionPage.jsx:105-107 | with all three filters empty, exactly the questions with a non-empty `tags` field are listed |
| `Questions.UntaggedNeverListed` | src/QuestionPage.jsx:105-107 | a question whose `tags` is missing or empty is never listed, whatever the filters |
| `Questions.DateFilterIsExact` | src/QuestionPage.jsx:109 | with a date filter set, every listed question has exactly that formatted date |
| `Questions.FilterIgnoresCase` | src/QuestionPage.jsx:102-107 | lowering the title and tag filter text does not change which questions match |
| `Questions.DeleteQuestion` | src/QuestionPage.jsx:117 | deleting keeps exactly the questions with another id, each as many times as before, in order, and changes nothing when the id is absent |
| `Questions.Toggle` | src/QuestionPage.jsx:121-129 | toggling adds the id if absent and removes it if present, and leaves every other id as it was |
| `Questions.ToggleTwice` | src/QuestionPage.jsx:121-129 | toggling the same id twice restores the set |
| `Questions.WithFilter` | src/QuestionPage.jsx:94-97 | `{ ...filters, [name]: value }` sets the named input and leaves the other two unchanged |
| `Questions.DisplayName` | src/QuestionPage.jsx:50-55 | an author without a user document is "Unknown". One with both names is "first last". A missing first name gives "undefined last", a missing last name gives "first undefined", and a document with neither gives "undefined undefined" |
| `Questions.BuildUserNames` | src/QuestionPage.jsx:43-56 | the loop gives one entry per distinct author uid, and no other entries. An entry is "first last" when the user document exists and "Unknown" otherwise |
| `Questions.QuestionPage.constructor` | src/QuestionPage.jsx:17-22 | the page starts with no questions, no names, empty filters and nothing expanded |
| `Questions.QuestionPage.Listed` | src/QuestionPage.jsx:99-113 | the listed questions are exactly the loaded ones that match the settled filters, each as many times as loaded, in load order |
| `Questions.QuestionPage.LoadQuestions` | src/QuestionPage.jsx:26-59 | loading sets the questions. When every user-document read succeeds, it also sets the name map that `BuildUserNames` specifies. When one of those reads throws, the name map is left as it was |
| `Questions.QuestionPage.HandleFilterChange` | src/QuestionPage.jsx:94-97 | typing replaces only the named filter input |
| `Questions.QuestionPage.SettleFilters` | src/QuestionPage.jsx:84-92 | when the debounce timer fires, the list is filtered by the inputs as typed |
| `Questions.QuestionPage.HandleDelete` | src/QuestionPage.jsx:115-118 | on success the document is deleted and exactly the questions with that id leave the list, in order. A failed delete throws before the list changes |
| `Questions.QuestionPage.ToggleExpand` | src/QuestionPage.jsx:120-130 | the expanded set becomes its toggle at that id |

## Left out

- `Comments.CommentSection.HandleCommentSubmit` does not model a failure of
  the user-document read that precedes the `try` block. That read's
  rejection escapes the handler before anything is written, so no state
  changes; the document read is the argument `userDoc`.
- `Comments.CommentSection.HandleCommentSubmit`: handlers are modelled as
  running one at a time, each in a single step. This handler writes back the
  list it captured when it started (`[newCommentData, ...comments]`), not the
  list as it is when its store calls finish. So a like, dislike or delete
  that completes while the post is pending can be lost from the list while
  the store keeps it. The model does not capture that interleaving.
- `Questions.QuestionPage.HandleDelete`: as above, handlers run one at a
  time. This one also writes back the question list it captured at its start,
  so an update made by another handler while the delete is pending can be
  lost. The model does not capture that interleaving.
- `Questions.QuestionPage.LoadQuestions` does not model a failure of the
  initial question query. That rejection escapes before anything is set.
- Store, storage and authentication calls are not modelled as calls. The
  store is a `map` held by each class. Whether a write succeeds is the
  `writeOk` argument. The id the store assigns, the user document read, and
  the snapshot a query returns are all arguments.
- `Comments.CommentSection.HandleCommentSubmit` takes `Timestamp.now()` as the
  argument `now` and the store's new id as `freshId`. It keeps the list in
  step with the store only when that id is really new, which the store
  guarantees and the model takes as a hypothesis.
- `Reactions.Synced` compares the local list with the store as a set of
  documents. It does not compare the order by date that a re-fetch would
  give, because dates come from the client clock.
- The lost-update race between two clients reacting to the same document is
  not modelled. It comes from concurrency in the store, not from this code.
- Dates are opaque. A comment's `date` is an integer. A question's
  `formattedDate` is text already produced by the page's date formatting.
  `formatDate` and the locale-dependent formatting are not modelled.
- `toLowerCase` lowers the ASCII letters only. Other Unicode case mappings are
  not modelled.
- The 300 ms debounce delay is not modelled. `SettleFilters` is the moment the
  timer fires.
- The AI-answer request and the premium-plan lookup in the question page are
  not modelled. Neither are the serverless functions, the checkout and plans
  pages, post creation, the card collection, and the presentational and
  routing files. All of these are vendor calls or display code.
- JSX rendering and styles are not modelled. That includes the reaction-icon
  highlight, which reads `user.uid` even when nobody is signed in. The `|| []`
  and `|| 0` defaults applied while rendering are also out. The handlers take
  the lists as sequences and the counters as integers.
- JavaScript's dynamic typing is not modelled. A counter missing from a
  document (`undefined + 1`) cannot occur here. Neither can a title that is
  not a string.
- Fields of a video or question post that no handler reads or writes (title,
  description, file URL, code, type) are not modelled.

## Findings

| source | as written | input that shows it | evidently intended | confidence | as-written member | corrected member |
|---|---|---|---|---|---|---|
| src/VideoPage.jsx:54-57 | `handleView` writes the count the video was rendered with, plus one, and never updates the page's `videos`. Every later play of that video on the same page writes the same value | a video rendered with `views` = 5, played three times: the stored count ends at 6 | each play adds one view | medium, not executed | `Videos.ReplaysCountOnce` | `Videos.PlaysAllCounted` |
