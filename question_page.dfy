/**
 * The question page: the list of question posts, the title / tag / date
 * filter applied to it, which questions are expanded, deletion, and the map
 * from author uid to display name built when the questions are loaded.
 */
module Questions {
  import opened Common
  import opened Seqs

  /**
   * A question post as the page holds it. `tags` is `None` when the document
   * has no such field; `formattedDate` is the date already turned into text.
   */
  datatype Question = Question(id: Id, title: string, tags: Option<string>, formattedDate: string, createdBy: Uid)

  /** The three filter inputs. */
  datatype Filters = Filters(title: string, tag: string, date: string)

  /** The `name` attribute of a filter input. */
  datatype FilterField = TitleField | TagField | DateField

  const NoFilters := Filters("", "", "")

  // ----- case-insensitive substring search -----

  /** `toLowerCase` on one character, for the ASCII letters. */
  function LowerChar(c: char): (r: char)
    ensures !('A' <= r <= 'Z')
    ensures 'A' <= c <= 'Z' ==> r as int == c as int + 32
    ensures !('A' <= c <= 'Z') ==> r == c
  {
    if 'A' <= c <= 'Z' then (c as int + 32) as char else c
  }

  /** `toLowerCase`, for the ASCII letters. */
  function Lower(s: string): (r: string)
    ensures |r| == |s|
    ensures forall i :: 0 <= i < |s| ==> r[i] == LowerChar(s[i])
    ensures forall i :: 0 <= i < |r| ==> !('A' <= r[i] <= 'Z')
  {
    seq(|s|, i requires 0 <= i < |s| => LowerChar(s[i]))
  }

  /** Lowering twice is lowering once. */
  lemma LowerIdempotent(s: string)
    ensures Lower(Lower(s)) == Lower(s)
  {
    assert forall i :: 0 <= i < |s| ==> Lower(Lower(s))[i] == Lower(s)[i];
  }

  /** `needle` occurs in `hay` starting at offset `i`. */
  predicate OccursAt(hay: string, needle: string, i: int) {
    0 <= i <= |hay| - |needle| && hay[i..i + |needle|] == needle
  }

  /** `hay.includes(needle)`: `needle` occurs in `hay` at some offset. */
  function Includes(hay: string, needle: string): (r: bool)
    ensures r <==> exists i :: OccursAt(hay, needle, i)
    decreases |hay|
  {
    if needle <= hay then
      assert OccursAt(hay, needle, 0);
      true
    else if hay == [] then
      false
    else
      var r := Includes(hay[1..], needle);
      assert r ==> exists i :: OccursAt(hay, needle, i) by {
        if r {
          var i :| OccursAt(hay[1..], needle, i);
          assert OccursAt(hay, needle, i + 1);
        }
      }
      assert (exists i :: OccursAt(hay, needle, i)) ==> r by {
        if exists i :: OccursAt(hay, needle, i) {
          var i :| OccursAt(hay, needle, i);
          assert i != 0;
          assert OccursAt(hay[1..], needle, i - 1);
        }
      }
      r
  }

  // ----- the filter -----

  /** The predicate of `filteredQuestions`. */
  function Matches(q: Question, f: Filters): (b: bool)
    ensures b <==>
      && (exists i :: OccursAt(Lower(q.title), Lower(f.title), i))
      && q.tags.Some? && q.tags.value != ""
      && (exists j :: OccursAt(Lower(q.tags.value), Lower(f.tag), j))
      && (f.date == "" || q.formattedDate == f.date)
  {
    var matchesTitle := Includes(Lower(q.title), Lower(f.title));
    var matchesTag := q.tags.Some? && q.tags.value != "" && Includes(Lower(q.tags.value), Lower(f.tag));
    var matchesDate := f.date == "" || q.formattedDate == f.date;
    matchesTitle && matchesTag && matchesDate
  }

  /** `filteredQuestions`: the questions that match, in list order. */
  function FilteredQuestions(qs: seq<Question>, f: Filters): (r: seq<Question>)
    ensures forall q :: q in r <==> q in qs && Matches(q, f)
    ensures forall q :: multiset(r)[q] == if Matches(q, f) then multiset(qs)[q] else 0
    ensures IsSubsequence(r, qs)
  {
    var keep := (q: Question) => Matches(q, f);
    FilterIsSubsequence(keep, qs);
    Filter(keep, qs)
  }

  /** An empty title or tag filter matches every title or tag. */
  lemma EmptyFilterMatchesAll(text: string)
    ensures Includes(Lower(text), Lower(""))
  {
    assert OccursAt(Lower(text), Lower(""), 0);
  }

  /** With no filter set, exactly the questions with a non-empty `tags` field are listed. */
  lemma NoFiltersListsTagged(qs: seq<Question>)
    ensures forall q :: q in FilteredQuestions(qs, NoFilters) <==>
      q in qs && q.tags.Some? && q.tags.value != ""
  {
    forall q: Question | q.tags.Some? && q.tags.value != ""
      ensures Matches(q, NoFilters)
    {
      EmptyFilterMatchesAll(q.title);
      EmptyFilterMatchesAll(q.tags.value);
    }
  }

  /** A question whose `tags` field is missing or empty is never listed, whatever the filters. */
  lemma UntaggedNeverListed(qs: seq<Question>, f: Filters, q: Question)
    requires q.tags.None? || q.tags == Some("")
    ensures q !in FilteredQuestions(qs, f)
  {
  }

  /** A set date filter lists only questions with exactly that date. */
  lemma DateFilterIsExact(qs: seq<Question>, f: Filters, q: Question)
    requires f.date != "" && q in FilteredQuestions(qs, f)
    ensures q.formattedDate == f.date
  {
  }

  /** The filter ignores letter case: lowering the filter text changes nothing. */
  lemma FilterIgnoresCase(q: Question, f: Filters)
    ensures Matches(q, f) == Matches(q, Filters(Lower(f.title), Lower(f.tag), f.date))
  {
    LowerIdempotent(f.title);
    LowerIdempotent(f.tag);
  }

  // ----- delete, expand, filter inputs -----

  /** `questions.filter((q) => q.id !== id)`. */
  function DeleteQuestion(qs: seq<Question>, id: Id): (r: seq<Question>)
    ensures forall q :: q in r <==> q in qs && q.id != id
    ensures forall q :: multiset(r)[q] == if q.id != id then multiset(qs)[q] else 0
    ensures IsSubsequence(r, qs)
    ensures (forall q :: q in qs ==> q.id != id) ==> r == qs
  {
    var keep := (q: Question) => q.id != id;
    FilterIsSubsequence(keep, qs);
    FilterKeepsAll(keep, qs);
    Filter(keep, qs)
  }

  /** The set `toggleExpand` builds: `id` removed if present, added if absent. */
  function Toggle(s: set<Id>, id: Id): (r: set<Id>)
    ensures id in r <==> id !in s
    ensures forall x :: x != id ==> (x in r <==> x in s)
  {
    if id in s then s - {id} else s + {id}
  }

  /** Toggling twice restores the set. */
  lemma ToggleTwice(s: set<Id>, id: Id)
    ensures Toggle(Toggle(s, id), id) == s
  {
  }

  /** `{ ...filters, [name]: value }`. */
  function WithFilter(f: Filters, field: FilterField, value: string): (r: Filters)
    ensures FilterValue(r, field) == value
    ensures forall other :: other != field ==> FilterValue(r, other) == FilterValue(f, other)
  {
    match field
    case TitleField => f.(title := value)
    case TagField => f.(tag := value)
    case DateField => f.(date := value)
  }

  /** The filter input named `field`. */
  function FilterValue(f: Filters, field: FilterField): (v: string) {
    match field
    case TitleField => f.title
    case TagField => f.tag
    case DateField => f.date
  }

  // ----- author names -----

  /** The name shown for `uid`: "first last" from the user's document, "Unknown" when there is none. */
  function DisplayName(users: map<Uid, UserDoc>, uid: Uid): (r: string)
    ensures uid !in users ==> r == "Unknown"
    ensures uid in users && users[uid].firstName.Some? && users[uid].lastName.Some? ==>
              r == users[uid].firstName.value + " " + users[uid].lastName.value
    ensures uid in users && users[uid].firstName.Some? && users[uid].lastName.None? ==>
              r == users[uid].firstName.value + " undefined"
    ensures uid in users && users[uid].firstName.None? && users[uid].lastName.Some? ==>
              r == "undefined " + users[uid].lastName.value
    ensures uid in users && users[uid].firstName.None? && users[uid].lastName.None? ==>
              r == "undefined undefined"
  {
    if uid in users then Interpolated(users[uid].firstName) + " " + Interpolated(users[uid].lastName)
    else "Unknown"
  }

  /**
   * The loop that fills `userNamesMap`: one entry per distinct author of the
   * loaded questions, visited in order of first appearance. `users` is the
   * `users` collection as each `getDoc` finds it.
   */
  method BuildUserNames(qs: seq<Question>, users: map<Uid, UserDoc>) returns (names: map<Uid, string>)
    ensures names.Keys == set q | q in qs :: q.createdBy
    ensures forall u :: u in names ==> names[u] == DisplayName(users, u)
    ensures forall u :: u in names && u !in users ==> names[u] == "Unknown"
  {
    var authors := seq(|qs|, i requires 0 <= i < |qs| => qs[i].createdBy);
    var uniqueUids := Distinct(authors);
    names := map[];
    for k := 0 to |uniqueUids|
      invariant names.Keys == set j | 0 <= j < k :: uniqueUids[j]
      invariant forall u :: u in names ==> names[u] == DisplayName(users, u)
    {
      var uid := uniqueUids[k];
      if uid in users {
        var userData := users[uid];
        names := names[uid := Interpolated(userData.firstName) + " " + Interpolated(userData.lastName)];
      } else {
        names := names[uid := "Unknown"];
      }
    }
    forall u | u in names ensures u in set q | q in qs :: q.createdBy {
      var j :| 0 <= j < |uniqueUids| && uniqueUids[j] == u;
      assert u in authors;
      var i :| 0 <= i < |qs| && authors[i] == u;
      assert qs[i] in qs;
    }
    forall u | u in set q | q in qs :: q.createdBy ensures u in names {
      var q :| q in qs && q.createdBy == u;
      var i :| 0 <= i < |qs| && qs[i] == q;
      assert authors[i] == u;
      assert u in uniqueUids;
    }
  }

  class QuestionPage {
    /** The question posts loaded, in query order. */
    var questions: seq<Question>
    /** Author uid to display name. */
    var userNames: map<Uid, string>
    /** The filter inputs as typed. */
    var filters: Filters
    /** The filter inputs the list is filtered by, which catch up with `filters` when the debounce timer fires. */
    var debouncedFilters: Filters
    /** Ids of the questions shown expanded. */
    var expanded: set<Id>
    /** The question posts in the store, by document id. */
    var stored: map<Id, Question>

    constructor (posts: map<Id, Question>)
      ensures questions == [] && userNames == map[] && expanded == {}
      ensures filters == NoFilters && debouncedFilters == NoFilters
      ensures stored == posts
    {
      questions := [];
      userNames := map[];
      filters := NoFilters;
      debouncedFilters := NoFilters;
      expanded := {};
      stored := posts;
    }

    /** The questions as listed: the loaded ones that match the settled filters. */
    function Listed(): (r: seq<Question>)
      reads this
      ensures forall q :: q in r <==> q in questions && Matches(q, debouncedFilters)
      ensures forall q :: multiset(r)[q] == if Matches(q, debouncedFilters) then multiset(questions)[q] else 0
      ensures IsSubsequence(r, questions)
    {
      FilteredQuestions(questions, debouncedFilters)
    }

    /**
     * The initial load: the fetched questions are set first, then the name of
     * each distinct author is read. `namesOk` says whether every one of those
     * user-document reads succeeds; when one throws, the name map is never set.
     */
    method LoadQuestions(fetched: seq<Question>, users: map<Uid, UserDoc>, namesOk: bool)
      modifies this
      ensures questions == fetched
      ensures namesOk ==> userNames.Keys == set q | q in fetched :: q.createdBy
      ensures namesOk ==> forall u :: u in userNames ==> userNames[u] == DisplayName(users, u)
      ensures !namesOk ==> userNames == old(userNames)
      ensures filters == old(filters) && debouncedFilters == old(debouncedFilters)
      ensures expanded == old(expanded) && stored == old(stored)
    {
      questions := fetched;
      if !namesOk {
        return;
      }
      var names := BuildUserNames(fetched, users);
      userNames := names;
    }

    /** Typing into the filter input named `field`. */
    method HandleFilterChange(field: FilterField, value: string)
      modifies this
      ensures filters == WithFilter(old(filters), field, value)
      ensures questions == old(questions) && userNames == old(userNames)
      ensures debouncedFilters == old(debouncedFilters) && expanded == old(expanded) && stored == old(stored)
    {
      filters := WithFilter(filters, field, value);
    }

    /** The debounce timer fires: the list is now filtered by what was typed. */
    method SettleFilters()
      modifies this
      ensures debouncedFilters == old(filters) && filters == old(filters)
      ensures questions == old(questions) && userNames == old(userNames)
      ensures expanded == old(expanded) && stored == old(stored)
    {
      debouncedFilters := filters;
    }

    /**
     * The delete button: the document is deleted, then every question with
     * that id leaves the list. A failing delete throws before the list is
     * touched.
     */
    method HandleDelete(id: Id, writeOk: bool)
      modifies this
      ensures stored == if writeOk then old(stored) - {id} else old(stored)
      ensures questions == if writeOk then DeleteQuestion(old(questions), id) else old(questions)
      ensures userNames == old(userNames) && filters == old(filters)
      ensures debouncedFilters == old(debouncedFilters) && expanded == old(expanded)
    {
      if !writeOk {
        return;
      }
      stored := stored - {id};
      questions := DeleteQuestion(questions, id);
    }

    /** Clicking a question: a copy of the expanded set with `id` added or removed replaces it. */
    method ToggleExpand(id: Id)
      modifies this
      ensures expanded == Toggle(old(expanded), id)
      ensures questions == old(questions) && userNames == old(userNames) && filters == old(filters)
      ensures debouncedFilters == old(debouncedFilters) && stored == old(stored)
    {
      var newSet := expanded;
      if id in newSet {
        newSet := newSet - {id};
      } else {
        newSet := newSet + {id};
      }
      expanded := newSet;
    }
  }
}
