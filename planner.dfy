/**
 * The planner page: the search over topics, the three library columns, the
 * two weekly calendars and their day cells, and the handlers that save,
 * re-status and delete a topic through the store and then reload the list.
 */
module Planner {
  import opened Wrappers
  import opened Text
  import opened Seqs
  import opened Types
  import opened Calendar
  import opened TopicStore

  // ---------------------------------------------------------------------------
  // Search

  /** The lower-cased title, or the lower-cased note when there is one, contains `q`. */
  predicate MatchesQuery(t: Topic, q: string) {
    Contains(ToLower(t.title), q) || (t.note.Some? && Contains(ToLower(t.note.value), q))
  }

  /** `searchedTopics`: every topic for an empty query, else those matching the lower-cased query. */
  function SearchTopics(topics: seq<Topic>, query: string): (r: seq<Topic>)
    ensures |r| <= |topics|
  {
    if query == "" then topics
    else Filter(topics, (t: Topic) => MatchesQuery(t, ToLower(query)))
  }

  /**
   * A topic is found exactly when it is listed and the query is empty or
   * matches; the hits keep the list's order; upper and lower case in the
   * query make no difference.
   */
  lemma SearchTopicsSpec(topics: seq<Topic>, query: string)
    ensures forall t :: t in SearchTopics(topics, query) <==> t in topics && (query == "" || MatchesQuery(t, ToLower(query)))
    ensures IsSubsequence(SearchTopics(topics, query), topics)
    ensures SearchTopics(topics, ToLower(query)) == SearchTopics(topics, query)
  {
    var p := (t: Topic) => MatchesQuery(t, ToLower(query));
    if query == "" {
      forall t ensures t in SearchTopics(topics, query) <==> t in topics {
      }
      SubsequenceOfItself(topics);
    } else {
      forall t ensures t in SearchTopics(topics, query) <==> t in topics && MatchesQuery(t, ToLower(query)) {
        FilterMembership(topics, p, t);
      }
      FilterIsSubsequence(topics, p);
    }
    ToLowerIdempotent(query);
    assert ToLower(query) == "" <==> query == "";
  }

  lemma {:induction false} SubsequenceOfItself<T>(s: seq<T>)
    ensures IsSubsequence(s, s)
  {
    if s != [] {
      SubsequenceOfItself(s[1..]);
    }
  }

  // ---------------------------------------------------------------------------
  // Library columns and calendars

  /** `t.target_date` is truthy: present and not the empty string. */
  predicate HasDate(t: Topic) {
    t.targetDate.Some? && t.targetDate.value != ""
  }

  /** A library column: the topics of one series that are unscheduled or still ideas. */
  predicate InColumn(t: Topic, s: Series) {
    t.series == s && (!HasDate(t) || t.status == Idea)
  }

  function LibraryColumn(searched: seq<Topic>, s: Series): (r: seq<Topic>)
    ensures |r| <= |searched|
  {
    Filter(searched, (t: Topic) => InColumn(t, s))
  }

  /**
   * Each searched topic appears in the column of its own series and in no
   * other, unless it is scheduled past the idea stage: then it is in none.
   */
  lemma LibraryColumnSpec(searched: seq<Topic>, t: Topic, s: Series)
    requires t in searched
    ensures t in LibraryColumn(searched, s) <==> s == t.series && (!HasDate(t) || t.status == Idea)
    ensures (forall c: Series :: t !in LibraryColumn(searched, c)) <==> HasDate(t) && t.status != Idea
  {
    forall c: Series ensures t in LibraryColumn(searched, c) <==> InColumn(t, c) {
      FilterMembership(searched, (u: Topic) => InColumn(u, c), t);
    }
    if !(HasDate(t) && t.status != Idea) {
      assert t in LibraryColumn(searched, t.series);
    }
  }

  /** `planData.allActiveTopics`: the searched topics that have a date. */
  function ActiveTopics(searched: seq<Topic>): (r: seq<Topic>)
    ensures |r| <= |searched|
  {
    Filter(searched, HasDate)
  }

  /** A day cell: the topics planned for exactly that key. */
  function DayTopics(topics: seq<Topic>, dayKey: string): (r: seq<Topic>)
    ensures |r| <= |topics|
  {
    Filter(topics, (t: Topic) => t.targetDate == Some(dayKey))
  }

  /**
   * A cell of a calendar day holds exactly the searched topics planned for
   * that day, and cells of different days share no topic.
   */
  lemma DayTopicsSpec(searched: seq<Topic>, d1: Date, d2: Date, t: Topic)
    ensures t in DayTopics(ActiveTopics(searched), FormatDateKey(d1)) <==> t in searched && t.targetDate == Some(FormatDateKey(d1))
    ensures d1 != d2 ==> !(t in DayTopics(ActiveTopics(searched), FormatDateKey(d1))
                            && t in DayTopics(ActiveTopics(searched), FormatDateKey(d2)))
  {
    var active := ActiveTopics(searched);
    FilterMembership(searched, HasDate, t);
    FilterMembership(active, (u: Topic) => u.targetDate == Some(FormatDateKey(d1)), t);
    FilterMembership(active, (u: Topic) => u.targetDate == Some(FormatDateKey(d2)), t);
    DateKeyInjective(d1, d2);
  }

  /** `Array.from({ length: 7 }, (_, i) => addDays(startDate, i))`. */
  method WeekDays(start: Moment) returns (days: seq<Moment>)
    ensures |days| == 7
    ensures forall i :: 0 <= i < 7 ==> DayNumber(days[i].date) == DayNumber(start.date) + i
    ensures forall i :: 0 <= i < 7 ==> days[i].msOfDay == start.msOfDay
    ensures days[0] == start
  {
    days := [];
    for i := 0 to 7
      invariant |days| == i
      invariant forall j :: 0 <= j < i ==> DayNumber(days[j].date) == DayNumber(start.date) + j
      invariant forall j :: 0 <= j < i ==> days[j].msOfDay == start.msOfDay
      invariant i > 0 ==> days[0] == start
    {
      var day := AddDays(start, i);
      days := days + [day];
    }
  }

  /**
   * `planData`: this week's Monday at midnight, the Monday after it, and the
   * searched topics that have a date.
   */
  method PlanData(searched: seq<Topic>, now: Moment) returns (thisWeekStart: Moment, nextWeekStart: Moment, allActiveTopics: seq<Topic>)
    ensures Weekday(thisWeekStart.date) == 1 && thisWeekStart.msOfDay == 0
    ensures 0 <= DayNumber(now.date) - DayNumber(thisWeekStart.date) <= 6
    ensures Weekday(nextWeekStart.date) == 1 && nextWeekStart.msOfDay == 0
    ensures DayNumber(nextWeekStart.date) == DayNumber(thisWeekStart.date) + 7
    ensures allActiveTopics == ActiveTopics(searched)
  {
    allActiveTopics := ActiveTopics(searched);
    thisWeekStart := GetMonday(now);
    nextWeekStart := AddDays(thisWeekStart, 7);
    WeekdayOfShift(thisWeekStart.date, nextWeekStart.date, 7);
  }

  // ---------------------------------------------------------------------------
  // Saving

  datatype SaveAction = UpdateExisting | AddNew

  /** `handleSaveTopic`'s choice: update when the topic has an id already in the list, add otherwise. */
  function SaveChoice(topics: seq<Topic>, topic: Topic): (r: SaveAction)
    ensures r == UpdateExisting <==> topic.id != "" && HasId(topics, topic.id)
  {
    if topic.id != "" && exists i :: 0 <= i < |topics| && topics[i].id == topic.id then UpdateExisting else AddNew
  }

  /** The page: the loaded topic list, kept next to the store it came from. */
  class PlannerApp {
    var topics: seq<Topic>
    const store: LocalFallbackStore

    constructor(store: LocalFallbackStore)
      ensures this.store == store && topics == []
    {
      this.store := store;
      topics := [];
    }

    /** `loadData`: the list becomes whatever `getTopics` returns. */
    method LoadData(remote: RemoteRead)
      modifies this
      ensures topics == store.GetTopics(remote)
    {
      topics := store.GetTopics(remote);
    }

    /**
     * `handleSaveTopic`: update a topic already in the list, add any other,
     * then reload. Without a client, an added topic heads the reloaded list,
     * and an updated one is in it with the new update time.
     */
    method HandleSaveTopic(topic: Topic, now: string, remoteOk: bool, reread: RemoteRead, reload: RemoteRead)
      modifies this, store
      ensures SaveChoice(old(topics), topic) == UpdateExisting ==>
                store.storage == (if store.client && remoteOk then old(store.storage)
                                  else old(store.storage)[LocalDataKey := PatchDetails(old(store.GetTopics(reread)), topic.id, PatchOf(topic), now)])
      ensures SaveChoice(old(topics), topic) == AddNew ==>
                store.storage == (if store.client && remoteOk then old(store.storage)
                                  else old(store.storage)[LocalDataKey := SaveLocally(old(store.LocalTopics()), topic)])
      ensures topics == store.GetTopics(reload)
      ensures !store.client && SaveChoice(old(topics), topic) == AddNew ==> topics[0] == topic
      ensures !store.client && SaveChoice(old(topics), topic) == UpdateExisting && HasId(old(store.LocalTopics()), topic.id) ==>
                topic.(updatedAt := now) in topics
    {
      if SaveChoice(topics, topic) == UpdateExisting {
        ghost var before := store.LocalTopics();
        store.UpdateTopicDetails(topic.id, PatchOf(topic), now, remoteOk, reread);
        if !store.client && HasId(before, topic.id) {
          ghost var i :| 0 <= i < |before| && before[i].id == topic.id;
          PatchDetailsSpec(before, topic.id, PatchOf(topic), now, topic);
          assert store.LocalTopics()[i] == topic.(updatedAt := now);
        }
      } else {
        store.AddTopic(topic, remoteOk);
      }
      LoadData(reload);
    }

    /** `handleStatusChange`: re-status through the store, then reload. */
    method HandleStatusChange(id: string, status: Status, now: string, remoteOk: bool, reread: RemoteRead, reload: RemoteRead)
      modifies this, store
      ensures store.storage == (if store.client && remoteOk then old(store.storage)
                                else old(store.storage)[LocalDataKey := PatchStatus(old(store.GetTopics(reread)), id, status, now)])
      ensures topics == store.GetTopics(reload)
    {
      store.UpdateTopicStatus(id, status, now, remoteOk, reread);
      LoadData(reload);
    }

    /**
     * `handleDelete`: nothing happens unless confirmed; then the store drops
     * the id and the list is reloaded, without that id when there is no client.
     */
    method HandleDelete(id: string, confirmed: bool, reread: RemoteRead, reload: RemoteRead)
      modifies this, store
      ensures !confirmed ==> topics == old(topics) && store.storage == old(store.storage)
      ensures confirmed ==> store.storage == old(store.storage)[LocalDataKey := WithoutId(old(store.GetTopics(reread)), id)]
      ensures confirmed ==> topics == store.GetTopics(reload)
      ensures confirmed && !store.client ==> !HasId(topics, id)
    {
      if confirmed {
        store.DeleteTopic(id, reread);
        LoadData(reload);
      }
    }
  }
}
