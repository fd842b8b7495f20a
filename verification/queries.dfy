/**
 * The read side: filtering the stored events, grouping them by user or by
 * event type, the overall statistics, and clearing the store. Python sets
 * and dictionaries become Dafny sets and maps, so no iteration order is
 * promised.
 */
module Queries {
  import opened Wrappers
  import opened JsonValues
  import opened Sequences
  import opened Events

  // ---------------------------------------------------------------------------
  // Projections and counting

  /** The user of an event. */
  function UserIdOf(e: Event): Json { e.userId }

  /** The type of an event. */
  function EventTypeOf(e: Event): Json { e.eventType }

  /** The condition "the event's `key` field equals `v`". */
  function Has(key: Event -> Json, v: Json): Event -> bool {
    e => key(e) == v
  }

  /** The `key` field of every event, in store order. */
  function Project(store: seq<Event>, key: Event -> Json): (r: seq<Json>)
    ensures |r| == |store|
  {
    seq(|store|, i requires 0 <= i < |store| => key(store[i]))
  }

  /** The distinct values of the `key` field (Python's `set(key(e) for e in store)`). */
  function Distinct(store: seq<Event>, key: Event -> Json): set<Json> {
    set e | e in store :: key(e)
  }

  /** How many events carry `v` in their `key` field. */
  function Occurrences(store: seq<Event>, key: Event -> Json, v: Json): nat {
    multiset(Project(store, key))[v]
  }

  /** For each distinct value of `key`, the number of events carrying it. */
  function CountBy(store: seq<Event>, key: Event -> Json): map<Json, nat> {
    map v | v in Distinct(store, key) :: |Select(store, Has(key, v))|
  }

  /** The sum of the counts of the listed keys. */
  function SumOver(counts: map<Json, nat>, vs: seq<Json>): nat
    requires forall k :: 0 <= k < |vs| ==> vs[k] in counts
    decreases |vs|
  {
    if vs == [] then 0 else counts[vs[0]] + SumOver(counts, vs[1..])
  }

  // ---------------------------------------------------------------------------
  // GET /events and GET /events/<user_id>

  /** The `user_id` and `event_type` query parameters, absent when not sent. */
  datatype EventQuery = EventQuery(userId: Option<string>, eventType: Option<string>)

  /** Python truthiness of a query parameter: sent and not empty. */
  predicate Given(p: Option<string>) {
    p.Some? && p.value != ""
  }

  /** The event satisfies every filter that was given. */
  predicate Matches(e: Event, q: EventQuery) {
    && (Given(q.userId) ==> e.userId == JStr(q.userId.value))
    && (Given(q.eventType) ==> e.eventType == JStr(q.eventType.value))
  }

  /** Filters by user when a user is given, then by type when a type is given. */
  function FilterEvents(store: seq<Event>, q: EventQuery): seq<Event> {
    var byUser := if Given(q.userId) then Select(store, Has(UserIdOf, JStr(q.userId.value))) else store;
    if Given(q.eventType) then Select(byUser, Has(EventTypeOf, JStr(q.eventType.value))) else byUser
  }

  /** The events of one user, in store order. */
  function UserEvents(store: seq<Event>, userId: string): seq<Event> {
    Select(store, Has(UserIdOf, JStr(userId)))
  }

  /** The condition "matches every given filter" as a function value. */
  function MatchesQuery(q: EventQuery): Event -> bool {
    e => Matches(e, q)
  }

  /** Filtering in two passes, as the handler does, is one pass with every given filter at once. */
  lemma FilterEventsOnePass(store: seq<Event>, q: EventQuery)
    ensures FilterEvents(store, q) == Select(store, MatchesQuery(q))
  {
    var m := MatchesQuery(q);
    if Given(q.userId) && Given(q.eventType) {
      SelectTwice(store, Has(UserIdOf, JStr(q.userId.value)), Has(EventTypeOf, JStr(q.eventType.value)), m);
    } else if Given(q.userId) {
      SelectSameCondition(store, Has(UserIdOf, JStr(q.userId.value)), m);
    } else if Given(q.eventType) {
      SelectSameCondition(store, Has(EventTypeOf, JStr(q.eventType.value)), m);
    } else {
      SelectEverything(store, m);
    }
  }

  /**
   * The filtered events are an order-preserving subsequence of the store
   * that holds every occurrence of exactly the records matching all given
   * filters; with no filter given they are the whole store.
   */
  lemma FilterEventsSpec(store: seq<Event>, q: EventQuery)
    ensures IsSubsequence(FilterEvents(store, q), store)
    ensures forall e :: multiset(FilterEvents(store, q))[e] == if Matches(e, q) then multiset(store)[e] else 0
    ensures forall e :: e in FilterEvents(store, q) <==> e in store && Matches(e, q)
    ensures !Given(q.userId) && !Given(q.eventType) ==> FilterEvents(store, q) == store
  {
    FilterEventsOnePass(store, q);
    SelectIsSubsequence(store, MatchesQuery(q));
    SelectCounts(store, MatchesQuery(q));
    SelectMembership(store, MatchesQuery(q));
  }

  /** The events of a user are the events GET /events returns for that user alone. */
  lemma UserEventsIsFilter(store: seq<Event>, userId: string)
    requires userId != ""
    ensures UserEvents(store, userId) == FilterEvents(store, EventQuery(Some(userId), None))
    ensures |UserEvents(store, userId)| == Occurrences(store, UserIdOf, JStr(userId))
  {
    SelectLengthIsOccurrences(store, UserIdOf, JStr(userId));
  }

  // ---------------------------------------------------------------------------
  // Grouping: GET /users and GET /event-types

  /** The number of events selected for a value is its number of occurrences. */
  lemma {:induction false} SelectLengthIsOccurrences(store: seq<Event>, key: Event -> Json, v: Json)
    ensures |Select(store, Has(key, v))| == Occurrences(store, key, v)
    decreases |store|
  {
    if store != [] {
      SelectLengthIsOccurrences(store[1..], key, v);
      assert Project(store, key) == [key(store[0])] + Project(store[1..], key);
    }
  }

  /** A value has occurrences exactly when some event carries it. */
  lemma OccurrencesPositive(store: seq<Event>, key: Event -> Json, v: Json)
    ensures Occurrences(store, key, v) > 0 <==> v in Distinct(store, key)
    ensures v in Distinct(store, key) <==> exists i :: 0 <= i < |store| && key(store[i]) == v
  {
    var p := Project(store, key);
    if v in p {
      var i :| 0 <= i < |p| && p[i] == v;
      assert key(store[i]) == v;
      assert store[i] in store;
    }
    if exists i :: 0 <= i < |store| && key(store[i]) == v {
      var i :| 0 <= i < |store| && key(store[i]) == v;
      assert p[i] == v;
    }
    if v in Distinct(store, key) {
      var e :| e in store && key(e) == v;
      var i :| 0 <= i < |store| && store[i] == e;
    }
  }

  /**
   * The grouped counts have one entry per value some event carries, and each
   * entry is that value's number of events, at least one.
   */
  lemma CountBySpec(store: seq<Event>, key: Event -> Json)
    ensures forall v :: v in CountBy(store, key) <==> exists i :: 0 <= i < |store| && key(store[i]) == v
    ensures forall v :: v in CountBy(store, key) ==>
      CountBy(store, key)[v] == Occurrences(store, key, v) && CountBy(store, key)[v] >= 1
  {
    forall v
      ensures v in CountBy(store, key) <==> exists i :: 0 <= i < |store| && key(store[i]) == v
      ensures v in CountBy(store, key) ==> CountBy(store, key)[v] == Occurrences(store, key, v) >= 1
    {
      OccurrencesPositive(store, key, v);
      SelectLengthIsOccurrences(store, key, v);
    }
  }

  /** Summing counts that agree with occurrence counts gives the total occurrences. */
  lemma {:induction false} SumOverOccurrences(store: seq<Event>, key: Event -> Json, counts: map<Json, nat>, vs: seq<Json>)
    requires forall k :: 0 <= k < |vs| ==> vs[k] in counts && counts[vs[k]] == Occurrences(store, key, vs[k])
    ensures SumOver(counts, vs) == SumCounts(Project(store, key), vs)
    decreases |vs|
  {
    if vs != [] {
      SumOverOccurrences(store, key, counts, vs[1..]);
    }
  }

  /**
   * Whatever order the distinct values are listed in, their counts add up to
   * the number of events.
   */
  lemma CountsSumToTotal(store: seq<Event>, key: Event -> Json, vs: seq<Json>)
    requires NoDuplicates(vs)
    requires forall v :: v in vs <==> v in CountBy(store, key)
    ensures forall k :: 0 <= k < |vs| ==> vs[k] in CountBy(store, key)
    ensures SumOver(CountBy(store, key), vs) == |store|
  {
    var counts := CountBy(store, key);
    CountBySpec(store, key);
    assert forall k :: 0 <= k < |vs| ==> vs[k] in counts;
    SumOverOccurrences(store, key, counts, vs);
    ProjectCovered(store, key, vs);
    SumCountsPartition(Project(store, key), vs);
  }

  /** Listing every counted value lists the value of every event. */
  lemma ProjectCovered(store: seq<Event>, key: Event -> Json, vs: seq<Json>)
    requires forall v :: v in vs <==> v in CountBy(store, key)
    ensures forall k :: 0 <= k < |store| ==> Project(store, key)[k] in vs
  {
    CountBySpec(store, key);
    forall k | 0 <= k < |store|
      ensures Project(store, key)[k] in vs
    {
      assert key(store[k]) == Project(store, key)[k];
    }
  }

  /** A user's entry in GET /users: the number of their events and the set of their event types. */
  datatype UserSummary = UserSummary(eventCount: nat, eventTypes: set<Json>)

  /** GET /users: for each distinct user, their event count and their distinct event types. */
  function UserSummaries(store: seq<Event>): map<Json, UserSummary> {
    map u | u in Distinct(store, UserIdOf) ::
      var mine := Select(store, Has(UserIdOf, u));
      UserSummary(|mine|, Distinct(mine, EventTypeOf))
  }

  /** GET /event-types: for each distinct type, its number of events. */
  function TypeCounts(store: seq<Event>): map<Json, nat> {
    CountBy(store, EventTypeOf)
  }

  /** The event counts of the user summaries. */
  function EventCounts(summaries: map<Json, UserSummary>): map<Json, nat> {
    map u | u in summaries :: summaries[u].eventCount
  }

  /**
   * A user appears exactly when some event carries it; their count is their
   * number of events; their types are exactly the types of their events.
   */
  lemma UserSummariesSpec(store: seq<Event>)
    ensures EventCounts(UserSummaries(store)) == CountBy(store, UserIdOf)
    ensures forall u :: u in UserSummaries(store) <==> exists i :: 0 <= i < |store| && store[i].userId == u
    ensures forall u, t :: u in UserSummaries(store) ==>
      (t in UserSummaries(store)[u].eventTypes <==>
        exists i :: 0 <= i < |store| && store[i].userId == u && store[i].eventType == t)
  {
    UserSummaryCounts(store);
    CountBySpec(store, UserIdOf);
    forall u, t | u in UserSummaries(store)
      ensures t in UserSummaries(store)[u].eventTypes <==>
        exists i :: 0 <= i < |store| && store[i].userId == u && store[i].eventType == t
    {
      UserSummaryTypes(store, u, t);
    }
  }

  lemma UserSummaryCounts(store: seq<Event>)
    ensures EventCounts(UserSummaries(store)) == CountBy(store, UserIdOf)
  {
    var m := UserSummaries(store);
    assert EventCounts(m).Keys == CountBy(store, UserIdOf).Keys;
  }

  lemma UserSummaryTypes(store: seq<Event>, u: Json, t: Json)
    requires u in UserSummaries(store)
    ensures t in UserSummaries(store)[u].eventTypes <==>
      exists i :: 0 <= i < |store| && store[i].userId == u && store[i].eventType == t
  {
    var mine := Select(store, Has(UserIdOf, u));
    assert UserSummaries(store)[u].eventTypes == Distinct(mine, EventTypeOf);
    SelectMembership(store, Has(UserIdOf, u));
    if t in Distinct(mine, EventTypeOf) {
      var e :| e in mine && e.eventType == t;
      var i :| 0 <= i < |store| && store[i] == e;
    }
    if exists i :: 0 <= i < |store| && store[i].userId == u && store[i].eventType == t {
      var i :| 0 <= i < |store| && store[i].userId == u && store[i].eventType == t;
      assert store[i] in mine;
    }
  }

  /** Each user's event count, summed over the users in any order, is the number of events. */
  lemma UserCountsSumToTotal(store: seq<Event>, users: seq<Json>)
    requires NoDuplicates(users)
    requires forall u :: u in users <==> u in UserSummaries(store)
    ensures forall k :: 0 <= k < |users| ==> users[k] in EventCounts(UserSummaries(store))
    ensures SumOver(EventCounts(UserSummaries(store)), users) == |store|
  {
    UserSummariesSpec(store);
    CountBySpec(store, UserIdOf);
    CountsSumToTotal(store, UserIdOf, users);
  }

  /** Each type's count, summed over the types in any order, is the number of events. */
  lemma TypeCountsSumToTotal(store: seq<Event>, types: seq<Json>)
    requires NoDuplicates(types)
    requires forall t :: t in types <==> t in TypeCounts(store)
    ensures forall k :: 0 <= k < |types| ==> types[k] in TypeCounts(store)
    ensures SumOver(TypeCounts(store), types) == |store|
  {
    CountsSumToTotal(store, EventTypeOf, types);
  }

  // ---------------------------------------------------------------------------
  // GET /stats

  /** A user together with a number of events. */
  datatype UserCount = UserCount(userId: Json, eventCount: nat)

  /** The answer of GET /stats. */
  datatype Stats = Stats(totalEvents: nat, uniqueUsers: nat, eventTypes: set<Json>, mostActive: Option<UserCount>)

  /**
   * `m` names a user of the store with their true event count, no user has
   * more events, and every event before the user's first one belongs to a
   * user with fewer events: among tied users, the one that appears first.
   */
  predicate IsMostActive(store: seq<Event>, m: UserCount) {
    && m.userId in Distinct(store, UserIdOf)
    && m.eventCount == Occurrences(store, UserIdOf, m.userId)
    && (forall i :: 0 <= i < |store| ==> Occurrences(store, UserIdOf, store[i].userId) <= m.eventCount)
    && exists j :: 0 <= j < |store| && store[j].userId == m.userId &&
         forall i :: 0 <= i < j ==> Occurrences(store, UserIdOf, store[i].userId) < m.eventCount
  }

  /** Extending a prefix by one event adds its value to the distinct values and one to its count. */
  lemma PrefixStep(store: seq<Event>, key: Event -> Json, i: nat)
    requires i < |store|
    ensures Distinct(store[..i + 1], key) == Distinct(store[..i], key) + {key(store[i])}
    ensures forall v ::
      Occurrences(store[..i + 1], key, v) == Occurrences(store[..i], key, v) + (if key(store[i]) == v then 1 else 0)
  {
    assert store[..i + 1] == store[..i] + [store[i]];
    assert Project(store[..i + 1], key) == Project(store[..i], key) + [key(store[i])];
  }

  /** Counts the events of each user in one pass over the store. */
  method CountPerUser(store: seq<Event>) returns (counts: map<Json, nat>)
    ensures counts.Keys == Distinct(store, UserIdOf)
    ensures forall u :: u in counts ==> counts[u] == Occurrences(store, UserIdOf, u)
  {
    counts := map[];
    for i := 0 to |store|
      invariant counts.Keys == Distinct(store[..i], UserIdOf)
      invariant forall u :: u in counts ==> counts[u] == Occurrences(store[..i], UserIdOf, u)
    {
      CountStep(store, counts, i);
      counts := Bump(counts, store[i].userId);
    }
    assert store[..|store|] == store;
  }

  /** `counts[u] = counts.get(u, 0) + 1`. */
  function Bump(counts: map<Json, nat>, u: Json): (r: map<Json, nat>)
    ensures r.Keys == counts.Keys + {u}
    ensures r[u] == (if u in counts then counts[u] else 0) + 1
    ensures forall v :: v in counts && v != u ==> r[v] == counts[v]
  {
    counts[u := (if u in counts then counts[u] else 0) + 1]
  }

  /** One turn of the counting loop: counts for the first `i` events become counts for the first `i + 1`. */
  lemma CountStep(store: seq<Event>, counts: map<Json, nat>, i: nat)
    requires i < |store|
    requires counts.Keys == Distinct(store[..i], UserIdOf)
    requires forall u :: u in counts ==> counts[u] == Occurrences(store[..i], UserIdOf, u)
    ensures Bump(counts, store[i].userId).Keys == Distinct(store[..i + 1], UserIdOf)
    ensures forall u :: u in Bump(counts, store[i].userId) ==>
      Bump(counts, store[i].userId)[u] == Occurrences(store[..i + 1], UserIdOf, u)
  {
    var u := store[i].userId;
    if u !in counts {
      OccurrencesPositive(store[..i], UserIdOf, u);
    }
    PrefixStep(store, UserIdOf, i);
  }

  /**
   * Python's `max(user_counts.items(), key=...)`: the first entry, in
   * dictionary order, with the largest count. A dictionary lists its keys in
   * order of first insertion, which is the order in which users first appear
   * in the store, so the events are visited in store order; meeting a user
   * again never replaces the best entry, because only a strictly larger
   * count does.
   */
  method MostActive(store: seq<Event>, counts: map<Json, nat>) returns (best: Option<UserCount>)
    requires forall i :: 0 <= i < |store| ==> store[i].userId in counts
    ensures best.None? <==> |store| == 0
    ensures best.Some? ==> best.value.userId in counts && best.value.eventCount == counts[best.value.userId]
    ensures best.Some? ==> forall i :: 0 <= i < |store| ==> counts[store[i].userId] <= best.value.eventCount
    ensures best.Some? ==>
      exists j :: 0 <= j < |store| && store[j].userId == best.value.userId &&
        forall i :: 0 <= i < j ==> counts[store[i].userId] < best.value.eventCount
  {
    best := None;
    ghost var at := 0;
    for i := 0 to |store|
      invariant best.None? <==> i == 0
      invariant best.Some? ==> best.value.userId in counts && best.value.eventCount == counts[best.value.userId]
      invariant best.Some? ==> forall k :: 0 <= k < i ==> counts[store[k].userId] <= best.value.eventCount
      invariant best.Some? ==> at < i && store[at].userId == best.value.userId
      invariant best.Some? ==> forall k :: 0 <= k < at ==> counts[store[k].userId] < best.value.eventCount
    {
      var u := store[i].userId;
      if best.None? || counts[u] > best.value.eventCount {
        best := Some(UserCount(u, counts[u]));
        at := i;
      }
    }
  }

  /**
   * The statistics: zero totals and no most active user for an empty store;
   * otherwise the number of events, of distinct users, the distinct types,
   * and a user with the largest number of events.
   */
  method ComputeStats(store: seq<Event>) returns (st: Stats)
    ensures |store| == 0 ==> st == Stats(0, 0, {}, None)
    ensures |store| > 0 ==>
      && st.totalEvents == |store|
      && st.uniqueUsers == |Distinct(store, UserIdOf)|
      && st.eventTypes == Distinct(store, EventTypeOf)
      && st.mostActive.Some?
      && IsMostActive(store, st.mostActive.value)
  {
    if |store| == 0 {
      return Stats(0, 0, {}, None);
    }
    var counts := CountPerUser(store);
    forall i | 0 <= i < |store|
      ensures store[i].userId in counts
    {
      assert store[i] in store;
    }
    var best := MostActive(store, counts);
    st := Stats(|store|, |Distinct(store, UserIdOf)|, Distinct(store, EventTypeOf), best);
  }

  /** The statistics name at most one most active user: ties are broken by first appearance. */
  lemma MostActiveUnique(store: seq<Event>, m1: UserCount, m2: UserCount)
    requires IsMostActive(store, m1) && IsMostActive(store, m2)
    ensures m1 == m2
  {
    var j1 :| 0 <= j1 < |store| && store[j1].userId == m1.userId &&
      forall i :: 0 <= i < j1 ==> Occurrences(store, UserIdOf, store[i].userId) < m1.eventCount;
    var j2 :| 0 <= j2 < |store| && store[j2].userId == m2.userId &&
      forall i :: 0 <= i < j2 ==> Occurrences(store, UserIdOf, store[i].userId) < m2.eventCount;
    assert m1.eventCount == m2.eventCount;
  }

  /** A user with strictly more events than every other user is the one reported as most active. */
  lemma StrictMaximumIsReported(store: seq<Event>, m: UserCount, u: Json)
    requires IsMostActive(store, m)
    requires u in Distinct(store, UserIdOf)
    requires forall i :: 0 <= i < |store| && store[i].userId != u ==>
      Occurrences(store, UserIdOf, store[i].userId) < Occurrences(store, UserIdOf, u)
    ensures m == UserCount(u, Occurrences(store, UserIdOf, u))
  {
    OccurrencesPositive(store, UserIdOf, u);
    var i :| 0 <= i < |store| && store[i].userId == u;
    var j :| 0 <= j < |store| && store[j].userId == m.userId;
  }

  // ---------------------------------------------------------------------------
  // DELETE /events

  /** The store after DELETE /events. */
  function Clear(store: seq<Event>): seq<Event> {
    []
  }

  /** After clearing, every query sees nothing: no events, no users, no types. */
  lemma ClearEmptiesEveryView(store: seq<Event>, q: EventQuery, u: string)
    ensures FilterEvents(Clear(store), q) == []
    ensures UserEvents(Clear(store), u) == []
    ensures UserSummaries(Clear(store)) == map[]
    ensures TypeCounts(Clear(store)) == map[]
    ensures Snapshot(Clear(store)) == JArray([])
  {
    assert Distinct(Clear(store), UserIdOf) == {};
    assert Distinct(Clear(store), EventTypeOf) == {};
  }
}
