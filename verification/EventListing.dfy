/** Listing the event log: the filter, the limit, and the order. */
module EventListing {
  import opened Values
  import opened Model

  predicate Matches(e: Event, f: EventFilter) {
    && (f.vmId == "" || e.vmId == f.vmId)
    && (f.controllerId == "" || e.controllerId == f.controllerId)
    && (f.kind == "" || e.kind == f.kind)
    && (f.since == ZERO_TIME || e.createdAt >= f.since)
  }

  function Matching(events: seq<Event>, f: EventFilter): seq<Event> {
    if |events| == 0 then []
    else
      var last := events[|events| - 1];
      Matching(events[..|events| - 1], f) + if Matches(last, f) then [last] else []
  }

  function Take<T>(s: seq<T>, limit: int): seq<T> {
    if 0 < limit < |s| then s[..limit] else s
  }

  /** The first `limit` matching events in log order; all of them when there is no limit. */
  function Listed(events: seq<Event>, f: EventFilter): seq<Event> {
    Take(Matching(events, f), f.limit)
  }

  const DEFAULT_LIST_LIMIT := 100
  const MAX_LIST_LIMIT := 1000

  function ClampLimit(limit: int): int {
    if limit <= 0 then DEFAULT_LIST_LIMIT
    else if limit > MAX_LIST_LIMIT then MAX_LIST_LIMIT
    else limit
  }

  /** What the service lists. */
  function ServiceListed(events: seq<Event>, f: EventFilter): seq<Event> {
    Listed(events, f.(limit := ClampLimit(f.limit)))
  }

  /** The store's loop, with its early exit. */
  method ListEvents(events: seq<Event>, filter: EventFilter) returns (result: seq<Event>)
    ensures result == Listed(events, filter)
  {
    result := [];
    var i := 0;
    assert events[..0] == [];
    while i < |events|
      invariant i <= |events|
      invariant result == Matching(events[..i], filter)
      invariant filter.limit > 0 ==> |result| < filter.limit
    {
      var e := events[i];
      i := i + 1;
      assert events[..i][..i - 1] == events[..i - 1];
      if filter.vmId != "" && e.vmId != filter.vmId {
        continue;
      }
      if filter.controllerId != "" && e.controllerId != filter.controllerId {
        continue;
      }
      if filter.kind != "" && e.kind != filter.kind {
        continue;
      }
      if filter.since != ZERO_TIME && e.createdAt < filter.since {
        continue;
      }
      result := result + [e];
      if filter.limit > 0 && |result| >= filter.limit {
        MatchingConcat(events[..i], events[i..], filter);
        assert events == events[..i] + events[i..];
        return;
      }
    }
    assert events[..i] == events;
  }

  lemma {:induction false} MatchingConcat(x: seq<Event>, y: seq<Event>, f: EventFilter)
    ensures Matching(x + y, f) == Matching(x, f) + Matching(y, f)
  {
    if |y| == 0 {
      assert x + y == x;
    } else {
      assert (x + y)[..|x + y| - 1] == x + y[..|y| - 1];
      MatchingConcat(x, y[..|y| - 1], f);
    }
  }

  /** Every logged match is listed exactly where log order puts it, and nothing else is. */
  lemma {:induction false} MatchingIsFilter(events: seq<Event>, f: EventFilter, i: nat)
    requires i < |events|
    ensures Matches(events[i], f) ==>
      var at := |Matching(events[..i], f)|;
      at < |Matching(events, f)| && Matching(events, f)[at] == events[i]
    ensures forall k :: 0 <= k < |Matching(events, f)| ==> Matching(events, f)[k] in events && Matches(Matching(events, f)[k], f)
  {
    MatchedOnly(events, f);
    assert events == events[..i + 1] + events[i + 1..];
    MatchingConcat(events[..i + 1], events[i + 1..], f);
    assert events[..i + 1][..i] == events[..i];
  }

  lemma {:induction false} MatchedOnly(events: seq<Event>, f: EventFilter)
    ensures forall k :: 0 <= k < |Matching(events, f)| ==> Matching(events, f)[k] in events && Matches(Matching(events, f)[k], f)
  {
    if |events| > 0 {
      MatchedOnly(events[..|events| - 1], f);
    }
  }

  /** Where in the log the matching events are. */
  ghost function Places(events: seq<Event>, f: EventFilter): seq<nat> {
    if |events| == 0 then []
    else
      var n := |events| - 1;
      Places(events[..n], f) + if Matches(events[n], f) then [n] else []
  }

  ghost predicate Rising(at: seq<nat>) {
    forall i, k :: 0 <= i < k < |at| ==> at[i] < at[k]
  }

  lemma {:induction false} PlaceHolds(events: seq<Event>, f: EventFilter, i: nat)
    requires i < |Matching(events, f)|
    ensures |Places(events, f)| == |Matching(events, f)| && Places(events, f)[i] < |events|
    ensures Matching(events, f)[i] == events[Places(events, f)[i]] && Matches(Matching(events, f)[i], f)
  {
    var front := events[..|events| - 1];
    PlacesCount(front, f);
    if i < |Matching(front, f)| {
      PlaceHolds(front, f, i);
    }
  }

  lemma {:induction false} PlacesCount(events: seq<Event>, f: EventFilter)
    ensures |Places(events, f)| == |Matching(events, f)|
  {
    if |events| > 0 {
      PlacesCount(events[..|events| - 1], f);
    }
  }

  lemma {:induction false} PlacesRise(events: seq<Event>, f: EventFilter)
    ensures Rising(Places(events, f)) && forall i :: 0 <= i < |Places(events, f)| ==> Places(events, f)[i] < |events|
  {
    if |events| > 0 {
      PlacesRise(events[..|events| - 1], f);
    }
  }

  /** Every matching event has its place. */
  lemma {:induction false} PlaceOf(events: seq<Event>, f: EventFilter, j: nat) returns (i: nat)
    requires j < |events| && Matches(events[j], f)
    ensures i < |Places(events, f)| && Places(events, f)[i] == j
  {
    var front := events[..|events| - 1];
    if j < |front| {
      i := PlaceOf(front, f, j);
    } else {
      i := |Places(front, f)|;
    }
  }

  /** An event that matches and is not listed comes after a full listing. */
  lemma {:induction false} PassedOver(events: seq<Event>, f: EventFilter, j: nat)
    requires j < |events| && Matches(events[j], f)
    ensures
      var n := |Listed(events, f)|;
      && n <= |Places(events, f)|
      && (j in Places(events, f)[..n] || (0 < f.limit == n && Places(events, f)[n - 1] < j))
  {
    PlacesCount(events, f);
    PlacesRise(events, f);
    var i := PlaceOf(events, f, j);
    var n := |Listed(events, f)|;
    if i < n {
      assert Places(events, f)[..n][i] == j;
    }
  }

  /**
   A listing takes events from places in the log that rise. Each has the VM, controller and
   type of the filter where the filter names one, and is not older than its time if it has one. An
   event that meets all this is passed over only when the listing is full and ends before it.
   */
  lemma {:induction false} ListedExactly(events: seq<Event>, f: EventFilter) returns (at: seq<nat>)
    ensures
      var r := Listed(events, f);
      && |at| == |r| && Rising(at)
      && (f.limit > 0 ==> |r| <= f.limit)
      && (forall i :: 0 <= i < |r| ==>
            && at[i] < |events| && r[i] == events[at[i]]
            && (f.vmId != "" ==> r[i].vmId == f.vmId)
            && (f.controllerId != "" ==> r[i].controllerId == f.controllerId)
            && (f.kind != "" ==> r[i].kind == f.kind)
            && (f.since != ZERO_TIME ==> r[i].createdAt >= f.since))
      && (forall j ::
            0 <= j < |events| && j !in at
            && (f.vmId == "" || events[j].vmId == f.vmId)
            && (f.controllerId == "" || events[j].controllerId == f.controllerId)
            && (f.kind == "" || events[j].kind == f.kind)
            && (f.since == ZERO_TIME || events[j].createdAt >= f.since) ==>
              0 < f.limit == |r| && at[|r| - 1] < j)
  {
    PlacesCount(events, f);
    PlacesRise(events, f);
    at := Places(events, f)[..|Listed(events, f)|];
    forall i | 0 <= i < |at| ensures at[i] < |events| && Listed(events, f)[i] == events[at[i]] && Matches(events[at[i]], f) {
      PlaceHolds(events, f, i);
    }
    forall j | 0 <= j < |events| && Matches(events[j], f) ensures j in at || (0 < f.limit == |at| && at[|at| - 1] < j) {
      PassedOver(events, f, j);
    }
  }

  /** A smaller limit lists a prefix of what a larger one lists. */
  lemma {:induction false} SmallerLimitIsPrefix(events: seq<Event>, f: EventFilter, limit: int)
    requires 0 < f.limit && (limit <= 0 || f.limit <= limit)
    ensures Listed(events, f) <= Listed(events, f.(limit := limit))
  {
    MatchingIgnoresLimit(events, f, limit);
  }

  lemma {:induction false} MatchingIgnoresLimit(events: seq<Event>, f: EventFilter, limit: int)
    ensures Matching(events, f) == Matching(events, f.(limit := limit))
  {
    if |events| > 0 {
      MatchingIgnoresLimit(events[..|events| - 1], f, limit);
    }
  }

  /** As the log grows, a listing only grows at its end, and a full one never changes. */
  lemma {:induction false} ListingIsStable(events: seq<Event>, more: seq<Event>, f: EventFilter)
    ensures Listed(events, f) <= Listed(events + more, f)
    ensures 0 < f.limit == |Listed(events, f)| ==> Listed(events + more, f) == Listed(events, f)
  {
    MatchingConcat(events, more, f);
  }

  /** The service lists the first matches, as many as the limit says, 100 without one and never above 1000. */
  lemma {:induction false} ServiceLimits(events: seq<Event>, f: EventFilter)
    ensures
      var r, m := ServiceListed(events, f), Matching(events, f);
      && r <= m
      && (f.limit <= 0 ==> |r| == if |m| <= 100 then |m| else 100)
      && (1 <= f.limit <= 1000 ==> |r| == if |m| <= f.limit then |m| else f.limit)
      && (f.limit > 1000 ==> |r| == if |m| <= 1000 then |m| else 1000)
  {
    MatchingIgnoresLimit(events, f, ClampLimit(f.limit));
  }

  // ----- The documented order ---------------------------------------------------------

  /** No event is newer than one before it. */
  ghost predicate NewestToOldest(events: seq<Event>) {
    forall i, k :: 0 <= i < k < |events| ==> events[k].createdAt <= events[i].createdAt
  }

  /**
   What the API requirements (FR-011) ask of a listing: as many matching events as the limit allows, by
   creation time with the newest first, and none left out that is newer than one listed.
   */
  ghost predicate NewestFirst(matching: seq<Event>, limit: nat, listing: seq<Event>) {
    && |listing| == (if |matching| < limit then |matching| else limit)
    && multiset(listing) <= multiset(matching)
    && NewestToOldest(listing)
    && NoneNewer(multiset(matching) - multiset(listing), listing)
  }

  ghost predicate NoneNewer(omitted: multiset<Event>, listing: seq<Event>) {
    forall e, i :: e in omitted && 0 <= i < |listing| ==> e.createdAt <= listing[i].createdAt
  }

  /** The service's listing is in the documented order. */
  ghost predicate AsDocumented(events: seq<Event>, f: EventFilter) {
    NewestFirst(Matching(events, f), ClampLimit(f.limit), ServiceListed(events, f))
  }

  /** One of the first n events is followed by a newer one. */
  ghost predicate NewerFollows(events: seq<Event>, n: nat) {
    exists i, k :: 0 <= i < n && i < k < |events| && events[i].createdAt < events[k].createdAt
  }

  /** What a prefix leaves out is the rest. */
  lemma {:induction false} OmittedIsRest(m: seq<Event>, n: nat)
    requires n <= |m|
    ensures multiset(m[..n]) <= multiset(m) && multiset(m) - multiset(m[..n]) == multiset(m[n..])
  {
    assert m == m[..n] + m[n..];
  }

  lemma {:induction false} NoneNewerInRest(m: seq<Event>, n: nat)
    requires n <= |m|
    ensures NoneNewer(multiset(m[n..]), m[..n]) <==> forall i, k :: 0 <= i < n <= k < |m| ==> m[k].createdAt <= m[i].createdAt
  {
    var listing, rest := m[..n], m[n..];
    if NoneNewer(multiset(rest), listing) {
      forall i, k | 0 <= i < n <= k < |m| ensures m[k].createdAt <= m[i].createdAt {
        assert rest[k - n] == m[k] && m[k] in multiset(rest) && listing[i] == m[i];
      }
    } else {
      var e, i :| e in multiset(rest) && 0 <= i < n && listing[i].createdAt < e.createdAt;
      var k :| 0 <= k < |rest| && rest[k] == e;
      assert m[n + k] == e && m[i] == listing[i];
    }
  }

  lemma {:induction false} NewestToOldestInPrefix(m: seq<Event>, n: nat)
    requires n <= |m|
    ensures NewestToOldest(m[..n]) <==> forall i, k :: 0 <= i < k < n ==> m[k].createdAt <= m[i].createdAt
  {
    assert forall i :: 0 <= i < n ==> m[..n][i] == m[i];
  }

  lemma {:induction false} PrefixIsNewestFirst(m: seq<Event>, limit: nat, n: nat)
    requires n == if |m| < limit then |m| else limit
    ensures NewestFirst(m, limit, m[..n]) <==> !NewerFollows(m, n)
  {
    OmittedIsRest(m, n);
    NoneNewerInRest(m, n);
    NewestToOldestInPrefix(m, n);
  }

  /**
   The service keeps log order, so on any log it meets the documented order exactly when no event
   it lists is followed in the log by a newer match, listed or not.
   */
  lemma {:induction false} NewestFirstExactly(events: seq<Event>, f: EventFilter)
    ensures AsDocumented(events, f) <==> !NewerFollows(Matching(events, f), |ServiceListed(events, f)|)
  {
    var m, n := Matching(events, f), |ServiceListed(events, f)|;
    MatchingIgnoresLimit(events, f, ClampLimit(f.limit));
    assert ServiceListed(events, f) == m[..n];
    PrefixIsNewestFirst(m, ClampLimit(f.limit), n);
  }

  /** The log is in the order of its events' creation times. */
  ghost predicate OldestToNewest(events: seq<Event>) {
    forall i, k :: 0 <= i < k < |events| ==> events[i].createdAt <= events[k].createdAt
  }

  lemma {:induction false} MatchingKeepsOrder(events: seq<Event>, f: EventFilter)
    requires OldestToNewest(events)
    ensures OldestToNewest(Matching(events, f))
  {
    if |events| > 0 {
      var front, last := events[..|events| - 1], events[|events| - 1];
      MatchingKeepsOrder(front, f);
      MatchedOnly(front, f);
      forall k | 0 <= k < |Matching(front, f)| ensures Matching(front, f)[k].createdAt <= last.createdAt {
        var i :| 0 <= i < |front| && front[i] == Matching(front, f)[k];
        assert events[i] == front[i];
      }
    }
  }

  /**
   On a log whose times rise, the order is as documented only when there is nothing to order: all
   matching events, or none, were created at one time.
   */
  lemma {:induction false} NewestFirstOnOrderedLog(events: seq<Event>, f: EventFilter)
    requires OldestToNewest(events)
    ensures
      var m := Matching(events, f);
      AsDocumented(events, f) <==> m == [] || m[0].createdAt == m[|m| - 1].createdAt
  {
    var m := Matching(events, f);
    NewestFirstExactly(events, f);
    MatchingKeepsOrder(events, f);
    ServiceLimits(events, f);
  }

  /** Two events of one VM in the order of their times: with a limit of one, the older is listed. */
  lemma OldestComesFirst()
    ensures
      var created := Event("1", "a", "", "vm.created", [], 10);
      var stopped := Event("2", "a", "", "vm.stop_requested", [], 20);
      var one := EventFilter("a", "", "", ZERO_TIME, 1);
      ServiceListed([created, stopped], one) == [created] && !AsDocumented([created, stopped], one)
  {
    var created := Event("1", "a", "", "vm.created", [], 10);
    var stopped := Event("2", "a", "", "vm.stop_requested", [], 20);
    var one := EventFilter("a", "", "", ZERO_TIME, 1);
    BothMatch(created, stopped, one);
    NewestFirstOnOrderedLog([created, stopped], one);
  }

  /** Two events that reached the log against the order of their times are listed as documented. */
  lemma OutOfOrderLogIsListedInOrder()
    ensures
      var stopped := Event("1", "a", "", "vm.stop_requested", [], 20);
      var deleted := Event("2", "a", "", "vm.delete_requested", [], 10);
      var all := EventFilter("a", "", "", ZERO_TIME, 10);
      ServiceListed([stopped, deleted], all) == [stopped, deleted] && AsDocumented([stopped, deleted], all)
  {
    var stopped := Event("1", "a", "", "vm.stop_requested", [], 20);
    var deleted := Event("2", "a", "", "vm.delete_requested", [], 10);
    var all := EventFilter("a", "", "", ZERO_TIME, 10);
    BothMatch(stopped, deleted, all);
    NewestFirstExactly([stopped, deleted], all);
  }

  lemma {:induction false} BothMatch(x: Event, y: Event, f: EventFilter)
    requires Matches(x, f) && Matches(y, f) && 0 < f.limit <= MAX_LIST_LIMIT
    ensures Matching([x, y], f) == [x, y]
    ensures ServiceListed([x, y], f) == if f.limit == 1 then [x] else [x, y]
  {
    assert [x, y][..1] == [x] && [x][..0] == [];
    assert Matching([x], f) == [x];
    MatchingIgnoresLimit([x, y], f, ClampLimit(f.limit));
  }
}
