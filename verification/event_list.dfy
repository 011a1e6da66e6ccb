/**
 * The event history list: relative times, the names of the friends an
 * event was shared with, newest-first ordering, and the footer counts.
 */
module EventList {
  import opened Types
  import opened Sequences
  import opened Text
  import opened Calculations

  // ===== Relative time =====

  const MinuteMs := 60000
  const HourMs := 3600000
  const DayMs := 86400000

  /** How long ago something happened, in the largest unit that applies. */
  datatype Elapsed = JustNow | MinutesAgo(minutes: nat) | HoursAgo(hours: nat) | DaysAgo(days: nat)

  /** The unit and count for `diff` milliseconds elapsed; every count is
      the whole number of units elapsed, rounded down. A timestamp in the
      future reads as just now. */
  function Bucket(diff: int): (r: Elapsed)
    ensures r.JustNow? <==> diff < MinuteMs
    ensures r.MinutesAgo? <==> MinuteMs <= diff < HourMs
    ensures r.HoursAgo? <==> HourMs <= diff < DayMs
    ensures r.MinutesAgo? ==> r.minutes * MinuteMs <= diff < (r.minutes + 1) * MinuteMs
    ensures r.HoursAgo? ==> r.hours * HourMs <= diff < (r.hours + 1) * HourMs
    ensures r.DaysAgo? ==> r.days >= 1 && r.days * DayMs <= diff < (r.days + 1) * DayMs
  {
    var minutes := diff / MinuteMs;
    var hours := diff / HourMs;
    var days := diff / DayMs;
    if minutes < 1 then JustNow
    else if minutes < 60 then MinutesAgo(minutes)
    else if hours < 24 then HoursAgo(hours)
    else DaysAgo(days)
  }

  function Plural(n: nat): string
  {
    if n > 1 then "s" else ""
  }

  function Render(e: Elapsed): string
  {
    match e
    case JustNow => "Just now"
    case MinutesAgo(n) => Decimal(n) + " min ago"
    case HoursAgo(n) => Decimal(n) + " hour" + Plural(n) + " ago"
    case DaysAgo(n) => Decimal(n) + " day" + Plural(n) + " ago"
  }

  /** `formatTime`, given the milliseconds elapsed since the timestamp. */
  function FormatTime(diff: int): string
  {
    Render(Bucket(diff))
  }

  /** The text of a relative time opens with its count, written in decimal
      without leading zeros, and its unit is
      plural exactly when the count exceeds one (minutes are never
      pluralised). */
  lemma FormatTimeReads(diff: int)
    ensures diff < MinuteMs <==> FormatTime(diff) == "Just now"
    ensures MinuteMs <= diff ==> FormatTime(diff)[0] != '0'
    ensures MinuteMs <= diff < HourMs ==> DigitPrefix(FormatTime(diff)) == Decimal(diff / MinuteMs)
    ensures HourMs <= diff < DayMs ==> DigitPrefix(FormatTime(diff)) == Decimal(diff / HourMs)
    ensures DayMs <= diff ==> DigitPrefix(FormatTime(diff)) == Decimal(diff / DayMs)
    ensures MinuteMs <= diff < HourMs ==>
      LeadingNumber(FormatTime(diff)) == diff / MinuteMs && Wording(FormatTime(diff)) == " min ago"
    ensures HourMs <= diff < DayMs ==>
      && LeadingNumber(FormatTime(diff)) == diff / HourMs
      && Wording(FormatTime(diff)) == (if diff / HourMs > 1 then " hours ago" else " hour ago")
    ensures DayMs <= diff ==>
      && LeadingNumber(FormatTime(diff)) == diff / DayMs
      && Wording(FormatTime(diff)) == (if diff / DayMs > 1 then " days ago" else " day ago")
  {
    var b := Bucket(diff);
    match b {
      case JustNow =>
      case MinutesAgo(n) =>
        LeadingNumberOfDecimal(n, " min ago");
      case HoursAgo(n) =>
        assert n == diff / HourMs;
        assert " hour" + Plural(n) + " ago" == if n > 1 then " hours ago" else " hour ago";
        var rest := " hour" + Plural(n) + " ago";
        assert FormatTime(diff) == Decimal(n) + rest;
        LeadingNumberOfDecimal(n, rest);
      case DaysAgo(n) =>
        assert n == diff / DayMs;
        assert " day" + Plural(n) + " ago" == if n > 1 then " days ago" else " day ago";
        var rest := " day" + Plural(n) + " ago";
        assert FormatTime(diff) == Decimal(n) + rest;
        LeadingNumberOfDecimal(n, rest);
    }
  }

  // ===== Friend names =====

  /** The name the first friend with this id goes by, if any. */
  function NameOf(friends: seq<Friend>, id: string): Option<string>
  {
    var found := Find(friends, HasId(id));
    if found.Some? then Some(found.value.name) else None
  }

  /** The names of the listed friends, in list order, leaving out ids no
      friend has and names that are empty. */
  function FriendNames(ids: seq<string>, friends: seq<Friend>): (r: seq<string>)
    ensures |r| <= |ids|
    ensures forall i :: 0 <= i < |r| ==> r[i] != ""
    decreases |ids|
  {
    if |ids| == 0 then []
    else
      var name := NameOf(friends, ids[0]);
      (if name.Some? && name.value != "" then [name.value] else []) + FriendNames(ids[1..], friends)
  }

  /** Names follow the order of the ids: listing more ids appends their names. */
  lemma {:induction false} FriendNamesConcat(a: seq<string>, b: seq<string>, friends: seq<Friend>)
    ensures FriendNames(a + b, friends) == FriendNames(a, friends) + FriendNames(b, friends)
    decreases |a|
  {
    if |a| == 0 {
      assert a + b == b;
    } else {
      assert (a + b)[1..] == a[1..] + b;
      FriendNamesConcat(a[1..], b, friends);
    }
  }

  /** Every id of a registered friend with a non-empty name yields that name, in order. */
  lemma {:induction false} FriendNamesAllKnown(ids: seq<string>, friends: seq<Friend>)
    requires forall i :: 0 <= i < |ids| ==> NameOf(friends, ids[i]).Some? && NameOf(friends, ids[i]).value != ""
    ensures |FriendNames(ids, friends)| == |ids|
    ensures forall i :: 0 <= i < |ids| ==> FriendNames(ids, friends)[i] == NameOf(friends, ids[i]).value
    decreases |ids|
  {
    if |ids| > 0 {
      FriendNamesAllKnown(ids[1..], friends);
      var rest := FriendNames(ids[1..], friends);
      forall i | 1 <= i < |ids|
        ensures FriendNames(ids, friends)[i] == NameOf(friends, ids[i]).value
      {
        assert ids[1..][i - 1] == ids[i];
      }
    }
  }

  /** An id no friend has contributes no name. */
  lemma UnknownIdNamesNobody(id: string, friends: seq<Friend>)
    requires forall i :: 0 <= i < |friends| ==> friends[i].id != id
    ensures FriendNames([id], friends) == [] && GetFriendNames([id], friends) == ""
  {
    assert Find(friends, HasId(id)).None?;
    assert [id][1..] == [];
  }

  /** A friend registered under an empty name is named nobody: the empty
      name is dropped like a missing one. */
  lemma EmptyNameNamesNobody(id: string, friends: seq<Friend>)
    requires NameOf(friends, id) == Some("")
    ensures FriendNames([id], friends) == [] && GetFriendNames([id], friends) == ""
  {
    assert [id][1..] == [];
  }

  /** `getFriendNames`: the names joined with ", "; empty exactly when no
      listed id names anybody. */
  function GetFriendNames(ids: seq<string>, friends: seq<Friend>): (r: string)
    ensures r == "" <==> FriendNames(ids, friends) == []
  {
    Join(FriendNames(ids, friends))
  }

  // ===== Newest first =====

  predicate NewestFirst(s: seq<Event>)
  {
    forall i, j :: 0 <= i < j < |s| ==> s[i].timestamp >= s[j].timestamp
  }

  /** Places `e` after every event at least as recent, before the first older one. */
  function Insert(sorted: seq<Event>, e: Event): (r: seq<Event>)
    ensures multiset(r) == multiset(sorted) + multiset{e}
    decreases |sorted|
  {
    if |sorted| == 0 then [e]
    else if sorted[0].timestamp < e.timestamp then [e] + sorted
    else
      var rest := Insert(sorted[1..], e);
      assert sorted == [sorted[0]] + sorted[1..];
      [sorted[0]] + rest
  }

  lemma {:induction false} InsertKeepsOrder(sorted: seq<Event>, e: Event)
    requires NewestFirst(sorted)
    ensures NewestFirst(Insert(sorted, e))
    decreases |sorted|
  {
    if |sorted| > 0 && sorted[0].timestamp >= e.timestamp {
      var rest := Insert(sorted[1..], e);
      InsertKeepsOrder(sorted[1..], e);
      var r := [sorted[0]] + rest;
      forall j | 0 < j < |r|
        ensures r[0].timestamp >= r[j].timestamp
      {
        assert r[j] == rest[j - 1];
        assert r[j] in multiset(sorted[1..]) + multiset{e};
        if r[j] != e {
          assert r[j] in sorted[1..];
        }
      }
    }
  }

  /** The list's display order: a copy of the log sorted by descending
      timestamp, newest first, holding the same events. */
  function SortNewestFirst(events: seq<Event>): (r: seq<Event>)
    ensures NewestFirst(r)
    ensures multiset(r) == multiset(events)
    decreases |events|
  {
    if |events| == 0 then []
    else
      var init := events[..|events| - 1];
      var last := events[|events| - 1];
      var sorted := SortNewestFirst(init);
      SortStep(events, sorted);
      Insert(sorted, last)
  }

  /** Inserting the last event into the sorted rest of the log sorts the log. */
  lemma SortStep(events: seq<Event>, sorted: seq<Event>)
    requires |events| > 0
    requires NewestFirst(sorted) && multiset(sorted) == multiset(events[..|events| - 1])
    ensures NewestFirst(Insert(sorted, events[|events| - 1]))
    ensures multiset(Insert(sorted, events[|events| - 1])) == multiset(events)
  {
    var init, last := events[..|events| - 1], events[|events| - 1];
    InsertKeepsOrder(sorted, last);
    assert events == init + [last];
  }

  function At(t: int): Event -> bool
  {
    (e: Event) => e.timestamp == t
  }

  lemma FilterSingle(e: Event, p: Event -> bool)
    ensures Filter([e], p) == if p(e) then [e] else []
  {
    assert [e][..0] == [];
  }

  lemma {:induction false} InsertStable(sorted: seq<Event>, e: Event, t: int)
    requires NewestFirst(sorted)
    ensures Filter(Insert(sorted, e), At(t)) == Filter(sorted, At(t)) + (if e.timestamp == t then [e] else [])
    decreases |sorted|
  {
    if |sorted| == 0 {
      FilterSingle(e, At(t));
      assert Insert(sorted, e) == [e];
    } else if sorted[0].timestamp < e.timestamp {
      InsertInFrontStable(sorted, e, t);
    } else {
      NewestFirstTail(sorted);
      InsertStable(sorted[1..], e, t);
      InsertBehindHeadStable(sorted, e, t);
    }
  }

  /** Inserting behind the first event: the filter of the result is the
      first event's filter followed by the filter of the insertion into the rest. */
  lemma InsertBehindHeadStable(sorted: seq<Event>, e: Event, t: int)
    requires |sorted| > 0 && sorted[0].timestamp >= e.timestamp
    requires Filter(Insert(sorted[1..], e), At(t)) == Filter(sorted[1..], At(t)) + (if e.timestamp == t then [e] else [])
    ensures Filter(Insert(sorted, e), At(t)) == Filter(sorted, At(t)) + (if e.timestamp == t then [e] else [])
  {
    var rest := sorted[1..];
    var head := Filter([sorted[0]], At(t));
    var added := if e.timestamp == t then [e] else [];
    assert Insert(sorted, e) == [sorted[0]] + Insert(rest, e);
    FilterConcat([sorted[0]], Insert(rest, e), At(t));
    assert Filter(Insert(sorted, e), At(t)) == head + (Filter(rest, At(t)) + added);
    assert sorted == [sorted[0]] + rest;
    FilterConcat([sorted[0]], rest, At(t));
    assert Filter(sorted, At(t)) == head + Filter(rest, At(t));
  }

  lemma NewestFirstTail(sorted: seq<Event>)
    requires NewestFirst(sorted) && |sorted| > 0
    ensures NewestFirst(sorted[1..])
  {
    var rest := sorted[1..];
    forall i, j | 0 <= i < j < |rest|
      ensures rest[i].timestamp >= rest[j].timestamp
    {
      assert rest[i] == sorted[i + 1] && rest[j] == sorted[j + 1];
    }
  }

  lemma InsertInFrontStable(sorted: seq<Event>, e: Event, t: int)
    requires NewestFirst(sorted) && |sorted| > 0 && sorted[0].timestamp < e.timestamp
    ensures Filter(Insert(sorted, e), At(t)) == Filter(sorted, At(t)) + (if e.timestamp == t then [e] else [])
  {
    FilterSingle(e, At(t));
    assert Insert(sorted, e) == [e] + sorted;
    FilterConcat([e], sorted, At(t));
    if e.timestamp == t {
      forall i | 0 <= i < |sorted|
        ensures !At(t)(sorted[i])
      {
        if i > 0 {
          assert sorted[0].timestamp >= sorted[i].timestamp;
        }
      }
      FilterNone(sorted, At(t));
    }
  }

  /** The sort is stable: events with the same timestamp keep their log order. */
  lemma {:induction false} SortStable(events: seq<Event>, t: int)
    ensures Filter(SortNewestFirst(events), At(t)) == Filter(events, At(t))
    decreases |events|
  {
    if |events| > 0 {
      var init := events[..|events| - 1];
      SortStable(init, t);
      InsertStable(SortNewestFirst(init), events[|events| - 1], t);
    }
  }

  lemma {:induction false} InsertAtEnd(sorted: seq<Event>, e: Event)
    requires forall i :: 0 <= i < |sorted| ==> sorted[i].timestamp >= e.timestamp
    ensures Insert(sorted, e) == sorted + [e]
    decreases |sorted|
  {
    if |sorted| > 0 {
      InsertAtEnd(sorted[1..], e);
      assert [sorted[0]] + (sorted[1..] + [e]) == sorted + [e];
    }
  }

  /** A log already newest first comes back unchanged. */
  lemma {:induction false} SortKeepsSorted(events: seq<Event>)
    requires NewestFirst(events)
    ensures SortNewestFirst(events) == events
    decreases |events|
  {
    if |events| > 0 {
      var init := events[..|events| - 1];
      SortKeepsSorted(init);
      InsertAtEnd(init, events[|events| - 1]);
      assert init + [events[|events| - 1]] == events;
    }
  }

  // ===== Footer =====

  datatype Footer = Footer(misfortunes: nat, goodFortunes: nat, shared: nat)

  /** An event shared with at least one friend. */
  const IsShared: Event -> bool := (e: Event) => |e.sharedWith| > 0

  /** The footer: the M count, the G count, and the count of events with a
      non-empty `sharedWith`; the first two always add up to the log length. */
  function FooterCounts(events: seq<Event>): (r: Footer)
    ensures r.misfortunes + r.goodFortunes == |events|
    ensures r.misfortunes == CountKind(events, M) && r.goodFortunes == CountKind(events, G)
    ensures r.shared <= |events|
  {
    CountsPartition(events);
    Footer(CountKind(events, M), CountKind(events, G), |Filter(events, IsShared)|)
  }

  /** The footer counts event by event: the empty log shows zeros, and one
      more event adds one to its kind's count, and one to the shared count
      exactly when it names at least one friend. The footer itself is shown
      only for a non-empty log; the empty log is the base of the counting. */
  lemma FooterStep(events: seq<Event>, e: Event)
    ensures FooterCounts([]) == Footer(0, 0, 0)
    ensures var before := FooterCounts(events);
      FooterCounts(events + [e]) == Footer(
        before.misfortunes + (if e.kind == M then 1 else 0),
        before.goodFortunes + (if e.kind == G then 1 else 0),
        before.shared + (if |e.sharedWith| > 0 then 1 else 0))
  {
    CountKindAppend(events, e, M);
    CountKindAppend(events, e, G);
    assert (events + [e])[..|events|] == events;
  }

  /** When no M carries friend ids (as for events logged through the form),
      the shared events are among the good fortunes. */
  lemma {:induction false} SharedAmongGood(events: seq<Event>)
    requires forall i :: 0 <= i < |events| ==> events[i].kind == M ==> events[i].sharedWith == []
    ensures FooterCounts(events).shared <= FooterCounts(events).goodFortunes
    decreases |events|
  {
    if |events| > 0 {
      var init := events[..|events| - 1];
      var last := events[|events| - 1];
      assert events == init + [last];
      SharedAmongGood(init);
      CountKindAppend(init, last, G);
    }
  }

  /** An M with friend ids, which the state container accepts, is counted
      as shared in the footer though it adds nothing to the network effect. */
  lemma SharedMCounted(e: Event, friends: seq<Friend>)
    requires e.kind == M && |e.sharedWith| > 0
    ensures FooterCounts([e]).shared == 1
    ensures NetworkEffectOf([e], friends) == NetworkEffectOf([], friends)
  {
    FilterSingle(e, IsShared);
    MEventNeverContributes([], friends, e);
    assert [] + [e] == [e];
  }
}
