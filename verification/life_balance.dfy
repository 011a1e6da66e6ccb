/**
 * The state container: the event log and the friend registry, and the
 * actions that change them, each a pure transformation of the state.
 * Fresh ids come from a counter held in the state.
 */
module LifeBalance {
  import opened Types
  import opened Sequences
  import opened Text
  import opened Calculations

  /** The two collections, plus the counter that fresh ids are drawn from. */
  datatype State = State(events: seq<Event>, friends: seq<Friend>, nextId: nat)

  const EventPrefix := "event_"
  const FriendPrefix := "friend_"

  function EventId(n: nat): string
  {
    EventPrefix + Decimal(n)
  }

  function FriendId(n: nat): string
  {
    FriendPrefix + Decimal(n)
  }

  /** The counter value an id carries after `prefix`; 0 for any other text. */
  function Serial(prefix: string, id: string): nat
  {
    if |prefix| <= |id| && id[..|prefix|] == prefix then ParseDecimal(id[|prefix|..]) else 0
  }

  lemma SerialOfId(prefix: string, n: nat)
    ensures Serial(prefix, prefix + Decimal(n)) == n
  {
    var id := prefix + Decimal(n);
    assert id[..|prefix|] == prefix && id[|prefix|..] == Decimal(n);
    ParseDecimalInverts(n);
  }

  /** Ids read back to the counter that made them, so distinct counters give distinct ids. */
  lemma IdsInjective(m: nat, n: nat)
    ensures EventId(m) == EventId(n) <==> m == n
    ensures FriendId(m) == FriendId(n) <==> m == n
    ensures EventId(m) != FriendId(n)
  {
    SerialOfId(EventPrefix, m);
    SerialOfId(EventPrefix, n);
    SerialOfId(FriendPrefix, m);
    SerialOfId(FriendPrefix, n);
    assert EventId(m)[5] == '_' && FriendId(n)[5] == 'd';
  }

  /** Every id in the state is unique within its collection and carries a
      counter value below `nextId`, so the next id issued is fresh. */
  predicate Issued(s: State)
  {
    && Distinct(Map(s.events, EventKey))
    && Distinct(Map(s.friends, FriendKey))
    && (forall i :: 0 <= i < |s.events| ==> Serial(EventPrefix, s.events[i].id) < s.nextId)
    && (forall i :: 0 <= i < |s.friends| ==> Serial(FriendPrefix, s.friends[i].id) < s.nextId)
  }

  // ===== Loading =====

  /** A stored collection: absent (or the empty string), not parseable, or parsed. */
  datatype Saved<T> = Missing | Malformed | Parsed(value: T)

  /** The state at start-up. A parse failure of the event log abandons the
      load before the friend list is parsed, so both stay empty; a parse failure
      of the friends keeps the events already loaded. */
  function Load(savedEvents: Saved<seq<Event>>, savedFriends: Saved<seq<Friend>>, nextId: nat): (s: State)
    ensures s.nextId == nextId
    ensures s.events == if savedEvents.Parsed? then savedEvents.value else []
    ensures s.friends == if savedFriends.Parsed? && !savedEvents.Malformed? then savedFriends.value else []
    ensures savedEvents.Malformed? ==> s.events == [] && s.friends == []
  {
    var events := if savedEvents.Parsed? then savedEvents.value else [];
    if savedEvents.Malformed? then State([], [], nextId)
    else State(events, if savedFriends.Parsed? then savedFriends.value else [], nextId)
  }

  // ===== Adding =====

  /** The shared-with list of an input, or the empty list when none is given. */
  function SharedOrEmpty(shared: Option<seq<string>>): seq<string>
  {
    if shared.Some? then shared.value else []
  }

  /** `${n}` for a whole number of either sign. */
  function SignedDecimal(n: int): string
  {
    if n < 0 then "-" + Decimal(-n) else Decimal(n)
  }

  const WarningSign := "\U{26A0}\U{FE0F} Warning: "

  /** The console warning for logging against the forecast, if any. */
  function DebtWarning(debt: DebtState, kind: EventType): (w: Option<string>)
    ensures w.Some? <==> ViolatesDebt(debt.status, kind)
  {
    if debt.status == NeedG && kind == M then
      Some(WarningSign + "Adding M when debt predicts G. Current debt: +" + SignedDecimal(debt.netDebt))
    else if debt.status == NeedM && kind == G then
      Some(WarningSign + "Adding G when debt predicts M. Current debt: " + SignedDecimal(debt.netDebt))
    else None
  }

  datatype Added = Added(state: State, warning: Option<string>)

  /** `addEvent`: the event is appended whether or not it goes against the
      debt forecast; the warning is only reported. Type, value and
      description are copied verbatim, `sharedWith` defaults to the empty
      list (also for an M), and `now` is the clock reading. */
  function AddEvent(s: State, input: AddEventInput, now: int): (r: Added)
    ensures r.warning.Some? <==> ViolatesDebt(CalculateDebt(s.events).status, input.kind)
    ensures |r.state.events| == |s.events| + 1 && r.state.events[..|s.events|] == s.events
    ensures var e := r.state.events[|s.events|];
      && e.kind == input.kind && e.value == input.value && e.description == input.description
      && e.timestamp == now
      && e.sharedWith == (if input.sharedWith.Some? then input.sharedWith.value else [])
      && Serial(EventPrefix, e.id) == s.nextId
    ensures r.state.friends == s.friends && r.state.nextId == s.nextId + 1
  {
    var id := EventId(s.nextId);
    SerialOfId(EventPrefix, s.nextId);
    var e := Event(id, input.kind, input.value, input.description, now, SharedOrEmpty(input.sharedWith));
    var events := s.events + [e];
    assert events[..|s.events|] == s.events;
    Added(State(events, s.friends, s.nextId + 1), DebtWarning(CalculateDebt(s.events), input.kind))
  }

  /** `addFriend`: one friend appended with name and coefficient copied
      verbatim; the event log is untouched. */
  function AddFriend(s: State, input: AddFriendInput): (r: State)
    ensures |r.friends| == |s.friends| + 1 && r.friends[..|s.friends|] == s.friends
    ensures var f := r.friends[|s.friends|];
      f.name == input.name && f.rho == input.rho && Serial(FriendPrefix, f.id) == s.nextId
    ensures r.events == s.events && r.nextId == s.nextId + 1
  {
    SerialOfId(FriendPrefix, s.nextId);
    var friends := s.friends + [Friend(FriendId(s.nextId), input.name, input.rho)];
    assert friends[..|s.friends|] == s.friends;
    State(s.events, friends, s.nextId + 1)
  }

  /** A fresh id is not among the ids issued before it. */
  lemma {:induction false} FreshId<T>(s: seq<T>, key: T -> string, prefix: string, nextId: nat)
    requires forall i :: 0 <= i < |s| ==> Serial(prefix, key(s[i])) < nextId
    ensures prefix + Decimal(nextId) !in Map(s, key)
  {
    SerialOfId(prefix, nextId);
    forall i | 0 <= i < |s|
      ensures Map(s, key)[i] != prefix + Decimal(nextId)
    {
    }
  }

  lemma AddEventKeepsIssued(s: State, input: AddEventInput, now: int)
    requires Issued(s)
    ensures Issued(AddEvent(s, input, now).state)
  {
    var t := AddEvent(s, input, now).state;
    var e := t.events[|s.events|];
    assert t.events == s.events + [e];
    assert Map(t.events, EventKey) == Map(s.events, EventKey) + [e.id] by {
      assert |Map(t.events, EventKey)| == |s.events| + 1;
      assert Map(t.events, EventKey)[|s.events|] == EventKey(t.events[|s.events|]);
      assert EventKey(e) == e.id;
    }
    FreshId(s.events, EventKey, EventPrefix, s.nextId);
    DistinctAppend(Map(s.events, EventKey), e.id);
  }

  lemma AddFriendKeepsIssued(s: State, input: AddFriendInput)
    requires Issued(s)
    ensures Issued(AddFriend(s, input))
  {
    var t := AddFriend(s, input);
    var f := t.friends[|s.friends|];
    assert t.friends == s.friends + [f];
    assert Map(t.friends, FriendKey) == Map(s.friends, FriendKey) + [f.id];
    FreshId(s.friends, FriendKey, FriendPrefix, s.nextId);
    DistinctAppend(Map(s.friends, FriendKey), f.id);
  }

  // ===== Removing =====

  function EventIdIsNot(id: string): Event -> bool
  {
    (e: Event) => e.id != id
  }

  function FriendIdIsNot(id: string): Friend -> bool
  {
    (f: Friend) => f.id != id
  }

  /** `removeEvent`: the log filtered on the id. */
  function RemoveEvent(s: State, id: string): (r: State)
    ensures |r.events| <= |s.events|
    ensures r.friends == s.friends && r.nextId == s.nextId
  {
    State(Filter(s.events, EventIdIsNot(id)), s.friends, s.nextId)
  }

  /** `removeFriend`: the registry filtered on the id; events, including
      their `sharedWith` lists, are untouched. */
  function RemoveFriend(s: State, id: string): (r: State)
    ensures |r.friends| <= |s.friends|
    ensures r.events == s.events && r.nextId == s.nextId
  {
    State(s.events, Filter(s.friends, FriendIdIsNot(id)), s.nextId)
  }

  /** Removal takes out every event with the id and keeps every other one;
      an absent id changes nothing; removal commutes with concatenation, so
      the survivors keep their relative order. */
  lemma RemoveEventSpec(s: State, id: string, before: seq<Event>, after: seq<Event>)
    ensures var r := RemoveEvent(s, id).events;
      && (forall i :: 0 <= i < |r| ==> r[i].id != id && r[i] in s.events)
      && (forall i :: 0 <= i < |s.events| && s.events[i].id != id ==> s.events[i] in r)
    ensures id !in Map(s.events, EventKey) ==> RemoveEvent(s, id) == s
    ensures s.events == before + after ==>
      RemoveEvent(s, id).events == RemoveEvent(s.(events := before), id).events + RemoveEvent(s.(events := after), id).events
  {
    FilterMembers(s.events, EventIdIsNot(id));
    if id !in Map(s.events, EventKey) {
      forall i | 0 <= i < |s.events|
        ensures EventIdIsNot(id)(s.events[i])
      {
        assert Map(s.events, EventKey)[i] == s.events[i].id;
      }
      FilterAll(s.events, EventIdIsNot(id));
    }
    FilterConcat(before, after, EventIdIsNot(id));
  }

  lemma RemoveFriendSpec(s: State, id: string, before: seq<Friend>, after: seq<Friend>)
    ensures var r := RemoveFriend(s, id).friends;
      && (forall i :: 0 <= i < |r| ==> r[i].id != id && r[i] in s.friends)
      && (forall i :: 0 <= i < |s.friends| && s.friends[i].id != id ==> s.friends[i] in r)
    ensures id !in Map(s.friends, FriendKey) ==> RemoveFriend(s, id) == s
    ensures s.friends == before + after ==>
      RemoveFriend(s, id).friends == RemoveFriend(s.(friends := before), id).friends + RemoveFriend(s.(friends := after), id).friends
  {
    FilterMembers(s.friends, FriendIdIsNot(id));
    if id !in Map(s.friends, FriendKey) {
      forall i | 0 <= i < |s.friends|
        ensures FriendIdIsNot(id)(s.friends[i])
      {
        assert Map(s.friends, FriendKey)[i] == s.friends[i].id;
      }
      FilterAll(s.friends, FriendIdIsNot(id));
    }
    FilterConcat(before, after, FriendIdIsNot(id));
  }

  /** Removing an event keeps every id unique and below the counter. */
  lemma RemoveEventKeepsIssued(s: State, id: string)
    requires Issued(s)
    ensures Issued(RemoveEvent(s, id))
  {
    var kept := RemoveEvent(s, id).events;
    FilterKeepsDistinctKeys(s.events, EventIdIsNot(id), EventKey);
    FilterMembers(s.events, EventIdIsNot(id));
    forall i | 0 <= i < |kept|
      ensures Serial(EventPrefix, kept[i].id) < s.nextId
    {
      var j :| 0 <= j < |s.events| && s.events[j] == kept[i];
    }
  }

  /** Removing a friend keeps every id unique and below the counter. */
  lemma RemoveFriendKeepsIssued(s: State, id: string)
    requires Issued(s)
    ensures Issued(RemoveFriend(s, id))
  {
    var kept := RemoveFriend(s, id).friends;
    FilterKeepsDistinctKeys(s.friends, FriendIdIsNot(id), FriendKey);
    FilterMembers(s.friends, FriendIdIsNot(id));
    forall i | 0 <= i < |kept|
      ensures Serial(FriendPrefix, kept[i].id) < s.nextId
    {
      var j :| 0 <= j < |s.friends| && s.friends[j] == kept[i];
    }
  }

  function ContributionIsNot(id: string): FriendContribution -> bool
  {
    (c: FriendContribution) => c.friendId != id
  }

  /** After a friend is removed, the network breakdown is the old one with
      that friend's entry dropped: events that still name the friend in
      `sharedWith` are tolerated and simply no longer counted for anyone. */
  lemma RemoveFriendDropsEntry(s: State, id: string)
    ensures NetworkEffectOf(RemoveFriend(s, id).events, RemoveFriend(s, id).friends).breakdown
      == Filter(NetworkEffectOf(s.events, s.friends).breakdown, ContributionIsNot(id))
  {
    MapFilter(s.friends, FriendIdIsNot(id), ContributionOf(s.events), ContributionIsNot(id));
  }

  // ===== Clearing =====

  /** `clearAllData`, given the user's answer to the confirmation prompt. */
  function ClearAll(s: State, confirmed: bool): (r: State)
    ensures confirmed ==> r.events == [] && r.friends == []
    ensures !confirmed ==> r == s
    ensures r.nextId == s.nextId
  {
    if confirmed then s.(events := [], friends := []) else s
  }

  /** Clearing, confirmed or not, keeps every id unique and below the
      counter; the counter is not reset, so ids issued later stay fresh. */
  lemma ClearAllKeepsIssued(s: State, confirmed: bool)
    requires Issued(s)
    ensures Issued(ClearAll(s, confirmed))
  {
    if confirmed {
      assert Map(ClearAll(s, confirmed).events, EventKey) == [];
      assert Map(ClearAll(s, confirmed).friends, FriendKey) == [];
    }
  }

  // ===== Derived =====

  /** `totalBalance`: the summed G values, minus the summed M values, plus
      every friend's rho times the value of the G events shared with them. */
  function TotalBalance(s: State): (t: real)
    ensures t == (SumValues(Filter(s.events, IsKind(G))) - SumValues(Filter(s.events, IsKind(M)))) as real
                 + PerFriend(s.events, s.friends)
  {
    DirectBalanceIsGMinusM(s.events);
    CalculateDirectBalance(s.events) as real + NetworkEffectOf(s.events, s.friends).total
  }

  /** Logging an M lowers the total balance by exactly its value; friends play no part. */
  lemma AddMLowersTotal(s: State, input: AddEventInput, now: int)
    requires input.kind == M
    ensures TotalBalance(AddEvent(s, input, now).state) == TotalBalance(s) - input.value as real
  {
    var t := AddEvent(s, input, now).state;
    var e := t.events[|s.events|];
    assert t.events == s.events + [e];
    MEventNeverContributes(s.events, s.friends, e);
    DirectBalanceConcat(s.events, [e]);
    assert [e][..0] == [];
  }

  /** Logging a G shared with nobody raises the total balance by exactly its value. */
  lemma AddUnsharedGRaisesTotal(s: State, input: AddEventInput, now: int)
    requires input.kind == G && SharedOrEmpty(input.sharedWith) == []
    ensures TotalBalance(AddEvent(s, input, now).state) == TotalBalance(s) + input.value as real
  {
    var t := AddEvent(s, input, now).state;
    var e := t.events[|s.events|];
    assert t.events == s.events + [e];
    forall f: Friend
      ensures Contribution(s.events + [e], f) == Contribution(s.events, f)
    {
      SharedAppend(s.events, e, f.id);
    }
    SameContributionsSameEffect(s.events + [e], s.events, s.friends);
    DirectBalanceConcat(s.events, [e]);
    assert [e][..0] == [];
  }

  /** Adding a friend leaves the direct balance alone and raises the multiplier by its coefficient. */
  lemma AddFriendRaisesMultiplier(s: State, input: AddFriendInput)
    ensures CalculateDirectBalance(AddFriend(s, input).events) == CalculateDirectBalance(s.events)
    ensures CalculateNetworkMultiplier(AddFriend(s, input).friends) == CalculateNetworkMultiplier(s.friends) + input.rho
  {
    var t := AddFriend(s, input);
    assert t.friends == s.friends + [t.friends[|s.friends|]];
    MultiplierAppend(s.friends, t.friends[|s.friends|]);
  }
}
