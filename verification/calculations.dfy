/**
 * The derivation engine: pure functions from a snapshot of the event log and
 * the friend registry to the debt forecast, the direct balance, the network
 * effect, the network multiplier and the M/G ratio health.
 */
module Calculations {
  import opened Types
  import opened Sequences
  import opened Text

  // ===== Counting =====

  function IsKind(k: EventType): Event -> bool
  {
    (e: Event) => e.kind == k
  }

  /** How many events of the log are of kind `k`. */
  function CountKind(events: seq<Event>, k: EventType): nat
  {
    |Filter(events, IsKind(k))|
  }

  lemma CountKindAppend(events: seq<Event>, e: Event, k: EventType)
    ensures CountKind(events + [e], k) == CountKind(events, k) + (if e.kind == k then 1 else 0)
  {
    assert (events + [e])[..|events|] == events;
  }

  /** Every event is either an M or a G, so the two counts partition the log. */
  lemma {:induction false} CountsPartition(events: seq<Event>)
    ensures CountKind(events, M) + CountKind(events, G) == |events|
    decreases |events|
  {
    if |events| > 0 {
      var init := events[..|events| - 1];
      var last := events[|events| - 1];
      assert events == init + [last];
      CountsPartition(init);
      CountKindAppend(init, last, M);
      CountKindAppend(init, last, G);
    }
  }

  // ===== Debt =====

  function Abs(n: int): nat
  {
    if n < 0 then -n else n
  }

  /** The forecast text for a net debt. */
  function Prediction(netDebt: int): string
  {
    if netDebt > 0 then
      (if netDebt == 1 then "1 good fortune predicted" else Decimal(netDebt) + " good fortunes predicted")
    else if netDebt < 0 then
      (if Abs(netDebt) == 1 then "1 misfortune predicted"
       else Decimal(Abs(netDebt)) + " misfortunes predicted (too lucky)")
    else "Life is balanced"
  }

  /** Debt under the 2-for-1 rule: every two M's owe a G, every two G's owe an M. */
  function CalculateDebt(events: seq<Event>): (r: DebtState)
    ensures r.mDebt == CountKind(events, M) / 2 && r.gDebt == CountKind(events, G) / 2
    ensures r.netDebt == r.mDebt - r.gDebt
    ensures r.status == NeedG <==> r.netDebt > 0
    ensures r.status == NeedM <==> r.netDebt < 0
    ensures r.status == Balanced <==> r.netDebt == 0
    ensures r.prediction == Prediction(r.netDebt)
  {
    var mDebt := CountKind(events, M) / 2;
    var gDebt := CountKind(events, G) / 2;
    var netDebt := mDebt - gDebt;
    var status := if netDebt > 0 then NeedG else if netDebt < 0 then NeedM else Balanced;
    DebtState(mDebt, gDebt, netDebt, status, Prediction(netDebt))
  }

  /** A non-zero prediction opens with |netDebt|, written in decimal without
      leading zeros, and names the owed kind,
      in the plural exactly when more than one is owed; only the plural
      misfortune text adds "(too lucky)". */
  lemma PredictionAnnouncesDebt(netDebt: int)
    ensures netDebt == 0 ==> Prediction(netDebt) == "Life is balanced"
    ensures netDebt != 0 ==> LeadingNumber(Prediction(netDebt)) == Abs(netDebt)
    ensures netDebt != 0 ==> DigitPrefix(Prediction(netDebt)) == Decimal(Abs(netDebt)) && Prediction(netDebt)[0] != '0'
    ensures netDebt > 0 ==>
      Wording(Prediction(netDebt)) == if netDebt > 1 then " good fortunes predicted" else " good fortune predicted"
    ensures netDebt < 0 ==>
      Wording(Prediction(netDebt)) == if netDebt < -1 then " misfortunes predicted (too lucky)" else " misfortune predicted"
  {
    if netDebt != 0 {
      var n := Abs(netDebt);
      var rest := if netDebt > 0 then (if n > 1 then " good fortunes predicted" else " good fortune predicted")
                  else (if n > 1 then " misfortunes predicted (too lucky)" else " misfortune predicted");
      if n == 1 {
        assert Decimal(1) == "1";
      }
      assert Prediction(netDebt) == Decimal(n) + rest;
      LeadingNumberOfDecimal(n, rest);
    }
  }

  lemma CountsOfPair(a: Event, b: Event, k: EventType)
    ensures CountKind([a, b], k) == (if a.kind == k then 1 else 0) + (if b.kind == k then 1 else 0)
  {
    CountKindAppend([], a, k);
    CountKindAppend([a], b, k);
    assert [] + [a] == [a];
    assert [a] + [b] == [a, b];
  }

  /** The worked examples of the rule: [M, M] owes a G, [G, G] owes an M,
      [M, M, G, G] is balanced, and the empty log is balanced. */
  lemma DebtExamples(m1: Event, m2: Event, g1: Event, g2: Event)
    requires m1.kind == M && m2.kind == M && g1.kind == G && g2.kind == G
    ensures CalculateDebt([]) == DebtState(0, 0, 0, Balanced, "Life is balanced")
    ensures CalculateDebt([m1, m2]) == DebtState(1, 0, 1, NeedG, "1 good fortune predicted")
    ensures CalculateDebt([g1, g2]) == DebtState(0, 1, -1, NeedM, "1 misfortune predicted")
    ensures CalculateDebt([m1, m2, g1, g2]) == DebtState(1, 1, 0, Balanced, "Life is balanced")
  {
    CountsOfPair(m1, m2, M);
    CountsOfPair(m1, m2, G);
    CountsOfPair(g1, g2, M);
    CountsOfPair(g1, g2, G);
    assert [m1, m2] + [g1, g2] == [m1, m2, g1, g2];
    FilterConcat([m1, m2], [g1, g2], IsKind(M));
    FilterConcat([m1, m2], [g1, g2], IsKind(G));
  }

  /** Debt moves only on every second event of a kind: one more event of
      kind k shifts the net debt by one (up for M, down for G) exactly when
      the log already held an odd number of k events, and not at all otherwise. */
  lemma DebtHysteresis(events: seq<Event>, e: Event)
    ensures CalculateDebt(events + [e]).netDebt
      == CalculateDebt(events).netDebt
         + (if CountKind(events, e.kind) % 2 == 0 then 0 else if e.kind == M then 1 else -1)
  {
    CountKindAppend(events, e, M);
    CountKindAppend(events, e, G);
  }

  /** The kind of event a non-balanced debt predicts. */
  function Owed(status: DebtStatus): EventType
    requires status != Balanced
  {
    if status == NeedG then G else M
  }

  /** Logging `kind` goes against the forecast `status`. */
  predicate ViolatesDebt(status: DebtStatus, kind: EventType)
    ensures ViolatesDebt(status, kind) <==> status != Balanced && kind != Owed(status)
  {
    (status == NeedG && kind == M) || (status == NeedM && kind == G)
  }

  /** Logging against the forecast never shrinks the debt; logging the
      predicted kind never grows it. */
  lemma ViolationWidensDebt(events: seq<Event>, e: Event)
    ensures var before := CalculateDebt(events); var after := CalculateDebt(events + [e]);
      ViolatesDebt(before.status, e.kind) ==> Abs(after.netDebt) >= Abs(before.netDebt)
    ensures var before := CalculateDebt(events); var after := CalculateDebt(events + [e]);
      before.status != Balanced && !ViolatesDebt(before.status, e.kind) ==> Abs(after.netDebt) <= Abs(before.netDebt)
  {
    DebtHysteresis(events, e);
  }

  // ===== Direct balance =====

  /** The signed value an event adds to the balance. */
  function Signed(e: Event): int
  {
    if e.kind == M then -e.value else e.value
  }

  /** The sum of the events' values, added left to right. */
  function SumValues(events: seq<Event>): int
    decreases |events|
  {
    if |events| == 0 then 0 else SumValues(events[..|events| - 1]) + events[|events| - 1].value
  }

  lemma SumValuesAppend(events: seq<Event>, e: Event)
    ensures SumValues(events + [e]) == SumValues(events) + e.value
  {
    assert (events + [e])[..|events|] == events;
  }

  /** `calculateDirectBalance`: the log folded left to right, adding each
      G's value and subtracting each M's. */
  function CalculateDirectBalance(events: seq<Event>): int
    decreases |events|
  {
    if |events| == 0 then 0
    else CalculateDirectBalance(events[..|events| - 1]) + Signed(events[|events| - 1])
  }

  /** The direct balance is the G values' sum minus the M values' sum. */
  lemma {:induction false} DirectBalanceIsGMinusM(events: seq<Event>)
    ensures CalculateDirectBalance(events) == SumValues(Filter(events, IsKind(G))) - SumValues(Filter(events, IsKind(M)))
    decreases |events|
  {
    if |events| > 0 {
      var init := events[..|events| - 1];
      var last := events[|events| - 1];
      DirectBalanceIsGMinusM(init);
      SumValuesAppend(Filter(init, IsKind(G)), last);
      SumValuesAppend(Filter(init, IsKind(M)), last);
    }
  }

  lemma {:induction false} DirectBalanceConcat(a: seq<Event>, b: seq<Event>)
    ensures CalculateDirectBalance(a + b) == CalculateDirectBalance(a) + CalculateDirectBalance(b)
    decreases |b|
  {
    if |b| == 0 {
      assert a + b == a;
    } else {
      assert (a + b)[..|a + b| - 1] == a + b[..|b| - 1];
      DirectBalanceConcat(a, b[..|b| - 1]);
    }
  }

  /** The direct balance does not depend on the order of the log. */
  lemma {:induction false} DirectBalancePermutation(a: seq<Event>, b: seq<Event>)
    requires multiset(a) == multiset(b)
    ensures CalculateDirectBalance(a) == CalculateDirectBalance(b)
    decreases |a|
  {
    if |a| == 0 {
      assert |b| == |multiset(b)| == 0;
    } else {
      var init := a[..|a| - 1];
      var last := a[|a| - 1];
      assert a == init + [last];
      assert last in multiset(b);
      var i :| 0 <= i < |b| && b[i] == last;
      MultisetRemove(a, |a| - 1);
      MultisetRemove(b, i);
      DirectBalancePermutation(init, b[..i] + b[i + 1..]);
      DirectBalanceRemove(b, i);
    }
  }

  /** Taking one event out of the log takes its signed value out of the balance. */
  lemma DirectBalanceRemove(b: seq<Event>, i: nat)
    requires i < |b|
    ensures CalculateDirectBalance(b) == CalculateDirectBalance(b[..i] + b[i + 1..]) + Signed(b[i])
  {
    var before, x, after := b[..i], b[i], b[i + 1..];
    SplitAt(b, i);
    DirectBalanceConcat(before + [x], after);
    DirectBalanceConcat(before, [x]);
    DirectBalanceConcat(before, after);
    DirectBalanceSingle(x);
  }

  lemma DirectBalanceSingle(x: Event)
    ensures CalculateDirectBalance([x]) == Signed(x)
  {
    assert [x][..0] == [];
  }

  // ===== Network effect =====

  /** A G event whose shared-with list names `id`. */
  function SharesWith(id: string): Event -> bool
  {
    (e: Event) => e.kind == G && id in e.sharedWith
  }

  /** Reference definition: the summed value of the G events shared with `id`. */
  function SharedValue(events: seq<Event>, id: string): int
    decreases |events|
  {
    if |events| == 0 then 0
    else
      var last := events[|events| - 1];
      SharedValue(events[..|events| - 1], id) + (if last.kind == G && id in last.sharedWith then last.value else 0)
  }

  /** Reference definition: the ids of the G events shared with `id`, in log order. */
  function SharedIds(events: seq<Event>, id: string): seq<string>
    decreases |events|
  {
    if |events| == 0 then []
    else
      var last := events[|events| - 1];
      SharedIds(events[..|events| - 1], id) + (if last.kind == G && id in last.sharedWith then [last.id] else [])
  }

  lemma {:induction false} SharedMatches(events: seq<Event>, id: string)
    ensures SumValues(Filter(events, SharesWith(id))) == SharedValue(events, id)
    ensures Map(Filter(events, SharesWith(id)), EventKey) == SharedIds(events, id)
    decreases |events|
  {
    if |events| > 0 {
      var init := events[..|events| - 1];
      var last := events[|events| - 1];
      SharedMatches(init, id);
      var kept := Filter(init, SharesWith(id));
      if SharesWith(id)(last) {
        assert Filter(events, SharesWith(id)) == kept + [last];
        SumValuesAppend(kept, last);
        MapAppend(kept, last, EventKey);
      } else {
        assert Filter(events, SharesWith(id)) == kept;
      }
    }
  }

  /** Reference definition of one friend's entry: the friend's id and name,
      rho times the value of the G events shared with the friend, and those
      events' ids in log order. */
  function Contribution(events: seq<Event>, f: Friend): FriendContribution
  {
    FriendContribution(f.id, f.name, Share(events, f), SharedIds(events, f.id))
  }

  /** Reference definition: rho times the value of the G events shared with the friend. */
  function Share(events: seq<Event>, f: Friend): real
  {
    f.rho * SharedValue(events, f.id) as real
  }

  function ContributionOf(events: seq<Event>): Friend -> FriendContribution
  {
    (f: Friend) => Contribution(events, f)
  }

  /** The sum of the contributions in a breakdown. */
  function SumContributions(breakdown: seq<FriendContribution>): real
    decreases |breakdown|
  {
    if |breakdown| == 0 then 0.0 else breakdown[0].contribution + SumContributions(breakdown[1..])
  }

  /** Reference definition: the sum over the friends of rho times the value shared with them. */
  function PerFriend(events: seq<Event>, friends: seq<Friend>): real
    decreases |friends|
  {
    if |friends| == 0 then 0.0
    else Share(events, friends[0]) + PerFriend(events, friends[1..])
  }

  lemma {:induction false} BreakdownSum(events: seq<Event>, friends: seq<Friend>)
    ensures SumContributions(Map(friends, ContributionOf(events))) == PerFriend(events, friends)
    decreases |friends|
  {
    if |friends| > 0 {
      BreakdownSum(events, friends[1..]);
      assert Map(friends, ContributionOf(events))[1..] == Map(friends[1..], ContributionOf(events));
    }
  }

  /** Reference definition of the network effect: one entry per friend, in
      registry order, and the sum over the friends as total. */
  function NetworkEffectOf(events: seq<Event>, friends: seq<Friend>): NetworkEffect
  {
    NetworkEffect(PerFriend(events, friends), Map(friends, ContributionOf(events)))
  }

  /** `calculateNetworkEffect`: for each friend in registry order, filter the
      G events shared with the friend, sum their values, scale the sum by
      rho and list the events' ids; then total the contributions. The
      result has exactly one entry per friend, copying its id and name. */
  method CalculateNetworkEffect(events: seq<Event>, friends: seq<Friend>) returns (r: NetworkEffect)
    ensures |r.breakdown| == |friends|
    ensures forall i :: 0 <= i < |friends| ==> r.breakdown[i] == Contribution(events, friends[i])
    ensures r.total == SumContributions(r.breakdown) && r.total == PerFriend(events, friends)
    ensures r == NetworkEffectOf(events, friends)
  {
    var breakdown: seq<FriendContribution> := [];
    var i := 0;
    while i < |friends|
      invariant 0 <= i <= |friends|
      invariant |breakdown| == i
      invariant forall k :: 0 <= k < i ==> breakdown[k] == Contribution(events, friends[k])
    {
      var friend := friends[i];
      var sharedEvents := Filter(events, SharesWith(friend.id));
      var totalSharedValue := SumValues(sharedEvents);
      var contribution := friend.rho * totalSharedValue as real;
      var entry := FriendContribution(friend.id, friend.name, contribution, Map(sharedEvents, EventKey));
      SharedMatches(events, friend.id);
      EntryMatches(events, friend, totalSharedValue, Map(sharedEvents, EventKey));
      breakdown := breakdown + [entry];
      i := i + 1;
    }
    ReferenceEntries(events, friends, breakdown);
    r := NetworkEffect(SumContributions(breakdown), breakdown);
  }

  /** An entry built from the friend's shared value and shared ids is the reference entry. */
  lemma EntryMatches(events: seq<Event>, f: Friend, total: int, ids: seq<string>)
    requires total == SharedValue(events, f.id) && ids == SharedIds(events, f.id)
    ensures FriendContribution(f.id, f.name, f.rho * total as real, ids) == Contribution(events, f)
  {
    ScaleEqual(f.rho, total, SharedValue(events, f.id));
  }

  lemma ScaleEqual(rho: real, x: int, y: int)
    requires x == y
    ensures rho * x as real == rho * y as real
  {
  }

  /** Entries that agree with the reference one friend at a time make up
      the reference network effect. */
  lemma ReferenceEntries(events: seq<Event>, friends: seq<Friend>, breakdown: seq<FriendContribution>)
    requires |breakdown| == |friends|
    requires forall k :: 0 <= k < |friends| ==> breakdown[k] == Contribution(events, friends[k])
    ensures SumContributions(breakdown) == PerFriend(events, friends)
    ensures NetworkEffect(SumContributions(breakdown), breakdown) == NetworkEffectOf(events, friends)
  {
    var reference := Map(friends, ContributionOf(events));
    assert breakdown == reference by {
      forall k | 0 <= k < |friends|
        ensures breakdown[k] == reference[k]
      {
        assert reference[k] == ContributionOf(events)(friends[k]);
      }
    }
    BreakdownSum(events, friends);
  }

  lemma SharedAppend(events: seq<Event>, e: Event, id: string)
    ensures SharedValue(events + [e], id)
      == SharedValue(events, id) + (if e.kind == G && id in e.sharedWith then e.value else 0)
    ensures SharedIds(events + [e], id)
      == SharedIds(events, id) + (if e.kind == G && id in e.sharedWith then [e.id] else [])
  {
    assert (events + [e])[..|events|] == events;
  }

  lemma Distribute(rho: real, a: int, b: int)
    ensures rho * (a + b) as real == rho * a as real + rho * b as real
  {
  }

  /** Adding an event adds rho times its value to the entry of every friend
      it is shared with when it is a G, and changes no other entry. */
  lemma ContributionAppend(events: seq<Event>, e: Event, f: Friend)
    ensures Contribution(events + [e], f).contribution
      == Contribution(events, f).contribution + f.rho * (if e.kind == G && f.id in e.sharedWith then e.value else 0) as real
  {
    SharedAppend(events, e, f.id);
    Distribute(f.rho, SharedValue(events, f.id), if e.kind == G && f.id in e.sharedWith then e.value else 0);
  }

  /** The event ids of a friend's entry follow log order: adding a G event
      shared with the friend puts its id at the end. */
  lemma EventIdsAppend(events: seq<Event>, e: Event, f: Friend)
    ensures Contribution(events + [e], f).eventIds
      == Contribution(events, f).eventIds + (if e.kind == G && f.id in e.sharedWith then [e.id] else [])
  {
    SharedAppend(events, e, f.id);
  }

  /** Logs that give every friend the same entry give the same network effect. */
  lemma SameContributionsSameEffect(a: seq<Event>, b: seq<Event>, friends: seq<Friend>)
    requires forall f: Friend :: Contribution(a, f) == Contribution(b, f)
    ensures NetworkEffectOf(a, friends) == NetworkEffectOf(b, friends)
  {
    assert Map(friends, ContributionOf(a)) == Map(friends, ContributionOf(b));
    BreakdownSum(a, friends);
    BreakdownSum(b, friends);
  }

  /** An M event never contributes, whatever its `sharedWith` holds. */
  lemma MEventNeverContributes(events: seq<Event>, friends: seq<Friend>, e: Event)
    requires e.kind == M
    ensures NetworkEffectOf(events + [e], friends) == NetworkEffectOf(events, friends)
  {
    forall f: Friend
      ensures Contribution(events + [e], f) == Contribution(events, f)
    {
      SharedAppend(events, e, f.id);
    }
    SameContributionsSameEffect(events + [e], events, friends);
  }

  /** Events that differ only in how `sharedWith` lists the same ids. */
  ghost predicate SameSharing(a: Event, b: Event)
  {
    && a.id == b.id && a.kind == b.kind && a.value == b.value
    && (forall x :: x in a.sharedWith <==> x in b.sharedWith)
  }

  lemma {:induction false} SameSharingSameShares(a: seq<Event>, b: seq<Event>, id: string)
    requires |a| == |b| && forall i :: 0 <= i < |a| ==> SameSharing(a[i], b[i])
    ensures SharedValue(a, id) == SharedValue(b, id) && SharedIds(a, id) == SharedIds(b, id)
    decreases |a|
  {
    if |a| > 0 {
      SameSharingSameShares(a[..|a| - 1], b[..|b| - 1], id);
    }
  }

  /** An event counts at most once per friend: repeating an id in
      `sharedWith`, or reordering it, changes nothing. */
  lemma SharingIsASet(a: seq<Event>, b: seq<Event>, friends: seq<Friend>)
    requires |a| == |b| && forall i :: 0 <= i < |a| ==> SameSharing(a[i], b[i])
    ensures NetworkEffectOf(a, friends) == NetworkEffectOf(b, friends)
  {
    forall f: Friend
      ensures Contribution(a, f) == Contribution(b, f)
    {
      SameSharingSameShares(a, b, f.id);
    }
    SameContributionsSameEffect(a, b, friends);
  }

  /** The worked example: a friend with rho 0.5 sharing two G events of
      values 10 and 20 contributes 15. */
  lemma NetworkExample(f: Friend, e1: Event, e2: Event)
    requires f.rho == 0.5
    requires e1.kind == G && e1.value == 10 && e1.sharedWith == [f.id]
    requires e2.kind == G && e2.value == 20 && e2.sharedWith == [f.id]
    ensures NetworkEffectOf([e1, e2], [f])
      == NetworkEffect(15.0, [FriendContribution(f.id, f.name, 15.0, [e1.id, e2.id])])
  {
    SharedAppend([], e1, f.id);
    SharedAppend([e1], e2, f.id);
    assert [] + [e1] == [e1];
    assert [e1] + [e2] == [e1, e2];
    assert Contribution([e1, e2], f) == FriendContribution(f.id, f.name, 15.0, [e1.id, e2.id]);
    assert [f][1..] == [];
    assert PerFriend([e1, e2], [f]) == 0.5 * 30 as real + PerFriend([e1, e2], []);
  }

  // ===== Network multiplier =====

  /** The sum of the coefficients, added left to right. */
  function SumCoefficients(friends: seq<Friend>): (s: real)
    ensures (forall i :: 0 <= i < |friends| ==> friends[i].rho >= 0.0) ==> s >= 0.0
    ensures (forall i :: 0 <= i < |friends| ==> DocumentedCoefficient(friends[i].rho))
      ==> 0.1 * |friends| as real <= s <= |friends| as real
    decreases |friends|
  {
    if |friends| == 0 then 0.0
    else SumCoefficients(friends[..|friends| - 1]) + friends[|friends| - 1].rho
  }

  /** The theoretical maximum amplification 1 + sum of rho; it depends on the
      registry only. With non-negative coefficients it is at least 1, and with
      documented ones it lies between 1 + 0.1 n and 1 + n for n friends. */
  function CalculateNetworkMultiplier(friends: seq<Friend>): (m: real)
    ensures (forall i :: 0 <= i < |friends| ==> friends[i].rho >= 0.0) ==> m >= 1.0
    ensures (forall i :: 0 <= i < |friends| ==> DocumentedCoefficient(friends[i].rho))
      ==> 1.0 + 0.1 * |friends| as real <= m <= 1.0 + |friends| as real
  {
    1.0 + SumCoefficients(friends)
  }

  /** Adding a friend raises the multiplier by exactly that friend's rho,
      as in the worked example 1 + 0.2 + 0.3 + 0.5 = 2.0. */
  lemma MultiplierAppend(friends: seq<Friend>, f: Friend)
    ensures CalculateNetworkMultiplier(friends + [f]) == CalculateNetworkMultiplier(friends) + f.rho
    ensures CalculateNetworkMultiplier([]) == 1.0
  {
    assert (friends + [f])[..|friends|] == friends;
  }

  lemma MultiplierExample(a: Friend, b: Friend, c: Friend)
    requires a.rho == 0.2 && b.rho == 0.3 && c.rho == 0.5
    ensures CalculateNetworkMultiplier([a, b, c]) == 2.0
  {
    MultiplierAppend([], a);
    MultiplierAppend([a], b);
    MultiplierAppend([a, b], c);
    assert [] + [a] == [a];
    assert [a] + [b] == [a, b];
    assert [a, b] + [c] == [a, b, c];
  }

  // ===== Ratio =====

  const TooLuckyWarning := "Blimey, you lucky bastard! I CANT HAVE THAT!"
  const TooUnluckyWarning := "Damn.. I am sorry to hear that."
  const HangInThereWarning := "Something good might happen! Hang in there."
  const EnjoyLuckWarning := "Have fun while your good fortune lasts."
  const NoGoodFortuneWarning := "You have many misfortunes without any good fortune yet!"

  /** The health bands of a finite ratio, checked in the source's order. */
  function Bands(ratio: real): (r: (bool, Option<string>))
  {
    if ratio < 1.0 then (false, Some(TooLuckyWarning))
    else if ratio > 3.0 then (false, Some(TooUnluckyWarning))
    else if ratio > 2.5 then (true, Some(HangInThereWarning))
    else if ratio < 1.5 then (true, Some(EnjoyLuckWarning))
    else (true, None)
  }

  /** The M/G ratio health. The empty log is healthy at ratio 0; a log with
      no G has an infinite ratio and is healthy while it holds at most two
      M's; otherwise the ratio M/G is healthy within [1, 3] and raises no
      warning within [1.5, 2.5]. The target is always 2. */
  function CalculateRatio(events: seq<Event>): (r: RatioStatus)
    ensures r.theoreticalRatio == TheoreticalRatio
    ensures |events| == 0 ==> r.ratio == Finite(0.0) && r.isHealthy && r.warning == None
    ensures |events| > 0 && CountKind(events, G) == 0 ==>
      && r.ratio == Infinite
      && (r.isHealthy <==> CountKind(events, M) <= 2)
      && (r.warning.Some? <==> CountKind(events, M) > 2)
    ensures CountKind(events, G) > 0 ==>
      && r.ratio == Finite(CountKind(events, M) as real / CountKind(events, G) as real)
      && (r.isHealthy <==> 1.0 <= r.ratio.value <= 3.0)
      && (r.warning == None <==> 1.5 <= r.ratio.value <= 2.5)
    ensures CountKind(events, G) > 0 && r.ratio.value < 1.0 ==> r.warning == Some(TooLuckyWarning)
    ensures CountKind(events, G) > 0 && r.ratio.value > 3.0 ==> r.warning == Some(TooUnluckyWarning)
    ensures CountKind(events, G) > 0 && 2.5 < r.ratio.value <= 3.0 ==> r.warning == Some(HangInThereWarning)
    ensures CountKind(events, G) > 0 && 1.0 <= r.ratio.value < 1.5 ==> r.warning == Some(EnjoyLuckWarning)
    ensures CountKind(events, G) == 0 && CountKind(events, M) > 2 ==> r.warning == Some(NoGoodFortuneWarning)
  {
    var mCount := CountKind(events, M);
    var gCount := CountKind(events, G);
    CountsPartition(events);
    if |events| == 0 then
      RatioStatus(Finite(0.0), TheoreticalRatio, true, None)
    else if gCount == 0 then
      RatioStatus(if mCount > 0 then Infinite else Finite(0.0), TheoreticalRatio, mCount <= 2,
                  if mCount > 2 then Some(NoGoodFortuneWarning) else None)
    else
      var ratio := mCount as real / gCount as real;
      var (isHealthy, warning) := Bands(ratio);
      RatioStatus(Finite(ratio), TheoreticalRatio, isHealthy, warning)
  }

  /** The bands in whole numbers: with g > 0 G's and m M's the log is
      healthy iff g <= m <= 3g, and warning-free iff 3g <= 2m <= 5g; so
      exactly twice as many M's as G's is healthy and warning-free. */
  lemma RatioBandsInCounts(events: seq<Event>)
    requires CountKind(events, G) > 0
    ensures var m := CountKind(events, M); var g := CountKind(events, G);
      && (CalculateRatio(events).isHealthy <==> g <= m <= 3 * g)
      && (CalculateRatio(events).warning == None <==> 3 * g <= 2 * m <= 5 * g)
      && (m == 2 * g ==> CalculateRatio(events).isHealthy && CalculateRatio(events).warning == None)
  {
    var m := CountKind(events, M);
    var g := CountKind(events, G);
    RatioAgainst(m, g, 1.0);
    RatioAgainst(m, g, 3.0);
    RatioAgainst(m, g, 1.5);
    RatioAgainst(m, g, 2.5);
  }

  /** Comparing m / g with a bound c is comparing m with c * g. */
  lemma RatioAgainst(m: nat, g: nat, c: real)
    requires g > 0
    ensures m as real / g as real <= c <==> m as real <= c * g as real
    ensures m as real / g as real >= c <==> m as real >= c * g as real
  {
    var q := m as real / g as real;
    assert q * g as real == m as real;
    assert (c - q) * g as real == c * g as real - m as real;
  }

  // ===== Summary =====

  datatype StateSummary = StateSummary(
    directBalance: int,
    networkEffect: real,
    totalBalance: real,
    debt: DebtState,
    ratio: RatioStatus)

  lemma {:induction false} NoSharedValueWithoutG(events: seq<Event>, id: string)
    requires forall i :: 0 <= i < |events| ==> events[i].kind == M
    ensures SharedValue(events, id) == 0
    decreases |events|
  {
    if |events| > 0 {
      NoSharedValueWithoutG(events[..|events| - 1], id);
    }
  }

  lemma {:induction false} NoNetworkWithoutG(events: seq<Event>, friends: seq<Friend>)
    ensures (forall i :: 0 <= i < |events| ==> events[i].kind == M) ==> PerFriend(events, friends) == 0.0
    decreases |friends|
  {
    if |friends| > 0 && forall i :: 0 <= i < |events| ==> events[i].kind == M {
      NoSharedValueWithoutG(events, friends[0].id);
      NoNetworkWithoutG(events, friends[1..]);
    }
  }

  /** `getStateSummary`: the total balance is the direct balance plus the
      network total, and it equals the direct balance when no friend is
      registered or no G has been logged. */
  method GetStateSummary(events: seq<Event>, friends: seq<Friend>) returns (r: StateSummary)
    ensures r.totalBalance == r.directBalance as real + r.networkEffect
    ensures r.directBalance == SumValues(Filter(events, IsKind(G))) - SumValues(Filter(events, IsKind(M)))
    ensures r.networkEffect == PerFriend(events, friends)
    ensures |friends| == 0 ==> r.totalBalance == r.directBalance as real
    ensures (forall i :: 0 <= i < |events| ==> events[i].kind == M) ==> r.totalBalance == r.directBalance as real
    ensures r.debt == CalculateDebt(events) && r.ratio == CalculateRatio(events)
  {
    var directBalance := CalculateDirectBalance(events);
    DirectBalanceIsGMinusM(events);
    var network := CalculateNetworkEffect(events, friends);
    NoNetworkWithoutG(events, friends);
    r := StateSummary(directBalance, network.total, directBalance as real + network.total,
                      CalculateDebt(events), CalculateRatio(events));
  }
}
