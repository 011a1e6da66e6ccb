/**
 * The cumulative chart series: one point before any event, then one point
 * per event carrying the running direct balance and the running direct
 * balance plus network boost.
 */
module LifeGraph {
  import opened Types
  import opened Sequences
  import opened Calculations

  /** A point of the series; `eventType` is absent at the origin. */
  datatype ChartPoint = ChartPoint(index: nat, direct: int, network: real, eventType: Option<EventType>)

  const Origin := ChartPoint(0, 0, 0.0, None)

  /** One shared id's part of an event's boost: the first friend with that
      id, times the event's value; nothing when no friend has the id. */
  function IdBoost(friends: seq<Friend>, id: string, value: int): real
  {
    var found := Find(friends, HasId(id));
    if found.Some? then found.value.rho * value as real else 0.0
  }

  /** The boost summed over a list of shared ids. */
  function SumBoost(friends: seq<Friend>, ids: seq<string>, value: int): real
    decreases |ids|
  {
    if |ids| == 0 then 0.0 else IdBoost(friends, ids[0], value) + SumBoost(friends, ids[1..], value)
  }

  /** What one event adds to the network line: only a G shared with at least one id adds anything. */
  function EventBoost(friends: seq<Friend>, e: Event): real
  {
    if e.kind == G && |e.sharedWith| > 0 then SumBoost(friends, e.sharedWith, e.value) else 0.0
  }

  /** The boost accumulated over a log, event by event. */
  function CumulativeBoost(events: seq<Event>, friends: seq<Friend>): real
    decreases |events|
  {
    if |events| == 0 then 0.0
    else CumulativeBoost(events[..|events| - 1], friends) + EventBoost(friends, events[|events| - 1])
  }

  /** The point after the first `k` events. */
  function Point(events: seq<Event>, friends: seq<Friend>, k: nat): ChartPoint
    requires k <= |events|
  {
    var direct := CalculateDirectBalance(events[..k]);
    ChartPoint(k, direct, direct as real + CumulativeBoost(events[..k], friends),
               if k == 0 then None else Some(events[k - 1].kind))
  }

  /** One more event adds its signed value to the direct line and its boost to the gap. */
  lemma ChartStep(events: seq<Event>, friends: seq<Friend>, k: nat)
    requires k < |events|
    ensures CalculateDirectBalance(events[..k + 1]) == CalculateDirectBalance(events[..k]) + Signed(events[k])
    ensures CumulativeBoost(events[..k + 1], friends) == CumulativeBoost(events[..k], friends) + EventBoost(friends, events[k])
  {
    assert events[..k + 1][..k] == events[..k];
  }

  /** The series: |events| + 1 points; point k has index k, the kind of
      event k - 1, the direct balance of the first k events, and on top of
      it the boost of the first k events. The last point's direct balance
      is the log's direct balance. */
  method ChartData(events: seq<Event>, friends: seq<Friend>) returns (data: seq<ChartPoint>)
    ensures |data| == |events| + 1 && data[0] == Origin
    ensures forall k :: 1 <= k <= |events| ==> data[k].index == k && data[k].eventType == Some(events[k - 1].kind)
    ensures forall k :: 0 <= k <= |events| ==> data[k].direct == CalculateDirectBalance(events[..k])
    ensures forall k :: 0 <= k <= |events| ==> data[k].network == data[k].direct as real + CumulativeBoost(events[..k], friends)
    ensures data[|events|].direct == CalculateDirectBalance(events)
  {
    var directBalance := 0;
    var totalNetworkBoost := 0.0;
    data := [Origin];
    assert events[..0] == [];
    var idx := 0;
    while idx < |events|
      invariant 0 <= idx <= |events|
      invariant |data| == idx + 1
      invariant directBalance == CalculateDirectBalance(events[..idx])
      invariant totalNetworkBoost == CumulativeBoost(events[..idx], friends)
      invariant forall k :: 0 <= k <= idx ==> data[k] == Point(events, friends, k)
    {
      var event := events[idx];
      ChartStep(events, friends, idx);
      var value := if event.kind == M then -event.value else event.value;
      directBalance := directBalance + value;
      if event.kind == G && |event.sharedWith| > 0 {
        totalNetworkBoost := totalNetworkBoost + SumBoost(friends, event.sharedWith, event.value);
      }
      var point := ChartPoint(idx + 1, directBalance, directBalance as real + totalNetworkBoost, Some(event.kind));
      assert point == Point(events, friends, idx + 1);
      data := data + [point];
      idx := idx + 1;
    }
    forall k | 0 <= k <= |events|
      ensures data[k].index == k && data[k].direct == CalculateDirectBalance(events[..k])
      ensures data[k].network == data[k].direct as real + CumulativeBoost(events[..k], friends)
      ensures 1 <= k ==> data[k].eventType == Some(events[k - 1].kind)
    {
      assert data[k] == Point(events, friends, k);
    }
    assert events[..|events|] == events;
  }

  // ===== Agreement with the network effect =====

  /** Reference definition: the sum over the friends of rho times `value`
      for every friend whose id is listed in `ids`. */
  function ListedBoost(friends: seq<Friend>, ids: seq<string>, value: int): real
    decreases |friends|
  {
    if |friends| == 0 then 0.0
    else (if friends[0].id in ids then friends[0].rho * value as real else 0.0) + ListedBoost(friends[1..], ids, value)
  }

  lemma {:induction false} ListedNone(friends: seq<Friend>, ids: seq<string>, value: int)
    requires forall i :: 0 <= i < |friends| ==> friends[i].id !in ids
    ensures ListedBoost(friends, ids, value) == 0.0
    decreases |friends|
  {
    if |friends| > 0 {
      ListedNone(friends[1..], ids, value);
    }
  }

  /** With duplicate-free friend ids, the friends listed under one id add
      up to that id's boost. */
  lemma {:induction false} ListedSingle(friends: seq<Friend>, id: string, value: int)
    requires Distinct(Map(friends, FriendKey))
    ensures ListedBoost(friends, [id], value) == IdBoost(friends, id, value)
    decreases |friends|
  {
    if |friends| > 0 {
      var tail := friends[1..];
      if friends[0].id == id {
        forall i | 0 <= i < |tail|
          ensures tail[i].id !in [id]
        {
          DistinctKeys(friends, FriendKey, 0, i + 1);
        }
        ListedNone(tail, [id], value);
      } else {
        DistinctKeysTail(friends, FriendKey);
        ListedSingle(tail, id, value);
        assert Find(friends, HasId(id)) == Find(tail, HasId(id));
      }
    }
  }

  /** Listing a new id in front adds that id's part. */
  lemma {:induction false} ListedSplit(friends: seq<Friend>, x: string, rest: seq<string>, value: int)
    requires x !in rest
    ensures ListedBoost(friends, [x] + rest, value) == ListedBoost(friends, [x], value) + ListedBoost(friends, rest, value)
    decreases |friends|
  {
    if |friends| > 0 {
      ListedSplit(friends[1..], x, rest, value);
    }
  }

  /** With duplicate-free friend ids and a duplicate-free id list, summing
      over the ids is summing over the friends they list. */
  lemma {:induction false} SumBoostIsListed(friends: seq<Friend>, ids: seq<string>, value: int)
    requires Distinct(Map(friends, FriendKey)) && Distinct(ids)
    ensures SumBoost(friends, ids, value) == ListedBoost(friends, ids, value)
    decreases |ids|
  {
    if |ids| == 0 {
      ListedNone(friends, ids, value);
    } else {
      var rest := ids[1..];
      assert ids == [ids[0]] + rest;
      assert ids[0] !in rest by {
        forall i | 0 <= i < |rest|
          ensures rest[i] != ids[0]
        {
          assert rest[i] == ids[i + 1];
        }
      }
      assert Distinct(rest) by {
        forall i, j | 0 <= i < j < |rest|
          ensures rest[i] != rest[j]
        {
          assert rest[i] == ids[i + 1] && rest[j] == ids[j + 1];
        }
      }
      SumBoostIsListed(friends, rest, value);
      ListedSplit(friends, ids[0], rest, value);
      ListedSingle(friends, ids[0], value);
    }
  }

  /** Adding one event adds the listed boost of its friends to the network total. */
  lemma PerFriendAppend(events: seq<Event>, e: Event, friends: seq<Friend>)
    ensures PerFriend(events + [e], friends)
      == PerFriend(events, friends) + (if e.kind == G then ListedBoost(friends, e.sharedWith, e.value) else 0.0)
  {
    if e.kind == G {
      PerFriendAppendG(events, e, friends);
    } else {
      PerFriendAppendM(events, e, friends);
    }
  }

  lemma PerFriendAppendG(events: seq<Event>, e: Event, friends: seq<Friend>)
    requires e.kind == G
    ensures PerFriend(events + [e], friends) == PerFriend(events, friends) + ListedBoost(friends, e.sharedWith, e.value)
  {
    forall id: string
      ensures SharedValue(events + [e], id) == SharedValue(events, id) + (if id in e.sharedWith then e.value else 0)
    {
      SharedAppend(events, e, id);
    }
    PerFriendGain(events, events + [e], e.sharedWith, e.value, friends);
  }

  /** When a second log adds `v` to the shared value of exactly the listed
      ids, its network total adds the listed boost. */
  lemma {:induction false} PerFriendGain(a: seq<Event>, b: seq<Event>, ids: seq<string>, v: int, friends: seq<Friend>)
    requires forall id: string :: SharedValue(b, id) == SharedValue(a, id) + (if id in ids then v else 0)
    ensures PerFriend(b, friends) == PerFriend(a, friends) + ListedBoost(friends, ids, v)
    decreases |friends|
  {
    if |friends| > 0 {
      PerFriendGain(a, b, ids, v, friends[1..]);
      var f := friends[0];
      if f.id in ids {
        ShareGrows(a, b, f, v);
      } else {
        ShareGrows(a, b, f, 0);
      }
      GainListed(a, b, ids, v, friends);
    }
  }

  /** The first friend's step of `PerFriendGain`: its share grows by rho
      times `v` when it is listed and stays put otherwise. */
  lemma GainListed(a: seq<Event>, b: seq<Event>, ids: seq<string>, v: int, friends: seq<Friend>)
    requires |friends| > 0
    requires Share(b, friends[0]) == Share(a, friends[0]) + (if friends[0].id in ids then friends[0].rho * v as real else 0.0)
    requires PerFriend(b, friends[1..]) == PerFriend(a, friends[1..]) + ListedBoost(friends[1..], ids, v)
    ensures PerFriend(b, friends) == PerFriend(a, friends) + ListedBoost(friends, ids, v)
  {
  }

  /** A friend's share grows by rho times `d` when the shared value grows by `d`. */
  lemma ShareGrows(a: seq<Event>, b: seq<Event>, f: Friend, d: int)
    requires SharedValue(b, f.id) == SharedValue(a, f.id) + d
    ensures Share(b, f) == Share(a, f) + f.rho * d as real
  {
    Distribute(f.rho, SharedValue(a, f.id), d);
  }

  lemma {:induction false} PerFriendAppendM(events: seq<Event>, e: Event, friends: seq<Friend>)
    requires e.kind == M
    ensures PerFriend(events + [e], friends) == PerFriend(events, friends)
    decreases |friends|
  {
    if |friends| > 0 {
      PerFriendAppendM(events, e, friends[1..]);
      SharedAppend(events, e, friends[0].id);
    }
  }

  /** When friend ids and every event's shared ids are duplicate-free, the
      chart's accumulated boost equals the network total. */
  lemma {:induction false} BoostIsNetworkTotal(events: seq<Event>, friends: seq<Friend>)
    requires Distinct(Map(friends, FriendKey))
    requires forall i :: 0 <= i < |events| ==> Distinct(events[i].sharedWith)
    ensures CumulativeBoost(events, friends) == PerFriend(events, friends)
    decreases |events|
  {
    if |events| == 0 {
      NoNetworkWithoutG(events, friends);
    } else {
      var init := events[..|events| - 1];
      var last := events[|events| - 1];
      assert events == init + [last];
      BoostIsNetworkTotal(init, friends);
      PerFriendAppend(init, last, friends);
      SumBoostIsListed(friends, last.sharedWith, last.value);
      if |last.sharedWith| == 0 {
        ListedNone(friends, last.sharedWith, last.value);
      }
    }
  }

  /** Repeating an id in `sharedWith` counts it twice on the chart, while
      the network effect counts it once. */
  lemma RepeatedIdCountsTwiceOnChart(f: Friend, e: Event)
    requires f.rho == 0.5 && e.kind == G && e.value == 10 && e.sharedWith == [f.id, f.id]
    ensures CumulativeBoost([e], [f]) == 10.0
    ensures PerFriend([e], [f]) == 5.0
  {
    assert [e][..0] == [];
    assert IdBoost([f], f.id, 10) == 5.0;
    assert e.sharedWith[1..][1..] == [];
    assert SumBoost([f], e.sharedWith, 10) == 5.0 + SumBoost([f], [f.id], 10);
    assert EventBoost([f], e) == 10.0;
    SharedAppend([], e, f.id);
    assert [] + [e] == [e];
    assert [f][1..] == [];
    assert PerFriend([e], [f]) == 0.5 * 10 as real + PerFriend([e], []);
  }

  // ===== Monotonicity =====

  lemma {:induction false} SumBoostNonNegative(friends: seq<Friend>, ids: seq<string>, value: int)
    requires forall i :: 0 <= i < |friends| ==> friends[i].rho >= 0.0
    requires value >= 0
    ensures SumBoost(friends, ids, value) >= 0.0
    decreases |ids|
  {
    if |ids| > 0 {
      SumBoostNonNegative(friends, ids[1..], value);
      var found := Find(friends, HasId(ids[0]));
    }
  }

  /** With non-negative coefficients and values, the gap between the network
      line and the direct line never shrinks along the series. */
  lemma {:induction false} BoostMonotone(events: seq<Event>, friends: seq<Friend>, j: nat, k: nat)
    requires forall i :: 0 <= i < |friends| ==> friends[i].rho >= 0.0
    requires forall i :: 0 <= i < |events| ==> events[i].value >= 0
    requires j <= k <= |events|
    ensures CumulativeBoost(events[..j], friends) <= CumulativeBoost(events[..k], friends)
    decreases k - j
  {
    if j < k {
      BoostMonotone(events, friends, j, k - 1);
      assert events[..k][..k - 1] == events[..k - 1];
      SumBoostNonNegative(friends, events[k - 1].sharedWith, events[k - 1].value);
    }
  }
}
