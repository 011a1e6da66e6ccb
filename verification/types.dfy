/**
 * The entities of the life-balance calculator: logged events ("M" for
 * misfortune, "G" for good fortune), friends with a relationship coefficient
 * rho, and the shapes of the derived results.
 */
module Types {
  import opened Sequences

  /** "M" (misfortune) or "G" (good fortune); no other value exists. */
  datatype EventType = M | G

  /** The three debt verdicts: no debt, a good fortune is owed, a misfortune is owed. */
  datatype DebtStatus = Balanced | NeedG | NeedM

  /** A logged life event. `value` is documented as a 1..20 magnitude but not
      checked; `timestamp` is milliseconds since the epoch; `sharedWith` holds
      friend ids. */
  datatype Event = Event(
    id: string,
    kind: EventType,
    value: int,
    description: string,
    timestamp: int,
    sharedWith: seq<string>)

  /** A friend; `rho` is documented as 0.1..1.0 but not checked. */
  datatype Friend = Friend(id: string, name: string, rho: real)

  datatype DebtState = DebtState(
    mDebt: int,
    gDebt: int,
    netDebt: int,
    status: DebtStatus,
    prediction: string)

  /** One friend's share of the network effect. */
  datatype FriendContribution = FriendContribution(
    friendId: string,
    friendName: string,
    contribution: real,
    eventIds: seq<string>)

  datatype NetworkEffect = NetworkEffect(total: real, breakdown: seq<FriendContribution>)

  /** The M/G ratio; JavaScript yields `Infinity` when there are M events but no G. */
  datatype Ratio = Finite(value: real) | Infinite

  datatype RatioStatus = RatioStatus(
    ratio: Ratio,
    theoreticalRatio: real,
    isHealthy: bool,
    warning: Option<string>)

  /** What a caller hands to the store to log an event; `sharedWith` may be absent. */
  datatype AddEventInput = AddEventInput(
    kind: EventType,
    value: int,
    description: string,
    sharedWith: Option<seq<string>>)

  datatype AddFriendInput = AddFriendInput(name: string, rho: real)

  /** The target M/G ratio. */
  const TheoreticalRatio: real := 2.0

  /** The documented range of a relationship coefficient. */
  predicate DocumentedCoefficient(rho: real)
  {
    0.1 <= rho <= 1.0
  }

  function EventKey(e: Event): string
  {
    e.id
  }

  function FriendKey(f: Friend): string
  {
    f.id
  }

  /** The friend carries the id `id`: the test a friend lookup applies. */
  function HasId(id: string): Friend -> bool
  {
    (f: Friend) => f.id == id
  }
}
