# Life balance calculator — a Dafny model

The calculator keeps a log of life events, each a misfortune ("M") or a good
fortune ("G") with a magnitude, and a registry of friends, each with a
relationship coefficient ρ. From these it derives:

- a debt forecast: every two M's owe a G, and every two G's owe an M;
- a direct balance: the G values minus the M values;
- a network effect: each friend adds ρ times the value of the G events shared with them;
- a network multiplier: 1 + Σρ;
- the health of the M/G ratio against the target 2.

This project models that derivation engine, the state container whose
actions append to, filter and clear the two collections, and the logic inside
the user-interface components:

- the event and friend submission guards;
- the friend-selection toggle and select-all;
- the cumulative chart series;
- relative-time labels, friend-name lookup, newest-first ordering and the
  footer counts of the event history.

Most operations are pure functions over immutable datatypes. Three follow the
source's loops as methods: the network effect (`for` over the friends), the
state summary that calls it, and the chart series (`forEach` over the
events). The network effect method is proved equal to a recursive reference
definition, `Calculations.NetworkEffectOf`, and the lemmas about the network
effect are stated over that reference.

Modules, one per file:

| file | module | models |
|---|---|---|
| sequences.dfy | `Sequences` | JavaScript `filter`, `map` and `find`; duplicate-freedom |
| text.dfy | `Text` | `${n}` decimal rendering and reading back, `trim`, `join(", ")` |
| types.dfy | `Types` | the entities of `src/lib/types.ts` |
| calculations.dfy | `Calculations` | `src/lib/calculations.ts` |
| life_balance.dfy | `LifeBalance` | `src/hooks/use-life-balance.ts` |
| event_logger.dfy | `EventLogger` | `src/components/ui/custom/event-logger.tsx` |
| network_panel.dfy | `NetworkPanel` | `src/components/ui/custom/network-panel.tsx` |
| friend_selector.dfy | `FriendSelector` | `src/components/ui/custom/friend-selector.tsx` |
| life_graph.dfy | `LifeGraph` | `src/components/ui/custom/life-graph.tsx` |
| event_list.dfy | `EventList` | `src/components/ui/custom/event-list.tsx` |

Modelling choices:

- ρ, contributions, the multiplier and the ratio are exact `real`s.
- The ratio is `Finite(r) | Infinite`, because the source yields `Infinity`
  when there are M's and no G.
- Fresh ids are `"event_"` or `"friend_"` followed by a counter kept in the
  state. The source builds them from the clock and a random suffix and
  guarantees nothing about them. Uniqueness (`LifeBalance.Issued`) is proved
  only for the counter.
- The clock is a parameter:
  - `now` for a new event's timestamp;
  - the elapsed milliseconds for relative times.
- The confirmation prompt's answer is a parameter of `ClearAll`.
- Stored data is an input to `Load`.
- Console warnings are returned as values.

Loading reads both stored collections inside one `try` block
(`src/hooks/use-life-balance.ts:34-47`). A malformed event log stops the
load before the friend list is parsed, so both collections start empty. A
malformed friend list keeps the events already loaded. A missing entry
leaves its collection empty. `LifeBalance.Load` models this.

## Model

| member | source | states |
|---|---|---|
| Calculations.CountsPartition | src/lib/types.ts:5 | every event is an M or a G, so the M count and the G count add up to the log length |
| Calculations.CalculateDebt | src/lib/calculations.ts:28-61 | mDebt and gDebt are the halved M and G counts rounded down, netDebt is their difference, the status is NEED_G, NEED_M or BALANCED exactly as netDebt is positive, negative or zero, and the prediction is the forecast text for netDebt |
| Calculations.PredictionAnnouncesDebt | src/lib/calculations.ts:42-52 | a non-zero forecast text opens with the number of events owed, in decimal without leading zeros, and names the owed kind, in the plural exactly when more than one is owed; only the plural misfortune text says "(too lucky)"; zero reads "Life is balanced" |
| Calculations.DebtExamples | src/lib/calculations.ts:22-25 | [M, M] owes one G and [G, G] owes one M, each with its forecast text; [M, M, G, G] has one M debt and one G debt, nets to zero and is balanced; the empty log is balanced; balanced logs read "Life is balanced" |
| Calculations.DebtHysteresis | src/lib/calculations.ts:30-37 | one more event of a kind moves the net debt by one (up for M, down for G) exactly when the log held an odd number of that kind, and not at all otherwise |
| Calculations.ViolatesDebt | src/components/ui/custom/event-logger.tsx:30-32 | logging a kind violates the forecast exactly when a kind is owed and it is the other kind |
| Calculations.ViolationWidensDebt | src/hooks/use-life-balance.ts:104-113 | logging against the forecast never shrinks the absolute debt; logging the owed kind never grows it |
| Calculations.DirectBalanceIsGMinusM | src/lib/calculations.ts:72-80 | gives `CalculateDirectBalance` its meaning: the left-to-right signed fold equals the sum of the G values minus the sum of the M values |
| Calculations.DirectBalanceConcat | src/lib/calculations.ts:72-80 | the direct balance of two logs joined is the sum of their direct balances |
| Calculations.DirectBalancePermutation | src/lib/calculations.ts:72-80 | two logs holding the same events in any order have the same direct balance |
| Calculations.SharedMatches | src/lib/calculations.ts:105-117 | the filter, reduce and map of one friend's entry compute the reference sum and id list of the G events shared with that friend |
| Calculations.EntryMatches | src/lib/calculations.ts:105-118 | an entry built from the friend's shared total and shared ids copies the friend's id and name and holds ρ times that total: it is the reference entry |
| Calculations.BreakdownSum | src/lib/calculations.ts:122 | the sum of the breakdown's contributions equals the sum over the friends of ρ times the value shared with them |
| Calculations.CalculateNetworkEffect | src/lib/calculations.ts:96-125 | exactly one entry per friend, in registry order; entry i carries friend i's id and name, ρ times the summed value of the G events shared with that friend, and those events' ids in log order; the total is the sum of the entries' contributions and equals the sum over the friends of ρ times the value shared with them |
| Calculations.SameContributionsSameEffect | src/lib/calculations.ts:103-122 | two logs that give every friend the same entry give the same network effect |
| Calculations.ContributionAppend | src/lib/calculations.ts:105-111 | logging an event adds ρ times its value to the contribution of every friend it is shared with when it is a G, and nothing otherwise |
| Calculations.EventIdsAppend | src/lib/calculations.ts:117 | event ids in an entry follow log order: a newly logged G shared with the friend is listed last |
| Calculations.MEventNeverContributes | src/lib/calculations.ts:105 | logging an M leaves the whole network effect unchanged, whatever its sharedWith holds |
| Calculations.SameSharingSameShares | src/lib/calculations.ts:105 | logs whose events list the same ids in sharedWith, in any order and with any repetition, share the same values and ids with every friend |
| Calculations.SharingIsASet | src/lib/calculations.ts:105-108 | an event counts at most once per friend: repeating or reordering sharedWith ids leaves the network effect unchanged |
| Calculations.NetworkExample | src/lib/calculations.ts:91-93 | a friend with ρ 0.5 sharing G events of values 10 and 20 contributes 15, lists both events in log order, and the total is 15 |
| Calculations.SumCoefficients | src/lib/calculations.ts:136-139 | the coefficient sum is non-negative for non-negative coefficients, and between 0.1 n and n for n documented ones |
| Calculations.CalculateNetworkMultiplier | src/lib/calculations.ts:135-141 | the multiplier is at least 1 for non-negative coefficients, and between 1 + 0.1 n and 1 + n for documented ones; it depends on the registry only |
| Calculations.MultiplierAppend | src/lib/calculations.ts:135-141 | an empty registry gives 1, and adding a friend raises the multiplier by exactly that friend's ρ |
| Calculations.MultiplierExample | src/lib/calculations.ts:131-132 | coefficients 0.2, 0.3 and 0.5 give the multiplier 2.0 |
| Calculations.CalculateRatio | src/lib/calculations.ts:156-208 | the empty log: ratio 0, healthy, no warning; M's without G: infinite, healthy exactly when at most two M's, a warning exactly when more; otherwise the ratio is M/G, healthy exactly within [1, 3] and without warning exactly within [1.5, 2.5], with the "lucky" warning below 1, the "enjoy your luck" warning in [1, 1.5), the "hang in there" warning in (2.5, 3] and the "sorry" warning above 3; more than two M's without G give the "no good fortune" warning; the target is always 2 |
| Calculations.RatioBandsInCounts | src/lib/calculations.ts:182-207 | with g > 0 G's and m M's, healthy exactly when g ≤ m ≤ 3g and warning-free exactly when 3g ≤ 2m ≤ 5g, so twice as many M's as G's is healthy and warning-free |
| Calculations.RatioAgainst | src/lib/calculations.ts:182 | comparing the ratio m/g with a bound c is comparing m with c·g |
| Calculations.NoNetworkWithoutG | src/lib/calculations.ts:105 | a log of M's only gives a network total of zero, whatever the registry |
| Calculations.GetStateSummary | src/lib/calculations.ts:216-239 | the direct balance is the G values' sum minus the M values' sum, the network part is the sum over the friends of ρ times the value shared with them, the total is their sum and equals the direct balance when no friend is registered or no G was logged; debt and ratio are the engine's |
| Text.ParseDecimalInverts | src/lib/calculations.ts:44 | reading a rendered whole number back gives the number |
| Text.DecimalInjective | src/lib/calculations.ts:44 | distinct numbers render as distinct texts |
| Text.Trim | src/components/ui/custom/event-logger.tsx:35 | the trimmed text is a slice with only whitespace around it, it neither starts nor ends with whitespace, and it is empty exactly when the text is all whitespace |
| Text.TrimIdempotent | src/components/ui/custom/event-logger.tsx:42 | trimming a trimmed text changes nothing |
| Text.Join | src/components/ui/custom/event-list.tsx:35 | joining starts with the first part, and is the parts' total length plus two characters per separator |
| Text.JoinAppend | src/components/ui/custom/event-list.tsx:35 | appending a part to a non-empty list adds ", " and the part at the end; appending to an empty list gives the part alone |
| LifeBalance.IdsInjective | src/hooks/use-life-balance.ts:116 | ids made from distinct counter values differ, and an event id never equals a friend id |
| LifeBalance.Load | src/hooks/use-life-balance.ts:33-50 | a parsed collection is loaded as stored, a missing one starts empty, and a corrupt event log leaves both collections empty |
| LifeBalance.DebtWarning | src/hooks/use-life-balance.ts:104-113 | a warning is produced exactly when the new event's kind violates the forecast |
| LifeBalance.AddEvent | src/hooks/use-life-balance.ts:103-125 | exactly one event is appended at the end and the earlier ones are unchanged; kind, value and description are copied verbatim; sharedWith defaults to the empty list; the warning appears exactly when the kind violates the forecast, and the event is appended either way |
| LifeBalance.AddFriend | src/hooks/use-life-balance.ts:130-138 | exactly one friend is appended with name and coefficient copied verbatim; the event log is untouched |
| LifeBalance.AddEventKeepsIssued | src/hooks/use-life-balance.ts:115-124 | adding an event keeps every id unique and below the counter |
| LifeBalance.AddFriendKeepsIssued | src/hooks/use-life-balance.ts:131-137 | adding a friend keeps every id unique and below the counter |
| LifeBalance.RemoveEvent | src/hooks/use-life-balance.ts:150-152 | removing an event never lengthens the log and leaves the registry alone |
| LifeBalance.RemoveEventSpec | src/hooks/use-life-balance.ts:151 | every event with the id is removed and every other one is kept; an absent id changes nothing; removal commutes with concatenation, so survivors keep their order |
| LifeBalance.RemoveEventKeepsIssued | src/hooks/use-life-balance.ts:150-152 | removing an event keeps every id unique and below the counter |
| LifeBalance.RemoveFriend | src/hooks/use-life-balance.ts:143-145 | removing a friend never lengthens the registry and leaves every event, sharedWith included, unchanged |
| LifeBalance.RemoveFriendSpec | src/hooks/use-life-balance.ts:144 | every friend with the id is removed and every other one is kept; an absent id changes nothing; survivors keep their order |
| LifeBalance.RemoveFriendKeepsIssued | src/hooks/use-life-balance.ts:143-145 | removing a friend keeps every id unique and below the counter |
| LifeBalance.RemoveFriendDropsEntry | src/hooks/use-life-balance.ts:143-145 | after removing a friend the network breakdown is the old one without that friend's entry; events still naming the friend are tolerated |
| LifeBalance.ClearAll | src/hooks/use-life-balance.ts:157-170 | a confirmed clear empties both collections; a declined one changes nothing |
| LifeBalance.ClearAllKeepsIssued | src/hooks/use-life-balance.ts:157-170 | a clear, confirmed or declined, keeps every id unique and below the counter |
| LifeBalance.TotalBalance | src/hooks/use-life-balance.ts:90-92 | the container's total balance is the G values' sum, minus the M values' sum, plus every friend's ρ times the value of the G events shared with them |
| LifeBalance.AddMLowersTotal | src/hooks/use-life-balance.ts:90-92 | logging an M lowers the total balance by exactly its value |
| LifeBalance.AddUnsharedGRaisesTotal | src/hooks/use-life-balance.ts:121 | logging a G shared with nobody raises the total balance by exactly its value |
| LifeBalance.AddFriendRaisesMultiplier | src/hooks/use-life-balance.ts:86-88 | adding a friend leaves the direct balance alone and raises the multiplier by its coefficient |
| EventLogger.ToggleFriend | src/components/ui/custom/event-logger.tsx:60-66 | checking a friend toggles that id in the selection and changes no other field; an unchecked id is appended at the end, and a checked one is removed with the others kept in order |
| EventLogger.WouldViolateDebt | src/components/ui/custom/event-logger.tsx:29-32 | the hint is due exactly when a debt is forecast and the selected kind is not the one owed |
| EventLogger.Submit | src/components/ui/custom/event-logger.tsx:34-52 | a whitespace-only description submits nothing and leaves the form; otherwise the input carries the kind, the value, the trimmed non-empty description, the selection for a G and the empty list for an M, and the form resets to value 10 with no description or selection |
| EventLogger.HintMatchesWarning | src/components/ui/custom/event-logger.tsx:29-32 | the form's hint is shown exactly when the container warns about the submitted event, and the event is logged either way |
| EventLogger.SubmittedEvent | src/components/ui/custom/event-logger.tsx:39-44 | an M logged through the form is shared with nobody, a G with the selection, and the description is the trimmed, non-blank text |
| EventLogger.SubmitResets | src/components/ui/custom/event-logger.tsx:46-49 | after a submit the form submits nothing more, and its value is back on the slider |
| NetworkPanel.CoefficientStops | src/components/ui/custom/network-panel.tsx:105-110 | the slider offers ten coefficients from 0.1 to 1.0 in steps of 0.1, all in the documented range |
| NetworkPanel.DefaultOnSlider | src/components/ui/custom/network-panel.tsx:29 | the default coefficient 0.5 is one the slider offers |
| NetworkPanel.Submit | src/components/ui/custom/network-panel.tsx:31-42 | a whitespace-only name submits nothing and leaves the dialog; otherwise the input carries the trimmed name and the coefficient unchanged, and the dialog closes and resets to an empty name and 0.5 |
| NetworkPanel.SubmittedFriend | src/components/ui/custom/network-panel.tsx:34-37 | a friend added through the dialog has a documented coefficient and a name without surrounding whitespace |
| FriendSelector.Toggle | src/components/ui/custom/friend-selector.tsx:20-28 | toggling is symmetric difference on the selected ids: a selected id is removed, every occurrence of it; an unselected one is appended at the end |
| FriendSelector.ToggleOutKeepsOrder | src/components/ui/custom/friend-selector.tsx:21-23 | removing an id that occurs in the first part of a split selection filters the second part on its own, keeping its order |
| FriendSelector.ToggleOutPrefix | src/components/ui/custom/friend-selector.tsx:21-23 | removing an id keeps everything before its first occurrence unchanged and, after it, drops exactly the further occurrences, keeping the others in their order |
| FriendSelector.ToggleTwiceRestores | src/components/ui/custom/friend-selector.tsx:20-28 | toggling an unselected id twice restores the selection |
| FriendSelector.ToggleKeepsDistinct | src/components/ui/custom/friend-selector.tsx:20-28 | toggling never creates a repeated id |
| FriendSelector.SelectAll | src/components/ui/custom/friend-selector.tsx:30-38 | equal lengths deselect everything; otherwise every friend's id is selected, in registry order |
| FriendSelector.SelectAllTwice | src/components/ui/custom/friend-selector.tsx:30-38 | pressing select-all after it selected everyone clears the selection |
| FriendSelector.SelectAllComparesLengthsOnly | src/components/ui/custom/friend-selector.tsx:31 | a selection of the right length that misses a friend is cleared, not completed |
| LifeGraph.ChartData | src/components/ui/custom/life-graph.tsx:23-64 | the series starts at the origin and has one more point than events; point k has index k, the kind of event k - 1, the direct balance of the first k events, and on top of it their accumulated boost; the last direct value is the log's direct balance |
| LifeGraph.SumBoostIsListed | src/components/ui/custom/life-graph.tsx:48-51 | with duplicate-free friend ids and shared ids, summing the boost over the shared ids equals summing ρ times the value over the friends they list |
| LifeGraph.PerFriendAppend | src/lib/calculations.ts:103-122 | logging one event adds to the network total, when it is a G, ρ times its value for every registered friend whose id it lists, and nothing when it is an M |
| LifeGraph.BoostIsNetworkTotal | src/components/ui/custom/life-graph.tsx:46-53 | with duplicate-free friend ids and shared ids, the chart's accumulated boost equals the network total |
| LifeGraph.RepeatedIdCountsTwiceOnChart | src/components/ui/custom/life-graph.tsx:48-51 | a shared id listed twice counts twice on the chart but once in the network effect |
| LifeGraph.BoostMonotone | src/components/ui/custom/life-graph.tsx:52 | with non-negative coefficients and values, the gap between the network and direct lines never shrinks along the series |
| EventList.Bucket | src/components/ui/custom/event-list.tsx:19-27 | less than a minute (or a future timestamp) is just now; under an hour gives whole minutes; under a day whole hours; else whole days, each count rounded down |
| EventList.FormatTimeReads | src/components/ui/custom/event-list.tsx:17-28 | gives `FormatTime` its meaning: "Just now" exactly under a minute; otherwise the text opens with the count, in decimal without leading zeros, and ends with the unit, plural exactly when hours or days exceed one, never for minutes |
| EventList.FriendNames | src/components/ui/custom/event-list.tsx:32-34 | at most one name per id, and no name empty |
| EventList.FriendNamesConcat | src/components/ui/custom/event-list.tsx:32-34 | names follow the order of the ids |
| EventList.FriendNamesAllKnown | src/components/ui/custom/event-list.tsx:33 | every id of a friend with a non-empty name yields that name, one per id, in order |
| EventList.UnknownIdNamesNobody | src/components/ui/custom/event-list.tsx:33-34 | an id no friend has yields no name and an empty text |
| EventList.GetFriendNames | src/components/ui/custom/event-list.tsx:31-36 | the joined text is empty exactly when no listed id names anybody |
| EventList.EmptyNameNamesNobody | src/components/ui/custom/event-list.tsx:33-34 | an id whose friend has an empty name contributes no name, and the joined text is empty |
| EventList.SortNewestFirst | src/components/ui/custom/event-list.tsx:39 | the sorted copy is newest first and holds exactly the log's events |
| EventList.SortStable | src/components/ui/custom/event-list.tsx:39 | events with the same timestamp keep their log order |
| EventList.SortKeepsSorted | src/components/ui/custom/event-list.tsx:39 | a log already newest first comes back unchanged |
| EventList.FooterCounts | src/components/ui/custom/event-list.tsx:149-155 | the M count and the G count add up to the log length, and the shared count is at most the log length |
| EventList.FooterStep | src/components/ui/custom/event-list.tsx:149-155 | an empty log counts zero of each; appending an event adds one to the M count exactly for an M, to the G count exactly for a G, and to the shared count exactly when its shared-with list is non-empty |
| EventList.SharedAmongGood | src/components/ui/custom/event-list.tsx:152-155 | when no M carries friend ids, the shared events are among the good fortunes |
| EventList.SharedMCounted | src/components/ui/custom/event-list.tsx:155 | an M with friend ids is counted as shared, though it adds nothing to the network effect |

## Left out

- The rating suggestion (`src/app/api/suggest-rating/route.ts` and the form's `handleAISuggestion`): a call to an external language-model service whose answers cannot be specified.
- Writing to local storage, the `isInitialized` flag and the `removeItem` calls of a confirmed clear: storage I/O. Loading is modelled with the stored data as an input, already parsed or marked malformed.
- JSON shape checks: parsed data is taken to be well-typed, as the source does.
- The `typeof window === "undefined"` early return of `clearAllData`, and the prompt itself: the prompt's answer is a parameter.
- `Date.now()` and `Math.random()`: ids come from a counter, timestamps and elapsed times are parameters.
- JavaScript floating point and `toFixed` display rounding: ρ, contributions and the ratio are exact reals.
- `handleKeyPress` in the event form: it only calls the modelled submit under the same guard.
- Event values are whole numbers (`Event.value: int`): the slider only gives whole numbers, and the suggestion path, the only other source of a value, is left out.
- The value slider (1 to 20, default 10) is stated as `EventLogger.OnValueSlider` and the reset value. Neither the form nor the container range-checks a value.
- The header's "N event(s)" label, animations, chart rendering, colours, the status card and debt indicator, and the landing pages: presentation only.
- The unused `fs` import in `src/lib/calculations.ts`.
- Calculations.CalculateNetworkEffect: the contract is about exact reals. With IEEE doubles, the order of additions can change the last bits of a total, so summing the entries from the right, as `SumContributions` does, and the source's left-to-right `reduce` agree only in exact arithmetic.
