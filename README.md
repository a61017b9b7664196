# DREM rule pieces in Dafny

DREM (DeepRacer Event Manager) runs physical racing events: the organisers create
events and fleets, timekeepers record laps with a state machine, and a leaderboard and
stream overlays show rankings. Most of the repository is React UI and GraphQL plumbing.
This project models the small, self-contained rules spread through it and proves what
they promise:

- **Race metrics** (`Metrics`): the race admin page's summary of a list of races, and
  (`AverageWindows`) the timekeeper's sliding windows of consecutive valid laps.
- **Lap-time text** (`TimeFormat`): the `mm:ss.SSS` formatter and parser. Also
  (`LapValidation`) the validators of the editable cells of the laps table.
- **Timekeeper state machine** (`Timekeeper`): the transition table as a step function
  over states, events and the two context flags.
- **Global store reducers** (`Stores`, `Cars`): keyed replace, upsert and delete on the
  events, races, fleets, users, notifications and cars slices. These are classes whose
  methods change their fields. The generic keyed-list operations they specify against
  are in `KeyedList`.
- **Leaderboard** (`Leaderboard`, `Commentator`, `RaceOverlay`): entry lookup, removal,
  update and ranking; the commentator's fastest average window; the overlay's fastest
  lap, fastest average, time display and clock interpolation.
- **Decision rules**:
  - group-to-permission mapping (`UserPermissions`);
  - event date buckets (`EventBuckets`);
  - sign-up username rule and configuration mapping (`SignUp`);
  - mutation-name classification and notifications (`MutationNotifications`);
  - race-config option lookups (`RaceConfig`);
  - flag emoji code points (`Flag`);
  - counter clamping (`CounterHook`);
  - user helpers (`Users`).
- **Device activation** (`DeviceActivation`): the Lambda resolver that names the managed
  instance, encodes the device UI password and asks the provisioning service for an
  activation. The UTF-8 and base64 codecs it uses are in `Encoding`. Base64 follows
  section 4 of RFC 4648.

Shared helpers:

- `Strings`: decimal text, zero padding, JavaScript's `parseInt` on decimal text,
  ASCII case mapping and JavaScript string order.
- `Sorting`: a stable insertion sort, in place on an array and specified by a function
  on sequences. JavaScript's `Array.prototype.sort` is stable, and every comparator in
  the core is a key comparison.
- `Wrappers`: `Option`.

Times, lap times and averages are integer milliseconds. Dates are strings compared
the way JavaScript compares strings. The clock, the date parser, the translation
function and the provisioning service are parameters.

## Model

| member | source | states |
|---|---|---|
| Metrics.InvalidLapIgnored | website/src/admin/race-admin/support-functions/metricCalculations.ts:30-53 | a lap that is not valid leaves the accumulator exactly as it was |
| Metrics.SummaryOfValidLaps | website/src/admin/race-admin/support-functions/metricCalculations.ts:28-56 | the lap summary depends only on the valid laps |
| Metrics.SummarizeCorrect | website/src/admin/race-admin/support-functions/metricCalculations.ts:25-57 | the summary is all-null without a valid lap; otherwise it counts the valid laps, sums their times and their resets (a missing reset count is 0), and holds the least and greatest valid lap time |
| Metrics.SumBetweenExtremes | website/src/admin/race-admin/support-functions/metricCalculations.ts:45-51 | fastest time × laps ≤ time sum ≤ slowest time × laps |
| Metrics.QuotientBetween | website/src/admin/race-admin/support-functions/metricCalculations.ts:87 | a truncated quotient of a sum between lo·n and hi·n lies between lo and hi |
| Metrics.CalculateMetrics | website/src/admin/race-admin/support-functions/metricCalculations.ts:93-105 | an empty race list gives the record with every metric null |
| Metrics.NullIffNoValidLap | website/src/admin/race-admin/support-functions/metricCalculations.ts:74-105 | the metrics are all null exactly when no race has a valid lap |
| Metrics.UniqueRacersCount | website/src/admin/race-admin/support-functions/metricCalculations.ts:60-63 | the first-occurrence filter keeps as many ids as there are distinct user ids |
| Metrics.CountsKeys | website/src/admin/race-admin/support-functions/metricCalculations.ts:65-67 | the per-user counts have exactly the user ids as keys, each mapped to its number of races |
| Metrics.MostRacesIsMaximum | website/src/admin/race-admin/support-functions/metricCalculations.ts:69 | the most races by one user is the count of some user and no user has more |
| Metrics.MetricsOfRaces | website/src/admin/race-admin/support-functions/metricCalculations.ts:77-90 | with a valid lap: the number of races is the list's length, the racers are the distinct ids, the totals are those of the valid laps, the ratios are their quotients, the average lap time is the truncated mean, fastest and slowest are the least and greatest valid lap times (each that of some valid lap), and fastest ≤ average ≤ slowest |
| AverageWindows.EffectiveWindowSize | website/src/pages/timekeeper/support-functions/averageClaculations.ts:14-16 | a missing or zero window size means 3; any other size is kept |
| AverageWindows.RoundedMean | website/src/pages/timekeeper/support-functions/averageClaculations.ts:24-29 | the result is the nearest integer to sum / w, halves rounding up |
| AverageWindows.CollectIsWindowsAtStarts | website/src/pages/timekeeper/support-functions/averageClaculations.ts:18-33 | the reduce emits one window record per start index, in increasing order |
| AverageWindows.WindowsCharacterised | website/src/pages/timekeeper/support-functions/averageClaculations.ts:13-37 | a window is emitted for index i exactly when i + w ≤ n and all w laps from i are valid; its ids are those of its first and last laps and its time is the rounded mean |
| AverageWindows.StartsBelowLimit | website/src/pages/timekeeper/support-functions/averageClaculations.ts:19 | every start index i has i + w ≤ n |
| AverageWindows.WindowCountBound | website/src/pages/timekeeper/support-functions/averageClaculations.ts:19-23 | there are at most max(0, n − w + 1) windows |
| TimeFormat.ConvertMsToString | website/src/support-functions/time.js:33-42 | minutes zero-padded to 2, seconds of the minute to 2, and with milliseconds shown, the last three digits zero-padded to 3 |
| TimeFormat.MillisecondField | website/src/support-functions/time.js:34 | the last three characters of the decimal text, padded to 3, are the milliseconds of the minute padded to 3 |
| TimeFormat.ConvertMsToStringShape | website/src/support-functions/time.js:39-40 | below 100 minutes the text is `mm:ss.SSS`, or `mm:ss` without milliseconds |
| TimeFormat.ConvertStringToMs | website/src/support-functions/time.js:49-55 | the result is a number exactly when the minutes, seconds and milliseconds fields all parse; NaN is `None` |
| TimeFormat.ConvertStringToMsFields | website/src/support-functions/time.js:50-53 | with digit fields at [0,2), [3,5) and [6,9) the result is minutes·60000 + seconds·1000 + milliseconds |
| TimeFormat.RoundTrip | website/src/support-functions/time.js:33-55 | parsing the formatted time gives the time back for 0 ≤ t < 6 000 000 |
| Timekeeper.Start | website/src/pages/timekeeper/support-functions/stateMachine.ts:21-25 | the machine starts in ReadyToStartRace with both flags false and runs that state's entry actions |
| Timekeeper.FromReadyToStartRace | website/src/pages/timekeeper/support-functions/stateMachine.ts:24-31 | TOGGLE and CAPTURE_AUT_LAP enter running, END enters RaceIsOver, other events are ignored |
| Timekeeper.FromRunning | website/src/pages/timekeeper/support-functions/stateMachine.ts:35-53 | TOGGLE pauses, EXPIRE sets the expiry flag and stays, END finishes, CAPTURE_LAP and CAPTURE_AUT_LAP pass through captureLap, DID_NOT_FINISH sets dnf and captures the lap |
| Timekeeper.FromPaused | website/src/pages/timekeeper/support-functions/stateMachine.ts:54-61 | TOGGLE and CAPTURE_AUT_LAP resume running, END finishes |
| Timekeeper.FromRaceIsOver | website/src/pages/timekeeper/support-functions/stateMachine.ts:77-83 | END returns to ReadyToStartRace, RESUME re-enters the race paused |
| Timekeeper.CaptureLapGuardsExclusive | website/src/pages/timekeeper/support-functions/stateMachine.ts:66-68 | exactly one of captureLap's three guards holds in every context |
| Timekeeper.CaptureLapOutcome | website/src/pages/timekeeper/support-functions/stateMachine.ts:62-70 | captureLap saves the lap, clears dnf on exit and goes to running, paused or raceIsOver by its guards |
| Timekeeper.EnteringRunningClearsExpiry | website/src/pages/timekeeper/support-functions/stateMachine.ts:36-40 | every step that starts the timer ends in running with the expiry flag cleared |
| Timekeeper.IgnoredEvents | website/src/pages/timekeeper/support-functions/stateMachine.ts:23-84 | an event the state does not handle runs no action and changes neither state nor dnf |
| Timekeeper.StepKeepsDnfClear | website/src/pages/timekeeper/support-functions/stateMachine.ts:49-64 | no step leaves dnf set in a stable state |
| Timekeeper.ReachableDnfClear | website/src/pages/timekeeper/support-functions/stateMachine.ts:21-64 | from the start, after any sequence of events, dnf is false |
| KeyedList.UpsertShape | website/src/store/eventsStore.ts:17-22 | an upsert overwrites the entry with the key in place, keeping the length, or appends the value |
| KeyedList.UpsertLookup | website/src/store/fleetsStore.ts:13-24 | after an upsert the key holds the new value and every other key holds what it held |
| KeyedList.UpsertKeepsUnique | website/src/store/eventsStore.ts:17-22 | an upsert keeps keys unique |
| KeyedList.RemoveKeysMember | website/src/store/eventsStore.ts:25-33 | an entry survives a delete exactly when its key is not listed |
| KeyedList.RemoveKeysLookup | website/src/store/fleetsStore.ts:25-33 | a listed key is gone after a delete and every other key keeps its value |
| Stores.UpsertEach | website/src/store/racesStore.ts:27-37 | the forEach loop computes the upsert of each race in turn and keeps race ids unique |
| Stores.EventsStore.constructor | website/src/store/eventsStore.ts:42 | the slice starts with no events, loading |
| Stores.EventsStore.AddEvents | website/src/store/eventsStore.ts:7-12 | the list is replaced as a whole; the loading flag is kept |
| Stores.EventsStore.UpdateEvent | website/src/store/eventsStore.ts:13-24 | the list becomes the upsert of the event by eventId; unique ids stay unique |
| Stores.EventsStore.DeleteEvents | website/src/store/eventsStore.ts:25-33 | the events whose id is listed are removed and the rest kept in order |
| Stores.EventsStore.SetIsLoading | website/src/store/eventsStore.ts:34-39 | only the loading flag changes |
| Stores.RacesStore.NewRaces | website/src/store/racesStore.ts:7-22 | the races are upserted in turn into an empty list, so the ids are unique |
| Stores.RacesStore.AddRaces | website/src/store/racesStore.ts:23-39 | the races are upserted in turn into the current list |
| Stores.RacesStore.UpdateRace | website/src/store/racesStore.ts:40-54 | the race with the same raceId is replaced, or the race is appended |
| Stores.RacesStore.DeleteRaces | website/src/store/racesStore.ts:55-63 | the races whose id is listed are removed and the rest kept in order |
| Stores.RacesStore.SetIsLoading | website/src/store/racesStore.ts:64-71 | only the loading flag changes |
| Stores.NewRacesUnique | website/src/store/racesStore.ts:7-22 | whatever races arrive, the ids in the new list are unique |
| Stores.NewRacesLookup | website/src/store/racesStore.ts:7-22 | each id holds the last race with that id in the input; no other id is present |
| Stores.FleetsStore.AddFleets | website/src/store/fleetsStore.ts:7-12 | the list is replaced as a whole |
| Stores.FleetsStore.UpdateFleet | website/src/store/fleetsStore.ts:13-24 | the list becomes the upsert of the fleet by fleetId |
| Stores.FleetsStore.DeleteFleets | website/src/store/fleetsStore.ts:25-33 | the fleets whose id is listed are removed |
| Stores.FleetsStore.SetIsLoading | website/src/store/fleetsStore.ts:34-39 | only the loading flag changes |
| Stores.UsersStore.AddUsers | website/src/store/usersStore.ts:7-11 | the list is replaced as a whole |
| Stores.UsersStore.UpdateUser | website/src/store/usersStore.ts:12-22 | the list becomes the upsert of the user by sub |
| Stores.UsersStore.DeleteUser | website/src/store/usersStore.ts:23-30 | every user with the given sub is removed |
| Stores.UsersStore.SetIsLoading | website/src/store/usersStore.ts:31-35 | only the loading flag changes |
| Stores.NotificationsStore.constructor | website/src/store/notificationsStore.ts:23 | the notification list starts empty |
| Stores.NotificationsStore.AddNotification | website/src/store/notificationsStore.ts:6-14 | the notification with the same id is replaced or the notification appended; unique ids stay unique |
| Stores.NotificationsStore.DismissNotification | website/src/store/notificationsStore.ts:15-20 | every notification with the id is removed; an absent id changes nothing |
| Stores.DismissAbsentId | website/src/store/notificationsStore.ts:18-19 | dismissing an id no notification has leaves the list as it was |
| Stores.DismissRemovesId | website/src/store/notificationsStore.ts:15-20 | after a dismissal no notification has the id |
| Cars.MergeDeep | website/src/store/carsStore.ts:63-79 | the merged keys are the target's own keys and the source's keys |
| Cars.MergeDeepEntries | website/src/store/carsStore.ts:67-75 | a source key holding a non-array object is merged recursively into the target's value; any other source value replaces it; target keys absent from the source are copied |
| Cars.MergeDeepEmpty | website/src/store/carsStore.ts:64 | merging an empty object copies the target |
| Cars.MergeDeepSelf | website/src/store/carsStore.ts:63-79 | merging an object into itself gives it back |
| Cars.MergeDeepIdempotent | website/src/store/carsStore.ts:63-79 | merging the same source twice is merging it once |
| Cars.MergeKeepsKey | website/src/store/carsStore.ts:21-23 | merging into the car with the same InstanceId keeps that id |
| Cars.MergeUpsertLookup | website/src/store/carsStore.ts:15-24 | the car with the given InstanceId is merged with the new one, or the new one is appended; other cars are unchanged |
| Cars.MergeAllKeepsUnique | website/src/store/carsStore.ts:15-26 | ADD_CARS keeps InstanceIds unique |
| Cars.CarsStore.constructor | website/src/store/carsStore.ts:57 | the slice starts with no cars, loading, no refresh, online cars |
| Cars.CarsStore.AddCars | website/src/store/carsStore.ts:7-28 | each car is merged or appended in turn; refresh is cleared exactly when a car is added; unique ids stay unique |
| Cars.CarsStore.DeleteCar | website/src/store/carsStore.ts:29-37 | the cars with the given InstanceId are removed |
| Cars.CarsStore.SetIsLoading | website/src/store/carsStore.ts:38-45 | only the loading flag changes |
| Cars.CarsStore.RefreshCars | website/src/store/carsStore.ts:46-54 | refresh is set and offlineCars recorded; the cars are unchanged |
| UserPermissions.GetPermissions | website/src/hooks/usePermissions.ts:54-139 | no group grants nothing; eventSelection iff admin, operator or commentator; each side-navigation flag iff its group or admin; operator or admin grants every API flag, otherwise registration grants only users, otherwise commentator only events; admin grants everything |
| EventBuckets.SortEventsInBuckets | website/src/components/eventSelectorModal.tsx:32-59 | the array is stably sorted by date key and each bucket holds the sorted events that classify into it, in order |
| EventBuckets.ClassifyCharacterised | website/src/components/eventSelectorModal.tsx:48-56 | an event is current iff now ≤ date < week ahead; a dated event before now is past; a dated event after now and not current is future; an undated one is missing |
| EventBuckets.MissingDateIffUndated | website/src/components/eventSelectorModal.tsx:54-55 | when now precedes the week-ahead date, exactly the undated events go to the missing-date bucket |
| EventBuckets.BucketsPartition | website/src/components/eventSelectorModal.tsx:46-57 | the four buckets together are a permutation of the events, so the count is preserved |
| EventBuckets.BucketsInDateOrder | website/src/components/eventSelectorModal.tsx:37-41 | within each bucket the events are in ascending date order, undated events keyed as 0 |
| Leaderboard.FindEntryByUsername | website-leaderboard/src/pages/leaderboard.tsx:56-63 | the first index with the username and its entry, or none when no entry has it |
| Leaderboard.Board.RemoveLeaderboardEntry | website-leaderboard/src/pages/leaderboard.tsx:70-85 | the first entry with the username is spliced out; the summary is kept |
| Leaderboard.RemoveEntryShape | website-leaderboard/src/pages/leaderboard.tsx:74-83 | only the first matching entry is removed, the others keep their order; with no match the list is unchanged |
| Leaderboard.RemoveEntryUnique | website-leaderboard/src/pages/leaderboard.tsx:70-85 | with unique usernames the removed user is gone and usernames stay unique |
| Leaderboard.CalcRaceSummary | website-leaderboard/src/pages/leaderboard.tsx:94-122 | the summary throws exactly in the average format when the racer has an average and the leader has none |
| Leaderboard.Board.UpdateLeaderboardEntries | website-leaderboard/src/pages/leaderboard.tsx:129-177 | the racer is on the ranking-sorted update; unless the summary throws, the list becomes that update and the summary is that of the racer at the new position with the old position as consistency; when it throws, neither the list nor the summary changes |
| Leaderboard.SortedCopy | website-leaderboard/src/pages/leaderboard.tsx:160-171 | the copy, sorted in place, is the stable sort of the updated list under the race format's comparator |
| Leaderboard.RankedKeepsUsername | website-leaderboard/src/pages/leaderboard.tsx:133-171 | the racer whose entry was submitted is on the sorted list |
| Leaderboard.UpdatedEntryFor | website-leaderboard/src/pages/leaderboard.tsx:137-158 | the racer's entry is the new one, or on the combined leaderboard the old one when it is from another track and strictly faster |
| Leaderboard.UpdateLeavesOthers | website-leaderboard/src/pages/leaderboard.tsx:137-158 | every other racer keeps their entry |
| Leaderboard.UpdateKeepsUnique | website-leaderboard/src/pages/leaderboard.tsx:134-171 | usernames stay unique through the update and the sort |
| Leaderboard.UpdateSorted | website-leaderboard/src/pages/leaderboard.tsx:161-171 | the list is sorted by lap time, or by average with entries lacking one last |
| Leaderboard.SummaryRanks | website-leaderboard/src/pages/leaderboard.tsx:95-106 | in a summary that does not throw, the overall rank is the racer's index + 1; consistency is the previous position when there was one, else the overall rank |
| Leaderboard.GapNotNegative | website-leaderboard/src/pages/leaderboard.tsx:110-120 | when the racer's own entry is on the sorted list the summary does not throw, and the gap to the leader is not negative |
| Leaderboard.CombinedBoardThrows | website-leaderboard/src/pages/leaderboard.tsx:115-116 | on the combined leaderboard a kept faster entry without an average, followed by a new entry with one, makes the summary throw |
| Commentator.GetFacestAvgFromOverlayInfo | website/src/commentator/support-functions.ts:11-21 | no windows give the empty result; otherwise the array is left stably sorted by average time and its first element returned |
| Commentator.SortedWindows | website/src/commentator/support-functions.ts:15-17 | the sort keeps the multiset of windows and orders them by average time |
| Commentator.FastestWindowIsMinimum | website/src/commentator/support-functions.ts:15-18 | the window returned is one of those given, with the least average time |
| Commentator.FastestWindowIsFirstOfTies | website/src/commentator/support-functions.ts:15-18 | among equal averages the first one given is returned |
| RaceOverlay.FastestValidLapIsMinimum | website-leaderboard/src/components/raceOverlayInfo.tsx:78-96 | no valid lap gives none (the `{ time: 0 }` record); otherwise a valid lap of least time, the last among ties |
| RaceOverlay.ValidLapsMembers | website-leaderboard/src/components/raceOverlayInfo.tsx:81 | the filtered laps are exactly the valid laps |
| RaceOverlay.FastestAverageLapIsMinimum | website-leaderboard/src/components/raceOverlayInfo.tsx:98-116 | no windows give the zero record marked dnf; otherwise a window of least average, the last among ties |
| RaceOverlay.ToTimeFields | website-leaderboard/src/components/raceOverlayInfo.tsx:118-128 | the fields are digit strings of widths ≥2, 2 and 3 whose weighted sum is the time |
| RaceOverlay.ToTimeMatchesLapTimeText | website-leaderboard/src/components/raceOverlayInfo.tsx:118-128 | the fields joined as `mm:ss.SSS` are the laps table's text for the same time |
| RaceOverlay.Interpolate | website-leaderboard/src/components/raceOverlayInfo.tsx:171-172 | remaining time becomes max(0, remaining − passed) and the current lap max(0, lap + passed); for a non-negative time passed the current lap never shrinks, and with a non-negative remaining time the remaining time never grows |
| RaceOverlay.OverlayClock.Tick | website-leaderboard/src/components/raceOverlayInfo.tsx:164-174 | the timestamp is recorded; the clocks move by the elapsed time only while the race is in progress |
| RaceOverlay.OverlayClock.constructor | website-leaderboard/src/components/raceOverlayInfo.tsx:45-76 | both clocks start at zero and the timestamp at the current time; no clock effect has run yet |
| RaceOverlay.OverlayClock.Render | website-leaderboard/src/components/raceOverlayInfo.tsx:140-148 | each clock takes its prop on the first render or when that prop changed; a clock whose prop is unchanged keeps its interpolated value, and the timestamp is untouched |
| LapValidation.ValidateTime | website/src/admin/race-admin/support-functions/lapsTableConfig.tsx:174-182 | an undefined value is accepted; a text is accepted iff it ends in `[0-5]d:[0-5]d.ddd`; a rejection returns the pattern text |
| LapValidation.TimeRegexTestIsSuffix | website/src/admin/race-admin/support-functions/lapsTableConfig.tsx:176-178 | the unanchored test looks only at the last nine characters |
| LapValidation.ValidateResets | website/src/admin/race-admin/support-functions/lapsTableConfig.tsx:211-219 | an undefined value is accepted; a text is accepted iff it is non-empty and all digits; a rejection returns the pattern text |
| LapValidation.DecimalResetsAccepted | website/src/admin/race-admin/support-functions/lapsTableConfig.tsx:213-217 | every count written in decimal is accepted |
| LapValidation.UnanchoredAcceptsMisreadTexts | website/src/admin/race-admin/support-functions/lapsTableConfig.tsx:176-180 | the validator accepts `100:00.000`, which the parser reads as NaN, and `0112:34.567`, which it reads as 62 004 ms |
| LapValidation.HundredMinutesText | website/src/support-functions/time.js:33-42 | the table shows a 100-minute lap as `100:00.000` |
| LapValidation.ValidateTimeAnchored | website/src/admin/race-admin/support-functions/lapsTableConfig.tsx:176 | the anchored pattern accepts exactly the nine-character `mm:ss.SSS` texts |
| LapValidation.AnchoredIsStricter | website/src/admin/race-admin/support-functions/lapsTableConfig.tsx:176-180 | what the anchored validator accepts the written one accepts too |
| LapValidation.AnchoredTimeRoundTrip | website/src/admin/race-admin/support-functions/lapsTableConfig.tsx:176-180 | an accepted text is read as its fields, below one hour, and formats back to itself |
| LapValidation.AnchoredAcceptsShownTimes | website/src/admin/race-admin/support-functions/lapsTableConfig.tsx:176-180 | every time below one hour, as the table shows it, is accepted |
| SignUp.ValidateCustomSignUp | website/src/App.tsx:202-219 | one error per failed check under its field's key with its message key; no error exactly when all three checks pass |
| SignUp.UsernameRule | website/src/App.tsx:205-207 | a valid username has 2 to 20 characters of `[A-Za-z0-9._]`, and is valid iff it is runs of letters and digits joined by single `_` or `.` |
| SignUp.JoinedIffShape | website/src/App.tsx:205-207 | no leading, trailing or doubled separator over the class is the same as letters and digits joined by single separators |
| SignUp.BuildAmplifyConfig | website/src/App.tsx:84-107 | the client id comes from userPoolWebClientId; pool ids, endpoint, regions and bucket are copied; the auth mode is userPool |
| SignUp.BuildDependsOnCopiedFields | website/src/App.tsx:84-107 | two configurations build the same settings iff their seven copied fields agree |
| MutationNotifications.ItemTypeIsFirstMatch | website/src/hooks/useMutation.ts:39-90 | the item type is that of the first of event, user, race, model, carlogsasset, fleet that the name includes, else unknown |
| MutationNotifications.ItemInfo | website/src/hooks/useMutation.ts:33-90 | the item type is that of the first item word the lower-cased name includes, with no action yet; its id, name and label key come from that type's payload fields (eventName/eventName, username/username, raceId/raceId, modelId/modelname, assetId/filename, fleetId/fleetName), and an unknown item is 'common' with the label 'unknown' and no name |
| MutationNotifications.GenerateRequestNotification | website/src/hooks/useMutation.ts:30-127 | the info has the item type and action of the lower-cased name and the id, name and label key of that type's payload fields; a loading info notification with the dismiss label and the header naming the item is added under that id iff there is an action and the type is known |
| MutationNotifications.RequestShownIff | website/src/hooks/useMutation.ts:106-123 | the request notification is shown iff an action was found and the item type is known |
| MutationNotifications.ResponseMessage | website/src/hooks/useMutation.ts:135-158 | a header exists iff there is an action; it names the item; an error text only appears with the error status |
| MutationNotifications.ResponseHeaders | website/src/hooks/useMutation.ts:135-158 | with an action there is a header, carrying the error text exactly on the error status |
| MutationNotifications.GenerateResponseNotification | website/src/hooks/useMutation.ts:130-175 | the header for the action and status is added under the item's id with the status as type and no loading state, unless there is no header or the type is unknown |
| MutationNotifications.ResponseReplacesRequest | website/src/hooks/useMutation.ts:112-171 | both notifications are dispatched as ADD_NOTIFICATION under the item's id, and the store's upsert by id (website/src/store/notificationsStore.ts lines 6-14) makes the response replace the loading request: one notification is left for the item, typed by the outcome and no longer loading |
| RaceConfig.OptionFromId | website/src/admin/events/support-functions/raceConfig.ts:47-52 | no id gives no option; a found option is in the table with value equal to the id's text; none found means no option has that value |
| RaceConfig.OptionsRoundTrip | website/src/admin/events/support-functions/raceConfig.ts:22-216 | every option of every table is found again from its own value |
| RaceConfig.LookupOwnValue | website/src/admin/events/support-functions/raceConfig.ts:51 | in a table of distinct values, lookup by an option's value finds that option |
| RaceConfig.ResetValuesDistinct | website/src/admin/events/support-functions/raceConfig.ts:22-37 | the resets table's values are distinct whatever the translations |
| RaceConfig.NumericIdIsItsText | website/src/admin/events/support-functions/raceConfig.ts:43 | a numeric id finds the option whose value is its decimal text |
| RaceConfig.ResetsNameOfId | website/src/admin/events/support-functions/raceConfig.ts:39-45 | no id or an unknown id gives ''; otherwise the matching option's label |
| RaceConfig.ReplaceFirstXShape | website/src/admin/events/support-functions/raceConfig.ts:194 | only the first `X` is replaced; without an `X` the label is unchanged |
| RaceConfig.RaceTypeNameWindow | website/src/admin/events/support-functions/raceConfig.ts:186-199 | the race type name is the label, with the first X replaced by the window size only when one is given |
| CounterHook.Counter.constructor | website/src/hooks/useCounter.ts:18-19 | the counter starts at its argument, 0 by default |
| CounterHook.Counter.ResetCounter | website/src/hooks/useCounter.ts:21-23 | the counter is set to its argument, 0 by default |
| CounterHook.Counter.IncreaseCounter | website/src/hooks/useCounter.ts:25-27 | the counter grows by exactly one |
| CounterHook.Counter.DecreaseCounter | website/src/hooks/useCounter.ts:29-37 | the counter becomes Decreased of the old value and is never negative |
| CounterHook.Decreased | website/src/hooks/useCounter.ts:31-35 | 0 at or below 0, otherwise one less, never negative |
| CounterHook.DecreaseUndoesIncrease | website/src/hooks/useCounter.ts:25-37 | from a non-negative value, a decrease undoes an increase |
| Flag.CountryToFlag | website/src/components/flag.tsx:7-15 | a missing code gives undefined; the empty code gives the empty text |
| Flag.LetterFlag | website/src/components/flag.tsx:13-14 | each letter, either case, becomes the regional indicator of its capital, within U+1F1E6..U+1F1FF |
| Flag.FlagKeepsLength | website/src/components/flag.tsx:11-14 | text of the basic plane keeps its length |
| Flag.FlagIgnoresCase | website/src/components/flag.tsx:12-14 | a lower-cased code gives the same flag |
| Flag.FlagRoundTrip | website/src/components/flag.tsx:13-14 | the flag of a code of capitals reads back as the code |
| Flag.FlagInjectiveOnCapitals | website/src/components/flag.tsx:13-14 | two codes of capitals with the same flag are equal |
| Users.GetUserNameFromId | website/src/hooks/useUsers.ts:22-32 | no id gives undefined; otherwise the name of the first user with that sub, or the id itself when none has it |
| Users.UserNameIsNameOrId | website/src/hooks/useUsers.ts:22-32 | the result is some user's name or the id asked for |
| Users.UserNameOfKnownUser | website/src/hooks/useUsers.ts:26-29 | with unique subs a user's own sub finds that user's name |
| Users.GetUserEmail | website/src/hooks/useUsersApi.ts:57-64 | the value of the first `email` attribute, or undefined when there is none |
| Users.GetUserCountryCode | website/src/hooks/useUsersApi.ts:66-71 | the value of the first `custom:countryCode` attribute, or '' |
| Users.ParseRoles | website/src/hooks/useUsersApi.ts:74-77 | null without roles, otherwise the joined text; no roles give '' |
| Users.RolesRoundTrip | website/src/hooks/useUsersApi.ts:76 | roles without commas, joined with ',', split back into the same list |
| DeviceActivation.TimestampRoundTrip | lib/lambdas/device_activation_function/index.py:33-34 | the `YYYY-MM-DD-HH:MM` label has 16 characters and reads back as the minute |
| DeviceActivation.PasswordRoundTrip | lib/lambdas/device_activation_function/index.py:36-40 | the encoded password decodes, base64 then UTF-8, to the password |
| DeviceActivation.RequestShape | lib/lambdas/device_activation_function/index.py:42-54 | one registration; the instance name is the host, " - " and the timestamp; five tags Name, Type, fleetName, fleetId, DeviceUiPassword in that order, the last decoding to the password |
| DeviceActivation.Region | lib/lambdas/device_activation_function/index.py:18 | a missing or empty session region falls back to eu-west-1 |
| DeviceActivation.DeviceActivationResolver | lib/lambdas/device_activation_function/index.py:29-68 | success iff the call returns both fields, giving the region, code and id; a raised error or a missing field is returned as the failure value |
| Encoding.Utf8RoundTrip | lib/lambdas/device_activation_function/index.py:38 | UTF-8 decoding of the encoding gives the text back |
| Encoding.Base64Encode | lib/lambdas/device_activation_function/index.py:38 | the output has four characters for every three bytes or part of three |
| Encoding.Base64EncodeChars | lib/lambdas/device_activation_function/index.py:38 | every output character is of the base64 alphabet or `=` |
| Encoding.Base64RoundTrip | lib/lambdas/device_activation_function/index.py:36-40 | base64 decoding of the encoding gives the bytes back |
| Encoding.StandardTestVectors | lib/lambdas/device_activation_function/index.py:38 | the encoder gives all seven test vectors of section 10 of RFC 4648, from "" to "foobar" |

## Left out

- The CDK declarations of the events backend (backend/events_manager.py) declare infrastructure only. The resolver code they deploy is not part of this model.
- React rendering, i18n label text, logging (`console.debug`, Powertools logger and tracer), GraphQL strings and the API hooks are left out. Translated texts are their keys, or the result of a translation function passed in.
- Timers and intervals are left out: the overlay's 30 fps interval is the `Tick` method called with the time.
- `OverlayClock.Tick` leaves out the derived display fields. They are `ToTime` of the clocks, proved separately.
- `send` of useMutation.ts, which awaits the GraphQL call, is not modelled. The two notification steps it calls are.
- The provisioning service (SSM `create_activation`), the boto3 session and the clock are parameters of `DeviceActivationResolver`. Distinct activation ids across calls are not modelled.
- Python's `UnicodeEncodeError` for lone surrogates in the password is out of scope: a Dafny string cannot hold one.
- DeviceActivation.FormatTimestamp: the year is always padded to four digits. Platform `strftime` may print years below 1000 differently.
- Event dates are compared as strings. `new Date(...).getTime()` in the sort comparator is the parameter `timeOf`. An unparsable date, whose time is NaN and whose comparisons are all false, is not modelled.
- JavaScript numbers are floats; the model uses unbounded integers. The `toFixed(1)` quotients of the metrics are exact ratios (`Ratio`), not one-decimal strings.
- `parseInt(String(x))` on a float in exponent notation is not modelled: Metrics.MetricsOfRaces states the truncated integer mean.
- AverageWindows.EffectiveWindowSize takes a natural number. A negative window size, which the source would accept, is left out.
- Aliasing is left out. UPDATE_EVENT, UPDATE_FLEET and UPDATE_USER push into the array that the previous state also holds. In the model each slice is a field of a class that the methods reassign, so an earlier snapshot of the list cannot observe the change.
- The same holds on the leaderboard: `calcRaceSummary` writes overallRank, consistency and gapToFastest onto the submitted entry object, which is also the element in the sorted list. In the model Leaderboard.CalcRaceSummary returns a separate summary, and the list's entries keep only their submitted fields.
- The key order of objects built by `mergeDeep` is left out. Cars.MergeDeep returns a map from keys to values.
- Flag.FlagKeepsLength: the output length equals the input length only for text of the basic plane. A character above it is two UTF-16 units in JavaScript and becomes two shifted characters here, as in the source. `toUpperCase` is modelled on ASCII letters only.
- CounterHook.Counter: the counter is an integer, not a JavaScript float.
- modelsStore.ts and assetsStore.ts follow the carsStore pattern and are left out. So are the rules embedded in other UI components (commentator statistics, device table sorting, upload status).
- support-functions/merge.ts, an in-place `Object.assign` over untyped objects, is left out.
- store.ts, the global listener and dispatch wiring, is left out.
- A notification's `onDismiss` callback is not a field of Stores.Notification. The callback only dispatches DISMISS_NOTIFICATION with the notification's id, which Stores.NotificationsStore.DismissNotification models.
- The resets text that LapValidation.ValidateResets accepts is stored by the edit page as the raw string. Nothing in the core reads it as a number, so no parse of it is modelled.
- Strings.Substring and Strings.StrLess index and compare by characters (code points). JavaScript's `substring` and `<` work on UTF-16 code units, so they differ for text above the basic plane. The dates and lap times they are applied to are ASCII.
- RaceConfig.ReplaceFirstX splices the replacement text in literally. JavaScript's `replace` would interpret `$&`, `$1` and `$$` in it; the window sizes and labels passed in contain no `$`.
- Leaderboard.Board.UpdateLeaderboardEntries: when the summary throws, the model leaves the state unchanged, as a state updater that throws does. What React then does with the error (an error boundary, a blank page) is not modelled.

## Findings

| source | as written | input that shows it | evidently intended | confidence | as-written member | corrected member |
|---|---|---|---|---|---|---|
| website/src/admin/race-admin/support-functions/lapsTableConfig.tsx:176 | the lap-time pattern `[0-5]{1}\d{1}:[0-5]{1}\d{1}\.\d{3}$` has no `^`, so any text that merely ends in a valid time passes | `100:00.000`, the table's own text for a 100-minute lap, is accepted and `convertStringToMs` turns it into NaN; `0112:34.567` is accepted and read as 62 004 ms | accept only a whole `mm:ss.SSS` text, which then reads back as its own time | not executed | LapValidation.UnanchoredAcceptsMisreadTexts | LapValidation.AnchoredTimeRoundTrip |
