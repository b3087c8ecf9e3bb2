# Water-network dashboard: decision and state logic

This project models the self-contained logic of the water-network dashboard and
its maintenance scripts, and proves properties of that model in Dafny. Fetching,
the realtime channel, the map library and the page markup are left out.

- **Animated value label** (`animated_number.dfy`, module `Animation`). The label
  keeps a displayed value, the value it replaced and an exiting flag. It also has
  two cancellable timers: an exit timer (2000 ms) and a reset timer (3000 ms).
  - The timers are pending flags, and a timer firing is an event.
  - `Enabled` states what the scheduler guarantees. A cleared timer never fires.
    Both timers of a cycle start together and the exit delay is the shorter, so
    the reset timer cannot fire while the exit timer is still pending.
  - `Step` and `Run` give the pure semantics. The class `AnimatedNumber` holds the
    component's fields, and each of its methods is proved to perform exactly one `Step`.
- **Edge colour, node lookup and isolation set** (`network.dfy`, module `Network`).
  - `getNodePosition` and `getEdgeColor` cover the status, material and age views.
  - The realtime rule adds the id of an edge whose new status is `isolated`.
  - The class `NetworkPage` holds the page's isolated-edge set and view mode.
- **JavaScript/Python string primitives** (`text.dfy`, module `Text`). These are
  written out character by character:
  - `parseInt`, including leading white space, an optional sign, the `0x` prefix,
    reading up to the first non-digit, and `NaN`;
  - `split("-")[0]`;
  - `substring(0, 8)` and Python's `s[:8]`;
  - the ASCII part of `toLowerCase`.
- **Map component** (`network_map.dfy`, module `NetworkMap`).
  - The marker colour and the pressure line.
  - What a polyline carries: its colour, whether it is dashed, and its popup detail and footer.
  - The two layer registries. Every render pass clears them and fills them again.
    A later entry for the same id replaces an earlier one, as `Map.set` does.
    `KeyedMaps.Registered` is that fill, defined once for both registries.
  - The guards around the process-wide, lazily loaded mapping library.
  - The class `MapView` holds one mounted component. The class `LeafletSlot` is
    the module-level library variable.
- **Sensor page** (`sensor_data.dfy`, module `SensorData`).
  - The edge-name lookup.
  - Grouping of edge sensors by pipe. The first reading of each type is kept;
    since rows arrive newest first, that is the latest reading. A name falls back
    to the first 8 characters of the id.
  - The strict alert rule. In JavaScript a `null` reading compares as 0, so a
    pressure sensor with no value shows as an alert (`NullPressureAlerts`).
- **Thresholds** (`constants.dfy`, module `Constants`): the shared threshold and
  normal-range constants.
- **Count report** (`check_counts.dfy`, module `CheckCounts`).
  - Sensors counted by asset type, and sensor types listed by asset id.
  - Each Python dictionary is a map plus the order its keys were first inserted,
    because that order decides how the report iterates.
- **Refresh script** (`refresh_sensors.py` → `refresh_sensors.dfy`, module `RefreshSensors`).
  - One update per sensor, with a per-type jitter and a clamp at zero.
  - The random draw is an input whose range is a precondition.

## Model

| member | source | states |
|---|---|---|
| Animation.Mount | frontend/src/components/AnimatedNumber.tsx:11-13 | On mount the initial value is displayed, with no prior value, not exiting and no timer pending. The invariant holds and the phase is idle. |
| Animation.StepValid | frontend/src/components/AnimatedNumber.tsx:17-40 | Every event that can occur keeps the invariant: exiting implies a prior value; a pending exit timer implies a pending reset timer; while mounted, a reset is pending exactly when a prior value exists; nothing is pending after unmount. |
| Animation.RunValid | frontend/src/components/AnimatedNumber.tsx:17-40 | The invariant holds after any sequence of events that can occur. |
| Animation.SameValueIsNoOp | frontend/src/components/AnimatedNumber.tsx:18 | A value equal to the displayed one changes no field and schedules or cancels no timer. |
| Animation.NewValueRestartsCycle | frontend/src/components/AnimatedNumber.tsx:20-35 | A distinct value becomes the displayed value. The value on screen just before, not the older prior, becomes the prior value. Exiting is cleared and both timers are pending again. |
| Animation.OnValue | frontend/src/components/AnimatedNumber.tsx:18-35 | The new value is displayed. An equal value changes nothing. A distinct one makes the value shown before it the prior value, clears exiting and leaves both timers pending. |
| Animation.OnExit | frontend/src/components/AnimatedNumber.tsx:27-29 | The exit callback sets exiting, and its own timer is no longer pending. Nothing else changes. |
| Animation.OnReset | frontend/src/components/AnimatedNumber.tsx:32-35 | The reset callback clears the prior value and exiting, and its own timer is no longer pending. The displayed value stays. |
| Animation.OnUnmount | frontend/src/components/AnimatedNumber.tsx:37-40 | The cleanup clears both timers and unmounts the label. The fields stay as they were. |
| Animation.Step | frontend/src/components/AnimatedNumber.tsx:17-40 | Only a new value changes the displayed value, and only the cleanup unmounts. `StepValid` proves that every step keeps the invariant. |
| Animation.TimerEffects | frontend/src/components/AnimatedNumber.tsx:27-35 | The exit timer only sets exiting, and the reset timer stays pending. The reset timer clears the prior value and exiting, and keeps the displayed value. |
| Animation.ExitDueBeforeReset | frontend/src/components/AnimatedNumber.tsx:27-35 | The exit delay is shorter than the reset delay. While the exit timer is pending, the reset timer is pending too and cannot fire. |
| Animation.NothingAfterUnmount | frontend/src/components/AnimatedNumber.tsx:37-40 | After unmount no event can occur, so no callback changes the state. |
| Animation.QuietTraceSettles | frontend/src/components/AnimatedNumber.tsx:27-35 | With only timer events, the displayed value stays. Once the reset timer has fired the label is idle: no prior value, not exiting, and no timers. |
| Animation.FullCycle | frontend/src/components/AnimatedNumber.tsx:17-35 | A new value followed by both timers can occur, and it ends with only the new value shown and nothing pending. |
| Animation.SpacedValuesSettle | frontend/src/components/AnimatedNumber.tsx:17-35 | Successive distinct values, each followed by its full cycle, can all occur and leave only the last value, idle. |
| Animation.Render | frontend/src/components/AnimatedNumber.tsx:46-60 | The prior element is rendered exactly when a prior value exists, collapsed exactly when exiting. The primary element is the displayed value. |
| Animation.Scenario | frontend/src/components/AnimatedNumber.tsx:17-60 | From 60.0 to 58.2: 58.2 is shown with 60.0 beside it, then after both timers 58.2 alone. A repeat of 58.2 then changes nothing. |
| Animation.AnimatedNumber.constructor | frontend/src/components/AnimatedNumber.tsx:11-14 | The fields start in the mount state, and the invariant holds. |
| Animation.AnimatedNumber.OnValue | frontend/src/components/AnimatedNumber.tsx:17-40 | The effect run (with the cleanup of the previous run) changes the fields exactly as a new-value step does and keeps the invariant. |
| Animation.AnimatedNumber.FireExit | frontend/src/components/AnimatedNumber.tsx:27-29 | The exit callback changes the fields exactly as an exit-timer step does and keeps the invariant. |
| Animation.AnimatedNumber.FireReset | frontend/src/components/AnimatedNumber.tsx:32-35 | The reset callback changes the fields exactly as a reset-timer step does and keeps the invariant. |
| Animation.AnimatedNumber.Unmount | frontend/src/components/AnimatedNumber.tsx:37-40 | The cleanup on unmount clears both timers and keeps the invariant. |
| Network.NodePosition | frontend/src/pages/Network.tsx:97-100 | A found position is the `(x, y)` of a node with that id. `NodePositionFirstMatch` proves it is the first such node, and that the result is null exactly when there is none. |
| Network.NodePositionFirstMatch | frontend/src/pages/Network.tsx:97-100 | The lookup is null exactly when no node has the id. Otherwise it is the `(x, y)` of the first node with that id. |
| Network.EdgeColor | frontend/src/pages/Network.tsx:103-139 | An isolated edge is `#ef4444`, and otherwise a closed edge is `#6b7280`. Every result is one of the eleven colours of the rule. The view modes' tables are stated by the lemmas below. |
| Network.IsolatedIsRed | frontend/src/pages/Network.tsx:104-105 | An edge whose status is `isolated`, or whose id is in the realtime set, is `#ef4444` in every view mode. |
| Network.ClosedIsSlate | frontend/src/pages/Network.tsx:106 | Otherwise a `closed` edge is `#6b7280` in every view mode. |
| Network.MaterialTable | frontend/src/pages/Network.tsx:108-115 | In the material view, lower-cased iron, pvc, pe and copper give `#ef4444`, `#0ea5e9`, `#22c55e` and `#f59e0b`. Anything else gives `#9ca3af`. |
| Network.MaterialIgnoresCase | frontend/src/pages/Network.tsx:109-111 | `IRON` and `Pvc` get the iron and pvc colours. |
| Network.MaterialMissingIsGrey | frontend/src/pages/Network.tsx:109-114 | A missing or empty material is `#9ca3af`. |
| Network.AgeOfDatedEdge | frontend/src/pages/Network.tsx:117-123 | For a date `YYYY` or `YYYY-…`, a year before 1990 gives `#ef4444`, before 2010 gives `#eab308`, and any later year gives `#22c55e`. |
| Network.AgeFallbacks | frontend/src/pages/Network.tsx:118-123 | A missing or empty date is `#9ca3af`. A year `parseInt` cannot read (NaN) fails both comparisons and is `#22c55e`. |
| Network.AgeOfUnreadableYear | frontend/src/pages/Network.tsx:120-123 | A date starting with a character that is not white space, a sign or a digit is `#22c55e`. |
| Network.StatusPrecedence | frontend/src/pages/Network.tsx:126-138 | In the status view the order is: incident flags give `#dc2626`; then an incident count of 0 gives `#0ea5e9`; then critical, high, medium and low give `#dc2626`, `#ea580c`, `#ca8a04` and `#65a30d`; anything else gives `#0ea5e9`. |
| Network.IsolatedAfter | frontend/src/pages/Network.tsx:81-82 | The set only grows, by at most the update's id. It holds that id exactly when it already did or the new status is `isolated`. |
| Network.IsolatedAfterAllGrows | frontend/src/pages/Network.tsx:80-86 | After any stream of updates the set is the initial set plus exactly the ids of the updates whose status is `isolated`. |
| Network.NetworkPage.constructor | frontend/src/pages/Network.tsx:42-46 | The page starts with an empty isolated set and the status view. |
| Network.NetworkPage.OnEdgeUpdate | frontend/src/pages/Network.tsx:80-86 | The realtime callback sets the isolated set to the rule's result and leaves the view mode alone. |
| Network.NetworkPage.SelectViewMode | frontend/src/pages/Network.tsx:160-162 | The tabs set the view mode and leave the isolated set alone. |
| Network.NetworkPage.GetEdgeColor | frontend/src/pages/Network.tsx:103-105 | The page's colour closure gives `#ef4444` for every edge that is isolated, by its status or by the page's current set. |
| Text.Before | frontend/src/pages/Network.tsx:120 | `split("-")[0]` is a prefix of the text with no `-` in it. It ends at the first `-` or at the end of the text. |
| Text.Take | frontend/src/pages/SensorData.tsx:49 | `substring(0, 8)` is a prefix of length `min(len, 8)`. |
| Text.ToLower | frontend/src/pages/Network.tsx:109 | Lower-casing keeps the length and maps each character independently. |
| Text.ParseInt | frontend/src/pages/Network.tsx:120 | Blank text is NaN, and a negative result needs a leading `-`. `ParseIntDecimalThen` and `ParseIntNaN` state what is read. |
| Text.ParseIntDecimalThen | frontend/src/pages/Network.tsx:120 | `parseInt` reads back the decimal text of every natural number, alone or followed by `-…`. |
| Text.ParseIntNaN | frontend/src/pages/Network.tsx:120 | Text that starts with a character other than white space, a sign or a digit parses to NaN. |
| KeyedMaps.RegisteredKeys | frontend/src/components/NetworkMap.tsx:142 | After a sequence of `Map.set` calls, a key is present exactly when some call set it. |
| KeyedMaps.RegisteredLastWins | frontend/src/components/NetworkMap.tsx:142 | A present key holds the value of the last call that set it. |
| NetworkMap.NodeColor | frontend/src/components/NetworkMap.tsx:108-113 | A `tank` is `#22c55e`, a `reservoir` is `#0ea5e9`, and every other type is `#f59e0b`, each exactly. |
| NetworkMap.PressureLine | frontend/src/components/NetworkMap.tsx:131-137 | The pressure line is shown exactly when the pressure is present and nonzero, and then with that pressure. |
| NetworkMap.MarkerFor | frontend/src/components/NetworkMap.tsx:108-138 | A marker sits at the node's `(x, y)`, with the type's colour, the node's name and type, and the pressure line. |
| NetworkMap.PopupDetail | frontend/src/components/NetworkMap.tsx:177-188 | The material view shows the material or `Unknown`. The age view shows the date or `Unknown`. The status view shows the status badge. Each detail kind appears exactly in its own mode. |
| NetworkMap.FooterYear | frontend/src/components/NetworkMap.tsx:197 | The footer year is never empty. It is the text before the first `-` when that is nonempty, else `?`. |
| NetworkMap.PopupFor | frontend/src/components/NetworkMap.tsx:190-200 | A popup carries the edge name and the mode's detail. It has a `material • year` footer exactly when the material is set. |
| NetworkMap.PolylineFor | frontend/src/components/NetworkMap.tsx:160-171 | A polyline's colour is exactly the edge colour. It is dashed exactly when the status is `isolated` or there are acknowledged incidents. |
| NetworkMap.IsolatedSetAloneDoesNotDash | frontend/src/components/NetworkMap.tsx:160-164 | An edge that is isolated only through the realtime set is drawn red but not dashed. |
| NetworkMap.FooterYearIsAgeYear | frontend/src/components/NetworkMap.tsx:197 | When the footer shows a year, it is the very text the age colour rule parses. |
| NetworkMap.NodeRegistryContents | frontend/src/components/NetworkMap.tsx:102-143 | After a node pass the markers' keys are exactly the node ids. A duplicate id holds the marker of the last node with it. |
| NetworkMap.EdgeRegistryContents | frontend/src/components/NetworkMap.tsx:150-205 | After an edge pass an id is registered exactly when some edge with that id has both ends resolved. It holds the polyline of the last such edge. |
| NetworkMap.LeafletSlot.constructor | frontend/src/components/NetworkMap.tsx:37 | The shared library variable starts empty, with nothing imported. |
| NetworkMap.MapView.constructor | frontend/src/components/NetworkMap.tsx:48-52 | A component starts with no library, no map and empty registries. |
| NetworkMap.MapView.LoadLibrary | frontend/src/components/NetworkMap.tsx:55-65 | An already loaded library is reused without a new import. Otherwise it is imported once, only when there is a window. Nothing else changes. |
| NetworkMap.MapView.CreateMap | frontend/src/components/NetworkMap.tsx:68-81 | A map exists afterwards exactly when one already did, or the library and the container are both present. |
| NetworkMap.MapView.RemoveMap | frontend/src/components/NetworkMap.tsx:83-88 | The cleanup leaves no map and keeps the registries. |
| NetworkMap.MapView.RenderNodes | frontend/src/components/NetworkMap.tsx:99-144 | Without the library, the map or the nodes, nothing changes. Otherwise the markers become exactly the registry that clearing and then setting one marker per node yields. |
| NetworkMap.MapView.RenderEdges | frontend/src/components/NetworkMap.tsx:147-206 | Without the library, the map or the edges, nothing changes. Otherwise the polylines become exactly the registry of the edges whose ends both resolve. |
| NetworkMap.TwoMounts | frontend/src/components/NetworkMap.tsx:37-64 | Two mounts share the handle the first one loaded, and the library is imported once. |
| SensorData.EdgeNameMap | frontend/src/pages/SensorData.tsx:40 | The final row's id maps to the final row's name. `EdgeNameMapLastWins` states this for every id. |
| SensorData.EdgeNameMapLastWins | frontend/src/pages/SensorData.tsx:40 | Every id in the lookup maps to the name of the last row with that id, as the `Map` constructor keeps it. |
| SensorData.EdgeNameMapKeys | frontend/src/pages/SensorData.tsx:40 | The name lookup holds exactly the ids of the edge rows. |
| SensorData.DisplayName | frontend/src/pages/SensorData.tsx:49 | A group's name is the looked-up name when that is present and nonempty. Otherwise it is the id's first 8 characters. |
| SensorData.FindTypeIndex | frontend/src/pages/SensorData.tsx:54 | `findIndex` returns -1 exactly when no kept reading has the type. Otherwise it returns the first index with that type. |
| SensorData.AddReading | frontend/src/pages/SensorData.tsx:43-59 | A non-edge sensor changes nothing. An edge sensor's pipe gets a group that holds a reading of its type, and the other groups stay. |
| SensorData.GroupsOf | frontend/src/pages/SensorData.tsx:43-60 | Every group carries its pipe's id and its name-or-fallback. `GroupsOfShape` states the rest. |
| SensorData.Accumulate | frontend/src/pages/SensorData.tsx:44-57 | The reducer's in-place body (create the group, `findIndex`, `push`) yields exactly one `AddReading` step. |
| SensorData.GroupSensorsByEdge | frontend/src/pages/SensorData.tsx:43-60 | The `reduce` loop yields the grouping that `GroupsOfShape` characterises. |
| SensorData.GroupsOfShape | frontend/src/pages/SensorData.tsx:43-60 | There is a group exactly for each pipe with edge sensors. Each group has the right id and name-or-fallback, and no two kept readings share a type. Each kept reading is the first of its type for that pipe in input order, and every (pipe, type) pair of the input is kept. |
| SensorData.StatusColor | frontend/src/pages/SensorData.tsx:64-69 | The result is the red class exactly when pressure < 55, acoustic > 5 or flow > 110. Otherwise it is the muted class. |
| SensorData.StatusBadge | frontend/src/pages/SensorData.tsx:71-81 | The Alert badge is returned exactly when the reading alerts under the strict three-way rule. |
| SensorData.BadgeMatchesColor | frontend/src/pages/SensorData.tsx:64-81 | The Alert badge is returned exactly when the colour is the red class. |
| SensorData.CutoffsAreStrict | frontend/src/pages/SensorData.tsx:64-68 | A reading exactly at 55, 5 or 110 does not alert, and other sensor types never alert. |
| SensorData.NullPressureAlerts | frontend/src/pages/SensorData.tsx:65-67 | A null value alerts for pressure (`null < 55`) and not for acoustic or flow. |
| SensorData.CutoffsAreThresholds | frontend/src/constants.ts:5-15 | The page's cut-offs are exactly `PRESSURE_LOW_THRESHOLD`, `ACOUSTIC_HIGH_THRESHOLD` and `FLOW_HIGH_THRESHOLD`. |
| SensorData.NormalRangeIsQuiet | frontend/src/constants.ts:5-17 | A reading within its type's normal range never alerts. |
| Constants.ThresholdOrdering | frontend/src/constants.ts:5-17 | The pressure threshold is below the normal range, and the acoustic and flow thresholds are above theirs. |
| CheckCounts.Aggregate | backend/check_counts.py:10-20 | The loop yields the `by_type` counts and the `by_asset` lists, each with its dictionary's key order. |
| CheckCounts.Increment | backend/check_counts.py:19 | `by_type[t] += 1` on a `defaultdict(int)`: a missing key is inserted with 0 at the end of the key order, and then the count goes up by one. |
| CheckCounts.Append | backend/check_counts.py:20 | `by_asset[a].append(t)` on a `defaultdict(list)`: a missing key is inserted with `[]` at the end of the key order, and then `t` is appended. |
| CheckCounts.CountsExact | backend/check_counts.py:18-19 | `by_type[t]` exists exactly for the asset types that occur, and it is the number of sensors with that type. |
| CheckCounts.KeyOrderFacts | backend/check_counts.py:23-27 | A dictionary's iteration order lists each key that occurs exactly once, and no other. |
| CheckCounts.TypeCountsTotal | backend/check_counts.py:17-19 | The `by_type` counts, summed in dictionary order, give the number of sensors. |
| CheckCounts.TypesByAssetExact | backend/check_counts.py:20 | `by_asset[a]` exists exactly for the asset ids that occur. It lists the types of `a`'s sensors in input order, and its length is the number of `a`'s sensors. |
| CheckCounts.ListLengthsTotal | backend/check_counts.py:17-20 | The `by_asset` list lengths, summed in dictionary order, give the number of sensors. |
| CheckCounts.AssetDetail | backend/check_counts.py:29-31 | The name is the first lookup row's name, else `Node/Unknown`. The id is cut to its first 8 characters, and the count is the list's length. |
| CheckCounts.Report | backend/check_counts.py:27-31 | Line `i` of the report is the detail line of the `i`-th asset in dictionary order. `ReportCoversSensors` gives its coverage. |
| CheckCounts.ReportCoversSensors | backend/check_counts.py:27-31 | The report has one line per distinct asset id. The dictionary order lists each id once and exactly the ids that occur, and every such id has a `by_asset` entry. |
| RefreshSensors.Jittered | backend/refresh_sensors.py:26-37 | Before the clamp, the change is within ±0.5 for pressure, ±1.0 for flow and ±0.1 for acoustic. Any other type keeps its value. |
| RefreshSensors.NewReading | backend/refresh_sensors.py:26-42 | None stays None. A written value is never negative, and it is the jittered value or, when that is negative, 0. |
| RefreshSensors.ClampKeepsJitterBound | backend/refresh_sensors.py:26-40 | For a non-negative reading the written value stays within the type's jitter of it, even after the clamp. |
| RefreshSensors.ClampOnlyNegatives | backend/refresh_sensors.py:40 | The clamp replaces only negative results, and replaces them with 0. |
| RefreshSensors.RefreshAll | backend/refresh_sensors.py:12-49 | A missing or empty list gives no updates. Otherwise there is exactly one update per sensor, in list order, keyed by its id, with `last_seen` set to `now()` and the new-value rule applied. No written value is negative. |

## Left out

- Data fetching and polling (`useQuery`, `fetch`, database queries and updates, refetch intervals) are I/O against services outside the model. The model takes their results as inputs.
- Realtime channel subscription and removal, and the toasts. Only the isolated-set rule is modelled.
- Leaflet drawing: circles, polylines, tile layers, `setView`, popup DOM and `innerHTML` strings, weights and opacities. A layer is the value it is drawn from.
- The dynamic `import("leaflet")` is asynchronous. `MapView.LoadLibrary` completes it in one step, so the window between the import and its resolution, where two mounts could both start an import, is not modelled.
- `toFixed(1)` formatting, CSS transitions, and the page legends and stats cards are presentation only.
- Wall-clock time: the 2000 ms and 3000 ms delays appear only through the order they impose on the two timers.
- Animation: `value` is modelled as a real number, so NaN and -0 are not modelled. React compares effect dependencies with `Object.is`, while the guard uses `===`. For `0` followed by `-0`, the effect's cleanup cancels the timers and the guard then returns early, so the prior value would stay shown.
- Text.Take: counts Unicode scalar values, as Python's `[:8]` does, and uses that count for JavaScript's `substring(0, 8)` too. JavaScript counts UTF-16 code units, so for an id with a character outside the Basic Multilingual Plane it keeps fewer characters and can split a surrogate pair. The two agree on the ASCII UUIDs the database issues.
- Only the ASCII part of `toLowerCase` is modelled. Other Unicode case mappings are not.
- `Date` parsing and `toLocaleString` of `last_seen`, and a sensor's unit, are display only.
- `random.uniform` itself: each draw is an input whose range is a precondition.
- The `print` output of the scripts, including `upper()` on the type names. The model yields the data they print.
- The order of `Object.values` over the grouping object is not claimed. Groups are a map keyed by pipe id.
- The grouping object is a plain JavaScript object. An asset id that names an `Object.prototype` member (such as `constructor`) would find an inherited value instead of a group. Ids are treated as fresh keys.
- `highest_priority_incident` is never read by the colour rule.
- Absent optional boolean flags on an edge are read as `false`, as JavaScript's truthiness test does. A non-string `name` or `status` is not modelled.
- backend/add_sensors.py and the test files: a one-off insertion script and tests against code that is not part of this model.
