# Theater tab selection engine

A Dafny model of the activity/device selection engine of the theater tab in
`client/src/tabs/TheaterTab.js`. The tab watches an LG TV and a Denon
receiver over a message bus and infers which activity is running from their
telemetry. The activities are things like "Watch TV" or "Listen to Music".
The tab keeps the selected activity and device, and it stores that pair in
the browser's key-value store.

The model follows the source's own structure:

- `js_values.dfy` (`JsValues`) covers the JavaScript values the tab handles:
  `undefined`, `null`, strings, the `{ appId }` payload and the launch-point
  table. It also defines truthiness, `||` and `===`.
- `strings.dfy` (`Strings`) covers `indexOf`, `replace(/\s+/, "")` (which
  removes only the first whitespace run) and `toLowerCase`.
- `catalog.dfy` (`Catalog`) holds the device and activity catalogs, the
  `deviceMap` and `activitiesMap` loops, and the topics each device is
  subscribed to.
- `telemetry.dfy` (`Telemetry`) covers topic classification, the update of
  the observed signals, and how the TV input is derived from a launch-point
  title.
- `matching.dfy` (`Matching`) is the catalog scan that turns the observed
  inputs into selection switches.
- `persistence.dfy` (`Persistence`) covers the stored record and how
  `getPersisted` decodes it.
- `delivery.dfy` (`Delivery`) is one message delivery, written as a function
  of the handler's state. It is the specification of the handler.
- `engine.dfy` (`Engine`) holds the classes `Bus`, `Store` and
  `TheaterEngine`. `TheaterEngine` has the closure state of the component as
  fields, and its methods update those fields in place. Its methods are
  `OnMessage`, `Load`, `Persist`, `SelectDevice`, `SelectActivity`, `Setup`
  and `Teardown`. Each is proved against the functions above.

Behaviour of the code worth knowing, which the model keeps:

- **Matching compares both properties.** An activity matches on
  `inputs.tv === tvInput && inputs.avr === avrInput`. An activity that gives
  only `tv` has `inputs.avr` `undefined`, and the observed receiver input
  starts as `null` and later holds a string, so such an activity never
  matches (`AbsentInputNeverMatches`, `TvOnlySignatureScenario`).
- **The last match wins.** The scan has no `break`, so the last match wins
  rather than the first: every matching activity with a different name is
  selected and persisted in turn, and the last one in catalog order stays
  selected.
- **A failed load sets `null`.** After a failed load, both fields are set to
  `null`, not to the `"All Off"`/`"None"` initial values.
- **Only the first whitespace run is removed.** So `"Live TV Plus"` becomes
  `"livetv plus"`.
- **A missing launch-point entry throws.** It is not replaced by `unknown`:
  reading `.title` of `undefined` raises a TypeError that ends the handler.
  The model returns the `TypeError` outcome, with the observed field already
  written.

The selection is read at its latest value everywhere. In the source, every
`persist` reads the pair captured by the render that created it:

- the handler registered at mount and the recovery `persist` in
  `getPersisted` see the initial `"All Off"`/`"None"`. So after a failed load
  the source writes `{"All Off", "None"}`. Under the model's latest-read
  choice the `null`/`null` pair is written instead, and it reads back as
  `undefined` for both fields (`RecoveryRecordLoads`);
- the click handlers are rebuilt on every render, so their `persist` writes
  the pair from before the click, not the clicked one.

This choice is stated in a comment on `TheaterEngine`.

## Model

| member | source | states |
|---|---|---|
| JsValues.Truthy | client/src/tabs/TheaterTab.js:27-28 | the falsy values are exactly `undefined`, `null` and `""`; every other string and every object is truthy |
| JsValues.Or | client/src/tabs/TheaterTab.js:27-28 | the JavaScript `or` of `a` and `b` is `a` when `a` is truthy and `b` otherwise (so `null` or `undefined` is `undefined`); it is truthy exactly when either operand is |
| JsValues.StrictEq | client/src/tabs/TheaterTab.js:122 | `===` holds only of equal values, holds of every pair of equal `undefined`, `null` or string values, and never holds with an object on the left: a payload object is never the object it is compared with |
| Strings.IndexOf | client/src/tabs/TheaterTab.js:90-96 | `indexOf` is -1 exactly when the word does not occur; otherwise it is the first occurrence |
| Strings.ReplaceFirstSpaceRun | client/src/tabs/TheaterTab.js:109 | the maximal whitespace run starting at the first whitespace character is cut out, and everything else is kept in order |
| Strings.NoSpaceUnchanged | client/src/tabs/TheaterTab.js:109 | a title without whitespace passes the replace unchanged |
| Strings.ToLower | client/src/tabs/TheaterTab.js:110 | same length; no uppercase ASCII letter remains; every character maps through the ASCII lowering `LowerChar`, so `A`-`Z` become `a`-`z` and other characters are kept |
| Catalog.DevicesOf | client/src/tabs/TheaterTab.js:52 | the given device list, or none when the property is absent |
| Catalog.ActivitiesOf | client/src/tabs/TheaterTab.js:66 | the given activity list, or none when the property is absent |
| Catalog.InputsOf | client/src/tabs/TheaterTab.js:120 | the given signature, or one whose `tv` and `avr` are both `undefined` |
| Catalog.StatusTopic | client/src/tabs/TheaterTab.js:139-151 | a topic starts with the device type and a slash, ends with a slash and the signal name, and has nine characters besides the three parts |
| Catalog.TopicsFor | client/src/tabs/TheaterTab.js:136-156 | three topics for an `lgtv` device, one for a `denon` device, none for any other type |
| Catalog.TopicsAreStatusTopics | client/src/tabs/TheaterTab.js:139-151 | each topic of a device is a status topic of that device's type and identifier |
| Catalog.IndexDevices | client/src/tabs/TheaterTab.js:52-57 | `deviceMap` has every device type as a key and no other key; each type maps to the last device of that type in catalog order |
| Catalog.IndexActivities | client/src/tabs/TheaterTab.js:66-71 | every activity name is a key and no other key exists; each key maps to the whole activity list, as written |
| Catalog.AllTopicsFromKnownKinds | client/src/tabs/TheaterTab.js:134-157 | every subscribed topic is one of the topics of an `lgtv` or `denon` device; other device types contribute none |
| Telemetry.Observe | client/src/tabs/TheaterTab.js:90-98 | each of `power`, `foregroundApp`, `launchPoints` and `avrInput` takes the payload exactly when the topic is classified as that signal and keeps its value otherwise; the TV input is never written here |
| Telemetry.Classify | client/src/tabs/TheaterTab.js:90-98 | the signal is decided by the first of `power`, `foreground`, `launchPoints`, `SI` that occurs in the topic; a topic with none is unrouted |
| Telemetry.ObserveOverwritesOneField | client/src/tabs/TheaterTab.js:90-98 | exactly the classified field takes the payload; every other field, including the TV input, keeps its value; an unrouted topic changes nothing |
| Telemetry.ObserveIdempotent | client/src/tabs/TheaterTab.js:90-98 | applying the same message to the state it produced changes nothing |
| Telemetry.OwnTopicsRouted | client/src/tabs/TheaterTab.js:90-151 | each subscribed topic of a device whose id contains no keyword is routed to the field it was subscribed for |
| Telemetry.MisroutedByIdentifier | client/src/tabs/TheaterTab.js:90-143 | for every TV whose identifier contains `power`, the foreground-application topic is classified as power |
| Telemetry.NormalizeTitle | client/src/tabs/TheaterTab.js:108-110 | an absent or empty title gives `unknown`; any other title gives the lowering of the title with its first maximal whitespace run cut out; the label has no uppercase letter |
| Telemetry.NormalizeHdmiTitle | client/src/tabs/TheaterTab.js:108-110 | `HDMI 1` becomes `hdmi1` |
| Telemetry.NormalizeKeepsLaterSpace | client/src/tabs/TheaterTab.js:108-110 | `Live TV Plus` becomes `livetv plus`: a second whitespace run survives |
| Telemetry.DeriveTvInput | client/src/tabs/TheaterTab.js:106-111 | the block does anything only for an LG TV with truthy launch points and foreground app; it then throws unless the foreground app is an `{ appId }` payload whose id is empty or is a key of a launch-point table (inputs on which JavaScript finds the property elsewhere are listed under Left out); a derived label has no uppercase letter |
| Telemetry.TvInputRecomputedOnlyWhen | client/src/tabs/TheaterTab.js:106-111 | the TV input is recomputed exactly when the tab watches an LG TV and the foreground app has a non-empty id with a launch-point entry; the new value is that entry's normalised title; it does not depend on the old input |
| Matching.Matches | client/src/tabs/TheaterTab.js:122 | the match test itself, `===` on both the `tv` and the `avr` property; what it means is stated by `Matching.MatchesExactly` |
| Matching.MatchesExactly | client/src/tabs/TheaterTab.js:122 | an activity matches exactly when its signature equals the observed pair and neither observed value is an object |
| Matching.SelectionOf | client/src/tabs/TheaterTab.js:124-125 | switching to an activity selects its default device and an activity value `===` to its name |
| Matching.Switches | client/src/tabs/TheaterTab.js:119-129 | the selections the scan switches to, in order, at most one per activity |
| Matching.SwitchesChangeActivity | client/src/tabs/TheaterTab.js:122-126 | every switch changes the current activity: it is to a name not `===` to the activity selected just before it |
| Matching.LastMatch | client/src/tabs/TheaterTab.js:119-122 | the index of a matching activity with no matching activity after it, or -1 when none matches |
| Matching.NoMatchNoSwitch | client/src/tabs/TheaterTab.js:119-129 | with no matching activity the scan switches nothing, so nothing is persisted |
| Matching.SwitchesAreMatches | client/src/tabs/TheaterTab.js:122-126 | every switch is to the (name, default device) pair of a matching activity |
| Matching.LastMatchWins | client/src/tabs/TheaterTab.js:119-129 | after the scan, the current activity is the last matching activity in catalog order |
| Matching.LastMatchSelected | client/src/tabs/TheaterTab.js:119-129 | with unique names, the selection after the scan is the last match's pair, unless that activity was already current and nothing switched |
| Matching.SettledScanIsQuiet | client/src/tabs/TheaterTab.js:123-127 | when exactly one activity matches and it is already current, the scan switches and persists nothing |
| Matching.ScanIdempotent | client/src/tabs/TheaterTab.js:119-129 | scanning again from the selection a scan produced changes nothing |
| Matching.UnmatchedIrrelevant | client/src/tabs/TheaterTab.js:119-122 | removing a non-matching activity from any position leaves the switches unchanged |
| Matching.AbsentInputNeverMatches | client/src/tabs/TheaterTab.js:120-122 | an activity that omits `tv` or `avr` never matches an observed `null` or string value |
| Persistence.Encode | client/src/tabs/TheaterTab.js:40-45 | the record holds the pair under `currentActivity`/`currentDevice` only, and the record written always loads |
| Persistence.Decode | client/src/tabs/TheaterTab.js:26-28 | loading succeeds exactly on a non-null JSON value, whose missing properties read as `undefined`; each field then comes from the canonical property or the legacy one |
| Persistence.LoadedSelection | client/src/tabs/TheaterTab.js:24-33 | the selection left by loading: the decoded pair, or `null`/`null` after a failure |
| Persistence.LoadWrites | client/src/tabs/TheaterTab.js:30-34 | loading persists exactly once, the `null`/`null` pair, when it fails, and nothing when it succeeds |
| Persistence.CorruptExactly | client/src/tabs/TheaterTab.js:24-35 | loading fails exactly for a missing key, unparsable text and `null` |
| Persistence.RoundTrip | client/src/tabs/TheaterTab.js:24-45 | a saved pair reads back as itself exactly when each field is truthy or `undefined` |
| Persistence.LegacyFieldsCompatible | client/src/tabs/TheaterTab.js:27-28 | a record with only `activeActivity`/`activeDevice` loads like the canonical record with the same values |
| Persistence.CanonicalFieldsWin | client/src/tabs/TheaterTab.js:27-28 | each canonical property is used when truthy and the legacy one otherwise |
| Persistence.RecoveryRecordLoads | client/src/tabs/TheaterTab.js:30-45 | the record written by recovery loads, with both fields `undefined`, instead of failing again |
| Delivery.Step | client/src/tabs/TheaterTab.js:89-130 | only the classified field and the derived TV input change; the selection is the last switch; no writes unless the scan ran; the writes are the scan's switches over the new inputs |
| Delivery.PowerGating | client/src/tabs/TheaterTab.js:101-104 | when power is not `"on"` after the update, the TV input, the selection and the store are untouched, whatever would match |
| Delivery.PowerOnReachesScan | client/src/tabs/TheaterTab.js:101-129 | with the power `"on"` after the update, the scan runs exactly when the TV-input block does not throw; the TV input is kept when the block derives nothing and becomes the derived label otherwise |
| Delivery.MatchEffect | client/src/tabs/TheaterTab.js:119-129 | after a delivery that reaches the scan, no match leaves the selection and the store alone; otherwise the last match is the current activity |
| Delivery.SettledDeliveryIsQuiet | client/src/tabs/TheaterTab.js:119-129 | a delivery whose only match is already current changes nothing and writes nothing |
| Delivery.RedeliveryIdempotent | client/src/tabs/TheaterTab.js:89-130 | with unique activity names, delivering the same message twice leaves the state as one delivery left it |
| Delivery.HdmiInputDerived | client/src/tabs/TheaterTab.js:106-111 | a foreground app whose launch point is titled `HDMI 1` yields the TV input `hdmi1` |
| Delivery.SingleActivityDelivery | client/src/tabs/TheaterTab.js:101-129 | with the power on and a recomputed TV input, a one-activity catalog whose activity matches and is not current ends with that activity selected and persisted exactly once |
| Delivery.WatchTvScenario | client/src/tabs/TheaterTab.js:89-130 | with the TV on and the receiver on `TV`, switching the TV to HDMI 1 selects "Watch TV" on "tv" with exactly one write |
| Delivery.TvOnlySignatureScenario | client/src/tabs/TheaterTab.js:119-129 | the same transition against a signature naming only `tv` matches nothing and writes nothing |
| Engine.RegistrationsAppend | client/src/tabs/TheaterTab.js:134-157 | registering the topics of two device lists registers those of each |
| Engine.RegistrationsExactly | client/src/tabs/TheaterTab.js:134-157 | the handler is registered for every listed topic and for nothing else |
| Engine.OtherHandlersUntouched | client/src/tabs/TheaterTab.js:159-183 | the cleanup leaves every registration of another handler in place |
| Engine.SavedSelectionReloads | client/src/tabs/TheaterTab.js:24-45 | after a run of saves to a writable store, loading restores the last pair saved, if both its fields are non-empty |
| Engine.Bus.Subscribe | client/src/tabs/TheaterTab.js:139 | adds one registration |
| Engine.Bus.Unsubscribe | client/src/tabs/TheaterTab.js:164 | removes one registration, if present |
| Engine.Store.Item | client/src/tabs/TheaterTab.js:26 | `getItem` returns nothing exactly for a missing key, and otherwise the record stored under it |
| Engine.Store.SetItem | client/src/tabs/TheaterTab.js:45-48 | a writable store takes the record under the key; an unwritable one keeps its contents; the attempt is logged either way |
| Engine.TheaterEngine.constructor | client/src/tabs/TheaterTab.js:16-87 | the key is `theater-` + title; the catalogs and their indexes are built; the selection starts at `All Off`/`None`; all observed signals are `null`; the TV type is `unknown` |
| Engine.TheaterEngine.Persist | client/src/tabs/TheaterTab.js:38-49 | the canonical two-field record of the current pair is written under the key; a failed write is swallowed |
| Engine.TheaterEngine.Load | client/src/tabs/TheaterTab.js:24-36 | the selection is the decoded pair; on failure it is `null`/`null`, and that pair is persisted once; the observed state is unchanged |
| Engine.TheaterEngine.SelectDevice | client/src/tabs/TheaterTab.js:59-63 | the device becomes the clicked device's name; the activity is unchanged; the pair is persisted |
| Engine.TheaterEngine.SelectActivity | client/src/tabs/TheaterTab.js:72-75 | the selection becomes the activity's name and default device; the pair is persisted |
| Engine.TheaterEngine.Ingest | client/src/tabs/TheaterTab.js:90-98 | the observed state becomes the one `Observe` specifies; nothing else changes |
| Engine.TheaterEngine.DeriveInput | client/src/tabs/TheaterTab.js:106-111 | the TV input is set exactly when the derivation yields a value; it reports failure exactly when the block throws |
| Engine.TheaterEngine.SwitchTo | client/src/tabs/TheaterTab.js:124-126 | the selection becomes the activity's pair, and that pair is persisted after the scan's earlier writes |
| Engine.TheaterEngine.Visit | client/src/tabs/TheaterTab.js:120-128 | one activity of the scan: the switches, the selection and the store advance exactly as the scan specification does for that activity |
| Engine.TheaterEngine.Scan | client/src/tabs/TheaterTab.js:119-129 | the selection is the last of the scan's switches; each switch is persisted in order; the observed state is unchanged |
| Engine.TheaterEngine.OnMessage | client/src/tabs/TheaterTab.js:89-130 | the outcome, the new state and the store writes are those of `Delivery.Step` |
| Engine.TheaterEngine.SubscribeDevice | client/src/tabs/TheaterTab.js:136-156 | an LG TV's three topics or a receiver's one topic are registered, and the TV type is set for an LG TV |
| Engine.TheaterEngine.SubscribeNext | client/src/tabs/TheaterTab.js:134-157 | one device of the mount loop: the registrations and the TV type for the first `n` devices become those for the first `n + 1` |
| Engine.TheaterEngine.SubscribeAll | client/src/tabs/TheaterTab.js:134-157 | every device's topics are registered in catalog order; the TV type becomes `lgtv` exactly when some device is an LG TV |
| Engine.TheaterEngine.Setup | client/src/tabs/TheaterTab.js:132-157 | the selection is loaded, then all topics are registered |
| Engine.TheaterEngine.UnsubscribeDevice | client/src/tabs/TheaterTab.js:162-181 | exactly the registrations made for the device are removed |
| Engine.TheaterEngine.Teardown | client/src/tabs/TheaterTab.js:159-183 | exactly the registrations setup made are removed |
| Engine.TheaterEngine.Lifecycle | client/src/tabs/TheaterTab.js:132-184 | mounting then unmounting leaves the bus as it was |

## Left out

- React rendering, `useState` batching and re-rendering are not modelled. The JSX is at client/src/tabs/TheaterTab.js:186-221. In the source, each `persist` and the mount-time handler read the selection captured by the render that created them: the initial pair for the mount handler and for the recovery in `getPersisted`, and the pair from before the click for the click handlers. The model reads the latest value instead, so `Engine.TheaterEngine.Load`, `SelectDevice`, `SelectActivity` and `OnMessage` persist the pair they have just set.
- The `console.log` calls are not modelled. The `lgtv` display object built at lines 112-116 is not modelled either; it feeds only the view.
- The log-line lookup `activitiesMap[activity]` at line 76 is not modelled. It affects only a log message.
- The message bus library and the browser store are not part of this model. They are represented by the `Bus` and `Store` classes, which hold a multiset of registrations and a key-to-record map. JSON text is not parsed: a stored record is already decoded into `Stored`.
- `getItem` throwing (storage disabled) is not modelled. Only `setItem` failures are.
- Strings.ToLower: lowercasing covers only the ASCII letters A-Z, not the full Unicode case mapping of `toLowerCase`.
- Telemetry.NormalizeTitle: inherits the ASCII-only lowering of `Strings.ToLower`.
- Payloads other than `undefined`, `null`, strings, `{ appId }` and launch-point tables are not distinguished. Launch-point entries are reduced to their `title`.
- Telemetry.DeriveTvInput: property lookups are modelled on own keys only, so the model throws in a few cases where JavaScript finds a property elsewhere. These cases are a string as the launch-point payload (an index or `length` gives a value whose `.title` is `undefined`, so the label is `unknown`); an id that names an inherited property such as `constructor`, `toString` or `__proto__` (label `unknown`); an `{ appId }` payload as the launch-point table with the id `appId` (label `unknown`); and a launch-point table as the foreground app with an `appId` key (`.length` of an entry is `undefined`, so the block is skipped). `Telemetry.TvInputRecomputedOnlyWhen` and `Engine.TheaterEngine.DeriveInput` inherit this.
- Telemetry.TvInputRecomputedOnlyWhen: inherits the own-key property lookups of `Telemetry.DeriveTvInput`.
- Engine.TheaterEngine.DeriveInput: inherits the own-key property lookups of `Telemetry.DeriveTvInput`.
- Matching.LastMatchSelected, Matching.ScanIdempotent and Delivery.RedeliveryIdempotent require unique activity names, and their proofs use that. The source does not check names, and these lemmas say nothing about a catalog with duplicate names.
- The telemetry scenarios fix the TV identifier `tv1`. Topics of identifiers that contain a keyword are misrouted (`Telemetry.MisroutedByIdentifier`).
- `src/lib/Locale.js`, `src/Tablet/Nest/ThermostatTab.js` and `client/src/components/harmony/ColoredButtons.js` are not part of this model. They hold unit conversions and view code.
