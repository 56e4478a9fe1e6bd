/** The theater tab's selection engine as an object: the closure state of the
    component, the message handler, the two click handlers, loading and
    saving the selection, and the mount/unmount subscriptions.  The message
    bus and the browser's key-value store are collaborators whose state the
    engine changes. */
module Engine {
  import opened JsValues
  import opened Catalog
  import opened Telemetry
  import opened Matching
  import opened Persistence
  import opened Delivery

  /** One registration on the message bus: a topic and the identity of the
      callback registered for it. */
  datatype Subscription = Subscription(topic: string, handler: nat)

  /** The registrations of `handler` for each topic of `topics`. */
  function Registrations(topics: seq<string>, handler: nat): multiset<Subscription>
  {
    if topics == [] then multiset{}
    else Registrations(topics[..|topics| - 1], handler) + multiset{Subscription(topics[|topics| - 1], handler)}
  }

  /** Registering a concatenation registers each part. */
  lemma {:induction false} RegistrationsAppend(a: seq<string>, b: seq<string>, handler: nat)
    ensures Registrations(a + b, handler) == Registrations(a, handler) + Registrations(b, handler)
  {
    if b == [] {
      assert a + b == a;
    } else {
      var n := |b| - 1;
      assert (a + b)[..|a + b| - 1] == a + b[..n];
      RegistrationsAppend(a, b[..n], handler);
    }
  }

  /** A registration exists for every topic of the list and for nothing else. */
  lemma {:induction false} RegistrationsExactly(topics: seq<string>, handler: nat, s: Subscription)
    ensures s in Registrations(topics, handler) <==> s.handler == handler && s.topic in topics
  {
    if topics != [] {
      var n := |topics| - 1;
      RegistrationsExactly(topics[..n], handler, s);
      assert topics == topics[..n] + [topics[n]];
    }
  }

  /** The registrations for a list of three topics. */
  lemma RegistrationsOfThree(topics: seq<string>, handler: nat)
    requires |topics| == 3
    ensures Registrations(topics, handler) ==
      multiset{Subscription(topics[0], handler)} + multiset{Subscription(topics[1], handler)}
        + multiset{Subscription(topics[2], handler)}
  {
    assert topics[..2][..1] == topics[..1];
    assert topics[..1][..0] == [];
    assert topics[..3] == topics;
    assert Registrations(topics[..1], handler) == multiset{Subscription(topics[0], handler)};
    assert Registrations(topics[..2], handler) == Registrations(topics[..1], handler) + multiset{Subscription(topics[1], handler)};
  }

  /** The registrations for a list of one topic. */
  lemma RegistrationsOfOne(topics: seq<string>, handler: nat)
    requires |topics| == 1
    ensures Registrations(topics, handler) == multiset{Subscription(topics[0], handler)}
  {
    assert topics[..0] == [];
  }

  /** Some device among the first `n + 1` is of a kind exactly when one among
      the first `n` is or device `n` is. */
  lemma HasKindStep(devices: seq<Device>, n: int, kind: string)
    requires 0 <= n < |devices|
    ensures HasKind(devices, n + 1, kind) <==> HasKind(devices, n, kind) || devices[n].kind == kind
  {
    if devices[n].kind == kind {
      assert 0 <= n < n + 1 && devices[n].kind == kind;
    }
  }

  /** Removing `a` and then `b` removes `a + b`. */
  lemma RemoveInTurn(m: multiset<Subscription>, a: multiset<Subscription>, b: multiset<Subscription>)
    ensures (m - a) - b == m - (a + b)
  {
    forall s ensures ((m - a) - b)[s] == (m - (a + b))[s] {
    }
  }

  /** Unregistering one handler's topics leaves every registration of any
      other handler as it was. */
  lemma OtherHandlersUntouched(m: multiset<Subscription>, topics: seq<string>, handler: nat, s: Subscription)
    requires s.handler != handler
    ensures (m - Registrations(topics, handler))[s] == m[s]
  {
    RegistrationsExactly(topics, handler, s);
  }

  /** The message bus: a multiset of registrations, since the same topic may
      be registered more than once. */
  class Bus {
    var subscriptions: multiset<Subscription>

    constructor ()
      ensures subscriptions == multiset{}
    {
      subscriptions := multiset{};
    }

    method Subscribe(topic: string, handler: nat)
      modifies this
      ensures subscriptions == old(subscriptions) + multiset{Subscription(topic, handler)}
    {
      subscriptions := subscriptions + multiset{Subscription(topic, handler)};
    }

    /** Removes one registration of `handler` for `topic`, if there is one. */
    method Unsubscribe(topic: string, handler: nat)
      modifies this
      ensures subscriptions == old(subscriptions) - multiset{Subscription(topic, handler)}
    {
      subscriptions := subscriptions - multiset{Subscription(topic, handler)};
    }
  }

  /** The registrations for the first `n + 1` devices are those for the
      first `n` plus those of device `n`. */
  lemma RegistrationsStep(devices: seq<Device>, n: int, handler: nat, bus0: multiset<Subscription>)
    requires 0 <= n < |devices|
    ensures bus0 + Registrations(AllTopics(devices[..n + 1]), handler)
      == (bus0 + Registrations(AllTopics(devices[..n]), handler)) + Registrations(TopicsFor(devices[n]), handler)
  {
    assert devices[..n + 1][..n] == devices[..n];
    RegistrationsAppend(AllTopics(devices[..n]), TopicsFor(devices[n]), handler);
  }

  /** The browser's key-value store.  When it is not writable (storage
      disabled or full) `setItem` throws, and `persist` swallows the error;
      `attempts` records every write `persist` makes, successful or not. */
  class Store {
    var items: map<string, Stored>
    var writable: bool
    ghost var attempts: seq<(string, Stored)>

    constructor (items0: map<string, Stored>, writable0: bool)
      ensures items == items0 && writable == writable0 && attempts == []
    {
      items := items0;
      writable := writable0;
      attempts := [];
    }

    /** `getItem`: the stored record, `None` for a missing key. */
    function Item(key: string): (r: Option<Stored>)
      reads this
      ensures r.None? <==> key !in items
      ensures r.Some? ==> r.value == items[key]
    {
      if key in items then Some(items[key]) else None
    }

    method SetItem(key: string, value: Stored)
      modifies this
      ensures writable == old(writable)
      ensures items == if writable then old(items)[key := value] else old(items)
      ensures attempts == old(attempts) + [(key, value)]
    {
      if writable {
        items := items[key := value];
      }
      attempts := attempts + [(key, value)];
    }
  }

  /** The store's contents after persisting each selection of `sels` in turn
      under `key`: only the last one remains, if the store is writable. */
  function AfterPersists(items: map<string, Stored>, writable: bool, key: string, sels: seq<Selection>): map<string, Stored>
  {
    if !writable || sels == [] then items else items[key := Encode(sels[|sels| - 1])]
  }

  /** The writes persisting each selection of `sels` in turn makes. */
  function PersistLog(key: string, sels: seq<Selection>): (log: seq<(string, Stored)>)
    ensures |log| == |sels|
    ensures forall j :: 0 <= j < |sels| ==> log[j] == (key, Encode(sels[j]))
  {
    if sels == [] then [] else PersistLog(key, sels[..|sels| - 1]) + [(key, Encode(sels[|sels| - 1]))]
  }

  /** Persisting one more selection overwrites the key once more. */
  lemma PersistStep(items: map<string, Stored>, writable: bool, key: string, sels: seq<Selection>, s: Selection)
    ensures AfterPersists(items, writable, key, sels + [s]) == AfterPersists(AfterPersists(items, writable, key, sels), writable, key, [s])
    ensures PersistLog(key, sels + [s]) == PersistLog(key, sels) + PersistLog(key, [s])
  {
    assert (sels + [s])[..|sels|] == sels;
  }

  /** After a run of persists to a writable store, the next load restores the
      last selection saved, provided both its fields are non-empty. */
  lemma {:induction false} SavedSelectionReloads(items: map<string, Stored>, key: string, sels: seq<Selection>)
    requires sels != []
    requires Truthy(sels[|sels| - 1].activity) && Truthy(sels[|sels| - 1].device)
    ensures var after := AfterPersists(items, true, key, sels);
      key in after && Decode(Some(after[key])) == Restored(sels[|sels| - 1])
  {
    RoundTrip(sels[|sels| - 1]);
  }

  /** Some device among the first `n` is of the given kind. */
  ghost predicate HasKind(devices: seq<Device>, n: int, kind: string)
  {
    exists i :: 0 <= i < n && i < |devices| && devices[i].kind == kind
  }

  class TheaterEngine {
    /** `theater-<title>`, the key the selection is stored under. */
    const key: string
    const devices: seq<Device>
    const activities: seq<Activity>
    const deviceMap: map<string, Device>
    const activitiesMap: map<string, seq<Activity>>
    /** The identity of the registered message callback. */
    const handler: nat
    const bus: Bus
    const store: Store

    // The selection.  Every read sees the latest write.  In the source each
    // `persist` reads the pair captured by the render that created it: the
    // mount-time handler and the recovery in `getPersisted` see the initial
    // `"All Off"`/`"None"`, and a click handler sees the pair from before the
    // click.  This model does not reproduce those stale copies.
    var currentActivity: Value
    var currentDevice: Value

    // The observed signals, overwritten by the message handler.
    var power: Value
    var foregroundApp: Value
    var launchPoints: Value
    var tvInput: Value
    var avrInput: Value
    var tvType: string

    function Selected(): Selection
      reads this
    {
      Selection(currentActivity, currentDevice)
    }

    function State(): Snapshot
      reads this
    {
      Snapshot(Observed(power, foregroundApp, launchPoints, tvInput, avrInput), tvType, Selected())
    }

    /** The first render: the initial selection, empty observations, the
        device and activity indexes. */
    constructor (theater: Theater, bus: Bus, store: Store, handler: nat)
      ensures key == "theater-" + theater.title
      ensures devices == DevicesOf(theater) && activities == ActivitiesOf(theater)
      ensures IndexesByKind(devices, |devices|, deviceMap)
      ensures forall i :: 0 <= i < |activities| ==> activities[i].name in activitiesMap
      ensures forall name :: name in activitiesMap ==> activitiesMap[name] == activities
      ensures this.bus == bus && this.store == store && this.handler == handler
      ensures Selected() == Selection(Text("All Off"), Text("None"))
      ensures power == Null && foregroundApp == Null && launchPoints == Null
      ensures tvInput == Null && avrInput == Null && tvType == "unknown"
    {
      key := "theater-" + theater.title;
      devices := DevicesOf(theater);
      activities := ActivitiesOf(theater);
      var dm := IndexDevices(DevicesOf(theater));
      var am := IndexActivities(ActivitiesOf(theater));
      deviceMap := dm;
      activitiesMap := am;
      this.handler := handler;
      this.bus := bus;
      this.store := store;
      currentActivity := Text("All Off");
      currentDevice := Text("None");
      power, foregroundApp, launchPoints := Null, Null, Null;
      tvInput, avrInput := Null, Null;
      tvType := "unknown";
    }

    /** `persist`: the current pair, under the tab's key. */
    method Persist()
      modifies store
      ensures store.writable == old(store.writable)
      ensures store.items == AfterPersists(old(store.items), store.writable, key, [Selected()])
      ensures store.attempts == old(store.attempts) + PersistLog(key, [Selected()])
    {
      store.SetItem(key, Encode(Selection(currentActivity, currentDevice)));
    }

    /** `getPersisted`: restore the stored pair, or set both fields to `null`
        and persist that when the stored item cannot be read. */
    method Load()
      modifies this, store
      ensures Selected() == LoadedSelection(old(store.Item(key)))
      ensures State().obs == old(State().obs) && tvType == old(tvType)
      ensures store.writable == old(store.writable)
      ensures store.items == AfterPersists(old(store.items), store.writable, key, LoadWrites(old(store.Item(key))))
      ensures store.attempts == old(store.attempts) + PersistLog(key, LoadWrites(old(store.Item(key))))
    {
      var item := store.Item(key);
      match Decode(item)
      case Restored(sel) =>
        currentActivity := sel.activity;
        currentDevice := sel.device;
      case Corrupt =>
        currentActivity := Null;
        currentDevice := Null;
        Persist();
    }

    /** `handleDeviceClick`: the device changes, the activity stays. */
    method SelectDevice(d: Device)
      modifies this, store
      ensures Selected() == Selection(old(currentActivity), d.name)
      ensures State().obs == old(State().obs) && tvType == old(tvType)
      ensures store.writable == old(store.writable)
      ensures store.items == AfterPersists(old(store.items), store.writable, key, [Selected()])
      ensures store.attempts == old(store.attempts) + PersistLog(key, [Selected()])
    {
      currentDevice := d.name;
      Persist();
    }

    /** `handleActivityClick`: the activity and its default device. */
    method SelectActivity(a: Activity)
      modifies this, store
      ensures Selected() == SelectionOf(a)
      ensures State().obs == old(State().obs) && tvType == old(tvType)
      ensures store.writable == old(store.writable)
      ensures store.items == AfterPersists(old(store.items), store.writable, key, [Selected()])
      ensures store.attempts == old(store.attempts) + PersistLog(key, [Selected()])
    {
      currentActivity := Text(a.name);
      currentDevice := a.defaultDevice;
      Persist();
    }

    /** The first statement of `onMessage`: the payload is stored in the
        field the topic is classified as. */
    method Ingest(topic: string, message: Value)
      modifies this
      ensures State() == old(State()).(obs := Observe(old(State()).obs, topic, message))
    {
      match Classify(topic) {
        case PowerSignal => power := message;
        case ForegroundSignal => foregroundApp := message;
        case LaunchPointsSignal => launchPoints := message;
        case AvrInputSignal => avrInput := message;
        case Unrouted =>
      }
    }

    /** The TV-input block of `onMessage`; `false` when it throws. */
    method DeriveInput() returns (ok: bool)
      modifies this
      ensures ok <==> !DeriveTvInput(old(State()).obs, tvType).Throws?
      ensures DeriveTvInput(old(State()).obs, tvType).SetTo? ==>
        State() == old(State()).(obs := old(State()).obs.(tvInput := Text(DeriveTvInput(old(State()).obs, tvType).input)))
      ensures !DeriveTvInput(old(State()).obs, tvType).SetTo? ==> State() == old(State())
    {
      ok := true;
      if tvType == "lgtv" && Truthy(launchPoints) && Truthy(foregroundApp) {
        // `foregroundApp.appId.length` throws when the payload has no
        // `appId`, and `launchPoints[appId].title` when the entry is missing.
        // Inputs on which JavaScript finds a property elsewhere (a string of
        // launch points, an inherited property name) are not distinguished.
        if !foregroundApp.App? {
          ok := false;
        } else if |foregroundApp.appId| > 0 {
          if !launchPoints.Points? || foregroundApp.appId !in launchPoints.entries {
            ok := false;
          } else {
            tvInput := Text(NormalizeTitle(launchPoints.entries[foregroundApp.appId].title));
          }
        }
      }
    }

    /** The body of a match in the catalog scan: select the activity and its
        default device, and persist, after the earlier `switches` of the
        same scan. */
    method SwitchTo(a: Activity, ghost switches: seq<Selection>,
                    ghost items0: map<string, Stored>, ghost attempts0: seq<(string, Stored)>)
      requires store.items == AfterPersists(items0, store.writable, key, switches)
      requires store.attempts == attempts0 + PersistLog(key, switches)
      modifies this, store
      ensures Selected() == SelectionOf(a)
      ensures State().obs == old(State().obs) && tvType == old(tvType)
      ensures store.writable == old(store.writable)
      ensures store.items == AfterPersists(items0, store.writable, key, switches + [SelectionOf(a)])
      ensures store.attempts == attempts0 + PersistLog(key, switches + [SelectionOf(a)])
    {
      PersistStep(items0, store.writable, key, switches, SelectionOf(a));
      currentDevice := a.defaultDevice;
      currentActivity := Text(a.name);
      Persist();
      assert store.attempts == (attempts0 + PersistLog(key, switches)) + PersistLog(key, [SelectionOf(a)]);
    }

    /** One iteration of the catalog scan: activity `i` is selected and
        persisted when it matches and is not already the current activity. */
    method Visit(i: int, tv: Value, avr: Value, ghost start: Selection, ghost switches: seq<Selection>,
                 ghost items0: map<string, Stored>, ghost attempts0: seq<(string, Stored)>)
      returns (ghost switches': seq<Selection>)
      requires 0 <= i < |activities|
      requires switches == Switches(activities[..i], tv, avr, start)
      requires Selected() == Latest(start, switches)
      requires store.items == AfterPersists(items0, store.writable, key, switches)
      requires store.attempts == attempts0 + PersistLog(key, switches)
      modifies this, store
      ensures switches' == Switches(activities[..i + 1], tv, avr, start)
      ensures Selected() == Latest(start, switches')
      ensures State().obs == old(State().obs) && tvType == old(tvType)
      ensures store.writable == old(store.writable)
      ensures store.items == AfterPersists(items0, store.writable, key, switches')
      ensures store.attempts == attempts0 + PersistLog(key, switches')
    {
      SwitchesStep(activities, i, tv, avr, start);
      var a := activities[i];
      var inputs := InputsOf(a);
      var switching := StrictEq(inputs.tv, tv) && StrictEq(inputs.avr, avr) && !StrictEq(currentActivity, Text(a.name));
      assert switching <==> Matches(a, tv, avr) && !StrictEq(Latest(start, switches).activity, Text(a.name));
      if switching {
        SwitchTo(a, switches, items0, attempts0);
        switches' := switches + [SelectionOf(a)];
      } else {
        switches' := switches;
      }
    }

    /** The catalog scan of `onMessage`: every matching activity whose name
        differs from the current one is selected and persisted, in order. */
    method Scan()
      modifies this, store
      ensures var ws := Switches(activities, tvInput, avrInput, old(Selected()));
        && State() == old(State()).(sel := Latest(old(Selected()), ws))
        && store.items == AfterPersists(old(store.items), old(store.writable), key, ws)
        && store.attempts == old(store.attempts) + PersistLog(key, ws)
      ensures store.writable == old(store.writable)
    {
      ghost var start := Selected();
      ghost var switches: seq<Selection> := [];
      var tv, avr := tvInput, avrInput;
      for i := 0 to |activities|
        invariant switches == Switches(activities[..i], tv, avr, start)
        invariant Selected() == Latest(start, switches)
        invariant State().obs == old(State().obs) && tvType == old(tvType)
        invariant store.writable == old(store.writable)
        invariant store.items == AfterPersists(old(store.items), store.writable, key, switches)
        invariant store.attempts == old(store.attempts) + PersistLog(key, switches)
      {
        switches := Visit(i, tv, avr, start, switches, old(store.items), old(store.attempts));
      }
      assert activities[..|activities|] == activities;
    }

    /** `onMessage`: one delivery, as `Step` specifies it, with each switch of
        the catalog scan persisted as it happens. */
    method OnMessage(topic: string, message: Value) returns (outcome: Outcome)
      modifies this, store
      ensures var r := Step(activities, old(State()), topic, message);
        && outcome == r.outcome
        && State() == r.after
        && store.items == AfterPersists(old(store.items), old(store.writable), key, r.writes)
        && store.attempts == old(store.attempts) + PersistLog(key, r.writes)
      ensures store.writable == old(store.writable)
    {
      Ingest(topic, message);
      if !StrictEq(power, Text("on")) {
        return PowerOff;
      }
      var ok := DeriveInput();
      if !ok {
        return TypeError;
      }
      Scan();
      return Reconciled;
    }

    /** One arm of the mount effect's `switch`: the topics of one device,
        and the TV type for an LG TV. */
    method SubscribeDevice(d: Device)
      modifies this, bus
      ensures bus.subscriptions == old(bus.subscriptions) + Registrations(TopicsFor(d), handler)
      ensures tvType == if d.kind == "lgtv" then "lgtv" else old(tvType)
      ensures Selected() == old(Selected()) && State().obs == old(State().obs)
    {
      if d.kind == "lgtv" {
        tvType := "lgtv";
        bus.Subscribe(StatusTopic("lgtv", d.id, "power"), handler);
        bus.Subscribe(StatusTopic("lgtv", d.id, "foregroundApp"), handler);
        bus.Subscribe(StatusTopic("lgtv", d.id, "launchPoints"), handler);
        RegistrationsOfThree(TopicsFor(d), handler);
      } else if d.kind == "denon" {
        bus.Subscribe(StatusTopic("denon", d.id, "SI"), handler);
        RegistrationsOfOne(TopicsFor(d), handler);
      }
    }

    /** One iteration of the mount effect's loop: the registrations and the
        TV type for the first `n` devices become those for the first `n + 1`. */
    method SubscribeNext(n: int, ghost bus0: multiset<Subscription>, ghost type0: string)
      requires 0 <= n < |devices|
      requires bus.subscriptions == bus0 + Registrations(AllTopics(devices[..n]), handler)
      requires tvType == if HasKind(devices, n, "lgtv") then "lgtv" else type0
      modifies this, bus
      ensures bus.subscriptions == bus0 + Registrations(AllTopics(devices[..n + 1]), handler)
      ensures tvType == if HasKind(devices, n + 1, "lgtv") then "lgtv" else type0
      ensures Selected() == old(Selected()) && State().obs == old(State().obs)
    {
      HasKindStep(devices, n, "lgtv");
      SubscribeDevice(devices[n]);
      RegistrationsStep(devices, n, handler, bus0);
    }

    /** The loop of the mount effect: every topic of every device, in
        catalog order, and the TV type when an LG TV is among them. */
    method SubscribeAll()
      modifies this, bus
      ensures bus.subscriptions == old(bus.subscriptions) + Registrations(AllTopics(devices), handler)
      ensures HasKind(devices, |devices|, "lgtv") ==> tvType == "lgtv"
      ensures !HasKind(devices, |devices|, "lgtv") ==> tvType == old(tvType)
      ensures Selected() == old(Selected()) && State().obs == old(State().obs)
    {
      for n := 0 to |devices|
        invariant bus.subscriptions == old(bus.subscriptions) + Registrations(AllTopics(devices[..n]), handler)
        invariant tvType == if HasKind(devices, n, "lgtv") then "lgtv" else old(tvType)
        invariant Selected() == old(Selected()) && State().obs == old(State().obs)
      {
        SubscribeNext(n, old(bus.subscriptions), old(tvType));
      }
      assert devices[..|devices|] == devices;
    }

    /** The mount effect: load the selection, then subscribe. */
    method Setup()
      modifies this, store, bus
      ensures Selected() == LoadedSelection(old(store.Item(key)))
      ensures State().obs == old(State().obs)
      ensures HasKind(devices, |devices|, "lgtv") ==> tvType == "lgtv"
      ensures !HasKind(devices, |devices|, "lgtv") ==> tvType == old(tvType)
      ensures store.writable == old(store.writable)
      ensures store.items == AfterPersists(old(store.items), store.writable, key, LoadWrites(old(store.Item(key))))
      ensures store.attempts == old(store.attempts) + PersistLog(key, LoadWrites(old(store.Item(key))))
      ensures bus.subscriptions == old(bus.subscriptions) + Registrations(AllTopics(devices), handler)
    {
      Load();
      SubscribeAll();
    }

    /** One arm of the cleanup's `switch`: the topics of one device. */
    method UnsubscribeDevice(d: Device)
      modifies bus
      ensures bus.subscriptions == old(bus.subscriptions) - Registrations(TopicsFor(d), handler)
    {
      if d.kind == "lgtv" {
        var topics := TopicsFor(d);
        bus.Unsubscribe(topics[0], handler);
        bus.Unsubscribe(topics[1], handler);
        bus.Unsubscribe(topics[2], handler);
        var s0 := multiset{Subscription(topics[0], handler)};
        var s1 := multiset{Subscription(topics[1], handler)};
        var s2 := multiset{Subscription(topics[2], handler)};
        RemoveInTurn(old(bus.subscriptions), s0, s1);
        RemoveInTurn(old(bus.subscriptions), s0 + s1, s2);
        RegistrationsOfThree(topics, handler);
      } else if d.kind == "denon" {
        bus.Unsubscribe(StatusTopic("denon", d.id, "SI"), handler);
        RegistrationsOfOne(TopicsFor(d), handler);
      }
    }

    /** The cleanup the mount effect returns: one unregistration for each
        registration setup made. */
    method Teardown()
      modifies bus
      ensures bus.subscriptions == old(bus.subscriptions) - Registrations(AllTopics(devices), handler)
    {
      for n := 0 to |devices|
        invariant bus.subscriptions == old(bus.subscriptions) - Registrations(AllTopics(devices[..n]), handler)
      {
        assert devices[..n + 1][..n] == devices[..n];
        RegistrationsAppend(AllTopics(devices[..n]), TopicsFor(devices[n]), handler);
        RemoveInTurn(old(bus.subscriptions), Registrations(AllTopics(devices[..n]), handler), Registrations(TopicsFor(devices[n]), handler));
        UnsubscribeDevice(devices[n]);
      }
      assert devices[..|devices|] == devices;
    }

    /** Mounting and unmounting leave the bus as it was. */
    method Lifecycle()
      modifies this, store, bus
      ensures bus.subscriptions == old(bus.subscriptions)
    {
      Setup();
      Teardown();
    }
  }
}
