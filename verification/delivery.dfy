/** One delivery of a telemetry message to the handler, as a function of the
    state before it: the specification the engine's `OnMessage` is proved
    against. */
module Delivery {
  import opened JsValues
  import opened Catalog
  import opened Telemetry
  import opened Matching

  /** The handler's state: observed signals, the TV type set at mount, and
      the selection.  Reads of the selection see the latest write. */
  datatype Snapshot = Snapshot(obs: Observed, tvType: string, sel: Selection)

  /** How the handler ended: at the power check, with a TypeError in the
      TV-input block, or after the catalog scan. */
  datatype Outcome = PowerOff | TypeError | Reconciled

  /** The outcome, the state after, and the selections persisted in order. */
  datatype StepResult = StepResult(outcome: Outcome, after: Snapshot, writes: seq<Selection>)

  /** The catalog scan over an already updated observed state. */
  function Reconcile(acts: seq<Activity>, s: Snapshot): StepResult
  {
    var ws := Switches(acts, s.obs.tvInput, s.obs.avrInput, s.sel);
    StepResult(Reconciled, s.(sel := Latest(s.sel, ws)), ws)
  }

  function Step(acts: seq<Activity>, s: Snapshot, topic: string, message: Value): (r: StepResult)
    ensures r.after.tvType == s.tvType
    ensures r.after.obs == Observe(s.obs, topic, message).(tvInput := r.after.obs.tvInput)
    ensures r.after.sel == Latest(s.sel, r.writes)
    ensures r.outcome != Reconciled ==> r.writes == [] && r.after.obs.tvInput == s.obs.tvInput
    ensures r.outcome == Reconciled ==>
      r.writes == Switches(acts, r.after.obs.tvInput, r.after.obs.avrInput, s.sel)
  {
    var obs := Observe(s.obs, topic, message);
    if !StrictEq(obs.power, Text("on")) then StepResult(PowerOff, s.(obs := obs), [])
    else match DeriveTvInput(obs, s.tvType)
      case Throws => StepResult(TypeError, s.(obs := obs), [])
      case Keep => Reconcile(acts, s.(obs := obs))
      case SetTo(input) => Reconcile(acts, s.(obs := obs.(tvInput := Text(input))))
  }

  /** While the power is not `"on"` after the update, the handler returns
      before touching the TV input, the selection or the store, however well
      the (possibly stale) inputs would match. */
  lemma PowerGating(acts: seq<Activity>, s: Snapshot, topic: string, message: Value)
    requires !StrictEq(Observe(s.obs, topic, message).power, Text("on"))
    ensures var r := Step(acts, s, topic, message);
      r.outcome == PowerOff && r.writes == [] && r.after.sel == s.sel && r.after.obs.tvInput == s.obs.tvInput
  {
  }

  /** With the power `"on"` after the update, the handler reaches the scan
      unless the TV-input block throws; the TV input is kept when the block
      derives nothing and set to the derived label otherwise. */
  lemma PowerOnReachesScan(acts: seq<Activity>, s: Snapshot, topic: string, message: Value)
    requires StrictEq(Observe(s.obs, topic, message).power, Text("on"))
    ensures var d := DeriveTvInput(Observe(s.obs, topic, message), s.tvType);
      var r := Step(acts, s, topic, message);
      && (r.outcome == TypeError <==> d.Throws?)
      && (r.outcome == Reconciled <==> !d.Throws?)
      && (d.Keep? ==> r.after.obs.tvInput == s.obs.tvInput)
      && (d.SetTo? ==> r.after.obs.tvInput == Text(d.input))
  {
  }

  /** With no matching activity the selection stays and nothing is written;
      otherwise the last matching activity ends up selected. */
  lemma MatchEffect(acts: seq<Activity>, s: Snapshot, topic: string, message: Value)
    ensures var r := Step(acts, s, topic, message);
      var k := LastMatch(acts, r.after.obs.tvInput, r.after.obs.avrInput);
      && (r.outcome == Reconciled && k == -1 ==> r.writes == [] && r.after.sel == s.sel)
      && (r.outcome == Reconciled && k >= 0 ==> r.after.sel.activity == Text(acts[k].name))
  {
    var r := Step(acts, s, topic, message);
    var k := LastMatch(acts, r.after.obs.tvInput, r.after.obs.avrInput);
    if r.outcome == Reconciled {
      if k == -1 {
        NoMatchNoSwitch(acts, r.after.obs.tvInput, r.after.obs.avrInput, s.sel);
      } else {
        LastMatchWins(acts, r.after.obs.tvInput, r.after.obs.avrInput, s.sel);
      }
    }
  }

  /** When exactly one activity matches and it is already selected, the
      delivery changes neither the selection nor the store. */
  lemma SettledDeliveryIsQuiet(acts: seq<Activity>, s: Snapshot, topic: string, message: Value, k: int)
    requires var r := Step(acts, s, topic, message);
      && 0 <= k < |acts| && Matches(acts[k], r.after.obs.tvInput, r.after.obs.avrInput)
      && (forall j :: 0 <= j < |acts| && j != k ==> !Matches(acts[j], r.after.obs.tvInput, r.after.obs.avrInput))
      && s.sel.activity == Text(acts[k].name)
    ensures var r := Step(acts, s, topic, message);
      r.writes == [] && r.after.sel == s.sel
  {
    var r := Step(acts, s, topic, message);
    if r.outcome == Reconciled {
      SettledScanIsQuiet(acts, r.after.obs.tvInput, r.after.obs.avrInput, s.sel, k);
    }
  }

  /** Delivering the same message twice leaves the handler's state exactly as
      delivering it once did. */
  lemma RedeliveryIdempotent(acts: seq<Activity>, s: Snapshot, topic: string, message: Value)
    requires UniqueNames(acts)
    ensures var r1 := Step(acts, s, topic, message);
      Step(acts, r1.after, topic, message).after == r1.after
  {
    var r1 := Step(acts, s, topic, message);
    var obs := Observe(s.obs, topic, message);
    ObserveIdempotent(s.obs, topic, message, r1.after.obs.tvInput);
    assert Observe(r1.after.obs, topic, message) == r1.after.obs;
    TvInputRecomputedOnlyWhen(obs, s.tvType, r1.after.obs.tvInput);
    if r1.outcome == Reconciled {
      var o := r1.after.obs;
      ScanIdempotent(acts, o.tvInput, o.avrInput, s.sel);
      TvInputRecomputedOnlyWhen(o, s.tvType, o.tvInput);
      assert DeriveTvInput(o, s.tvType) == DeriveTvInput(obs, s.tvType) by {
        TvInputRecomputedOnlyWhen(obs, s.tvType, o.tvInput);
        assert o == obs.(tvInput := o.tvInput);
      }
    }
  }

  // The concrete lemmas from here on take their identifiers, titles, topics,
  // catalogs and states as parameters fixed by `requires x == ...`: the
  // literal is stated once, and the prover works with a name for it instead
  // of unfolding topic classification and title normalisation over the
  // literal text, which keeps each proof small.

  /** The foreground-application topic of the LG TV `tv1` is routed to the
      foreground field. */
  lemma Tv1ForegroundTopic(topic: string)
    requires topic == StatusTopic("lgtv", "tv1", "foregroundApp")
    ensures Classify(topic) == ForegroundSignal
  {
    AbsentForLackOfChar("tv1", "power", 0);
    AbsentForLackOfChar("tv1", "foreground", 0);
    AbsentForLackOfChar("tv1", "launchPoints", 0);
    AbsentForLackOfChar("tv1", "SI", 0);
    OwnTopicsRouted(Device("lgtv", "tv1", Text("TV")));
  }

  /** With the power on and a recomputed TV input, the delivery is the
      catalog scan over the updated observed state. */
  lemma StepRecomputes(acts: seq<Activity>, s: Snapshot, topic: string, message: Value, input: string)
    requires StrictEq(Observe(s.obs, topic, message).power, Text("on"))
    requires DeriveTvInput(Observe(s.obs, topic, message), s.tvType) == SetTo(input)
    ensures var r := Step(acts, s, topic, message);
      && r.outcome == Reconciled
      && r.after.obs == Observe(s.obs, topic, message).(tvInput := Text(input))
      && r.writes == Switches(acts, Text(input), r.after.obs.avrInput, s.sel)
  {
  }

  /** A delivery that recomputes the TV input, to a catalog of one activity
      that then matches and is not current, selects that activity and
      persists it once. */
  lemma SingleActivityDelivery(a: Activity, s: Snapshot, topic: string, message: Value, input: string)
    requires StrictEq(Observe(s.obs, topic, message).power, Text("on"))
    requires DeriveTvInput(Observe(s.obs, topic, message), s.tvType) == SetTo(input)
    requires Matches(a, Text(input), Observe(s.obs, topic, message).avrInput)
    requires !StrictEq(s.sel.activity, Text(a.name))
    ensures var r := Step([a], s, topic, message);
      && r.outcome == Reconciled
      && r.after.obs.tvInput == Text(input)
      && r.after.sel == SelectionOf(a)
      && r.writes == [SelectionOf(a)]
  {
    StepRecomputes([a], s, topic, message, input);
    SingleSwitch(a, Text(input), Observe(s.obs, topic, message).avrInput, s.sel);
  }

  /** The TV's foreground application is the HDMI 1 input, whose launch
      point is titled "HDMI 1": the derived TV input is `hdmi1`. */
  lemma HdmiInputDerived(obs: Observed, id: string, title: Option<string>)
    requires title == Some("HDMI 1") && id == "com.webos.app.hdmi1"
    requires obs.foregroundApp == App(id) && obs.launchPoints == Points(map[id := LaunchPoint(title)])
    ensures DeriveTvInput(obs, "lgtv") == SetTo("hdmi1")
  {
    NormalizeHdmiTitle(title);
    TvInputRecomputedOnlyWhen(obs, "lgtv", Null);
  }

  /** A Watch-TV transition: with the TV on, its launch points known and the
      receiver on `TV`, a foreground-application message for the HDMI 1
      input selects "Watch TV" on "tv" and persists exactly that once. */
  lemma WatchTvScenario(acts: seq<Activity>, s: Snapshot, id: string, title: Option<string>, topic: string)
    requires title == Some("HDMI 1") && id == "com.webos.app.hdmi1"
    requires acts == [Activity("Watch TV", Text("tv"), Some(Inputs(Text("hdmi1"), Text("TV"))))]
    requires s == Snapshot(Observed(Text("on"), Null, Points(map[id := LaunchPoint(title)]), Null, Text("TV")), "lgtv",
                           Selection(Text("All Off"), Text("None")))
    requires topic == StatusTopic("lgtv", "tv1", "foregroundApp")
    ensures var r := Step(acts, s, topic, App(id));
      && r.outcome == Reconciled
      && r.after.obs.tvInput == Text("hdmi1")
      && r.after.sel == Selection(Text("Watch TV"), Text("tv"))
      && r.writes == [Selection(Text("Watch TV"), Text("tv"))]
  {
    Tv1ForegroundTopic(topic);
    var obs := Observe(s.obs, topic, App(id));
    assert obs == s.obs.(foregroundApp := App(id));
    HdmiInputDerived(obs, id, title);
    SingleActivityDelivery(acts[0], s, topic, App(id), "hdmi1");
  }

  /** The same transition with a signature that names only the TV input never
      matches: the receiver input is still compared, and `undefined` is not
      `===` to the observed `"TV"`. */
  lemma TvOnlySignatureScenario(acts: seq<Activity>, s: Snapshot, id: string, title: Option<string>, topic: string)
    requires title == Some("HDMI 1") && id == "com.webos.app.hdmi1"
    requires acts == [Activity("Watch TV", Text("tv"), Some(Inputs(Text("hdmi1"), Undefined)))]
    requires s == Snapshot(Observed(Text("on"), Null, Points(map[id := LaunchPoint(title)]), Null, Text("TV")), "lgtv",
                           Selection(Text("All Off"), Text("None")))
    requires topic == StatusTopic("lgtv", "tv1", "foregroundApp")
    ensures var r := Step(acts, s, topic, App(id));
      && r.outcome == Reconciled
      && r.after.obs.tvInput == Text("hdmi1")
      && r.after.sel == s.sel
      && r.writes == []
  {
    Tv1ForegroundTopic(topic);
    var obs := Observe(s.obs, topic, App(id));
    assert obs == s.obs.(foregroundApp := App(id));
    HdmiInputDerived(obs, id, title);
    StepRecomputes(acts, s, topic, App(id), "hdmi1");
    AbsentInputNeverMatches(acts[0], Text("hdmi1"), Text("TV"));
    NoMatchNoSwitch(acts, Text("hdmi1"), Text("TV"), s.sel);
  }
}
