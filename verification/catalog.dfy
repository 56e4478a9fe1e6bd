/** The theater's device and activity catalogs, the indexes built from them
    and the telemetry topics each device is subscribed to. */
module Catalog {
  import opened JsValues

  /** A catalog device: its `type` (here `kind`), its bridge identifier
      (`device`) and its display `name`. */
  datatype Device = Device(kind: string, id: string, name: Value)

  /** An activity's required-input signature; an absent property is `Undefined`. */
  datatype Inputs = Inputs(tv: Value, avr: Value)

  datatype Activity = Activity(name: string, defaultDevice: Value, inputs: Option<Inputs>)

  /** The `theater` prop: a title and two optional catalogs. */
  datatype Theater = Theater(title: string, devices: Option<seq<Device>>, activities: Option<seq<Activity>>)

  /** `theater.devices || []` */
  function DevicesOf(t: Theater): (r: seq<Device>)
    ensures t.devices.Some? ==> r == t.devices.value
    ensures t.devices.None? ==> r == []
  {
    match t.devices
    case Some(ds) => ds
    case None => []
  }

  /** `theater.activities || []` */
  function ActivitiesOf(t: Theater): (r: seq<Activity>)
    ensures t.activities.Some? ==> r == t.activities.value
    ensures t.activities.None? ==> r == []
  {
    match t.activities
    case Some(acts) => acts
    case None => []
  }

  /** `activity.inputs || {}` */
  function InputsOf(a: Activity): (r: Inputs)
    ensures a.inputs.Some? ==> r == a.inputs.value
    ensures a.inputs.None? ==> r.tv == Undefined && r.avr == Undefined
  {
    match a.inputs
    case Some(inputs) => inputs
    case None => Inputs(Undefined, Undefined)
  }

  /** Device `i` is the last device of its kind among the first `n`. */
  ghost predicate LastOfKindBefore(devices: seq<Device>, n: int, i: int)
  {
    0 <= i < n <= |devices| && forall j :: i < j < n ==> devices[j].kind != devices[i].kind
  }

  /** `m` maps every kind seen among the first `n` devices, and nothing else,
      to the last device of that kind. */
  ghost predicate IndexesByKind(devices: seq<Device>, n: int, m: map<string, Device>)
  {
    && 0 <= n <= |devices|
    && (forall i :: 0 <= i < n ==> devices[i].kind in m)
    && (forall t :: t in m ==> m[t].kind == t && exists i :: LastOfKindBefore(devices, n, i) && devices[i] == m[t])
  }

  /** Writing device `n` under its kind extends an index of the first `n`
      devices to one of the first `n + 1`. */
  lemma IndexStep(devices: seq<Device>, n: int, m: map<string, Device>)
    requires IndexesByKind(devices, n, m) && n < |devices|
    ensures IndexesByKind(devices, n + 1, m[devices[n].kind := devices[n]])
  {
    var d := devices[n];
    var m' := m[d.kind := d];
    forall t | t in m'
      ensures m'[t].kind == t && exists i :: LastOfKindBefore(devices, n + 1, i) && devices[i] == m'[t]
    {
      if t == d.kind {
        assert LastOfKindBefore(devices, n + 1, n);
      } else {
        var i :| LastOfKindBefore(devices, n, i) && devices[i] == m[t];
        assert LastOfKindBefore(devices, n + 1, i);
      }
    }
  }

  /** The `deviceMap` loop: later devices of a kind overwrite earlier ones. */
  method IndexDevices(devices: seq<Device>) returns (m: map<string, Device>)
    ensures IndexesByKind(devices, |devices|, m)
  {
    m := map[];
    for n := 0 to |devices|
      invariant IndexesByKind(devices, n, m)
    {
      IndexStep(devices, n, m);
      m := m[devices[n].kind := devices[n]];
    }
  }

  /** The `activitiesMap` loop as written: every activity name is a key, and
      each key maps to the whole activity list rather than to its activity. */
  method IndexActivities(activities: seq<Activity>) returns (m: map<string, seq<Activity>>)
    ensures forall i :: 0 <= i < |activities| ==> activities[i].name in m
    ensures forall name :: name in m ==> m[name] == activities
    ensures forall name :: name in m ==> exists i :: 0 <= i < |activities| && activities[i].name == name
  {
    m := map[];
    for n := 0 to |activities|
      invariant forall i :: 0 <= i < n ==> activities[i].name in m
      invariant forall name :: name in m ==> m[name] == activities
      invariant forall name :: name in m ==> exists i :: 0 <= i < n && activities[i].name == name
    {
      m := m[activities[n].name := activities];
    }
  }

  /** The template `` `${kind}/${id}/status/${signal}` `` of every inbound topic. */
  function StatusTopic(kind: string, id: string, signal: string): (r: string)
    ensures |r| == |kind| + |id| + |signal| + 9
    ensures r[..|kind|] == kind && r[|kind|] == '/'
    ensures r[|r| - |signal|..] == signal && r[|r| - |signal| - 1] == '/'
  {
    kind + "/" + id + "/status/" + signal
  }

  /** The topics the tab subscribes to for one device: three for an LG TV,
      one for a Denon receiver, none for any other kind. */
  function TopicsFor(d: Device): (r: seq<string>)
    ensures |r| == if d.kind == "lgtv" then 3 else if d.kind == "denon" then 1 else 0
  {
    if d.kind == "lgtv" then
      [StatusTopic("lgtv", d.id, "power"), StatusTopic("lgtv", d.id, "foregroundApp"), StatusTopic("lgtv", d.id, "launchPoints")]
    else if d.kind == "denon" then
      [StatusTopic("denon", d.id, "SI")]
    else
      []
  }

  /** Every topic of a device is a status topic of that device. */
  lemma TopicsAreStatusTopics(d: Device)
    ensures forall k :: 0 <= k < |TopicsFor(d)| ==> exists signal :: TopicsFor(d)[k] == StatusTopic(d.kind, d.id, signal)
  {
    if d.kind == "lgtv" {
      assert TopicsFor(d)[0] == StatusTopic(d.kind, d.id, "power");
      assert TopicsFor(d)[1] == StatusTopic(d.kind, d.id, "foregroundApp");
      assert TopicsFor(d)[2] == StatusTopic(d.kind, d.id, "launchPoints");
    } else if d.kind == "denon" {
      assert TopicsFor(d)[0] == StatusTopic(d.kind, d.id, "SI");
    }
  }

  /** The topics of all devices, in catalog order. */
  function AllTopics(devices: seq<Device>): seq<string>
  {
    if devices == [] then [] else AllTopics(devices[..|devices| - 1]) + TopicsFor(devices[|devices| - 1])
  }

  /** Every topic belongs to an LG TV or a Denon receiver of the catalog. */
  lemma {:induction false} AllTopicsFromKnownKinds(devices: seq<Device>)
    ensures forall k :: 0 <= k < |AllTopics(devices)| ==>
      exists i :: 0 <= i < |devices| && devices[i].kind in {"lgtv", "denon"} && AllTopics(devices)[k] in TopicsFor(devices[i])
  {
    if devices != [] {
      var n := |devices| - 1;
      var prefix := devices[..n];
      AllTopicsFromKnownKinds(prefix);
      forall k | 0 <= k < |AllTopics(devices)|
        ensures exists i :: 0 <= i < |devices| && devices[i].kind in {"lgtv", "denon"} && AllTopics(devices)[k] in TopicsFor(devices[i])
      {
        if k < |AllTopics(prefix)| {
          var i :| 0 <= i < |prefix| && prefix[i].kind in {"lgtv", "denon"} && AllTopics(prefix)[k] in TopicsFor(prefix[i]);
          assert devices[i] == prefix[i];
        } else {
          assert AllTopics(devices)[k] == TopicsFor(devices[n])[k - |AllTopics(prefix)|];
          assert devices[n].kind in {"lgtv", "denon"};
        }
      }
    } else {
      assert AllTopics(devices) == [];
    }
  }
}
