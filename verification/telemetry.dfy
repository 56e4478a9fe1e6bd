/** Telemetry ingestion: which observed signal a message overwrites, and how
    the TV's active input is derived from its launch points. */
module Telemetry {
  import opened JsValues
  import opened Strings
  import opened Catalog

  /** The observed device state the message handler keeps between messages. */
  datatype Observed = Observed(power: Value, foregroundApp: Value, launchPoints: Value, tvInput: Value, avrInput: Value)

  /** Which observed field a topic addresses. */
  datatype Signal = PowerSignal | ForegroundSignal | LaunchPointsSignal | AvrInputSignal | Unrouted

  /** The handler's `if (~topic.indexOf(...))` chain: the first of `power`,
      `foreground`, `launchPoints`, `SI` found in the topic decides. */
  function Classify(topic: string): (r: Signal)
    ensures r == PowerSignal <==> Occurs(topic, "power")
    ensures r == ForegroundSignal <==> !Occurs(topic, "power") && Occurs(topic, "foreground")
    ensures r == LaunchPointsSignal <==>
      !Occurs(topic, "power") && !Occurs(topic, "foreground") && Occurs(topic, "launchPoints")
    ensures r == AvrInputSignal <==>
      !Occurs(topic, "power") && !Occurs(topic, "foreground") && !Occurs(topic, "launchPoints") && Occurs(topic, "SI")
    ensures r == Unrouted <==>
      !Occurs(topic, "power") && !Occurs(topic, "foreground") && !Occurs(topic, "launchPoints") && !Occurs(topic, "SI")
  {
    // `~i` is falsy exactly when `i` is -1.
    if IndexOf(topic, "power") != -1 then PowerSignal
    else if IndexOf(topic, "foreground") != -1 then ForegroundSignal
    else if IndexOf(topic, "launchPoints") != -1 then LaunchPointsSignal
    else if IndexOf(topic, "SI") != -1 then AvrInputSignal
    else Unrouted
  }

  /** The first statement of the handler: the payload overwrites the field
      the topic is classified as. */
  function Observe(obs: Observed, topic: string, message: Value): (r: Observed)
    ensures r.power == if Classify(topic) == PowerSignal then message else obs.power
    ensures r.foregroundApp == if Classify(topic) == ForegroundSignal then message else obs.foregroundApp
    ensures r.launchPoints == if Classify(topic) == LaunchPointsSignal then message else obs.launchPoints
    ensures r.avrInput == if Classify(topic) == AvrInputSignal then message else obs.avrInput
    ensures r.tvInput == obs.tvInput
  {
    match Classify(topic)
    case PowerSignal => obs.(power := message)
    case ForegroundSignal => obs.(foregroundApp := message)
    case LaunchPointsSignal => obs.(launchPoints := message)
    case AvrInputSignal => obs.(avrInput := message)
    case Unrouted => obs
  }

  /** Exactly one field, chosen by the first keyword the topic contains, is
      overwritten; every other field keeps its value, and a topic containing
      none of the keywords changes nothing. */
  lemma ObserveOverwritesOneField(obs: Observed, topic: string, message: Value)
    ensures Occurs(topic, "power") ==> Observe(obs, topic, message) == obs.(power := message)
    ensures !Occurs(topic, "power") && Occurs(topic, "foreground") ==>
      Observe(obs, topic, message) == obs.(foregroundApp := message)
    ensures !Occurs(topic, "power") && !Occurs(topic, "foreground") && Occurs(topic, "launchPoints") ==>
      Observe(obs, topic, message) == obs.(launchPoints := message)
    ensures (!Occurs(topic, "power") && !Occurs(topic, "foreground") && !Occurs(topic, "launchPoints")
      && Occurs(topic, "SI")) ==> Observe(obs, topic, message) == obs.(avrInput := message)
    ensures (!Occurs(topic, "power") && !Occurs(topic, "foreground") && !Occurs(topic, "launchPoints")
      && !Occurs(topic, "SI")) ==> Observe(obs, topic, message) == obs
    ensures Observe(obs, topic, message).tvInput == obs.tvInput
  {
  }

  /** Delivering the same message again leaves the observed state as the
      first delivery left it, and the derived TV input is never written here. */
  lemma ObserveIdempotent(obs: Observed, topic: string, message: Value, tvInput: Value)
    ensures var o := Observe(obs, topic, message);
      Observe(o.(tvInput := tvInput), topic, message) == o.(tvInput := tvInput)
  {
  }

  /** None of the four keywords occurs in a device identifier. */
  ghost predicate NeutralId(id: string)
  {
    !Occurs(id, "power") && !Occurs(id, "foreground") && !Occurs(id, "launchPoints") && !Occurs(id, "SI")
  }

  /** Which keywords occur in a status topic is decided segment by segment. */
  lemma StatusTopicOccurs(kind: string, id: string, signal: string, word: string)
    requires '/' !in word
    ensures Occurs(StatusTopic(kind, id, signal), word) <==>
      Occurs(kind, word) || Occurs(id, word) || Occurs("status", word) || Occurs(signal, word)
  {
    assert StatusTopic(kind, id, signal) == ((kind + "/" + id) + "/" + "status") + "/" + signal;
    OccursAcrossSlash((kind + "/" + id) + "/" + "status", signal, word);
    OccursAcrossSlash(kind + "/" + id, "status", word);
    OccursAcrossSlash(kind, id, word);
  }

  /** A word with a character the text lacks does not occur in it. */
  lemma AbsentForLackOfChar(s: string, word: string, k: int)
    requires 0 <= k < |word| && word[k] !in s
    ensures !Occurs(s, word)
  {
    forall i ensures !OccursAt(s, word, i) {
      if 0 <= i && i + |word| <= |s| {
        assert s[i..i + |word|][k] == s[i + k];
        assert s[i + k] in s;
      }
    }
  }

  /** The keywords occur in the fixed topic segments only where intended. */
  lemma SegmentKeywords()
    ensures !Occurs("lgtv", "power") && !Occurs("lgtv", "foreground") && !Occurs("lgtv", "launchPoints") && !Occurs("lgtv", "SI")
    ensures !Occurs("denon", "power") && !Occurs("denon", "foreground") && !Occurs("denon", "launchPoints") && !Occurs("denon", "SI")
    ensures !Occurs("status", "power") && !Occurs("status", "foreground") && !Occurs("status", "launchPoints") && !Occurs("status", "SI")
    ensures Occurs("power", "power")
    ensures !Occurs("foregroundApp", "power") && Occurs("foregroundApp", "foreground")
    ensures !Occurs("launchPoints", "power") && !Occurs("launchPoints", "foreground") && Occurs("launchPoints", "launchPoints")
    ensures !Occurs("SI", "power") && !Occurs("SI", "foreground") && !Occurs("SI", "launchPoints") && Occurs("SI", "SI")
  {
    AbsentForLackOfChar("lgtv", "SI", 0);
    AbsentForLackOfChar("denon", "power", 0);
    AbsentForLackOfChar("denon", "SI", 0);
    AbsentForLackOfChar("status", "power", 0);
    AbsentForLackOfChar("status", "SI", 0);
    AbsentForLackOfChar("foregroundApp", "power", 2);
    AbsentForLackOfChar("launchPoints", "power", 2);
    AbsentForLackOfChar("launchPoints", "foreground", 0);
    assert OccursAt("power", "power", 0);
    assert "foregroundApp"[0..10] == "foreground";
    assert OccursAt("foregroundApp", "foreground", 0);
    assert OccursAt("launchPoints", "launchPoints", 0);
    assert OccursAt("SI", "SI", 0);
  }

  /** In a status topic of a keyword-free kind and identifier, the keywords
      that occur are those of the signal segment. */
  lemma StatusTopicKeywords(kind: string, id: string, signal: string)
    requires NeutralId(kind) && NeutralId(id)
    ensures Occurs(StatusTopic(kind, id, signal), "power") <==> Occurs(signal, "power")
    ensures Occurs(StatusTopic(kind, id, signal), "foreground") <==> Occurs(signal, "foreground")
    ensures Occurs(StatusTopic(kind, id, signal), "launchPoints") <==> Occurs(signal, "launchPoints")
    ensures Occurs(StatusTopic(kind, id, signal), "SI") <==> Occurs(signal, "SI")
  {
    SegmentKeywords();
    StatusTopicOccurs(kind, id, signal, "power");
    StatusTopicOccurs(kind, id, signal, "foreground");
    StatusTopicOccurs(kind, id, signal, "launchPoints");
    StatusTopicOccurs(kind, id, signal, "SI");
  }

  /** Each topic the tab subscribes to is routed to the field it was meant
      for, provided the device identifier contains none of the keywords. */
  lemma OwnTopicsRouted(d: Device)
    requires NeutralId(d.id)
    ensures d.kind == "lgtv" ==>
      && Classify(TopicsFor(d)[0]) == PowerSignal
      && Classify(TopicsFor(d)[1]) == ForegroundSignal
      && Classify(TopicsFor(d)[2]) == LaunchPointsSignal
    ensures d.kind == "denon" ==> Classify(TopicsFor(d)[0]) == AvrInputSignal
  {
    SegmentKeywords();
    if d.kind == "lgtv" {
      StatusTopicKeywords("lgtv", d.id, "power");
      StatusTopicKeywords("lgtv", d.id, "foregroundApp");
      StatusTopicKeywords("lgtv", d.id, "launchPoints");
    } else if d.kind == "denon" {
      StatusTopicKeywords("denon", d.id, "SI");
    }
  }

  /** An identifier that contains a keyword misroutes: the foreground
      application of a TV whose identifier contains `power` (say `powerroom`)
      is taken for its power state. */
  lemma MisroutedByIdentifier(id: string, name: Value)
    requires Occurs(id, "power")
    ensures Classify(TopicsFor(Device("lgtv", id, name))[1]) == PowerSignal
  {
    StatusTopicOccurs("lgtv", id, "foregroundApp", "power");
  }

  // The lemmas below about fixed titles take the literal as a parameter
  // pinned by `requires s == "..."` instead of writing it in the body: the
  // prover then reasons about one opaque string with a few known characters
  // rather than unfolding the recursive string functions over the literal,
  // which keeps each proof small.

  /** The fallback title has no whitespace and no uppercase letter. */
  lemma UnknownUnchanged(s: string)
    requires s == "unknown"
    ensures ReplaceFirstSpaceRun(s) == s && ToLower(s) == s
  {
    forall j | 0 <= j < |s| ensures !IsSpace(s[j]) && !IsUpper(s[j]) {
      assert s[j] in "unknown";
    }
    NoSpaceUnchanged(s);
  }

  /** `(title || "unknown").replace(/\s+/, "").toLowerCase()` */
  function NormalizeTitle(title: Option<string>): (r: string)
    ensures forall j :: 0 <= j < |r| ==> !IsUpper(r[j])
    ensures title == None || title == Some("") ==> r == "unknown"
    ensures title.Some? && title.value != "" ==>
      exists i, j :: FirstSpaceRun(title.value, i, j) && r == ToLower(title.value[..i] + title.value[j..])
  {
    var t := match title
      case Some(s) => if s != "" then s else "unknown"
      case None => "unknown";
    UnknownUnchanged("unknown");
    ToLower(ReplaceFirstSpaceRun(t))
  }

  /** `"HDMI 1"` loses its one space. */
  lemma {:induction false} ReplaceInHdmiTitle(s: string)
    requires s == "HDMI 1"
    ensures ReplaceFirstSpaceRun(s) == "HDMI1"
  {
    assert !IsSpace(s[0]) && !IsSpace(s[1]) && !IsSpace(s[2]) && !IsSpace(s[3]) && IsSpace(s[4]);
    assert FirstSpace(s) == 4;
    assert s[4..] == " 1";
    assert LeadingSpaces(s[4..]) == 1;
    assert s[..4] + s[5..] == "HDMI1";
  }

  /** The example the input labels are written for. */
  lemma NormalizeHdmiTitle(title: Option<string>)
    requires title == Some("HDMI 1")
    ensures NormalizeTitle(title) == "hdmi1"
  {
    ReplaceInHdmiTitle("HDMI 1");
    LowerHdmiTitle("HDMI1");
  }

  /** `"Live TV Plus"` keeps its second space. */
  lemma {:induction false} ReplaceInLiveTvTitle(s: string)
    requires s == "Live TV Plus"
    ensures ReplaceFirstSpaceRun(s) == "LiveTV Plus"
  {
    LiveTvSpaceRun(s);
    assert s[..4] == "Live" && s[5..] == "TV Plus";
  }

  /** The first whitespace run of `"Live TV Plus"` is its first space. */
  lemma LiveTvSpaceRun(s: string)
    requires s == "Live TV Plus"
    ensures FirstSpace(s) == 4 && LeadingSpaces(s[4..]) == 1
  {
    assert !IsSpace(s[0]) && !IsSpace(s[1]) && !IsSpace(s[2]) && !IsSpace(s[3]) && IsSpace(s[4]);
    var rest := s[4..];
    assert IsSpace(rest[0]) && !IsSpace(rest[1]);
  }

  /** Lowering `"LiveTV Plus"` keeps the space. */
  lemma LowerLiveTvTitle(s: string)
    requires s == "LiveTV Plus"
    ensures ToLower(s) == "livetv plus"
  {
    var r := ToLower(s);
    assert r[0] == 'l' && r[1] == 'i' && r[2] == 'v' && r[3] == 'e' && r[4] == 't' && r[5] == 'v';
    assert r[6] == ' ' && r[7] == 'p' && r[8] == 'l' && r[9] == 'u' && r[10] == 's';
  }

  /** Lowering `"HDMI1"`. */
  lemma LowerHdmiTitle(s: string)
    requires s == "HDMI1"
    ensures ToLower(s) == "hdmi1"
  {
    var r := ToLower(s);
    assert r[0] == 'h' && r[1] == 'd' && r[2] == 'm' && r[3] == 'i' && r[4] == '1';
  }

  /** Only the first whitespace run is removed: a later one survives. */
  lemma NormalizeKeepsLaterSpace(title: Option<string>)
    requires title == Some("Live TV Plus")
    ensures NormalizeTitle(title) == "livetv plus"
  {
    ReplaceInLiveTvTitle("Live TV Plus");
    LowerLiveTvTitle("LiveTV Plus");
  }

  /** What the TV-input block of the handler does with the observed state. */
  datatype Derivation =
    | Keep             // the block does not assign `tvInput`
    | SetTo(input: string)
    | Throws           // reading `appId` or the launch-point entry raises a TypeError

  /** The TV-input block: nothing happens unless the tab watches an LG TV
      and both the launch points and the foreground application are truthy;
      a derived label never holds an uppercase letter. */
  function DeriveTvInput(obs: Observed, tvType: string): (r: Derivation)
    ensures !r.Keep? ==> tvType == "lgtv" && Truthy(obs.launchPoints) && Truthy(obs.foregroundApp)
    ensures r.Throws? <==>
      && tvType == "lgtv" && Truthy(obs.launchPoints) && Truthy(obs.foregroundApp)
      && !(obs.foregroundApp.App? && obs.foregroundApp.appId == "")
      && !(obs.foregroundApp.App? && obs.launchPoints.Points? && obs.foregroundApp.appId in obs.launchPoints.entries)
    ensures r.SetTo? ==> forall j :: 0 <= j < |r.input| ==> !IsUpper(r.input[j])
  {
    if tvType != "lgtv" then Keep
    else if !Truthy(obs.launchPoints) || !Truthy(obs.foregroundApp) then Keep
    else match obs.foregroundApp
      case App(appId) =>
        if |appId| == 0 then Keep
        else (match obs.launchPoints
              case Points(entries) =>
                if appId in entries then SetTo(NormalizeTitle(entries[appId].title)) else Throws
              case _ => Throws)
      case _ => Throws
  }

  /** The TV input is recomputed exactly when the tab watches an LG TV and the
      observed foreground application has a non-empty id with a launch-point
      entry; the new input is that entry's normalised title.  It does not
      depend on the previous input. */
  lemma TvInputRecomputedOnlyWhen(obs: Observed, tvType: string, tvInput: Value)
    ensures DeriveTvInput(obs, tvType).SetTo? <==>
      && tvType == "lgtv"
      && obs.foregroundApp.App? && obs.foregroundApp.appId != ""
      && obs.launchPoints.Points? && obs.foregroundApp.appId in obs.launchPoints.entries
    ensures DeriveTvInput(obs, tvType).SetTo? ==>
      DeriveTvInput(obs, tvType).input == NormalizeTitle(obs.launchPoints.entries[obs.foregroundApp.appId].title)
    ensures DeriveTvInput(obs.(tvInput := tvInput), tvType) == DeriveTvInput(obs, tvType)
  {
  }
}
