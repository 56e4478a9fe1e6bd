/** The activity matcher: the handler's scan of the activity catalog against
    the observed TV and receiver inputs. */
module Matching {
  import opened JsValues
  import opened Catalog

  /** The persisted pair the view shows: `currentActivity`, `currentDevice`. */
  datatype Selection = Selection(activity: Value, device: Value)

  /** The selection an activity switches to. */
  function SelectionOf(a: Activity): (r: Selection)
    ensures r.device == a.defaultDevice
    ensures StrictEq(r.activity, Text(a.name))
  {
    Selection(Text(a.name), a.defaultDevice)
  }

  /** `inputs.tv === tvInput && inputs.avr === avrInput`: both properties are
      compared, so an absent property (`undefined`) only matches an observed
      value that is itself `undefined`. */
  predicate Matches(a: Activity, tvInput: Value, avrInput: Value)
  {
    StrictEq(InputsOf(a).tv, tvInput) && StrictEq(InputsOf(a).avr, avrInput)
  }

  /** An activity matches exactly when its signature equals the observed
      pair and neither observed value is an object. */
  lemma MatchesExactly(a: Activity, tvInput: Value, avrInput: Value)
    ensures Matches(a, tvInput, avrInput) <==>
      && InputsOf(a) == Inputs(tvInput, avrInput)
      && !tvInput.App? && !tvInput.Points? && !avrInput.App? && !avrInput.Points?
  {
  }

  /** The selection after a sequence of switches. */
  function Latest(start: Selection, switches: seq<Selection>): Selection
  {
    if switches == [] then start else switches[|switches| - 1]
  }

  /** The selections the catalog scan switches to, in order; each one is also
      persisted.  The scan has no `break`: every matching activity whose name
      differs from the current activity at that point switches. */
  function Switches(acts: seq<Activity>, tvInput: Value, avrInput: Value, start: Selection): (ws: seq<Selection>)
    ensures |ws| <= |acts|
  {
    if acts == [] then []
    else
      var prev := Switches(acts[..|acts| - 1], tvInput, avrInput, start);
      var a := acts[|acts| - 1];
      if Matches(a, tvInput, avrInput) && !StrictEq(Latest(start, prev).activity, Text(a.name))
      then prev + [SelectionOf(a)]
      else prev
  }

  /** Every selection in `ws` changes the current activity: its name is not
      `===` to the activity selected just before it. */
  ghost predicate EachChangesActivity(start: Selection, ws: seq<Selection>)
  {
    forall k :: 0 <= k < |ws| ==> !StrictEq(Latest(start, ws[..k]).activity, ws[k].activity)
  }

  /** Every switch of the scan changes the current activity. */
  lemma {:induction false} SwitchesChangeActivity(acts: seq<Activity>, tvInput: Value, avrInput: Value, start: Selection)
    ensures EachChangesActivity(start, Switches(acts, tvInput, avrInput, start))
  {
    if acts != [] {
      var n := |acts| - 1;
      var prev := Switches(acts[..n], tvInput, avrInput, start);
      var ws := Switches(acts, tvInput, avrInput, start);
      SwitchesChangeActivity(acts[..n], tvInput, avrInput, start);
      var a := acts[n];
      if Matches(a, tvInput, avrInput) && !StrictEq(Latest(start, prev).activity, Text(a.name)) {
        assert ws == prev + [SelectionOf(a)];
        forall k | 0 <= k < |ws| ensures !StrictEq(Latest(start, ws[..k]).activity, ws[k].activity) {
          if k < |prev| {
            assert ws[..k] == prev[..k] && ws[k] == prev[k];
          } else {
            assert ws[..k] == prev && ws[k] == SelectionOf(a);
          }
        }
      } else {
        assert ws == prev;
      }
    }
  }

  /** The scan of one more activity. */
  lemma SwitchesStep(acts: seq<Activity>, i: int, tvInput: Value, avrInput: Value, start: Selection)
    requires 0 <= i < |acts|
    ensures var prev := Switches(acts[..i], tvInput, avrInput, start);
      Switches(acts[..i + 1], tvInput, avrInput, start) ==
        if Matches(acts[i], tvInput, avrInput) && !StrictEq(Latest(start, prev).activity, Text(acts[i].name))
        then prev + [SelectionOf(acts[i])]
        else prev
  {
    assert acts[..i + 1][..i] == acts[..i];
  }

  /** Index of the last matching activity, or -1 when none matches. */
  function LastMatch(acts: seq<Activity>, tvInput: Value, avrInput: Value): (k: int)
    ensures -1 <= k < |acts|
    ensures k >= 0 ==> Matches(acts[k], tvInput, avrInput)
    ensures forall j :: k < j < |acts| ==> !Matches(acts[j], tvInput, avrInput)
  {
    if acts == [] then -1
    else if Matches(acts[|acts| - 1], tvInput, avrInput) then |acts| - 1
    else LastMatch(acts[..|acts| - 1], tvInput, avrInput)
  }

  /** Activity names are unique keys of the catalog. */
  ghost predicate UniqueNames(acts: seq<Activity>)
  {
    forall i, j :: 0 <= i < j < |acts| ==> acts[i].name != acts[j].name
  }

  /** With no matching activity the scan switches nothing. */
  lemma {:induction false} NoMatchNoSwitch(acts: seq<Activity>, tvInput: Value, avrInput: Value, start: Selection)
    requires forall j :: 0 <= j < |acts| ==> !Matches(acts[j], tvInput, avrInput)
    ensures Switches(acts, tvInput, avrInput, start) == []
  {
    if acts != [] {
      NoMatchNoSwitch(acts[..|acts| - 1], tvInput, avrInput, start);
    }
  }

  /** Switch `k` of the scan is to a matching activity's pair. */
  lemma {:induction false} SwitchFromMatch(acts: seq<Activity>, tvInput: Value, avrInput: Value, start: Selection, k: int)
    requires 0 <= k < |Switches(acts, tvInput, avrInput, start)|
    ensures exists j ::
      && 0 <= j < |acts| && Matches(acts[j], tvInput, avrInput)
      && Switches(acts, tvInput, avrInput, start)[k] == SelectionOf(acts[j])
  {
    var n := |acts| - 1;
    var prefix := acts[..n];
    var prev := Switches(prefix, tvInput, avrInput, start);
    var ws := Switches(acts, tvInput, avrInput, start);
    var a := acts[n];
    if Matches(a, tvInput, avrInput) && !StrictEq(Latest(start, prev).activity, Text(a.name)) {
      assert ws == prev + [SelectionOf(a)];
    } else {
      assert ws == prev;
    }
    if k < |prev| {
      SwitchFromMatch(prefix, tvInput, avrInput, start, k);
      var j :| 0 <= j < |prefix| && Matches(prefix[j], tvInput, avrInput) && prev[k] == SelectionOf(prefix[j]);
      assert acts[j] == prefix[j] && ws[k] == prev[k];
    } else {
      assert ws[k] == SelectionOf(a);
    }
  }

  /** Every selection in `ws` is the (name, default device) pair of a
      matching activity of `acts`. */
  ghost predicate AllFromMatches(acts: seq<Activity>, tvInput: Value, avrInput: Value, ws: seq<Selection>)
  {
    forall k :: 0 <= k < |ws| ==>
      exists j :: 0 <= j < |acts| && Matches(acts[j], tvInput, avrInput) && ws[k] == SelectionOf(acts[j])
  }

  /** Every switch is to a matching activity's (name, default device) pair. */
  lemma {:induction false} SwitchesAreMatches(acts: seq<Activity>, tvInput: Value, avrInput: Value, start: Selection)
    ensures AllFromMatches(acts, tvInput, avrInput, Switches(acts, tvInput, avrInput, start))
  {
    var ws := Switches(acts, tvInput, avrInput, start);
    forall k | 0 <= k < |ws|
      ensures exists j :: 0 <= j < |acts| && Matches(acts[j], tvInput, avrInput) && ws[k] == SelectionOf(acts[j])
    {
      SwitchFromMatch(acts, tvInput, avrInput, start, k);
    }
    assert AllFromMatches(acts, tvInput, avrInput, ws);
  }

  /** The last matching activity is the current activity after the scan,
      whatever was selected before and whatever matched earlier. */
  lemma {:induction false} LastMatchWins(acts: seq<Activity>, tvInput: Value, avrInput: Value, start: Selection)
    requires LastMatch(acts, tvInput, avrInput) >= 0
    ensures Latest(start, Switches(acts, tvInput, avrInput, start)).activity
      == Text(acts[LastMatch(acts, tvInput, avrInput)].name)
  {
    var n := |acts| - 1;
    if !Matches(acts[n], tvInput, avrInput) {
      LastMatchWins(acts[..n], tvInput, avrInput, start);
    }
  }

  /** With unique names the whole selection is the last matching activity's
      pair, unless that activity was already selected before the scan and
      nothing switched at all. */
  lemma {:induction false} LastMatchSelected(acts: seq<Activity>, tvInput: Value, avrInput: Value, start: Selection)
    requires UniqueNames(acts)
    requires LastMatch(acts, tvInput, avrInput) >= 0
    ensures var k := LastMatch(acts, tvInput, avrInput);
      var ws := Switches(acts, tvInput, avrInput, start);
      || Latest(start, ws) == SelectionOf(acts[k])
      || (ws == [] && start.activity == Text(acts[k].name))
  {
    var n := |acts| - 1;
    var prefix := acts[..n];
    var prev := Switches(prefix, tvInput, avrInput, start);
    if !Matches(acts[n], tvInput, avrInput) {
      LastMatchSelected(prefix, tvInput, avrInput, start);
    } else if StrictEq(Latest(start, prev).activity, Text(acts[n].name)) {
      // A previous switch would have selected a different name.
      SwitchesAreMatches(prefix, tvInput, avrInput, start);
      assert prev == [];
    }
  }

  /** When exactly one activity matches and it is already selected, the scan
      switches nothing and therefore persists nothing. */
  lemma {:induction false} SettledScanIsQuiet(acts: seq<Activity>, tvInput: Value, avrInput: Value, start: Selection, k: int)
    requires 0 <= k < |acts| && Matches(acts[k], tvInput, avrInput)
    requires forall j :: 0 <= j < |acts| && j != k ==> !Matches(acts[j], tvInput, avrInput)
    requires start.activity == Text(acts[k].name)
    ensures Switches(acts, tvInput, avrInput, start) == []
  {
    var n := |acts| - 1;
    if n == k {
      NoMatchNoSwitch(acts[..n], tvInput, avrInput, start);
    } else {
      SettledScanIsQuiet(acts[..n], tvInput, avrInput, start, k);
    }
  }

  /** Scanning again from the selection a scan produced leaves it unchanged. */
  lemma ScanIdempotent(acts: seq<Activity>, tvInput: Value, avrInput: Value, start: Selection)
    requires UniqueNames(acts)
    ensures var s1 := Latest(start, Switches(acts, tvInput, avrInput, start));
      Latest(s1, Switches(acts, tvInput, avrInput, s1)) == s1
  {
    var s1 := Latest(start, Switches(acts, tvInput, avrInput, start));
    var k := LastMatch(acts, tvInput, avrInput);
    if k >= 0 {
      LastMatchSelected(acts, tvInput, avrInput, start);
      LastMatchSelected(acts, tvInput, avrInput, s1);
    } else {
      NoMatchNoSwitch(acts, tvInput, avrInput, start);
      NoMatchNoSwitch(acts, tvInput, avrInput, s1);
    }
  }

  /** An activity that does not match can be dropped from the catalog, at any
      position, without changing what the scan switches to. */
  lemma {:induction false} UnmatchedIrrelevant(acts: seq<Activity>, j: int, tvInput: Value, avrInput: Value, start: Selection)
    requires 0 <= j < |acts| && !Matches(acts[j], tvInput, avrInput)
    ensures Switches(acts[..j] + acts[j + 1..], tvInput, avrInput, start) == Switches(acts, tvInput, avrInput, start)
  {
    var n := |acts| - 1;
    var prefix := acts[..n];
    if j == n {
      assert acts[..j] + acts[j + 1..] == prefix;
    } else {
      var shorter := prefix[..j] + prefix[j + 1..];
      UnmatchedIrrelevant(prefix, j, tvInput, avrInput, start);
      DropBeforeLast(acts, j);
      SnocSwitches(shorter, acts[n], tvInput, avrInput, start);
      SnocSwitches(prefix, acts[n], tvInput, avrInput, start);
    }
  }

  /** Dropping an element before the last one commutes with splitting off
      the last one. */
  lemma DropBeforeLast(acts: seq<Activity>, j: int)
    requires 0 <= j < |acts| - 1
    ensures var n := |acts| - 1;
      && acts[..j] + acts[j + 1..] == (acts[..n][..j] + acts[..n][j + 1..]) + [acts[n]]
      && acts[..n] + [acts[n]] == acts
  {
    var n := |acts| - 1;
    assert acts[..n][..j] == acts[..j];
    assert acts[j + 1..] == acts[..n][j + 1..] + [acts[n]];
  }

  /** The scan of a catalog with one more activity at the end. */
  lemma SnocSwitches(acts: seq<Activity>, a: Activity, tvInput: Value, avrInput: Value, start: Selection)
    ensures var prev := Switches(acts, tvInput, avrInput, start);
      Switches(acts + [a], tvInput, avrInput, start) ==
        if Matches(a, tvInput, avrInput) && !StrictEq(Latest(start, prev).activity, Text(a.name))
        then prev + [SelectionOf(a)]
        else prev
  {
    assert (acts + [a])[..|acts|] == acts;
  }

  /** A one-activity catalog whose activity matches and is not current
      switches to it exactly once. */
  lemma SingleSwitch(a: Activity, tvInput: Value, avrInput: Value, start: Selection)
    requires Matches(a, tvInput, avrInput) && !StrictEq(start.activity, Text(a.name))
    ensures Switches([a], tvInput, avrInput, start) == [SelectionOf(a)]
  {
    assert [a][..0] == [];
  }

  /** An activity that leaves a property out never matches an observed value
      that is `null` or a string. */
  lemma AbsentInputNeverMatches(a: Activity, tvInput: Value, avrInput: Value)
    requires InputsOf(a).tv == Undefined || InputsOf(a).avr == Undefined
    requires tvInput.Null? || tvInput.Text?
    requires avrInput.Null? || avrInput.Text?
    ensures !Matches(a, tvInput, avrInput)
  {
  }
}
