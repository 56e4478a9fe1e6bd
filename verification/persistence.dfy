/** Persistence of the selection under `theater-<title>`: the record
    `persist` writes and the way `getPersisted` reads one back. */
module Persistence {
  import opened JsValues
  import opened Matching

  /** What `JSON.parse(localStorage.getItem(key))` yields.  A JSON object, and
      equally an array, number, string or boolean, is a `Record` of the four
      properties the loader reads (`Undefined` for each one it lacks). */
  datatype Stored =
    | Unparsable   // text that is not JSON: `JSON.parse` throws
    | JsonNull     // the text `null`
    | Record(currentActivity: Value, currentDevice: Value, activeActivity: Value, activeDevice: Value)

  /** What loading yields: a selection, or the exception `getPersisted` catches. */
  datatype Loaded = Restored(sel: Selection) | Corrupt

  /** `JSON.stringify({ currentActivity, currentDevice })`: only the canonical
      properties are written, and an `undefined` one is left out. */
  function Encode(sel: Selection): (r: Stored)
    ensures r.Record? && r.currentActivity == sel.activity && r.currentDevice == sel.device
    ensures r.activeActivity == Undefined && r.activeDevice == Undefined
    ensures Decode(Some(r)).Restored?
  {
    Record(sel.activity, sel.device, Undefined, Undefined)
  }

  /** The `try` block of `getPersisted` on the stored item (`None` when the
      key is missing, where `getItem` returns `null`): reading a property of
      `null` throws, and otherwise each canonical property wins when truthy,
      the legacy one is used when not. */
  function Decode(item: Option<Stored>): (r: Loaded)
    ensures r.Restored? <==> item.Some? && item.value.Record?
    ensures r.Restored? ==>
      && (r.sel.activity == item.value.currentActivity || r.sel.activity == item.value.activeActivity)
      && (r.sel.device == item.value.currentDevice || r.sel.device == item.value.activeDevice)
  {
    match item
    case None => Corrupt
    case Some(Unparsable) => Corrupt
    case Some(JsonNull) => Corrupt
    case Some(Record(ca, cd, aa, ad)) => Restored(Selection(Or(ca, aa), Or(cd, ad)))
  }

  /** The selection `getPersisted` leaves: the restored one, or `null` for
      both fields after a failure. */
  function LoadedSelection(item: Option<Stored>): (sel: Selection)
    ensures Decode(item).Corrupt? ==> sel == Selection(Null, Null)
    ensures Decode(item).Restored? ==> sel == Decode(item).sel
  {
    match Decode(item)
    case Restored(sel) => sel
    case Corrupt => Selection(Null, Null)
  }

  /** The selections `getPersisted` persists: the reset one after a failure,
      none otherwise. */
  function LoadWrites(item: Option<Stored>): (ws: seq<Selection>)
    ensures Decode(item).Corrupt? <==> ws == [Selection(Null, Null)]
    ensures Decode(item).Restored? <==> ws == []
  {
    if Decode(item).Corrupt? then [Selection(Null, Null)] else []
  }

  /** Loading fails exactly for a missing key, unparsable text and `null`. */
  lemma CorruptExactly(item: Option<Stored>)
    ensures Decode(item).Corrupt? <==> item == None || item == Some(Unparsable) || item == Some(JsonNull)
  {
  }

  /** A written record reads back as the same pair exactly when each field is
      truthy or `undefined`; `null` and `""` read back as `undefined`. */
  lemma RoundTrip(sel: Selection)
    ensures Decode(Some(Encode(sel))) == Restored(sel) <==>
      (Truthy(sel.activity) || sel.activity == Undefined) && (Truthy(sel.device) || sel.device == Undefined)
  {
  }

  /** A record that uses only the legacy names loads like the canonical
      record with the same (non-empty) values. */
  lemma LegacyFieldsCompatible(activity: Value, device: Value)
    requires Truthy(activity) && Truthy(device)
    ensures Decode(Some(Record(Undefined, Undefined, activity, device)))
      == Decode(Some(Encode(Selection(activity, device))))
      == Restored(Selection(activity, device))
  {
  }

  /** The canonical property wins when truthy; otherwise the legacy one is used. */
  lemma CanonicalFieldsWin(ca: Value, cd: Value, aa: Value, ad: Value)
    ensures var r := Decode(Some(Record(ca, cd, aa, ad)));
      && r.Restored?
      && (Truthy(ca) ==> r.sel.activity == ca) && (!Truthy(ca) ==> r.sel.activity == aa)
      && (Truthy(cd) ==> r.sel.device == cd) && (!Truthy(cd) ==> r.sel.device == ad)
  {
  }

  /** The record recovery writes is not corrupt: the next load restores a
      selection (both fields `undefined`, not the `"All Off"`/`"None"`
      defaults) instead of recovering again. */
  lemma RecoveryRecordLoads()
    ensures Decode(Some(Encode(Selection(Null, Null)))) == Restored(Selection(Undefined, Undefined))
  {
  }
}
