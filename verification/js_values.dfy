/** The JavaScript values that flow through the theater tab: message payloads,
    catalog fields, the selection and what the persistent store holds.
    Only the shapes the tab actually inspects are distinguished. */
module JsValues {

  datatype Option<+T> = None | Some(value: T)

  /** One entry of a TV's launch-point table; only its title is ever read
      (`None` when the entry has no title property). */
  datatype LaunchPoint = LaunchPoint(title: Option<string>)

  /** A JavaScript value.  Objects are represented by the two shapes the tab
      reads: a foreground-application payload `{ appId }` and a launch-point
      table `{ [appId]: { title } }`. */
  datatype Value =
    | Undefined
    | Null
    | Text(s: string)
    | App(appId: string)
    | Points(entries: map<string, LaunchPoint>)

  /** JavaScript truthiness: `undefined`, `null` and `""` are falsy, every
      other string and every object is truthy. */
  predicate Truthy(v: Value)
    ensures Truthy(v) <==> v !in {Undefined, Null, Text("")}
  {
    match v
    case Undefined => false
    case Null => false
    case Text(s) => s != ""
    case _ => true
  }

  /** JavaScript `a || b`: the first operand when it is truthy, else the
      second, so the result is truthy exactly when either operand is. */
  function Or(a: Value, b: Value): (r: Value)
    ensures r == a || r == b
    ensures Truthy(a) ==> r == a
    ensures !Truthy(a) ==> r == b
    ensures Truthy(r) <==> Truthy(a) || Truthy(b)
  {
    if Truthy(a) then a else b
  }

  /** JavaScript `a === b`.  Two objects are identical only when they are the
      same object; a payload object is never the same object as anything the
      tab compares it with, so objects are never strictly equal here. */
  predicate StrictEq(a: Value, b: Value)
    ensures StrictEq(a, b) ==> a == b
    ensures a == b && !a.App? && !a.Points? ==> StrictEq(a, b)
    ensures a.App? || a.Points? ==> !StrictEq(a, b)
  {
    match (a, b)
    case (Undefined, Undefined) => true
    case (Null, Null) => true
    case (Text(x), Text(y)) => x == y
    case _ => false
  }
}
