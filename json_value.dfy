/**
 * The decoded form of a device message (what json.loads hands back), the
 * exceptions that reading one can raise, and the Python operations the state
 * classes apply to decoded values: subscripting with a string key, int() and
 * float().
 */
module JsonValue {
  import opened Wrappers
  import opened Numerals

  /** A decoded JSON value. Numbers are integers; see the README for fractions. */
  datatype JValue =
    | JNull
    | JBool(b: bool)
    | JInt(i: int)
    | JStr(s: string)
    | JList(items: seq<JValue>)
    | JObj(fields: map<string, JValue>)

  /** The exception a failed read raises. */
  datatype Error =
    | NotSubscriptable          // TypeError: a string key applied to something that is not an object
    | MissingKey(key: string)   // KeyError
    | ShortList(length: nat)    // IndexError: element 1 of a list with fewer than two elements
    | BadLiteral(text: string)  // ValueError: int() or float() of a string that is not a numeral
    | NotNumeric                // TypeError: int() or float() of null, a list or an object

  /** A value, or the exception raised instead of producing it. */
  datatype Result<+T> = Ok(value: T) | Err(error: Error) {

    predicate IsFailure() {
      Err?
    }

    function PropagateFailure<U>(): Result<U>
      requires Err?
    {
      Err(error)
    }

    function Extract(): T
      requires Ok?
    {
      value
    }
  }

  /**
   * Python's v[key] for a string key: a TypeError on anything but an object,
   * a KeyError for an absent key, otherwise the key's value.
   */
  function Subscript(v: JValue, key: string): (r: Result<JValue>)
    ensures r.Ok? <==> v.JObj? && key in v.fields
    ensures r.Ok? ==> r.value == v.fields[key]
    ensures !v.JObj? ==> r == Err(NotSubscriptable)
    ensures v.JObj? && key !in v.fields ==> r == Err(MissingKey(key))
  {
    if !v.JObj? then Err(NotSubscriptable)
    else if key !in v.fields then Err(MissingKey(key))
    else Ok(v.fields[key])
  }

  /** Python's int(v): integers as they are, booleans as 0 or 1, strings parsed as numerals. */
  function IntOf(v: JValue): (r: Result<int>)
    ensures r.Ok? <==> v.JInt? || v.JBool? || (v.JStr? && IsNumeral(v.s))
    ensures v.JInt? ==> r == Ok(v.i)
    ensures v.JBool? ==> r == Ok(if v.b then 1 else 0)
    ensures v.JStr? && r.Ok? ==> r.value == NumeralValue(v.s)
    ensures v.JStr? && r.Err? ==> r.error == BadLiteral(v.s)
    ensures !(v.JInt? || v.JBool? || v.JStr?) ==> r == Err(NotNumeric)
  {
    match v
    case JInt(i) => Ok(i)
    case JBool(b) => Ok(if b then 1 else 0)
    case JStr(s) =>
      (match ParseInt(s)
       case Some(n) => Ok(n)
       case None => Err(BadLiteral(s)))
    case _ => Err(NotNumeric)
  }

  /** Python's float(v), on the same inputs as int(v) (integer numerals only). */
  function FloatOf(v: JValue): (r: Result<real>)
    ensures r.Ok? <==> IntOf(v).Ok?
    ensures r.Ok? ==> r.value == IntOf(v).value as real
    ensures r.Err? ==> r.error == IntOf(v).error
  {
    var n :- IntOf(v);
    Ok(n as real)
  }
}
