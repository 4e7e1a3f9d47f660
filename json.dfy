/**
 * The JSON scalars that occur in a report's cells and aggregates, after
 * `json.load`, and Python's `str()` of each.
 */
module JsonValue {
  import opened Text

  datatype Option<+T> = None | Some(value: T) {
    /** `d.get(key, default)` once the lookup has been made */
    function GetOr(default: T): T {
      if Some? then value else default
    }
  }

  /** A JSON scalar: `null`, a boolean, an integer number or a string. */
  datatype Json = Null | Bool(b: bool) | Int(i: int) | Str(s: string)

  /** Python's `str(v)` of the value `json.load` produces. */
  function Show(v: Json): string
  {
    match v
    case Null => "None"
    case Bool(b) => if b then "True" else "False"
    case Int(i) => IntToString(i)
    case Str(s) => s
  }

  /** `str(n)` of a whole number is its decimal spelling. */
  lemma ShowInt(n: nat)
    ensures Show(Int(n)) == Decimal(n)
    ensures n < 10 ==> Show(Int(n)) == [DigitChar(n)]
  {
  }
}
