/** The Python values the storage layer keeps under its keys: `None`, booleans,
    integers, strings and dictionaries with string keys; Python truthiness over
    them; and the text form of an instant (`datetime.isoformat` and
    `datetime.fromisoformat`), with instants abstracted to natural numbers and
    their text form to decimal digits. */
module PyValues {
  import opened Wrappers

  datatype Value =
    | PyNone
    | PyBool(b: bool)
    | PyInt(i: int)
    | PyStr(s: string)
    | PyDict(fields: map<string, Value>)

  /** Python's `bool(v)`: `None`, `False`, `0`, `""` and `{}` are false. */
  predicate Truthy(v: Value) {
    match v
    case PyNone => false
    case PyBool(b) => b
    case PyInt(i) => i != 0
    case PyStr(s) => s != []
    case PyDict(m) => |m| > 0
  }

  predicate IsDigit(c: char) {
    '0' <= c <= '9'
  }

  function DigitChar(d: nat): (c: char)
    requires d < 10
    ensures IsDigit(c)
  {
    ('0' as int + d) as char
  }

  /** `isoformat()`: the text form of an instant. */
  function Iso(n: nat): (r: string)
    ensures r != []
    ensures forall i :: 0 <= i < |r| ==> IsDigit(r[i])
  {
    if n < 10 then [DigitChar(n)] else Iso(n / 10) + [DigitChar(n % 10)]
  }

  /** Reads a non-empty run of digits; `None` when any character is not a digit. */
  function ParseDigits(s: string): Option<nat>
    requires s != []
    decreases |s|
  {
    var last := s[|s| - 1];
    if !IsDigit(last) then None
    else if |s| == 1 then Some(last as int - '0' as int)
    else match ParseDigits(s[..|s| - 1])
      case None => None
      case Some(v) => Some(v * 10 + (last as int - '0' as int))
  }

  /** `fromisoformat(s)`, `None` standing for the `ValueError` it raises on text that
      is not an instant (here: empty text or any non-digit). */
  function ParseIso(s: string): (r: Option<nat>)
    ensures r.Some? ==> s != [] && forall i :: 0 <= i < |s| ==> IsDigit(s[i])
  {
    if s == [] then None else ParseDigitsOk(s); ParseDigits(s)
  }

  lemma {:induction false} ParseDigitsOk(s: string)
    requires s != []
    ensures ParseDigits(s).Some? ==> forall i :: 0 <= i < |s| ==> IsDigit(s[i])
    decreases |s|
  {
    if |s| > 1 && IsDigit(s[|s| - 1]) {
      ParseDigitsOk(s[..|s| - 1]);
      if ParseDigits(s).Some? {
        forall i | 0 <= i < |s| ensures IsDigit(s[i]) {
          if i < |s| - 1 {
            assert s[i] == s[..|s| - 1][i];
          }
        }
      }
    }
  }

  /** `fromisoformat(t.isoformat()) == t`. */
  lemma {:induction false} IsoRoundTrip(n: nat)
    ensures ParseIso(Iso(n)) == Some(n)
  {
    if n >= 10 {
      IsoRoundTrip(n / 10);
      var s := Iso(n);
      assert s[..|s| - 1] == Iso(n / 10);
    }
  }
}
