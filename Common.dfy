/** Value types and small helpers shared by the providers and the three concept pages. */
module Common {

  /** A nullable value (`T | null` in the source). */
  datatype Option<+T> = None | Some(value: T)

  /** JavaScript truthiness of a `string | null`: null and '' are falsy. */
  predicate Truthy(s: Option<string>) {
    s.Some? && s.value != ""
  }

  /** The lifecycle every concept page moves through; any state can be chosen directly. */
  datatype Lifecycle = Inactive | Proximity | Active

  /** The string the pages store and pass to their views for a lifecycle state. */
  function LifecycleName(s: Lifecycle): string {
    match s
    case Inactive => "inactive"
    case Proximity => "proximity"
    case Active => "active"
  }

  /** Reads a lifecycle name back; any other string is not a lifecycle state. */
  function ParseLifecycle(name: string): (r: Option<Lifecycle>)
    ensures r.Some? ==> LifecycleName(r.value) == name
    ensures forall s: Lifecycle :: LifecycleName(s) == name ==> r == Some(s)
  {
    if name == "inactive" then Some(Inactive)
    else if name == "proximity" then Some(Proximity)
    else if name == "active" then Some(Active)
    else None
  }

  /** Haptic intensity a page asks for when it fires feedback. */
  datatype Intensity = Light | Medium | Strong

  /** The sound label the vehicle-door and steering-wheel pages play for an intensity. */
  function SoundType(i: Intensity): (sound: string)
    ensures sound == "tap" <==> i == Light
    ensures sound == "press" <==> i == Strong
    ensures sound == "default" <==> i == Medium
  {
    match i
    case Light => "tap"
    case Strong => "press"
    case Medium => "default"
  }

  /** A feedback message and the strength of the haptic cue that goes with it. */
  datatype Feedback = Feedback(action: string, intensity: Intensity)

  /** The value of a decimal digit character. */
  function DigitValue(c: char): int {
    c as int - '0' as int
  }

  function DigitChar(d: nat): (c: char)
    requires d < 10
    ensures '0' <= c <= '9' && DigitValue(c) == d
  {
    ('0' as int + d) as char
  }

  /** The number a string of decimal digits denotes, most significant digit first. */
  ghost function DecimalValue(s: string): int
    decreases |s|
  {
    if s == [] then 0 else 10 * DecimalValue(s[..|s| - 1]) + DigitValue(s[|s| - 1])
  }

  /** Decimal rendering of a natural number, as a template literal prints it. */
  function NatToString(n: nat): (r: string)
    ensures |r| > 0
    ensures forall k :: 0 <= k < |r| ==> '0' <= r[k] <= '9'
    ensures DecimalValue(r) == n
    ensures r[0] == '0' ==> n == 0
    decreases n
  {
    if n < 10 then [DigitChar(n)]
    else
      var prefix := NatToString(n / 10);
      var r := prefix + [DigitChar(n % 10)];
      assert r[..|r| - 1] == prefix;
      r
  }

  /** Decimal rendering of an integer, with a leading '-' for negative values. */
  function IntToString(i: int): (r: string)
    ensures |r| > 0
    ensures i < 0 <==> r[0] == '-'
    ensures i >= 0 ==> DecimalValue(r) == i
    ensures i < 0 ==> |r| > 1 && DecimalValue(r[1..]) == -i
    ensures forall k :: 0 <= k < |r| && (i >= 0 || k > 0) ==> '0' <= r[k] <= '9'
  {
    if i < 0 then
      var digits := NatToString(-i);
      assert ("-" + digits)[1..] == digits;
      "-" + digits
    else NatToString(i)
  }

  /** Two numbers print alike only when they are equal. */
  lemma IntToStringInjective(i: int, j: int)
    requires IntToString(i) == IntToString(j)
    ensures i == j
  {
    if i < 0 {
      assert IntToString(i)[1..] == IntToString(j)[1..];
    }
  }

  /** `items.join(sep)`. */
  function Join(items: seq<string>, sep: string): (r: string)
    ensures |items| == 1 ==> r == items[0]
    ensures |items| == 0 ==> r == ""
    decreases |items|
  {
    if |items| == 0 then ""
    else if |items| == 1 then items[0]
    else items[0] + sep + Join(items[1..], sep)
  }

  /** Joining one more item puts the separator between the earlier items and it. */
  lemma {:induction false} JoinAppend(items: seq<string>, sep: string, item: string)
    requires |items| > 0
    ensures Join(items + [item], sep) == Join(items, sep) + sep + item
    decreases |items|
  {
    if |items| == 1 {
      assert (items + [item])[1..] == [item];
    } else {
      assert (items + [item])[1..] == items[1..] + [item];
      JoinAppend(items[1..], sep, item);
    }
  }
}
