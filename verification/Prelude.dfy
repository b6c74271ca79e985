/** Types and small text functions shared by the models of the Cristalina store. */
module Prelude {

  /** A value that may be missing: TypeScript's `T | null | undefined`. */
  datatype Option<+T> = None | Some(value: T)

  /** A computation that may throw. */
  datatype Result<+T> = Ok(value: T) | Thrown(message: string) {
    predicate IsFailure() { Thrown? }
    function PropagateFailure<U>(): Result<U>
      requires Thrown?
    {
      Thrown(message)
    }
    function Extract(): T
      requires Ok?
    {
      value
    }
  }

  const DIGITS: seq<char> := ['0', '1', '2', '3', '4', '5', '6', '7', '8', '9']

  /** JavaScript's decimal text of a natural number. */
  function Decimal(n: nat): (text: string)
    ensures text != [] && forall c :: c in text ==> c in DIGITS
  {
    if n < 10 then [DIGITS[n]] else Decimal(n / 10) + [DIGITS[n % 10]]
  }

  /** The number a decimal text denotes. */
  function ParseDecimal(text: string): nat {
    if text == [] then 0
    else
      var last := text[|text| - 1];
      10 * ParseDecimal(text[..|text| - 1]) + (if '0' <= last <= '9' then last as int - '0' as int else 0)
  }

  /** Decimal text can be read back, so distinct numbers have distinct texts. */
  lemma {:induction false} DecimalRoundTrip(n: nat)
    ensures ParseDecimal(Decimal(n)) == n
  {
    if n >= 10 {
      DecimalRoundTrip(n / 10);
      var text := Decimal(n);
      assert text[..|text| - 1] == Decimal(n / 10);
    }
  }

  /** JavaScript's `split` at a separator of one character. */
  function Split(source: string, separator: char): (parts: seq<string>)
    ensures parts != [] && forall part :: part in parts ==> separator !in part
  {
    if source == "" then [""]
    else
      var rest := Split(source[1..], separator);
      if source[0] == separator then [""] + rest else [[source[0]] + rest[0]] + rest[1..]
  }

  lemma {:induction false} SplitFirst(part: string, separator: char, rest: string)
    requires separator !in part
    ensures Split(part + [separator] + rest, separator) == [part] + Split(rest, separator)
    decreases |part|
  {
    var whole := part + [separator] + rest;
    if part == "" {
      assert whole[0] == separator && whole[1..] == rest;
    } else {
      SplitFirst(part[1..], separator, rest);
      assert whole[1..] == part[1..] + [separator] + rest;
      assert Split(whole, separator) == [[part[0]] + part[1..]] + Split(rest, separator);
      assert [part[0]] + part[1..] == part;
    }
  }

  lemma {:induction false} SplitAlone(part: string, separator: char)
    requires separator !in part
    ensures Split(part, separator) == [part]
    decreases |part|
  {
    if part != "" {
      SplitAlone(part[1..], separator);
      assert [part[0]] + part[1..] == part;
    }
  }
}
