/**
 * The printed forms the device uses for results and the host-side parsers
 * that read them back: a name list joined with commas on the device and
 * split at commas on the host, and an integer printed in decimal on the
 * device and parsed with `strconv.Atoi` on the host.
 */
module DeviceText {
  import opened Wrappers

  /** The names joined with commas, as the device prints a list; the empty list prints as the empty string. */
  function JoinComma(names: seq<string>): (joined: string)
    ensures names == [] ==> joined == ""
  {
    if names == [] then ""
    else if |names| == 1 then names[0]
    else names[0] + "," + JoinComma(names[1..])
  }

  /** A joined list starts with its first name, then a comma if more follow, and ends with its last name. */
  lemma {:induction false} JoinCommaEnds(names: seq<string>)
    requires |names| >= 1
    ensures names[0] <= JoinComma(names)
    ensures |names| >= 2 ==> names[0] + "," <= JoinComma(names)
    ensures var last, joined := names[|names| - 1], JoinComma(names);
      |last| <= |joined| && joined[|joined| - |last|..] == last
    decreases |names|
  {
    if |names| >= 2 {
      JoinCommaEnds(names[1..]);
    }
  }

  /**
   * `strings.Split(s, ",")`: the comma-free pieces between commas, in order.
   * There is always at least one piece, so the empty string splits into `[""]`.
   */
  function Split(s: string): (parts: seq<string>)
    ensures |parts| >= 1
    ensures forall i :: 0 <= i < |parts| ==> ',' !in parts[i]
    ensures JoinComma(parts) == s
  {
    if s == "" then [""]
    else
      var rest := Split(s[1..]);
      if s[0] == ',' then
        assert [s[0]] + s[1..] == s;
        [""] + rest
      else
        assert [s[0]] + rest[0] + JoinComma(rest)[|rest[0]|..] == s by {
          if |rest| > 1 {
            assert JoinComma(rest) == rest[0] + "," + JoinComma(rest[1..]);
          }
          assert [s[0]] + s[1..] == s;
        }
        [[s[0]] + rest[0]] + rest[1..]
  }

  lemma {:induction false} SplitPrefix(x: string, t: string)
    requires ',' !in x
    ensures Split(x + t) == [x + Split(t)[0]] + Split(t)[1..]
    decreases |x|
  {
    if x == "" {
      var parts := Split(t);
      assert x + t == t && x + parts[0] == parts[0];
      assert [parts[0]] + parts[1..] == parts;
    } else {
      SplitPrefix(x[1..], t);
      assert (x + t)[0] == x[0] && (x + t)[1..] == x[1..] + t;
      assert [x[0]] + (x[1..] + Split(t)[0]) == x + Split(t)[0];
    }
  }

  /** Splitting a comma-joined list of comma-free names gives the names back, if there is at least one. */
  lemma {:induction false} SplitJoin(names: seq<string>)
    requires |names| >= 1
    requires forall i :: 0 <= i < |names| ==> ',' !in names[i]
    ensures Split(JoinComma(names)) == names
    decreases |names|
  {
    if |names| == 1 {
      SplitPrefix(names[0], "");
      assert names[0] + "" == names[0];
    } else {
      var tail := JoinComma(names[1..]);
      SplitJoin(names[1..]);
      assert names[0] + "," + tail == names[0] + ("," + tail);
      SplitPrefix(names[0], "," + tail);
      assert ("," + tail)[1..] == tail;
      assert Split("," + tail) == [""] + names[1..];
      assert names[0] + "" == names[0];
      assert [names[0]] + names[1..] == names;
    }
  }

  predicate IsDigit(c: char) {
    '0' <= c <= '9'
  }

  predicate AllDigits(s: string) {
    forall i :: 0 <= i < |s| ==> IsDigit(s[i])
  }

  /** The value of a string of decimal digits, most significant first. */
  function DigitsValue(s: string): (value: nat)
    requires AllDigits(s)
  {
    if s == [] then 0
    else DigitsValue(s[..|s| - 1]) * 10 + (s[|s| - 1] as int - '0' as int)
  }

  /** How the device prints a natural number: decimal, no sign, no leading zeros. */
  function Decimal(n: nat): (s: string)
    ensures |s| >= 1 && AllDigits(s)
    ensures |s| >= 2 ==> s[0] != '0'
    ensures n < 10 <==> |s| == 1
  {
    if n < 10 then [('0' as int + n) as char]
    else Decimal(n / 10) + [('0' as int + n % 10) as char]
  }

  /**
   * `strconv.Atoi` without its 64-bit range check: an optional `+` or `-`
   * followed by one or more decimal digits; anything else is an error.
   */
  function ParseInt(s: string): (r: Option<int>)
    ensures r.Some? <==> (|s| >= 1 && AllDigits(s)) || (|s| >= 2 && s[0] in "+-" && AllDigits(s[1..]))
  {
    if |s| >= 2 && s[0] in "+-" && AllDigits(s[1..]) then
      var magnitude: int := DigitsValue(s[1..]);
      Some(if s[0] == '-' then -magnitude else magnitude)
    else if |s| >= 1 && AllDigits(s) then Some(DigitsValue(s))
    else None
  }

  /** Parsing what the device prints for a number gives that number back. */
  lemma {:induction false} ParseDecimal(n: nat)
    ensures ParseInt(Decimal(n)) == Some(n)
  {
    DecimalValue(n);
  }

  lemma {:induction false} DecimalValue(n: nat)
    ensures DigitsValue(Decimal(n)) == n
  {
    if n >= 10 {
      DecimalValue(n / 10);
      var s := Decimal(n);
      assert s[..|s| - 1] == Decimal(n / 10);
    }
  }
}
