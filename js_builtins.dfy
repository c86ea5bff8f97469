/**
 * The JavaScript built-ins whose exact behaviour the handlers depend on:
 * `String.prototype.trim`, the global `parseInt` (called without a radix)
 * and `String.prototype.split(" ")`, stated as ECMAScript defines them.
 */
module JsBuiltins {
  import opened Wrappers

  // ---------------------------------------------------------------------
  // Whitespace and trim
  // ---------------------------------------------------------------------

  /** ECMAScript WhiteSpace and LineTerminator code points: the characters
      that `trim` removes and that `parseInt` skips before a number. */
  predicate IsWhitespace(c: char) {
    || c == '\t' || c == '\n' || c == '\U{000B}' || c == '\U{000C}' || c == '\r'
    || c == ' ' || c == '\U{00A0}' || c == '\U{1680}'
    || ('\U{2000}' <= c <= '\U{200A}')
    || c == '\U{2028}' || c == '\U{2029}' || c == '\U{202F}' || c == '\U{205F}'
    || c == '\U{3000}' || c == '\U{FEFF}'
  }

  /** Every character of `s` is whitespace (vacuously so for ""). */
  predicate AllWhitespace(s: string) {
    forall i :: 0 <= i < |s| ==> IsWhitespace(s[i])
  }

  /** `s` with its leading whitespace removed: what is dropped is whitespace
      and what is kept does not start with whitespace. */
  function TrimStart(s: string): (r: string)
    ensures |r| <= |s| && r == s[|s| - |r|..]
    ensures AllWhitespace(s[..|s| - |r|])
    ensures r == [] || !IsWhitespace(r[0])
  {
    if |s| > 0 && IsWhitespace(s[0]) then
      var r := TrimStart(s[1..]);
      assert s[..|s| - |r|] == [s[0]] + s[1..][..|s| - 1 - |r|];
      r
    else s
  }

  /** `s` with its trailing whitespace removed. */
  function TrimEnd(s: string): (r: string)
    ensures |r| <= |s| && r == s[..|r|]
    ensures AllWhitespace(s[|r|..])
    ensures r == [] || !IsWhitespace(r[|r| - 1])
  {
    if |s| > 0 && IsWhitespace(s[|s| - 1]) then
      var r := TrimEnd(s[..|s| - 1]);
      assert s[|r|..] == s[..|s| - 1][|r|..] + [s[|s| - 1]];
      r
    else s
  }

  /** `String.prototype.trim`. */
  function Trim(s: string): (r: string)
    ensures |r| <= |s|
    ensures r == [] || (!IsWhitespace(r[0]) && !IsWhitespace(r[|r| - 1]))
  {
    TrimEnd(TrimStart(s))
  }

  /** `trim` gives the empty string exactly when the input is all whitespace. */
  lemma TrimEmptyIffAllWhitespace(s: string)
    ensures Trim(s) == "" <==> AllWhitespace(s)
  {
    var t := TrimStart(s);
    if Trim(s) == "" {
      assert AllWhitespace(t[0..]);
      assert t == [];
      assert s[..|s|] == s;
    }
    assert t != [] ==> t[0] == s[|s| - |t|];
  }

  /** JavaScript truthiness of an optional string: present and non-empty. */
  predicate Truthy(field: Option<string>) {
    field.Some? && field.value != ""
  }

  /** `!field?.trim()`: the field is missing or holds only whitespace
      (`BlankIffTrimEmpty` ties this to `trim`). */
  predicate IsBlank(field: Option<string>) {
    field.None? || AllWhitespace(field.value)
  }

  /** A field is blank exactly when it is missing or `trim` empties it. */
  lemma BlankIffTrimEmpty(field: Option<string>)
    ensures IsBlank(field) <==> field.None? || Trim(field.value) == ""
  {
    if field.Some? {
      TrimEmptyIffAllWhitespace(field.value);
    }
  }

  // ---------------------------------------------------------------------
  // parseInt
  // ---------------------------------------------------------------------

  /** The value of `c` as a digit of radix up to 36 (0-9, then a-z or A-Z
      for 10-35); 36 for any other character. */
  function DigitValue(c: char): (d: nat)
    ensures d <= 36
  {
    if '0' <= c <= '9' then c as int - '0' as int
    else if 'a' <= c <= 'z' then c as int - 'a' as int + 10
    else if 'A' <= c <= 'Z' then c as int - 'A' as int + 10
    else 36
  }

  predicate IsDecimalDigit(c: char) {
    '0' <= c <= '9'
  }

  /** The longest prefix of `s` made of radix-`radix` digits. */
  function DigitPrefix(s: string, radix: nat): (r: string)
    ensures |r| <= |s| && r == s[..|r|]
    ensures forall i :: 0 <= i < |r| ==> DigitValue(r[i]) < radix
    ensures |r| == |s| || DigitValue(s[|r|]) >= radix
  {
    if |s| > 0 && DigitValue(s[0]) < radix then [s[0]] + DigitPrefix(s[1..], radix) else []
  }

  /** The number a string of radix-`radix` digits denotes, most significant first. */
  function DigitsValue(ds: string, radix: nat): nat {
    if ds == [] then 0
    else DigitsValue(ds[..|ds| - 1], radix) * radix + DigitValue(ds[|ds| - 1])
  }

  /** `s` without one leading `+` or `-`. */
  function StripSign(t: string): (u: string)
    ensures |t| - 1 <= |u| <= |t| && u == t[|t| - |u|..]
  {
    if |t| > 0 && (t[0] == '-' || t[0] == '+') then t[1..] else t
  }

  /** The magnitude `parseInt` reads from an unsigned string: a `0x`/`0X`
      prefix selects radix 16, otherwise radix 10; `None` when no digit
      follows. */
  function ParseMagnitude(u: string): Option<nat> {
    if |u| >= 2 && u[0] == '0' && (u[1] == 'x' || u[1] == 'X') then
      var digits := DigitPrefix(u[2..], 16);
      if digits == [] then None else Some(DigitsValue(digits, 16))
    else
      var digits := DigitPrefix(u, 10);
      if digits == [] then None else Some(DigitsValue(digits, 10))
  }

  /** The global `parseInt(s)` with no radix argument; `None` stands for NaN.
      Leading whitespace is skipped, one sign is accepted, a `0x`/`0X`
      prefix switches to radix 16, and the longest run of digits that
      follows is converted; anything after it is ignored. */
  function ParseInt(s: string): (r: Option<int>)
    ensures r.Some? && r.value < 0 ==> |TrimStart(s)| > 0 && TrimStart(s)[0] == '-'
  {
    var t := TrimStart(s);
    match ParseMagnitude(StripSign(t))
    case None => None
    case Some(m) =>
      var magnitude: int := m;
      Some(if |t| > 0 && t[0] == '-' then -magnitude else magnitude)
  }

  /** The decimal rendering of `n`, as `String(n)` gives it for a safe integer. */
  function DecimalString(n: nat): (r: string)
    ensures |r| >= 1
    ensures forall i :: 0 <= i < |r| ==> IsDecimalDigit(r[i])
    ensures r[0] == '0' ==> n == 0 && r == "0"
  {
    var last := ['0' + (n % 10) as char];
    if n < 10 then last else DecimalString(n / 10) + last
  }

  lemma {:induction false} DecimalStringValue(n: nat)
    ensures forall i :: 0 <= i < |DecimalString(n)| ==> DigitValue(DecimalString(n)[i]) < 10
    ensures DigitsValue(DecimalString(n), 10) == n
  {
    var ds := DecimalString(n);
    if n >= 10 {
      DecimalStringValue(n / 10);
      assert ds[..|ds| - 1] == DecimalString(n / 10);
    }
  }

  /** The digit run `parseInt` reads from `ds + rest` is all of `ds` when
      `rest` does not continue it. */
  lemma DigitPrefixOfDigits(ds: string, rest: string, radix: nat)
    requires forall i :: 0 <= i < |ds| ==> DigitValue(ds[i]) < radix
    requires rest == [] || DigitValue(rest[0]) >= radix
    ensures DigitPrefix(ds + rest, radix) == ds
  {
    var s := ds + rest;
    var r := DigitPrefix(s, radix);
    assert forall k :: 0 <= k < |ds| ==> s[k] == ds[k];
    assert |ds| < |s| ==> s[|ds|] == rest[0];
  }

  /** The decimal form of a natural number, followed by anything that is not
      a further digit, parses back to that number: `parseInt("12")` is 12 and
      so is `parseInt("12abc")`. After "0" an `x` would start a hexadecimal
      number instead, hence the second requirement. */
  lemma ParseDecimalPrefix(n: nat, rest: string)
    requires rest == [] || !IsDecimalDigit(rest[0])
    requires n > 0 || rest == [] || (rest[0] != 'x' && rest[0] != 'X')
    ensures ParseInt(DecimalString(n) + rest) == Some(n)
  {
    var s := DecimalString(n) + rest;
    DecimalMagnitude(n, rest);
    DigitFirst(s);
  }

  /** A string starting with a digit has nothing for `parseInt` to skip
      and no sign. */
  lemma DigitFirst(s: string)
    requires s != [] && IsDecimalDigit(s[0])
    ensures TrimStart(s) == s && StripSign(s) == s
  {
    var c := s[0];
    assert !IsWhitespace(c) by {
      assert '0' <= c <= '9';
    }
  }

  /** The magnitude read from an id's decimal form, followed by a non-digit,
      is the id. */
  lemma DecimalMagnitude(n: nat, rest: string)
    requires rest == [] || !IsDecimalDigit(rest[0])
    requires n > 0 || rest == [] || (rest[0] != 'x' && rest[0] != 'X')
    ensures var s := DecimalString(n) + rest;
      s != [] && IsDecimalDigit(s[0]) && ParseMagnitude(s) == Some(n)
  {
    var ds := DecimalString(n);
    var s := ds + rest;
    DecimalStringValue(n);
    assert s[0] == ds[0];
    if |s| >= 2 && s[0] == '0' {
      assert ds == "0" && s[1] == rest[0];
    }
    DigitPrefixOfDigits(ds, rest, 10);
  }

  /** A parameter with no decimal digit in it is NaN to `parseInt`. */
  lemma ParseWithoutDigits(s: string)
    requires forall i :: 0 <= i < |s| ==> !IsDecimalDigit(s[i])
    ensures ParseInt(s) == None
  {
    var u := StripSign(TrimStart(s));
    assert u == s[|s| - |u|..];
    assert |u| > 0 ==> !IsDecimalDigit(u[0]) by {
      if |u| > 0 { assert u[0] == s[|s| - |u|]; }
    }
    assert DigitPrefix(u, 10) == [];
  }

  // ---------------------------------------------------------------------
  // split(" ")
  // ---------------------------------------------------------------------

  /** `s.split(" ")`: the pieces between single spaces, including empty ones;
      `"".split(" ")` is `[""]`. */
  function Split(s: string): (parts: seq<string>)
    ensures |parts| >= 1
    ensures forall i :: 0 <= i < |parts| ==> ' ' !in parts[i]
  {
    if s == [] then [""]
    else if s[0] == ' ' then [""] + Split(s[1..])
    else
      var rest := Split(s[1..]);
      [[s[0]] + rest[0]] + rest[1..]
  }

  /** `parts.join(" ")`, the inverse of `Split`. */
  function Join(parts: seq<string>): string
    requires |parts| >= 1
  {
    if |parts| == 1 then parts[0] else parts[0] + " " + Join(parts[1..])
  }

  lemma {:induction false} JoinSplit(s: string)
    ensures Join(Split(s)) == s
  {
    if s != [] {
      JoinSplit(s[1..]);
      if s[0] != ' ' {
        var rest := Split(s[1..]);
        if |rest| == 1 {
          assert Join(Split(s)) == [s[0]] + rest[0];
        } else {
          assert Join(Split(s)) == [s[0]] + rest[0] + " " + Join(rest[1..]);
          assert Join(rest) == rest[0] + " " + Join(rest[1..]);
        }
      }
    }
  }

  /** A piece without spaces splits to itself. */
  lemma {:induction false} SplitWord(w: string)
    requires ' ' !in w
    ensures Split(w) == [w]
  {
    if w != [] {
      assert ' ' !in w[1..] by { assert forall c :: c in w[1..] ==> c in w; }
      SplitWord(w[1..]);
      assert [w[0]] + w[1..] == w;
    }
  }

  /** A leading piece without spaces, followed by a space, splits off. */
  lemma {:induction false} SplitAfterWord(w: string, rest: string)
    requires ' ' !in w
    ensures Split(w + " " + rest) == [w] + Split(rest)
  {
    if w == [] {
      assert w + " " + rest == [' '] + rest;
    } else {
      assert ' ' !in w[1..] by { assert forall c :: c in w[1..] ==> c in w; }
      SplitAfterWord(w[1..], rest);
      assert (w + " " + rest)[1..] == w[1..] + " " + rest;
      assert [w[0]] + w[1..] == w;
    }
  }

  lemma {:induction false} SplitJoin(parts: seq<string>)
    requires |parts| >= 1
    requires forall i :: 0 <= i < |parts| ==> ' ' !in parts[i]
    ensures Split(Join(parts)) == parts
  {
    if |parts| == 1 {
      SplitWord(parts[0]);
    } else {
      SplitJoin(parts[1..]);
      SplitAfterWord(parts[0], Join(parts[1..]));
      assert [parts[0]] + parts[1..] == parts;
    }
  }
}
