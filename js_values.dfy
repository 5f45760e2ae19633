/**
  The few JavaScript value semantics the components rely on: truthiness (`||`, `if (x)`),
  loose comparison with null (`!= null`), `angular.isObject`, property access on plain objects,
  the string conversion done by `Array.prototype.join`, `String.prototype.indexOf` and
  `String.prototype.trim`.
 */
module JsValues {

  /** A JavaScript value as far as the components can observe it. A function value is identified
      by its source text, which is also what converting it to a string yields. */
  datatype Value =
    | Undefined
    | Null
    | Bool(b: bool)
    | Num(n: int)
    | Str(s: string)
    | Obj(fields: map<string, Value>)
    | Fn(source: string)

  /** ECMAScript ToBoolean: the falsy values are undefined, null, false, 0 and "" (NaN is not modelled) */
  predicate Truthy(v: Value) {
    match v
    case Undefined => false
    case Null => false
    case Bool(b) => b
    case Num(n) => n != 0
    case Str(s) => s != ""
    case Obj(_) => true
    case Fn(_) => true
  }

  /** `v == null` with JavaScript's loose equality: true of null and of undefined only */
  predicate IsNullish(v: Value) {
    v.Undefined? || v.Null?
  }

  /** `angular.isObject(v)`: not null and of type "object"; a function is not an object here */
  predicate IsObject(v: Value) {
    v.Obj?
  }

  /** `typeof v === 'function'`, which is what `angular.isFunction` tests */
  predicate IsFunction(v: Value) {
    v.Fn?
  }

  /** Property access `obj[key]` on a plain object: a missing key reads as undefined */
  function Get(obj: map<string, Value>, key: string): (v: Value)
    ensures key !in obj ==> v == Undefined
    ensures key in obj ==> v == obj[key]
  {
    if key in obj then obj[key] else Undefined
  }

  predicate IsDigit(c: char) {
    '0' <= c <= '9'
  }

  /** The number a string of decimal digits denotes, most significant digit first */
  function DecimalValue(s: string): nat
    requires forall i :: 0 <= i < |s| ==> IsDigit(s[i])
  {
    if s == [] then 0
    else
      assert IsDigit(s[|s| - 1]);
      DecimalValue(s[..|s| - 1]) * 10 + (s[|s| - 1] as int - '0' as int)
  }

  /** Decimal digits of a natural number, most significant first, with no leading zero */
  function NatToDecimal(n: nat): (s: string)
    ensures |s| >= 1
    ensures forall i :: 0 <= i < |s| ==> IsDigit(s[i])
    ensures DecimalValue(s) == n
    ensures s[0] == '0' ==> s == "0"
    decreases n
  {
    var d := [(n % 10) as char + '0' as char];
    if n < 10 then d
    else
      var hi := NatToDecimal(n / 10);
      assert (hi + d)[..|hi + d| - 1] == hi;
      hi + d
  }

  /** ECMAScript ToString on the values above (integers only; exponent notation is not modelled) */
  function ToJsString(v: Value): string {
    match v
    case Undefined => "undefined"
    case Null => "null"
    case Bool(b) => if b then "true" else "false"
    case Num(n) => if n < 0 then "-" + NatToDecimal(-n) else NatToDecimal(n)
    case Str(s) => s
    case Obj(_) => "[object Object]"
    case Fn(src) => src
  }

  /** `s.indexOf(c)`: the index of the first occurrence of `c` in `s`, or -1 */
  function IndexOf(s: string, c: char): (r: int)
    ensures -1 <= r < |s|
    ensures r == -1 <==> c !in s
    ensures r >= 0 ==> s[r] == c && c !in s[..r]
  {
    if s == [] then -1
    else if s[0] == c then 0
    else
      var k := IndexOf(s[1..], c);
      if k == -1 then -1 else k + 1
  }

  /** The characters `String.prototype.trim` removes: ECMAScript WhiteSpace and LineTerminator */
  predicate IsWhitespace(c: char) {
    || c == '\t' || c == '\n' || c == '\U{B}' || c == '\U{C}' || c == '\r' || c == ' '
    || c == '\U{A0}' || c == '\U{1680}' || ('\U{2000}' <= c <= '\U{200A}')
    || c == '\U{2028}' || c == '\U{2029}' || c == '\U{202F}' || c == '\U{205F}'
    || c == '\U{3000}' || c == '\U{FEFF}'
  }

  predicate AllWhitespace(s: string) {
    forall i :: 0 <= i < |s| ==> IsWhitespace(s[i])
  }

  /** Neither the first nor the last character of `s` is whitespace */
  predicate Trimmed(s: string) {
    s == [] || (!IsWhitespace(s[0]) && !IsWhitespace(s[|s| - 1]))
  }

  /** The number of whitespace characters at the front of `s` */
  function LeadingWhitespace(s: string): (k: nat)
    ensures k <= |s| && AllWhitespace(s[..k])
    ensures k < |s| ==> !IsWhitespace(s[k])
  {
    if s == [] || !IsWhitespace(s[0]) then 0
    else
      var k := LeadingWhitespace(s[1..]);
      assert s[..k + 1] == [s[0]] + s[1..][..k];
      k + 1
  }

  /** The length of `s` without the whitespace at its end */
  function TrailingWhitespaceStart(s: string): (k: nat)
    ensures k <= |s| && AllWhitespace(s[k..])
    ensures k > 0 ==> !IsWhitespace(s[k - 1])
  {
    if s == [] || !IsWhitespace(s[|s| - 1]) then |s|
    else
      var k := TrailingWhitespaceStart(s[..|s| - 1]);
      assert s[k..] == s[..|s| - 1][k..] + [s[|s| - 1]];
      k
  }

  /** `s.trimStart()` */
  function TrimStart(s: string): (r: string)
    ensures r == [] || !IsWhitespace(r[0])
  {
    s[LeadingWhitespace(s)..]
  }

  /** `s.trimEnd()` */
  function TrimEnd(s: string): (r: string)
    ensures r == [] || !IsWhitespace(r[|r| - 1])
  {
    s[..TrailingWhitespaceStart(s)]
  }

  /** `trimStart` removes exactly the blank prefix: the input is that prefix followed by the result */
  lemma TrimStartDropsOnlyLeadingBlanks(s: string)
    ensures var r := TrimStart(s);
      && |r| <= |s| && s == s[..|s| - |r|] + r && AllWhitespace(s[..|s| - |r|])
  {
  }

  /** `trimEnd` removes exactly the blank suffix: the input is the result followed by that suffix */
  lemma TrimEndDropsOnlyTrailingBlanks(s: string)
    ensures var r := TrimEnd(s);
      && |r| <= |s| && s == r + s[|r|..] && AllWhitespace(s[|r|..])
  {
  }

  /** `s.trim()` */
  function Trim(s: string): (r: string)
    ensures Trimmed(r)
  {
    TrimEnd(TrimStart(s))
  }

  /** `trim` removes whitespace at both ends and nothing else: `s` is the trimmed string
      with a blank prefix and a blank suffix around it. */
  lemma TrimIsInnerSlice(s: string)
    ensures LeadingWhitespace(s) + |Trim(s)| <= |s|
    ensures s == s[..LeadingWhitespace(s)] + Trim(s) + s[LeadingWhitespace(s) + |Trim(s)|..]
    ensures AllWhitespace(s[..LeadingWhitespace(s)])
    ensures AllWhitespace(s[LeadingWhitespace(s) + |Trim(s)|..])
  {
    var k := LeadingWhitespace(s);
    var t := s[k..];
    var j := TrailingWhitespaceStart(t);
    assert Trim(s) == t[..j];
    assert s[k + j..] == t[j..];
    assert s == s[..k] + t[..j] + t[j..];
  }

  /** `trim` yields "" exactly when the string is blank */
  lemma TrimEmptyIffBlank(s: string)
    ensures Trim(s) == [] <==> AllWhitespace(s)
  {
    var k := LeadingWhitespace(s);
    if !AllWhitespace(s) {
      var i :| 0 <= i < |s| && !IsWhitespace(s[i]);
      var t := s[k..];
      assert t[0..][0] == t[0];
    }
  }

  /** Text that starts with a blank prefix loses exactly that prefix to `trimStart` */
  lemma {:induction false} LeadingBlankPrefix(lead: string, core: string)
    requires AllWhitespace(lead)
    requires core == [] || !IsWhitespace(core[0])
    ensures LeadingWhitespace(lead + core) == |lead|
    decreases |lead|
  {
    if lead == [] {
      assert lead + core == core;
    } else {
      assert (lead + core)[1..] == lead[1..] + core;
      LeadingBlankPrefix(lead[1..], core);
    }
  }

  /** Text that ends with a blank suffix loses exactly that suffix to `trimEnd` */
  lemma {:induction false} TrailingBlankSuffix(core: string, trail: string)
    requires AllWhitespace(trail)
    requires core == [] || !IsWhitespace(core[|core| - 1])
    ensures TrailingWhitespaceStart(core + trail) == |core|
    decreases |trail|
  {
    if trail == [] {
      assert core + trail == core;
    } else {
      var n := |trail|;
      assert (core + trail)[..|core + trail| - 1] == core + trail[..n - 1];
      TrailingBlankSuffix(core, trail[..n - 1]);
    }
  }

  /** Trimming text that is already trimmed, padded with blanks on either side, gives that
      text back exactly: `trim` neither collapses nor drops anything inside. */
  lemma TrimPadded(lead: string, core: string, trail: string)
    requires AllWhitespace(lead) && AllWhitespace(trail)
    requires core != [] && Trimmed(core)
    ensures Trim(lead + core + trail) == core
  {
    var s := lead + core + trail;
    assert s == lead + (core + trail);
    LeadingBlankPrefix(lead, core + trail);
    assert TrimStart(s) == core + trail;
    TrailingBlankSuffix(core, trail);
  }

  /** `trim` is idempotent */
  lemma TrimIdempotent(s: string)
    ensures Trim(Trim(s)) == Trim(s)
  {
    var r := Trim(s);
    if r != [] {
      TrimPadded([], r, []);
      assert [] + r + [] == r;
    }
  }
}
