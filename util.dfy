/** Small helpers of app.js: integer clamping, two-digit padding, the
    serve-instant parser (its `Date` arithmetic abstracted as a clock) and
    `String.prototype.trim`, which the prompts' answers go through. */
module Util {
  import opened Types

  // ---------- clampInt ----------

  /** `clampInt(n, min, max)`: NaN gives `min`; a number is bounded by
      `Math.max(min, Math.min(max, v))`, so with `min > max` it is `min`. */
  function ClampInt(n: Num, min: int, max: int): (r: int)
    ensures n.NaN? ==> r == min
    ensures min <= max ==> min <= r <= max
    ensures min > max ==> r == min
    ensures n.Int? && min <= n.i <= max ==> r == n.i
    ensures n.Int? && n.i < min ==> r == min
    ensures n.Int? && n.i > max ==> r == (if min <= max then max else min)
  {
    match n
    case NaN => min
    case Int(v) =>
      var low := if max < v then max else v;
      if min < low then low else min
  }

  /** Clamping a value that is already clamped changes nothing: this is why
      re-clamping stored durations when the timeline is derived is harmless. */
  lemma ClampIdempotent(n: Num, min: int, max: int)
    ensures ClampInt(Int(ClampInt(n, min, max)), min, max) == ClampInt(n, min, max)
  {
  }

  /** The documented examples for stage durations: -5 gives 0, 9999 gives
      2000, non-numeric input gives 0. */
  lemma ClampDurationExamples()
    ensures ClampInt(Int(-5), 0, 2000) == 0
    ensures ClampInt(Int(9999), 0, 2000) == 2000
    ensures ClampInt(NaN, 0, 2000) == 0
    ensures ClampInt(Int(45), 0, 2000) == 45
  {
  }

  // ---------- pad2 ----------

  function DigitChar(d: nat): (c: char)
    requires d < 10
    ensures '0' <= c <= '9' && c as int - '0' as int == d
  {
    ('0' as int + d) as char
  }

  /** `String(n)` for a non-negative integer: its decimal digits, no leading zero. */
  function NatToDecimal(n: nat): (s: string)
    ensures 1 <= |s|
    ensures forall k :: 0 <= k < |s| ==> '0' <= s[k] <= '9'
    ensures n < 10 <==> |s| == 1
    decreases n
  {
    if n < 10 then [DigitChar(n)] else NatToDecimal(n / 10) + [DigitChar(n % 10)]
  }

  /** `String(n)` for an integer. */
  function IntToString(n: int): (s: string)
    ensures 1 <= |s|
  {
    if n < 0 then "-" + NatToDecimal(-n) else NatToDecimal(n)
  }

  /** The value of a string of decimal digits (the reading a clock face gives). */
  function DecimalValue(s: string): int
  {
    if s == [] then 0
    else DecimalValue(s[..|s| - 1]) * 10 + (s[|s| - 1] as int - '0' as int)
  }

  lemma {:induction false} DecimalRoundTrip(n: nat)
    ensures DecimalValue(NatToDecimal(n)) == n
    decreases n
  {
    var s := NatToDecimal(n);
    if n < 10 {
      assert s[..|s| - 1] == [];
    } else {
      DecimalRoundTrip(n / 10);
      assert s[..|s| - 1] == NatToDecimal(n / 10);
    }
  }

  /** `pad2(n)`: `String(n).padStart(2, "0")`. */
  function Pad2(n: int): (s: string)
    ensures |s| == if |IntToString(n)| < 2 then 2 else |IntToString(n)|
    ensures s[|s| - |IntToString(n)|..] == IntToString(n)
    ensures forall k :: 0 <= k < |s| - |IntToString(n)| ==> s[k] == '0'
  {
    var t := IntToString(n);
    if |t| < 2 then seq(2 - |t|, _ => '0') + t else t
  }

  /** For the hours and minutes `pad2` is used on, the result is exactly two
      digits and reads back as the same number. */
  lemma Pad2TwoDigits(n: int)
    requires 0 <= n < 100
    ensures |Pad2(n)| == 2
    ensures forall k :: 0 <= k < 2 ==> '0' <= Pad2(n)[k] <= '9'
    ensures DecimalValue(Pad2(n)) == n
  {
    var t := NatToDecimal(n);
    var s := Pad2(n);
    assert IntToString(n) == t;
    DecimalRoundTrip(n);
    if n < 10 {
      assert t == [DigitChar(n)];
      assert s == ['0'] + t;
      assert s[..1] == ['0'] && s[1] == DigitChar(n);
      assert ['0'][..0] == [];
      assert DecimalValue(['0']) == 0;
    } else {
      assert NatToDecimal(n / 10) == [DigitChar(n / 10)];
      assert |t| == 2 && s == t;
    }
  }

  /** `padStart` never truncates: a number of three or more digits is left as it is. */
  lemma Pad2Wide(n: int)
    requires n >= 100
    ensures Pad2(n) == NatToDecimal(n)
  {
    assert NatToDecimal(n) == NatToDecimal(n / 10) + [DigitChar(n % 10)];
  }

  // ---------- parseServeDateTime ----------

  /** `parseServeDateTime(dateStr, timeStr)`: null when either string is
      empty, otherwise the host's local-time conversion, which itself yields
      null for an invalid `Date`. */
  function ParseServeDateTime(serveDate: string, serveTime: string, clock: LocalClock): (r: Option<int>)
    ensures serveDate == [] || serveTime == [] ==> r == None
    ensures serveDate != [] && serveTime != [] ==> r == clock(serveDate, serveTime)
  {
    if serveDate == [] || serveTime == [] then None else clock(serveDate, serveTime)
  }

  // ---------- String.prototype.trim ----------

  /** The ECMAScript WhiteSpace and LineTerminator code points. */
  const Spaces: set<char> := {
    '\U{0009}', '\U{000A}', '\U{000B}', '\U{000C}', '\U{000D}', '\U{0020}', '\U{00A0}', '\U{1680}',
    '\U{2000}', '\U{2001}', '\U{2002}', '\U{2003}', '\U{2004}', '\U{2005}', '\U{2006}', '\U{2007}',
    '\U{2008}', '\U{2009}', '\U{200A}', '\U{2028}', '\U{2029}', '\U{202F}', '\U{205F}', '\U{3000}', '\U{FEFF}'}

  predicate IsSpace(c: char)
  {
    c in Spaces
  }

  /** The number of white-space characters `s` starts with. */
  function Lead(s: string): (n: nat)
    ensures n <= |s|
    ensures forall k :: 0 <= k < n ==> IsSpace(s[k])
    ensures n < |s| ==> !IsSpace(s[n])
  {
    if s == [] || !IsSpace(s[0]) then 0 else 1 + Lead(s[1..])
  }

  /** The number of white-space characters `s` ends with. */
  function Trail(s: string): (n: nat)
    ensures n <= |s|
    ensures forall k :: |s| - n <= k < |s| ==> IsSpace(s[k])
    ensures n < |s| ==> !IsSpace(s[|s| - 1 - n])
  {
    if s == [] || !IsSpace(s[|s| - 1]) then 0 else 1 + Trail(s[..|s| - 1])
  }

  /** `s.trim()`: the middle part of `s` left after cutting white space
      from both ends; everything cut off is white space, and what is left
      neither starts nor ends with it. */
  function Trim(s: string): (r: string)
    ensures Lead(s) + |r| <= |s| && r == s[Lead(s)..Lead(s) + |r|]
    ensures forall k :: 0 <= k < Lead(s) ==> IsSpace(s[k])
    ensures forall k :: Lead(s) + |r| <= k < |s| ==> IsSpace(s[k])
    ensures r == [] || (!IsSpace(r[0]) && !IsSpace(r[|r| - 1]))
  {
    var i := Lead(s);
    if i == |s| then []
    else
      assert Trail(s) < |s| - i by {
        assert !IsSpace(s[i]);
      }
      s[i..|s| - Trail(s)]
  }

  /** Trimming twice is trimming once. */
  lemma TrimIdempotent(s: string)
    ensures Trim(Trim(s)) == Trim(s)
  {
    var r := Trim(s);
    if r != [] {
      assert Lead(r) == 0;
      assert Trail(r) == 0;
      assert r[0..|r| - 0] == r;
    }
  }
}
