/**
 * Values shared by every page of the dashboard: optional and fallible
 * results, calendar dates, the JavaScript values that sit in the pages'
 * plain objects, the fixed INR/USD rate and the small string helpers the
 * pages use (decimal rendering of numbers, `slice(-2)`, `toLowerCase`,
 * `includes`).
 */
module Common {

  datatype Option<T> = None | Some(value: T)

  /** A computation that either yields a value or fails with the message of the error it throws. */
  datatype Result<T> = Ok(value: T) | Err(message: string)

  // ---------------------------------------------------------------------------
  // Dates
  // ---------------------------------------------------------------------------

  type Month = m: int | 1 <= m <= 12 witness 1
  type Day = d: int | 1 <= d <= 31 witness 1

  /** A calendar date as read from an ISO `YYYY-MM-DD` string (taken as UTC); month is 1-based. */
  datatype Date = Date(year: nat, month: Month, day: Day)

  /** Chronological order of two dates (`new Date(a) < new Date(b)`). */
  predicate DateLt(a: Date, b: Date)
  {
    a.year < b.year
    || (a.year == b.year && a.month < b.month)
    || (a.year == b.year && a.month == b.month && a.day < b.day)
  }

  predicate DateLe(a: Date, b: Date)
  {
    !DateLt(b, a)
  }

  /** `startOfMonth(d)`. */
  function StartOfMonth(d: Date): Date
  {
    Date(d.year, d.month, 1)
  }

  /** Calendar quarter of a date (date-fns `getQuarter`): Jan-Mar is 1, ..., Oct-Dec is 4. */
  function CalendarQuarter(d: Date): (q: int)
    ensures 1 <= q <= 4
    ensures (q - 1) * 3 < d.month <= q * 3
  {
    (d.month - 1) / 3 + 1
  }

  /** `period.substring(0, 7)` of an ISO date, "YYYY-MM": its year and month. */
  function MonthKey(d: Date): (nat, int)
  {
    (d.year, d.month)
  }

  /** date-fns `MMM`: the English three-letter month abbreviation. */
  function MonthAbbrev(m: Month): (s: string)
    ensures |s| == 3
  {
    ["Jan", "Feb", "Mar", "Apr", "May", "Jun", "Jul", "Aug", "Sep", "Oct", "Nov", "Dec"][m - 1]
  }

  lemma DateLtTotal(a: Date, b: Date)
    ensures DateLt(a, b) || DateLt(b, a) || a == b
    ensures !(DateLt(a, b) && DateLt(b, a))
  {
  }

  // ---------------------------------------------------------------------------
  // JavaScript values held in plain objects
  // ---------------------------------------------------------------------------

  /**
   * A value stored under a key of a JavaScript object. A key that is absent
   * from the object stands for `undefined`. `IsoDate` is a string holding a
   * well-formed `YYYY-MM-DD` date, `Text` any other string; `NaN` is the
   * number NaN.
   */
  datatype Value = Num(n: real) | Null | Text(s: string) | IsoDate(date: Date) | NaN

  /** A plain JavaScript object: property name to value. */
  type Record = map<string, Value>

  /** The fixed exchange rate, 84.5 INR per USD. */
  const Rate: real := 169.0 / 2.0

  /** JavaScript `v / 84.5`: `null` coerces to 0; NaN, an ISO date string or any other text gives NaN (numeric strings are not coerced). */
  function DivRate(v: Value): (r: Value)
    ensures v.Num? ==> r == Num(v.n / Rate)
    ensures v == Null ==> r == Num(0.0)
    ensures !v.Num? && v != Null ==> r == NaN
  {
    match v
    case Num(x) => Num(x / Rate)
    case Null => Num(0.0)
    case _ => NaN
  }

  /** JavaScript `o[key] * k`: `undefined` gives NaN, `null` coerces to 0 (numeric strings are not coerced). */
  function TimesJs(v: Option<Value>, k: real): (r: Value)
    ensures v == Some(Null) ==> r == Num(0.0)
    ensures v.Some? && v.value.Num? ==> r == Num(v.value.n * k)
    ensures v.None? ==> r == NaN
  {
    if v.Some? && v.value.Num? then Num(v.value.n * k)
    else if v == Some(Null) then Num(0.0)
    else NaN
  }

  /** JavaScript truthiness of a defined value. */
  predicate Truthy(v: Value)
  {
    match v
    case Num(x) => x != 0.0
    case Text(s) => s != ""
    case IsoDate(_) => true
    case _ => false
  }

  /** `o[key]`, with `None` for `undefined`. */
  function Get(o: Record, key: string): Option<Value>
  {
    if key in o then Some(o[key]) else None
  }

  lemma DivRateInverse(x: real)
    ensures DivRate(Num(x * Rate)) == Num(x)
    ensures DivRate(Num(84500.0)) == Num(1000.0)
  {
  }

  // ---------------------------------------------------------------------------
  // Strings
  // ---------------------------------------------------------------------------

  predicate IsDigit(c: char)
  {
    '0' <= c <= '9'
  }

  function DigitChar(d: nat): (c: char)
    requires d < 10
    ensures IsDigit(c) && c as int - '0' as int == d
  {
    (d + '0' as int) as char
  }

  /** `String(n)` for a non-negative integer: its decimal digits, without leading zeros. */
  function NatToString(n: nat): (s: string)
    ensures 1 <= |s|
    ensures forall i :: 0 <= i < |s| ==> IsDigit(s[i])
    ensures n < 10 <==> |s| == 1
    decreases n
  {
    if n < 10 then [DigitChar(n)] else NatToString(n / 10) + [DigitChar(n % 10)]
  }

  /** The number a string of decimal digits denotes (most significant digit first). */
  function DigitsValue(s: string): nat
    requires forall i :: 0 <= i < |s| ==> IsDigit(s[i])
  {
    if s == [] then 0
    else
      assert IsDigit(s[|s| - 1]);
      10 * DigitsValue(s[..|s| - 1]) + (s[|s| - 1] as int - '0' as int)
  }

  /** Reading back the decimal rendering of a number gives the number. */
  lemma {:induction false} NatToStringRoundTrip(n: nat)
    ensures DigitsValue(NatToString(n)) == n
    decreases n
  {
    var s := NatToString(n);
    if n >= 10 {
      NatToStringRoundTrip(n / 10);
      assert s[..|s| - 1] == NatToString(n / 10);
    }
  }

  /** Distinct numbers have distinct decimal renderings. */
  lemma NatToStringInjective(a: nat, b: nat)
    requires NatToString(a) == NatToString(b)
    ensures a == b
  {
    NatToStringRoundTrip(a);
    NatToStringRoundTrip(b);
  }

  /** JavaScript `s.slice(-2)`: the last two characters, or all of a shorter string. */
  function SliceLast2(s: string): (r: string)
    ensures |r| == if |s| < 2 then |s| else 2
    ensures s == s[..|s| - |r|] + r
  {
    if |s| <= 2 then s else s[|s| - 2..]
  }

  /** `String(year).slice(-2)`. */
  function TwoDigitYear(year: nat): (r: string)
    ensures year >= 10 ==> |r| == 2
    ensures forall i :: 0 <= i < |r| ==> IsDigit(r[i])
  {
    SliceLast2(NatToString(year))
  }

  /** A label `Q<c> '<y>` determines its quarter digit and its year part. */
  lemma LabelParts(c1: char, y1: string, c2: char, y2: string)
    ensures "Q" + [c1] + " '" + y1 == "Q" + [c2] + " '" + y2 <==> c1 == c2 && y1 == y2
  {
    var l1, l2 := "Q" + [c1] + " '" + y1, "Q" + [c2] + " '" + y2;
    assert l1[1] == c1 && l1[4..] == y1;
    assert l2[1] == c2 && l2[4..] == y2;
  }

  /** Two decimal digits, zero-padded (date-fns `yy` of year % 100). */
  function TwoDigits(n: nat): (s: string)
    requires n < 100
    ensures |s| == 2 && IsDigit(s[0]) && IsDigit(s[1])
    ensures (s[0] as int - '0' as int) * 10 + (s[1] as int - '0' as int) == n
  {
    [DigitChar(n / 10), DigitChar(n % 10)]
  }

  /** date-fns `format(date, "MMM ''yy")`, e.g. "Jul '24". */
  function FormatMonthYear(d: Date): (s: string)
    ensures |s| == 7 && s[3..5] == " '"
    ensures s[..3] == MonthAbbrev(d.month)
    ensures (s[5] as int - '0' as int) * 10 + (s[6] as int - '0' as int) == d.year % 100
  {
    MonthAbbrev(d.month) + " '" + TwoDigits(d.year % 100)
  }

  /** `toLowerCase` on one character (ASCII letters only). */
  function LowerChar(c: char): char
  {
    if 'A' <= c <= 'Z' then (c as int + 32) as char else c
  }

  /** `s.toLowerCase()` (ASCII letters only). */
  function ToLower(s: string): (r: string)
    ensures |r| == |s|
    ensures forall i :: 0 <= i < |s| ==> r[i] == LowerChar(s[i])
  {
    seq(|s|, i requires 0 <= i < |s| => LowerChar(s[i]))
  }

  /** `s.includes(t)`: t occurs in s as a contiguous substring. */
  predicate Contains(s: string, t: string)
    decreases |s|
  {
    t <= s || (s != [] && Contains(s[1..], t))
  }

  lemma {:induction false} ContainsEmpty(s: string)
    ensures Contains(s, "")
  {
  }

  /** t occurs in s starting at index i. */
  predicate OccursAt(s: string, t: string, i: int)
  {
    0 <= i <= |s| - |t| && s[i..i + |t|] == t
  }

  /** Swapping two neighbours keeps the same elements. */
  lemma SwapPermutes<T>(s: seq<T>, j: int)
    requires 0 < j < |s|
    ensures multiset(s[j - 1 := s[j]][j := s[j - 1]]) == multiset(s)
  {
  }

  /** `includes` finds exactly the substrings: t occurs in s iff some slice of s equals t. */
  lemma {:induction false} ContainsIffOccurs(s: string, t: string)
    ensures Contains(s, t) <==> exists i :: OccursAt(s, t, i)
    decreases |s|
  {
    if t <= s {
      assert OccursAt(s, t, 0);
    } else if s == [] {
      assert forall i :: !OccursAt(s, t, i);
    } else {
      ContainsIffOccurs(s[1..], t);
      assert (exists i :: OccursAt(s, t, i)) ==> exists j :: OccursAt(s[1..], t, j) by {
        if exists i :: OccursAt(s, t, i) {
          var i :| OccursAt(s, t, i);
          assert i != 0;
          OccursShift(s, t, i);
        }
      }
      assert (exists j :: OccursAt(s[1..], t, j)) ==> exists i :: OccursAt(s, t, i) by {
        if exists j :: OccursAt(s[1..], t, j) {
          var j :| OccursAt(s[1..], t, j);
          OccursShift(s, t, j + 1);
        }
      }
    }
  }

  /** Past the first position, an occurrence in s is one in s without its first element. */
  lemma OccursShift(s: string, t: string, i: int)
    requires s != [] && i >= 1
    ensures OccursAt(s, t, i) <==> OccursAt(s[1..], t, i - 1)
  {
    if 0 <= i - 1 <= |s| - 1 - |t| {
      assert s[1..][i - 1..i - 1 + |t|] == s[i..i + |t|];
    }
  }
}
