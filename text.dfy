/**
 * The JavaScript string built-ins that index.js relies on, as total functions:
 * String.prototype.trim, split, endsWith, and the global parseInt.
 */
module Text {
  import opened Wrappers

  /** The WhiteSpace and LineTerminator code points of ECMAScript, which trim and parseInt skip. */
  predicate IsJsSpace(c: char) {
    var n := c as int;
    n == 0x09 || n == 0x0A || n == 0x0B || n == 0x0C || n == 0x0D || n == 0x20 || n == 0xA0
    || n == 0x1680 || (0x2000 <= n <= 0x200A) || n == 0x2028 || n == 0x2029 || n == 0x202F
    || n == 0x205F || n == 0x3000 || n == 0xFEFF
  }

  predicate AllSpace(s: string) {
    forall i :: 0 <= i < |s| ==> IsJsSpace(s[i])
  }

  /** Drops leading white space. */
  function TrimStart(s: string): string
    decreases |s|
  {
    if s != [] && IsJsSpace(s[0]) then TrimStart(s[1..]) else s
  }

  /** The result of TrimStart is a suffix of `s`, only white space was dropped, and it starts with a non-space. */
  lemma {:induction false} TrimStartSpec(s: string)
    ensures var r := TrimStart(s);
      && |r| <= |s| && r == s[|s| - |r|..]
      && AllSpace(s[..|s| - |r|])
      && (r != [] ==> !IsJsSpace(r[0]))
    decreases |s|
  {
    if s != [] && IsJsSpace(s[0]) {
      TrimStartSpec(s[1..]);
      var r := TrimStart(s[1..]);
      assert s[..|s| - |r|] == [s[0]] + s[1..][..|s| - 1 - |r|];
    }
  }

  /** Drops trailing white space. */
  function TrimEnd(s: string): string
    decreases |s|
  {
    if s != [] && IsJsSpace(s[|s| - 1]) then TrimEnd(s[..|s| - 1]) else s
  }

  /** The result of TrimEnd is a prefix of `s`, only white space was dropped, and it ends with a non-space. */
  lemma {:induction false} TrimEndSpec(s: string)
    ensures var r := TrimEnd(s);
      && |r| <= |s| && r == s[..|r|]
      && AllSpace(s[|r|..])
      && (r != [] ==> !IsJsSpace(r[|r| - 1]))
    decreases |s|
  {
    if s != [] && IsJsSpace(s[|s| - 1]) {
      TrimEndSpec(s[..|s| - 1]);
      var r := TrimEnd(s[..|s| - 1]);
      assert s[|r|..] == s[..|s| - 1][|r|..] + [s[|s| - 1]];
    }
  }

  /** Trailing white space is trimmed from the part after a word only. */
  lemma {:induction false} TrimEndAfterWord(a: string, b: string)
    requires a != [] && !IsJsSpace(a[|a| - 1])
    ensures TrimEnd(a + b) == a + TrimEnd(b)
    decreases |b|
  {
    if b != [] {
      assert (a + b)[..|a + b| - 1] == a + b[..|b| - 1];
      TrimEndAfterWord(a, b[..|b| - 1]);
    } else {
      assert a + b == a;
    }
  }

  /** String.prototype.trim */
  function Trim(s: string): string {
    TrimEnd(TrimStart(s))
  }

  /** Trim yields nothing exactly for all-white-space text, and otherwise neither end is white space. */
  lemma TrimSpec(s: string)
    ensures var r := Trim(s);
      && (r == [] <==> AllSpace(s))
      && (r != [] ==> !IsJsSpace(r[0]) && !IsJsSpace(r[|r| - 1]))
  {
    var t := TrimStart(s);
    var r := TrimEnd(t);
    TrimStartSpec(s);
    TrimEndSpec(t);
    assert AllSpace(s) <==> AllSpace(t) by {
      if t == [] {
        assert s == s[..|s| - |t|];
      } else {
        assert !IsJsSpace(s[|s| - |t|]);
      }
    }
    assert AllSpace(t) <==> r == [] by {
      if r != [] { assert !IsJsSpace(t[|r| - 1]); }
      else { assert t == t[|r|..]; }
    }
    assert r != [] ==> t != [] && r[0] == t[0];
  }

  /** `s` holds `sep` starting at position `i`. */
  predicate OccursAt(s: string, sep: string, i: int) {
    0 <= i && i + |sep| <= |s| && s[i..i + |sep|] == sep
  }

  /** String.prototype.indexOf: the first position at which `sep` occurs, if any. */
  function IndexOf(s: string, sep: string): (r: Option<nat>)
    requires sep != []
    ensures r.Some? ==> OccursAt(s, sep, r.value)
    ensures r.Some? ==> forall i :: 0 <= i < r.value ==> !OccursAt(s, sep, i)
    ensures r.None? ==> forall i :: !OccursAt(s, sep, i)
    decreases |s|
  {
    if |s| < |sep| then None
    else if s[..|sep|] == sep then Some(0)
    else
      OccursShifted(s, sep);
      match IndexOf(s[1..], sep)
      case None => None
      case Some(k) => Some(k + 1)
  }

  /** An occurrence past the first position is an occurrence in the tail, one place earlier. */
  lemma OccursShifted(s: string, sep: string)
    requires s != []
    ensures forall i :: 0 < i ==> (OccursAt(s, sep, i) <==> OccursAt(s[1..], sep, i - 1))
  {
    forall i | 0 < i ensures OccursAt(s, sep, i) <==> OccursAt(s[1..], sep, i - 1) {
      if i + |sep| <= |s| {
        var here, there := s[i..i + |sep|], s[1..][i - 1..i - 1 + |sep|];
        forall j | 0 <= j < |sep| ensures here[j] == there[j] {
          assert s[1..][i - 1 + j] == s[i + j];
        }
        assert here == there;
      }
    }
  }

  /** `sep` occurs in `s` at no position below `n`. */
  lemma {:induction false} NotBefore(s: string, sep: string, n: nat, i: int)
    requires sep != [] && n <= |s|
    requires OccursAt(s[..n], sep, i)
    ensures OccursAt(s, sep, i)
  {
    assert s[..n][i..i + |sep|] == s[i..i + |sep|];
  }

  /**
   * s.split(sep)[k]; `None` is the `undefined` that JavaScript yields when the
   * string has fewer than k + 1 pieces.
   */
  function Segment(s: string, sep: string, k: nat): (r: Option<string>)
    requires sep != []
    ensures k == 0 ==> r.Some?
    ensures r.Some? ==> IndexOf(r.value, sep).None?
    decreases k
  {
    match IndexOf(s, sep)
    case None => if k == 0 then Some(s) else None
    case Some(i) =>
      if k == 0 then
        assert IndexOf(s[..i], sep).None? by {
          if IndexOf(s[..i], sep).Some? {
            var j := IndexOf(s[..i], sep).value;
            NotBefore(s, sep, i, j);
          }
        }
        Some(s[..i])
      else Segment(s[i + |sep|..], sep, k - 1)
  }

  /** Splitting `a + sep + b`, where no character of `a` starts a separator, cuts exactly after `a`. */
  lemma {:induction false} SplitAfter(a: string, sep: string, b: string, k: nat)
    requires sep != [] && forall i :: 0 <= i < |a| ==> a[i] != sep[0]
    ensures IndexOf(a + sep + b, sep) == Some(|a|)
    ensures Segment(a + sep + b, sep, 0) == Some(a)
    ensures Segment(a + sep + b, sep, k + 1) == Segment(b, sep, k)
  {
    var s := a + sep + b;
    assert s[|a|..|a| + |sep|] == sep;
    assert OccursAt(s, sep, |a|);
    forall i | 0 <= i < |a| ensures !OccursAt(s, sep, i) {
      assert s[i] == a[i];
    }
    assert s[..|a|] == a;
    assert s[|a| + |sep|..] == b;
  }

  /** A string none of whose characters starts the separator holds no occurrence of it. */
  lemma NoSeparatorStart(a: string, sep: string)
    requires sep != [] && forall i :: 0 <= i < |a| ==> a[i] != sep[0]
    ensures forall i :: !OccursAt(a, sep, i)
  {
    forall i | 0 <= i && i + |sep| <= |a| ensures !OccursAt(a, sep, i) {
      assert a[i..i + |sep|][0] == a[i];
    }
  }

  /** A string in which the separator does not occur splits into itself alone. */
  lemma SplitWhole(a: string, sep: string)
    requires sep != [] && forall i :: !OccursAt(a, sep, i)
    ensures IndexOf(a, sep).None?
    ensures Segment(a, sep, 0) == Some(a)
    ensures Segment(a, sep, 1).None?
  {
  }

  /** String.prototype.endsWith */
  predicate EndsWith(s: string, suffix: string) {
    |suffix| <= |s| && s[|s| - |suffix|..] == suffix
  }

  /** Text ends with a suffix exactly when it is some text followed by that suffix. */
  lemma EndsWithAppend(s: string, suffix: string)
    ensures EndsWith(s, suffix) <==> |suffix| <= |s| && s == s[..|s| - |suffix|] + suffix
  {
    if |suffix| <= |s| {
      assert s == s[..|s| - |suffix|] + s[|s| - |suffix|..];
    }
  }

  /** The value of a digit character in bases up to 16, or 16 for a character that is no such digit. */
  function DigitValue(c: char): (v: nat)
    ensures v <= 16
  {
    if '0' <= c <= '9' then (c as int) - ('0' as int)
    else if 'a' <= c <= 'f' then (c as int) - ('a' as int) + 10
    else if 'A' <= c <= 'F' then (c as int) - ('A' as int) + 10
    else 16
  }

  /** The longest prefix of `s` made of digits of the given base. */
  function DigitRun(s: string, radix: nat): (r: string)
    ensures |r| <= |s| && r == s[..|r|]
    ensures forall i :: 0 <= i < |r| ==> DigitValue(r[i]) < radix
    ensures |r| < |s| ==> DigitValue(s[|r|]) >= radix
  {
    if s != [] && DigitValue(s[0]) < radix then [s[0]] + DigitRun(s[1..], radix) else []
  }

  /** The number a digit string denotes in the given base, most significant digit first. */
  function DigitsValue(ds: string, radix: nat): nat {
    if ds == [] then 0 else DigitsValue(ds[..|ds| - 1], radix) * radix + DigitValue(ds[|ds| - 1])
  }

  /**
   * The global parseInt with no radix argument: skip leading white space, take an
   * optional sign, then read the magnitude. `None` is NaN (no digit at all).
   */
  function ParseInt(s: string): Option<int> {
    Signed(TrimStart(s))
  }

  /** parseInt after the white space: an optional sign, then the magnitude. */
  function Signed(t: string): Option<int> {
    if t != [] && t[0] == '-' then
      match Magnitude(t[1..])
      case None => None
      case Some(v) => Some(-(v as int))
    else if t != [] && t[0] == '+' then
      match Magnitude(t[1..])
      case None => None
      case Some(v) => Some(v as int)
    else
      match Magnitude(t)
      case None => None
      case Some(v) => Some(v as int)
  }

  /** The unsigned part of parseInt: hexadecimal after a 0x or 0X prefix, decimal otherwise, up to the first non-digit. */
  function Magnitude(u: string): Option<nat> {
    var hex := |u| >= 2 && u[0] == '0' && (u[1] == 'x' || u[1] == 'X');
    var radix := if hex then 16 else 10;
    var z := DigitRun(if hex then u[2..] else u, radix);
    if z == [] then None else Some(DigitsValue(z, radix))
  }

  /** The decimal digits of `n`, most significant first, without leading zeros. */
  function Decimal(n: nat): (r: string)
    ensures r != []
    ensures forall i :: 0 <= i < |r| ==> '0' <= r[i] <= '9'
    ensures r[0] == '0' ==> n == 0
  {
    if n < 10 then [('0' as int + n) as char] else Decimal(n / 10) + [('0' as int + n % 10) as char]
  }

  /** A signed decimal numeral, as a kernel driver writes an integer with %d. */
  function Numeral(m: int): string {
    if m < 0 then "-" + Decimal(-m) else Decimal(m)
  }

  lemma {:induction false} DigitRunWhole(s: string, radix: nat)
    requires forall i :: 0 <= i < |s| ==> DigitValue(s[i]) < radix
    ensures DigitRun(s, radix) == s
    decreases |s|
  {
    if s != [] {
      DigitRunWhole(s[1..], radix);
      assert [s[0]] + s[1..] == s;
    }
  }

  lemma {:induction false} DecimalValue(n: nat)
    ensures DigitsValue(Decimal(n), 10) == n
  {
    var d := Decimal(n);
    if n < 10 {
      assert d[..|d| - 1] == [];
    } else {
      DecimalValue(n / 10);
      assert d[..|d| - 1] == Decimal(n / 10);
    }
  }

  /** A non-empty run of decimal digits, leading zeros included, is read as a whole in base 10. */
  lemma MagnitudeDecimal(d: string)
    requires d != []
    requires forall i :: 0 <= i < |d| ==> '0' <= d[i] <= '9'
    ensures Magnitude(d) == Some(DigitsValue(d, 10))
  {
    assert !(|d| >= 2 && d[0] == '0' && (d[1] == 'x' || d[1] == 'X')) by {
      if |d| >= 2 { assert '0' <= d[1] <= '9'; }
    }
    forall i | 0 <= i < |d| ensures DigitValue(d[i]) < 10 {
      assert '0' <= d[i] <= '9';
    }
    DigitRunWhole(d, 10);
  }

  /** A digit prefix that is followed by a non-digit, or by nothing, is the whole digit run. */
  lemma DigitRunStops(s: string, radix: nat, k: nat)
    requires k <= |s|
    requires forall i :: 0 <= i < k ==> DigitValue(s[i]) < radix
    requires k < |s| ==> DigitValue(s[k]) >= radix
    ensures DigitRun(s, radix) == s[..k]
  {
  }

  /** The decimal magnitude stops at the first non-digit: `12abc` is 12. */
  lemma MagnitudeUpToNonDigit(u: string, k: nat)
    requires 0 < k <= |u|
    requires forall i :: 0 <= i < k ==> '0' <= u[i] <= '9'
    requires k < |u| ==> !('0' <= u[k] <= '9')
    requires !(k == 1 && |u| >= 2 && u[0] == '0' && (u[1] == 'x' || u[1] == 'X'))
    ensures Magnitude(u) == Some(DigitsValue(u[..k], 10))
  {
    assert !(|u| >= 2 && u[0] == '0' && (u[1] == 'x' || u[1] == 'X')) by {
      if k >= 2 { assert '0' <= u[1] <= '9'; }
    }
    forall i | 0 <= i < k ensures DigitValue(u[i]) < 10 {
      assert '0' <= u[i] <= '9';
    }
    DigitRunStops(u, 10, k);
  }

  /** After `0x` or `0X`, a non-empty run of hexadecimal digits is read in base 16. */
  lemma MagnitudeHex(u: string, h: string)
    requires |u| >= 2 && u[0] == '0' && (u[1] == 'x' || u[1] == 'X') && u[2..] == h
    requires h != []
    requires forall i :: 0 <= i < |h| ==> '0' <= h[i] <= '9' || 'a' <= h[i] <= 'f' || 'A' <= h[i] <= 'F'
    ensures Magnitude(u) == Some(DigitsValue(h, 16))
  {
    forall i | 0 <= i < |h| ensures DigitValue(h[i]) < 16 {
      assert '0' <= h[i] <= '9' || 'a' <= h[i] <= 'f' || 'A' <= h[i] <= 'F';
    }
    DigitRunWhole(h, 16);
  }

  /** A `0x` or `0X` prefix with no hexadecimal digit after it is NaN. */
  lemma MagnitudeHexNoDigit(u: string)
    requires |u| >= 2 && u[0] == '0' && (u[1] == 'x' || u[1] == 'X')
    requires |u| > 2 ==> !('0' <= u[2] <= '9' || 'a' <= u[2] <= 'f' || 'A' <= u[2] <= 'F')
    ensures Magnitude(u) == None
  {
    if |u| > 2 {
      assert u[2..][0] == u[2];
    }
  }

  /** parseInt skips a plus sign before a non-empty run of decimal digits. */
  lemma ParseIntPositive(s: string, d: string)
    requires d != []
    requires forall i :: 0 <= i < |d| ==> '0' <= d[i] <= '9'
    requires s != [] && s[0] == '+' && s[1..] == d
    ensures ParseInt(s) == Some(DigitsValue(d, 10) as int)
  {
    assert TrimStart(s) == s;
    MagnitudeDecimal(d);
  }

  /** A sign with no decimal digit after it is NaN. */
  lemma ParseIntSignWithoutDigit(s: string)
    requires s != [] && (s[0] == '-' || s[0] == '+')
    requires |s| > 1 ==> !('0' <= s[1] <= '9')
    ensures ParseInt(s) == None
  {
    assert TrimStart(s) == s;
    if |s| > 1 {
      assert s[1..][0] == s[1];
    }
  }

  /** Text that starts with neither white space, a sign nor a decimal digit is NaN. */
  lemma ParseIntNoDigit(s: string)
    requires s != [] && !IsJsSpace(s[0]) && s[0] != '-' && s[0] != '+' && !('0' <= s[0] <= '9')
    ensures ParseInt(s) == None
  {
    assert TrimStart(s) == s;
  }

  /** Leading white space followed by a non-space is dropped as a whole. */
  lemma {:induction false} TrimStartSpace(w: string, t: string)
    requires AllSpace(w)
    requires t == [] || !IsJsSpace(t[0])
    ensures TrimStart(w + t) == t
    decreases |w|
  {
    if w == [] {
      assert w + t == t;
    } else {
      assert (w + t)[0] == w[0];
      assert (w + t)[1..] == w[1..] + t;
      TrimStartSpace(w[1..], t);
    }
  }

  /** parseInt skips leading white space: what follows it alone decides the result. */
  lemma ParseIntSkipsSpace(w: string, t: string)
    requires AllSpace(w)
    requires t == [] || !IsJsSpace(t[0])
    ensures ParseInt(w + t) == Signed(t)
  {
    TrimStartSpace(w, t);
  }

  /** parseInt reads a non-empty run of decimal digits as its value. */
  lemma ParseIntDigits(d: string)
    requires d != []
    requires forall i :: 0 <= i < |d| ==> '0' <= d[i] <= '9'
    ensures ParseInt(d) == Some(DigitsValue(d, 10) as int)
  {
    assert '0' <= d[0] <= '9';
    assert TrimStart(d) == d;
    assert d[0] != '-' && d[0] != '+';
    MagnitudeDecimal(d);
  }

  /** parseInt reads a minus sign and a non-empty run of decimal digits as its negated value. */
  lemma ParseIntNegative(s: string, d: string)
    requires d != []
    requires forall i :: 0 <= i < |d| ==> '0' <= d[i] <= '9'
    requires s != [] && s[0] == '-' && s[1..] == d
    ensures ParseInt(s) == Some(-(DigitsValue(d, 10) as int))
  {
    assert TrimStart(s) == s;
    MagnitudeDecimal(d);
  }

  /** parseInt reads back every numeral exactly. */
  lemma ParseIntNumeral(m: int)
    ensures ParseInt(Numeral(m)) == Some(m)
  {
    var n: nat := if m < 0 then -m else m;
    var d := Decimal(n);
    DecimalValue(n);
    if m < 0 {
      ParseIntNegative(Numeral(m), d);
    } else {
      ParseIntDigits(d);
    }
  }
}
