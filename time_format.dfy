/**
 * The clock display of a video item: `formatTime` and its helper `padZero`.
 * Both versions of the per-video controller (scripts/mediaVimeo.js and
 * scripts/mediaVimeo-2.0.js) carry identical copies; this module is the one
 * model of both.
 *
 * `formatTime(seconds)` takes the player's time in seconds (a non-negative
 * number, possibly fractional) and renders it as `M:SS` below one hour and
 * as `H:MM:SS` from one hour on. JavaScript's `%` on a non-negative number
 * is `x - n * floor(x / n)`, which `Rem` spells out.
 */
module TimeFormat {
  import opened Wrappers
  import opened Arith

  // ---------------------------------------------------------------------
  // Decimal digits: `Number.prototype.toString` on a non-negative integer
  // and a parser that reads such a string back.
  // ---------------------------------------------------------------------

  predicate IsDigit(c: char)
  {
    '0' <= c <= '9'
  }

  function DigitChar(d: nat): (c: char)
    requires d < 10
    ensures IsDigit(c)
  {
    (d + '0' as int) as char
  }

  function DigitValue(c: char): (d: nat)
    requires IsDigit(c)
    ensures d < 10
  {
    (c - '0') as nat
  }

  predicate IsDigits(s: string)
  {
    forall i :: 0 <= i < |s| ==> IsDigit(s[i])
  }

  /** The decimal representation of `n`, most significant digit first
      (`n.toString()`). */
  function Decimal(n: nat): (s: string)
    ensures |s| >= 1
    ensures |s| == 1 <==> n < 10
    ensures n == 0 ==> s == "0"
    ensures n > 0 ==> s[0] != '0'
  {
    (if n < 10 then "" else Decimal(n / 10)) + [DigitChar(n % 10)]
  }

  /** The value of a string of decimal digits, leading zeros allowed. */
  function DigitsValue(s: string): nat
    requires IsDigits(s)
  {
    if s == [] then 0 else DigitsValue(s[..|s| - 1]) * 10 + DigitValue(s[|s| - 1])
  }

  /** `toString` writes only digits, and they read back as the number. */
  lemma {:induction false} DecimalRoundTrip(n: nat)
    ensures IsDigits(Decimal(n))
    ensures DigitsValue(Decimal(n)) == n
  {
    var s := Decimal(n);
    var p := if n < 10 then "" else Decimal(n / 10);
    assert s == p + [DigitChar(n % 10)];
    if n >= 10 {
      DecimalRoundTrip(n / 10);
    }
    assert s[..|s| - 1] == p;
  }

  /** `String.prototype.padStart(width, fill)`: prepend copies of `fill`
      until the string is `width` long; longer strings are left alone. */
  function PadStart(s: string, width: nat, fill: char): (r: string)
    ensures |r| == if |s| >= width then |s| else width
    ensures |s| >= width ==> r == s
    ensures |s| < width ==> r == seq(width - |s|, _ => fill) + s
    decreases width - |s|
  {
    if |s| >= width then s
    else
      var k := width - |s|;
      assert seq(k, _ => fill) + s == seq(k - 1, _ => fill) + ([fill] + s);
      PadStart([fill] + s, width, fill)
  }

  /** `padZero(num)`: `num.toString().padStart(2, "0")`. */
  function PadZero(n: nat): (s: string)
    ensures |s| >= 2
    ensures n >= 10 ==> s == Decimal(n)
    ensures n < 10 ==> s == "0" + Decimal(n)
  {
    PadStart(Decimal(n), 2, '0')
  }

  /** Below ten, `padZero` puts a single `0` in front of the one digit. */
  lemma PaddedDigit(n: nat)
    requires n < 10
    ensures Decimal(n) == [DigitChar(n)]
    ensures PadZero(n) == ['0', DigitChar(n)]
  {
    var d := Decimal(n);
    assert d == [] + [DigitChar(n)];
    assert PadZero(n) == "0" + d;
    assert "0" + [DigitChar(n)] == ['0', DigitChar(n)];
  }

  /** `padZero` writes only digits, and they read back as the number;
      below 100 it writes exactly two of them. */
  lemma PadZeroDigits(n: nat)
    ensures IsDigits(PadZero(n)) && DigitsValue(PadZero(n)) == n
    ensures n < 100 ==> |PadZero(n)| == 2
  {
    if n < 10 {
      PaddedDigit(n);
      var t := PadZero(n);
      assert t[..1] == ['0'] && t[..1][..0] == [];
      assert DigitsValue(t[..1]) == 0;
    } else {
      DecimalRoundTrip(n);
      assert PadZero(n) == Decimal(n);
      if n < 100 {
        PaddedDigit(n / 10);
      }
    }
  }

  // ---------------------------------------------------------------------
  // The hours / minutes / seconds split.
  // ---------------------------------------------------------------------

  /** JavaScript's `x % n` for `x >= 0` and `n > 0`. */
  function Rem(x: real, n: real): (r: real)
    requires x >= 0.0 && n > 0.0
    ensures 0.0 <= r < n
    ensures x < n ==> r == x
  {
    var f := (x / n).Floor as real;
    FloorScaled(x, n);
    x - n * f
  }

  /** `n * floor(x / n)` lies within `n` below `x`, and is zero for `x`
      below `n`. */
  lemma FloorScaled(x: real, n: real)
    requires x >= 0.0 && n > 0.0
    ensures var f := (x / n).Floor as real;
      && n * f <= x < n * f + n
      && (x < n ==> f == 0.0)
  {
    var y := x / n;
    var f := y.Floor as real;
    assert y * n == x;
    assert f <= y < f + 1.0;
    var lo, hi := y - f, f + 1.0 - y;
    assert lo >= 0.0 && hi > 0.0;
    ScaleSign(lo, n);
    ScaleSign(hi, n);
    assert lo * n == x - n * f;
    assert hi * n == n * f + n - x;
    assert hi * n > 0.0;
    assert x < n * f + n;
    if x < n {
      ScaleSign(y, n);
      ScaleSign(y - 1.0, n);
      assert (y - 1.0) * n == x - n;
      assert 0.0 <= y < 1.0;
    }
  }


  /** For a non-negative `x`, flooring after dividing by a whole number is
      integer division of the floor. */
  lemma FloorDiv(x: real, n: nat)
    requires x >= 0.0 && n > 0
    ensures (x / n as real).Floor == x.Floor / n
  {
    var w := x.Floor;
    var q, r := w / n, w % n;
    assert w == q * n + r && 0 <= r < n;
    var nr := n as real;
    assert (q * n) as real == q as real * nr;
    assert q as real * nr <= x < (q + 1) as real * nr by {
      assert (w as real) <= x < w as real + 1.0;
      assert ((q + 1) * n) as real == (q + 1) as real * nr;
    }
    DivBetween(x, nr, q);
  }

  /** JavaScript's `x % n` keeps the fraction of `x` and floors to the
      integer remainder. */
  lemma RemFloor(x: real, n: nat)
    requires x >= 0.0 && n > 0
    ensures Rem(x, n as real) - (x.Floor % n) as real == x - x.Floor as real
    ensures Rem(x, n as real).Floor == x.Floor % n
  {
    FloorDiv(x, n);
    var w := x.Floor;
    assert w == (w / n) * n + w % n;
    assert ((w / n) * n) as real == (w / n) as real * n as real;
  }

  lemma DivBetween(x: real, n: real, q: int)
    requires n > 0.0 && q as real * n <= x < (q + 1) as real * n
    ensures (x / n).Floor == q
  {
    DivAtLeast(x, n, q as real);
    DivBelow(x, n, (q + 1) as real);
  }

  /** A multiple of `n` not above `x` has its factor not above `x / n`. */
  lemma DivAtLeast(x: real, n: real, a: real)
    requires n > 0.0 && a * n <= x
    ensures a <= x / n
  {
    var y := x / n;
    var d := a - y;
    assert y * n == x;
    assert d * n == a * n - y * n;
    ScaleSign(d, n);
  }

  /** A multiple of `n` above `x` has its factor above `x / n`. */
  lemma DivBelow(x: real, n: real, b: real)
    requires n > 0.0 && x < b * n
    ensures x / n < b
  {
    var y := x / n;
    var d := y - b;
    assert y * n == x;
    assert d * n == y * n - b * n;
    ScaleSign(d, n);
  }

  datatype Clock = Clock(hours: nat, minutes: nat, secs: nat)

  /** The three components `formatTime` computes:
      `floor(s / 3600)`, `floor((s % 3600) / 60)` and `floor(s % 60)`. */
  function Components(seconds: real): (c: Clock)
    requires seconds >= 0.0
    ensures c.hours * 3600 + c.minutes * 60 + c.secs == seconds.Floor
    ensures c.minutes < 60 && c.secs < 60
    ensures c.hours > 0 <==> seconds >= 3600.0
  {
    ClockFields(seconds);
    WholeSplit(seconds.Floor);
    Clock((seconds / 3600.0).Floor, (Rem(seconds, 3600.0) / 60.0).Floor, Rem(seconds, 60.0).Floor)
  }

  /** Each real-valued field floors to the matching integer field. */
  lemma ClockFields(seconds: real)
    requires seconds >= 0.0
    ensures var w := seconds.Floor;
      && (seconds / 3600.0).Floor == w / 3600
      && (Rem(seconds, 3600.0) / 60.0).Floor == (w % 3600) / 60
      && Rem(seconds, 60.0).Floor == w % 60
  {
    var w := seconds.Floor;
    FloorDiv(seconds, 3600);
    RemFloor(seconds, 3600);
    RemFloor(seconds, 60);
    var m := Rem(seconds, 3600.0);
    assert m >= 0.0 && m - (w % 3600) as real == seconds - w as real;
    FloorDiv(m, 60);
  }

  /** Hours, minutes and seconds of a whole number of seconds add back up. */
  lemma WholeSplit(w: int)
    requires w >= 0
    ensures (w / 3600) * 3600 + ((w % 3600) / 60) * 60 + w % 60 == w
    ensures (w % 3600) / 60 < 60
  {
    var h, r := w / 3600, w % 3600;
    var m, s := r / 60, r % 60;
    assert w == h * 3600 + r;
    assert r == m * 60 + s;
    assert w == (h * 60 + m) * 60 + s;
    assert w % 60 == s;
  }

  /** `formatTime(seconds)`. */
  function FormatTime(seconds: real): (s: string)
    requires seconds >= 0.0
    ensures |s| >= if seconds >= 3600.0 then 7 else 4
  {
    Render(Components(seconds))
  }

  /** The clock string of a split time: `H:MM:SS` with hours, `M:SS`
      without. */
  function Render(c: Clock): (s: string)
    ensures |s| >= if c.hours > 0 then 7 else 4
  {
    if c.hours > 0 then Decimal(c.hours) + ":" + PadZero(c.minutes) + ":" + PadZero(c.secs)
    else Decimal(c.minutes) + ":" + PadZero(c.secs)
  }

  // ---------------------------------------------------------------------
  // Reading a clock string back: the partner of FormatTime.
  // ---------------------------------------------------------------------

  /** The state of a left-to-right reader of a sexagesimal clock string:
      the seconds folded in so far and the value of the field being read. */
  datatype Reading = Reading(total: nat, field: nat) | Unreadable

  /** One character: a digit extends the current field, a `:` closes it
      (everything read so far is worth 60 of the next unit), anything else
      makes the string unreadable. */
  function Step(r: Reading, c: char): Reading
  {
    match r
    case Unreadable => Unreadable
    case Reading(total, field) =>
      if IsDigit(c) then Reading(total, field * 10 + DigitValue(c))
      else if c == ':' then Reading((total + field) * 60, 0)
      else Unreadable
  }

  function ReadFrom(r: Reading, t: string): Reading
    decreases |t|
  {
    if t == [] then r else Step(ReadFrom(r, t[..|t| - 1]), t[|t| - 1])
  }

  /** The number of whole seconds a `M:SS` or `H:MM:SS` string denotes, or
      None when it holds anything but digits and separators. */
  function ClockSeconds(t: string): (r: Option<nat>)
    ensures r.None? <==> ReadFrom(Reading(0, 0), t).Unreadable?
  {
    match ReadFrom(Reading(0, 0), t)
    case Unreadable => None
    case Reading(total, field) => Some(total + field)
  }

  lemma {:induction false} ReadAppend(r: Reading, a: string, b: string)
    ensures ReadFrom(r, a + b) == ReadFrom(ReadFrom(r, a), b)
    decreases |b|
  {
    if b == [] {
      assert a + b == a;
    } else {
      var p := b[..|b| - 1];
      assert (a + b)[..|a + b| - 1] == a + p;
      assert (a + b)[|a + b| - 1] == b[|b| - 1];
      ReadAppend(r, a, p);
    }
  }

  /** A run of digits read from the start of a field is its value. */
  lemma {:induction false} ReadDigits(total: nat, s: string)
    requires IsDigits(s)
    ensures ReadFrom(Reading(total, 0), s) == Reading(total, DigitsValue(s))
    decreases |s|
  {
    if s != [] {
      var p := s[..|s| - 1];
      assert IsDigits(p);
      ReadDigits(total, p);
    }
  }

  /** A separator and a field of digits after it. */
  lemma ReadField(total: nat, field: nat, s: string)
    requires IsDigits(s)
    ensures ReadFrom(Reading(total, field), ":" + s) == Reading((total + field) * 60, DigitsValue(s))
  {
    ReadAppend(Reading(total, field), ":", s);
    assert ":"[..0] == [];
    ReadDigits((total + field) * 60, s);
  }

  /** The first two fields of a clock string. */
  lemma ReadLead(hs: string, ms: string, h: nat, m: nat)
    requires IsDigits(hs) && IsDigits(ms)
    requires DigitsValue(hs) == h && DigitsValue(ms) == m
    ensures ReadFrom(Reading(0, 0), hs + ":" + ms) == Reading(h * 60, m)
  {
    assert hs + ":" + ms == hs + (":" + ms);
    ReadAppend(Reading(0, 0), hs, ":" + ms);
    ReadDigits(0, hs);
    ReadField(0, h, ms);
  }

  lemma ReadClock2(ms: string, ss: string, m: nat, s: nat)
    requires IsDigits(ms) && IsDigits(ss)
    requires DigitsValue(ms) == m && DigitsValue(ss) == s
    ensures ClockSeconds(ms + ":" + ss) == Some(m * 60 + s)
  {
    ReadLead(ms, ss, m, s);
  }

  lemma ReadClock3(hs: string, ms: string, ss: string, h: nat, m: nat, s: nat)
    requires IsDigits(hs) && IsDigits(ms) && IsDigits(ss)
    requires DigitsValue(hs) == h && DigitsValue(ms) == m && DigitsValue(ss) == s
    ensures ClockSeconds(hs + ":" + ms + ":" + ss) == Some(h * 3600 + m * 60 + s)
  {
    var a := hs + ":" + ms;
    assert hs + ":" + ms + ":" + ss == a + (":" + ss);
    ReadAppend(Reading(0, 0), a, ":" + ss);
    ReadLead(hs, ms, h, m);
    ReadField(h * 60, m, ss);
    assert (h * 60 + m) * 60 + s == h * 3600 + m * 60 + s;
  }

  /** Reading back a short clock string. */
  lemma ReadShort(m: nat, s: nat)
    ensures ClockSeconds(Render(Clock(0, m, s))) == Some(m * 60 + s)
  {
    DecimalRoundTrip(m);
    PadZeroDigits(s);
    ReadClock2(Decimal(m), PadZero(s), m, s);
  }

  /** Reading back a long clock string. */
  lemma ReadLong(h: nat, m: nat, s: nat)
    requires h > 0
    ensures ClockSeconds(Render(Clock(h, m, s))) == Some(h * 3600 + m * 60 + s)
  {
    DecimalRoundTrip(h);
    PadZeroDigits(m);
    PadZeroDigits(s);
    ReadClock3(Decimal(h), PadZero(m), PadZero(s), h, m, s);
  }

  /** Reading a rendered clock back yields its total in seconds. */
  lemma RenderRoundTrip(c: Clock)
    ensures ClockSeconds(Render(c)) == Some(c.hours * 3600 + c.minutes * 60 + c.secs)
  {
    if c.hours > 0 {
      ReadLong(c.hours, c.minutes, c.secs);
    } else {
      ReadShort(c.minutes, c.secs);
    }
  }

  /** Reading a formatted clock back yields the whole seconds it was made
      from: FormatTime loses only the fraction of a second. */
  lemma FormatTimeRoundTrip(seconds: real)
    requires seconds >= 0.0
    ensures ClockSeconds(FormatTime(seconds)) == Some(seconds.Floor as nat)
  {
    RenderRoundTrip(Components(seconds));
  }

  // ---------------------------------------------------------------------
  // The shape of the clock string.
  // ---------------------------------------------------------------------

  /** The number of field separators in `t`. */
  function Separators(t: string): nat
    decreases |t|
  {
    if t == [] then 0 else Separators(t[..|t| - 1]) + (if t[|t| - 1] == ':' then 1 else 0)
  }

  lemma {:induction false} SeparatorsAppend(a: string, b: string)
    ensures Separators(a + b) == Separators(a) + Separators(b)
    decreases |b|
  {
    if b != [] {
      var p := b[..|b| - 1];
      assert (a + b)[..|a + b| - 1] == a + p;
      assert (a + b)[|a + b| - 1] == b[|b| - 1];
      SeparatorsAppend(a, p);
    }
    else {
      assert a + b == a;
    }
  }

  lemma {:induction false} DigitsSeparators(s: string)
    requires IsDigits(s)
    ensures Separators(s) == 0
    decreases |s|
  {
    if s != [] {
      var p := s[..|s| - 1];
      assert IsDigits(p);
      DigitsSeparators(p);
    }
  }

  /** A field of digits behind a separator. */
  lemma FieldShape(a: string, f: string)
    requires IsDigits(f) && |f| == 2
    ensures var t := a + ":" + f;
      Separators(t) == Separators(a) + 1 && |t| == |a| + 3 && t[..|a|] == a
  {
    var t := a + ":" + f;
    assert t == a + (":" + f);
    assert (":" + f) == [':'] + f;
    SeparatorsAppend(a, ":" + f);
    SeparatorsAppend([':'], f);
    assert [':'][..0] == [];
    DigitsSeparators(f);
  }

  /** Where the pieces of `a:b` sit. */
  lemma Layout2(a: string, b: string)
    ensures var t := a + ":" + b;
      && |t| == |a| + 1 + |b|
      && t[..|a|] == a && t[|a|] == ':' && t[|a| + 1..] == b
  {
  }

  /** Where the pieces of `a:b:d` sit, for a two-character `b`. */
  lemma Layout3(a: string, b: string, d: string)
    requires |b| == 2
    ensures var t := a + ":" + b + ":" + d;
      && |t| == |a| + 4 + |d|
      && t[..|a|] == a && t[|a|] == ':' && t[|a| + 1..|a| + 3] == b
      && t[|a| + 3] == ':' && t[|a| + 4..] == d
  {
    var ab := a + ":" + b;
    Layout2(a, b);
    Layout2(ab, d);
    var t := ab + ":" + d;
    assert t[..|a| + 3] == ab;
    assert t[..|a|] == ab[..|a|];
    assert t[|a| + 1..|a| + 3] == ab[|a| + 1..];
  }

  /** Three fields of digits joined by separators, the middle one two
      digits wide. */
  lemma Fields3(a: string, b: string, d: string)
    requires IsDigits(a) && IsDigits(b) && IsDigits(d) && |b| == 2 && |d| == 2
    ensures var t := a + ":" + b + ":" + d;
      && Separators(t) == 2
      && |t| == |a| + 6
      && t[..|a|] == a && t[|a|] == ':' && t[|a| + 1..|a| + 3] == b
      && t[|a| + 3] == ':' && t[|a| + 4..] == d
  {
    DigitsSeparators(a);
    FieldShape(a, b);
    FieldShape(a + ":" + b, d);
    Layout3(a, b, d);
  }

  /** Two fields of digits joined by a separator. */
  lemma Fields2(a: string, b: string)
    requires IsDigits(a) && IsDigits(b) && |b| == 2
    ensures var t := a + ":" + b;
      && Separators(t) == 1
      && |t| == |a| + 3
      && t[..|a|] == a && t[|a|] == ':' && t[|a| + 1..] == b
  {
    DigitsSeparators(a);
    FieldShape(a, b);
    Layout2(a, b);
  }

  /** The long form `H:MM:SS`. */
  lemma LongShape(h: nat, m: nat, s: nat)
    requires h > 0 && m < 60 && s < 60
    ensures var t := Render(Clock(h, m, s));
      var lead := Decimal(h);
      var k := |lead|;
      && Separators(t) == 2
      && |t| == k + 6
      && t[..k] == lead
      && t[k] == ':' && t[k + 1..k + 3] == PadZero(m)
      && t[k + 3] == ':' && t[k + 4..] == PadZero(s)
  {
    var lead, mm, ss := Decimal(h), PadZero(m), PadZero(s);
    assert Render(Clock(h, m, s)) == lead + ":" + mm + ":" + ss;
    DecimalRoundTrip(h);
    PadZeroDigits(m);
    PadZeroDigits(s);
    Fields3(lead, mm, ss);
  }

  /** The short form `M:SS`. */
  lemma ShortShape(m: nat, s: nat)
    requires s < 60
    ensures var t := Render(Clock(0, m, s));
      var lead := Decimal(m);
      var k := |lead|;
      && Separators(t) == 1
      && |t| == k + 3
      && t[..k] == lead
      && t[k] == ':' && t[k + 1..k + 3] == PadZero(s)
  {
    var lead, ss := Decimal(m), PadZero(s);
    assert Render(Clock(0, m, s)) == lead + ":" + ss;
    DecimalRoundTrip(m);
    PadZeroDigits(s);
    Fields2(lead, ss);
  }

  /** The layout of a rendered clock: a leading field of digits with no
      leading zero (hours in the long form, minutes in the short one), then
      a separator and a field of exactly two digits, and in the long form a
      second separator and another two-digit field. Each field holds its
      component. */
  lemma RenderShape(c: Clock)
    requires c.minutes < 60 && c.secs < 60
    ensures c.hours > 0 ==>
      var t := Render(c);
      var lead := Decimal(c.hours);
      var k := |lead|;
      && IsDigits(lead) && DigitsValue(lead) == c.hours
      && Separators(t) == 2
      && |t| == k + 6
      && t[..k] == lead
      && t[k] == ':' && IsDigits(t[k + 1..k + 3]) && DigitsValue(t[k + 1..k + 3]) == c.minutes
      && t[k + 3] == ':' && IsDigits(t[k + 4..]) && DigitsValue(t[k + 4..]) == c.secs
    ensures c.hours == 0 ==>
      var t := Render(c);
      var lead := Decimal(c.minutes);
      var k := |lead|;
      && IsDigits(lead) && DigitsValue(lead) == c.minutes
      && Separators(t) == 1
      && |t| == k + 3
      && t[..k] == lead
      && t[k] == ':' && IsDigits(t[k + 1..]) && DigitsValue(t[k + 1..]) == c.secs
  {
    var t := Render(c);
    if c.hours > 0 {
      var k := |Decimal(c.hours)|;
      LongShape(c.hours, c.minutes, c.secs);
      DecimalRoundTrip(c.hours);
      PadZeroDigits(c.minutes);
      PadZeroDigits(c.secs);
      assert t[k + 1..k + 3] == PadZero(c.minutes) && t[k + 4..] == PadZero(c.secs);
    } else {
      var k := |Decimal(c.minutes)|;
      ShortShape(c.minutes, c.secs);
      DecimalRoundTrip(c.minutes);
      PadZeroDigits(c.secs);
      assert t[k + 1..] == PadZero(c.secs);
    }
  }

  /** `formatTime` writes `H:MM:SS` from one hour on and `M:SS` below: the
      leading field is the unpadded whole hours or whole minutes, and each
      later field is two digits holding the minutes within the hour or the
      seconds within the minute. */
  lemma FormatTimeShape(seconds: real)
    requires seconds >= 0.0
    ensures seconds >= 3600.0 ==>
      var t := FormatTime(seconds);
      var w := seconds.Floor;
      var lead := Decimal(w / 3600);
      var k := |lead|;
      && IsDigits(lead)
      && Separators(t) == 2
      && |t| == k + 6
      && t[..k] == lead
      && t[k] == ':' && IsDigits(t[k + 1..k + 3]) && DigitsValue(t[k + 1..k + 3]) == (w % 3600) / 60
      && t[k + 3] == ':' && IsDigits(t[k + 4..]) && DigitsValue(t[k + 4..]) == w % 60
    ensures seconds < 3600.0 ==>
      var t := FormatTime(seconds);
      var w := seconds.Floor;
      var lead := Decimal(w / 60);
      var k := |lead|;
      && IsDigits(lead)
      && Separators(t) == 1
      && |t| == k + 3
      && t[..k] == lead
      && t[k] == ':' && IsDigits(t[k + 1..]) && DigitsValue(t[k + 1..]) == w % 60
  {
    var c := Components(seconds);
    var w := seconds.Floor;
    ClockFields(seconds);
    assert FormatTime(seconds) == Render(c);
    if seconds >= 3600.0 {
      assert c == Clock(w / 3600, (w % 3600) / 60, w % 60) && c.hours > 0;
      RenderShape(c);
    } else {
      assert w < 3600 && w % 3600 == w;
      assert c == Clock(0, w / 60, w % 60);
      RenderShape(c);
    }
  }
}
