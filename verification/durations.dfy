/** The parts of Go's time.Duration that the build description relies on: the
    saturating difference of two instants, truncation to whole seconds with
    Go's `%`, and the text that `%v` prints for a whole number of seconds.
    Instants and durations are counted in nanoseconds. */
module Durations {
  import opened Wrappers

  /** time.Second, in nanoseconds. */
  const Second: int := 1_000_000_000

  /** The range of a signed 64-bit time.Duration. */
  const MinDuration: int := -0x8000_0000_0000_0000
  const MaxDuration: int := 0x7fff_ffff_ffff_ffff

  type Duration = d: int | MinDuration <= d <= MaxDuration

  function Dist(a: int, b: int): nat
  {
    if a <= b then b - a else a - b
  }

  /** `d` is a Duration as close to `x` as any Duration can be. */
  ghost predicate Nearest(d: int, x: int)
  {
    forall e: int :: MinDuration <= e <= MaxDuration ==> Dist(d, x) <= Dist(e, x)
  }

  /** finish.Sub(start): the exact difference when it fits in a Duration,
      otherwise the bound on the side of the true difference. */
  function Elapsed(start: int, finish: int): (d: Duration)
    ensures MinDuration <= finish - start <= MaxDuration ==> d == finish - start
    ensures Nearest(d, finish - start)
    ensures d < 0 <==> finish < start
    ensures d == 0 <==> finish == start
  {
    var x := finish - start;
    if x > MaxDuration then MaxDuration else if x < MinDuration then MinDuration else x
  }

  /** Go's integer `/`: the quotient truncated toward zero. */
  function Quot(a: int, b: int): int
    requires b > 0
  {
    if a >= 0 then a / b else -((-a) / b)
  }

  /** Go's integer `%`: the remainder of Quot, carrying the sign of `a`. */
  function Rem(a: int, b: int): (r: int)
    requires b > 0
    ensures a == b * Quot(a, b) + r
    ensures Dist(r, 0) < b
    ensures a >= 0 ==> r >= 0
    ensures a <= 0 ==> r <= 0
  {
    if a >= 0 then a % b else -((-a) % b)
  }

  /** The `round` helper of the handler: d - d % time.Second. */
  function Round(d: Duration): (r: Duration)
    ensures r == Second * Quot(d, Second)
    ensures r % Second == 0
    ensures Dist(r, d) < Second
    ensures 0 <= d ==> 0 <= r <= d
    ensures d <= 0 ==> d <= r <= 0
  {
    d - Rem(d, Second)
  }

  /** Truncation toward zero is the only whole-second value on the side of
      zero of `d` that is less than a second away from it. */
  lemma RoundIsTruncation(d: Duration, r: int)
    requires r % Second == 0 && Dist(r, d) < Second
    requires (0 <= d ==> 0 <= r <= d) && (d <= 0 ==> d <= r <= 0)
    ensures r == Round(d)
  {
  }

  /** The whole seconds Round keeps are the truncated quotient. */
  lemma RoundSeconds(d: Duration)
    ensures Round(d) / Second == Quot(d, Second)
  {
  }

  lemma RoundIdempotent(d: Duration)
    ensures Round(Round(d)) == Round(d)
  {
  }

  predicate IsDigit(c: char)
  {
    '0' <= c <= '9'
  }

  predicate AllDigits(s: string)
  {
    forall i :: 0 <= i < |s| ==> IsDigit(s[i])
  }

  function DigitChar(n: nat): (c: char)
    requires n < 10
    ensures IsDigit(c)
  {
    ('0' as int + n) as char
  }

  /** fmtInt: the decimal digits of `n`, most significant first. */
  function Decimal(n: nat): (s: string)
    ensures |s| >= 1 && AllDigits(s)
    ensures s[0] == '0' ==> n == 0
  {
    if n < 10 then [DigitChar(n)] else Decimal(n / 10) + [DigitChar(n % 10)]
  }

  /** The number a string of decimal digits denotes. */
  function DecimalValue(s: string): int
  {
    if s == [] then 0
    else DecimalValue(s[..|s| - 1]) * 10 + (s[|s| - 1] as int - '0' as int)
  }

  lemma {:induction false} DecimalRoundTrip(n: nat)
    ensures DecimalValue(Decimal(n)) == n
  {
    if n >= 10 {
      var s := Decimal(n);
      assert s[..|s| - 1] == Decimal(n / 10);
      DecimalRoundTrip(n / 10);
    }
  }

  /** What `%v` prints for a non-negative whole number of seconds: hours and
      minutes only when there are any, e.g. "5s", "2m0s", "1h0m0s". */
  function Clock(secs: nat): string
  {
    var minutes := secs / 60;
    var hours := minutes / 60;
    Field(hours, 'h', hours > 0) + (Field(minutes % 60, 'm', minutes > 0) + Field(secs % 60, 's', true))
  }

  /** One number followed by its unit letter, or nothing when not shown. */
  function Field(n: nat, unit: char, shown: bool): string
  {
    if shown then Decimal(n) + [unit] else ""
  }

  /** What `%v` prints for a Duration that is a whole number of seconds. */
  function Text(d: Duration): (s: string)
    requires d % Second == 0
    ensures |s| >= 2 && s[|s| - 1] == 's'
    ensures s[0] == '-' <==> d < 0
  {
    (if d < 0 then "-" else "") + Clock(Dist(d, 0) / Second)
  }

  predicate IsUnit(c: char)
  {
    c == 'h' || c == 'm' || c == 's'
  }

  /** `n` counted in the unit `c`, in seconds. */
  function InSeconds(n: int, c: char): int
    requires IsUnit(c)
  {
    if c == 'h' then n * 3600 else if c == 'm' then n * 60 else n
  }

  /** The length of the run of digits that starts `s`. */
  function DigitRun(s: string): (k: nat)
    ensures k <= |s|
  {
    if s != [] && IsDigit(s[0]) then 1 + DigitRun(s[1..]) else 0
  }

  /** Reads groups "<digits><unit>" with unit h, m or s and adds them up in
      seconds; None when the text is not of that form. */
  function ReadGroups(s: string): Option<int>
    decreases |s|
  {
    if s == [] then Some(0)
    else
      var k := DigitRun(s);
      if k == 0 || k == |s| || !IsUnit(s[k]) then None
      else match ReadGroups(s[k + 1..])
        case None => None
        case Some(rest) => Some(InSeconds(DecimalValue(s[..k]), s[k]) + rest)
  }

  /** Reads a duration text back into a signed number of seconds. */
  function Read(s: string): Option<int>
  {
    if s != [] && s[0] == '-' then
      match ReadGroups(s[1..])
      case None => None
      case Some(v) => Some(-v)
    else
      match ReadGroups(s)
      case None => None
      case Some(v) => Some(v)
  }

  lemma {:induction false} DigitRunStopsAt(p: string, tail: string)
    requires AllDigits(p) && tail != [] && !IsDigit(tail[0])
    ensures DigitRun(p + tail) == |p|
  {
    if p != [] {
      assert (p + tail)[1..] == p[1..] + tail;
      DigitRunStopsAt(p[1..], tail);
    } else {
      assert p + tail == tail;
    }
  }

  lemma ReadGroup(n: nat, u: char, rest: string, v: int)
    requires IsUnit(u) && ReadGroups(rest) == Some(v)
    ensures ReadGroups(Decimal(n) + [u] + rest) == Some(InSeconds(n, u) + v)
  {
    var p := Decimal(n);
    var s := p + [u] + rest;
    assert s == p + ([u] + rest);
    DigitRunStopsAt(p, [u] + rest);
    assert s[..|p|] == p;
    assert s[|p| + 1..] == rest;
    DecimalRoundTrip(n);
  }

  lemma ReadField(n: nat, u: char, shown: bool, rest: string, v: int)
    requires IsUnit(u) && ReadGroups(rest) == Some(v)
    ensures ReadGroups(Field(n, u, shown) + rest) == Some((if shown then InSeconds(n, u) else 0) + v)
  {
    if shown {
      ReadGroup(n, u, rest, v);
    } else {
      assert Field(n, u, shown) + rest == rest;
    }
  }

  /** Reading back the fields Clock prints, each one shown or not. */
  lemma ReadFields(h: nat, m: nat, sec: nat, showHours: bool, showMinutes: bool)
    ensures ReadGroups(Field(h, 'h', showHours) + (Field(m, 'm', showMinutes) + Field(sec, 's', true)))
      == Some((if showHours then h * 3600 else 0) + (if showMinutes then m * 60 else 0) + sec)
  {
    ReadField(sec, 's', true, [], 0);
    assert Field(sec, 's', true) + [] == Field(sec, 's', true);
    var tail := Field(m, 'm', showMinutes) + Field(sec, 's', true);
    ReadField(m, 'm', showMinutes, Field(sec, 's', true), sec);
    ReadField(h, 'h', showHours, tail, (if showMinutes then m * 60 else 0) + sec);
  }

  /** The fields Clock prints add up to the seconds it was given. */
  lemma ClockSum(secs: nat)
    ensures secs == (if secs / 60 / 60 > 0 then (secs / 60 / 60) * 3600 else 0)
                    + (if secs / 60 > 0 then (secs / 60 % 60) * 60 else 0) + secs % 60
  {
  }

  lemma ReadClock(secs: nat)
    ensures ReadGroups(Clock(secs)) == Some(secs)
  {
    ReadFields(secs / 60 / 60, secs / 60 % 60, secs % 60, secs / 60 / 60 > 0, secs / 60 > 0);
    ClockSum(secs);
  }

  /** Reading the text of a whole-second Duration gives back its seconds. */
  lemma TextRoundTrip(d: Duration)
    requires d % Second == 0
    ensures Read(Text(d)) == Some(d / Second)
  {
    var secs := Dist(d, 0) / Second;
    ReadClock(secs);
    var c := Clock(secs);
    assert c[0] != '-' by {
      var minutes := secs / 60;
      var hours := minutes / 60;
      if hours > 0 {
        assert c[0] == Decimal(hours)[0];
      } else if minutes > 0 {
        assert c[0] == Decimal(minutes % 60)[0];
      } else {
        assert c[0] == Decimal(secs % 60)[0];
      }
    }
    if d < 0 {
      assert Text(d)[1..] == c;
    } else {
      assert Text(d) == c;
    }
  }
}
