/** Duration texts: the parsers `parseDuration` and `parseTimeToSeconds` of
    src/core/dl/youtube_search.go, and the printers `FormatTime` (internal/player/ui/progress.go) and
    `SecToMin` (src/utils/durations.go). */
module Durations {
  import opened Options

  predicate IsDigit(c: char) {
    '0' <= c <= '9'
  }

  predicate AllDigits(s: string) {
    forall i :: 0 <= i < |s| ==> IsDigit(s[i])
  }

  // ---------------------------------------------------------------- library functions

  /** Go's strings.Split(s, ":"). */
  function Split(s: string): (parts: seq<string>)
    ensures |parts| >= 1
  {
    if s == "" then [""]
    else
      var rest := Split(s[1..]);
      if s[0] == ':' then [""] + rest else [[s[0]] + rest[0]] + rest[1..]
  }

  function Join(parts: seq<string>): string
    requires |parts| >= 1
  {
    if |parts| == 1 then parts[0] else parts[0] + ":" + Join(parts[1..])
  }

  /** The digits of a text read as one decimal number; other characters are skipped. */
  function DigitsValue(s: string): nat {
    if s == "" then 0
    else
      var n, c := |s| - 1, s[|s| - 1];
      if IsDigit(c) then DigitsValue(s[..n]) * 10 + (c as int - '0' as int) else DigitsValue(s[..n])
  }

  /** Go's strconv.Atoi, without its range limit: an optional sign and at least one digit. */
  function StrconvAtoi(s: string): Option<int> {
    var digits := if s != "" && (s[0] == '+' || s[0] == '-') then s[1..] else s;
    if digits == "" || !AllDigits(digits) then None
    else
      var n: int := DigitsValue(digits);
      Some(if s[0] == '-' then -n else n)
  }

  function Digit(n: nat): (c: char)
    requires n < 10
    ensures IsDigit(c) && c as int - '0' as int == n
  {
    (n + '0' as int) as char
  }

  /** %d for a non-negative number. */
  function Decimal(n: nat): string {
    if n < 10 then [Digit(n)] else Decimal(n / 10) + [Digit(n % 10)]
  }

  /** %02d for a non-negative number. */
  function Decimal2(n: nat): string {
    if n < 10 then "0" + Decimal(n) else Decimal(n)
  }

  predicate NoColon(s: string) {
    forall i :: 0 <= i < |s| ==> s[i] != ':'
  }

  /** Splitting loses nothing and leaves no colon in a part. */
  lemma {:induction false} SplitJoin(s: string)
    ensures Join(Split(s)) == s
    ensures forall p :: p in Split(s) ==> NoColon(p)
  {
    if s != "" {
      var rest := Split(s[1..]);
      SplitJoin(s[1..]);
      assert s == [s[0]] + s[1..];
      if s[0] == ':' {
        assert Split(s)[1..] == rest;
      } else {
        assert rest[0] in rest;
        assert Split(s)[1..] == rest[1..];
      }
    }
  }

  /** The text before the first colon is the first part. */
  lemma {:induction false} SplitFirst(a: string, b: string)
    requires NoColon(a)
    ensures Split(a) == [a] && Split(a + ":" + b) == [a] + Split(b)
  {
    var s := a + ":" + b;
    if a == "" {
      assert s[1..] == b;
    } else {
      SplitFirst(a[1..], b);
      assert s[1..] == a[1..] + ":" + b;
      assert a == [a[0]] + a[1..];
    }
  }

  lemma {:induction false} DecimalReads(n: nat)
    ensures Decimal(n) != "" && AllDigits(Decimal(n)) && DigitsValue(Decimal(n)) == n
    ensures AllDigits(Decimal2(n)) && DigitsValue(Decimal2(n)) == n
  {
    if n >= 10 {
      DecimalReads(n / 10);
      assert Decimal(n)[..|Decimal(n)| - 1] == Decimal(n / 10);
    } else {
      assert [Digit(n)][..0] == "";
      assert Decimal2(n)[..1] == "0" && "0"[..0] == "";
    }
  }

  /** A printed number reads back, with either sign in front. */
  lemma SignedReads(n: nat)
    ensures var k: int := n;
            && StrconvAtoi(Decimal(n)) == StrconvAtoi("+" + Decimal(n)) == Some(k)
            && StrconvAtoi("-" + Decimal(n)) == Some(-k)
  {
    DecimalReads(n);
    assert IsDigit(Decimal(n)[0]);
    assert ("+" + Decimal(n))[1..] == Decimal(n) == ("-" + Decimal(n))[1..];
  }

  // ---------------------------------------------------------------- the parsers

  /** Hours, minutes and seconds as one number. */
  function Base60(values: seq<int>): int {
    if values == [] then 0 else Base60(values[..|values| - 1]) * 60 + values[|values| - 1]
  }

  lemma Base60Snoc(values: seq<int>, v: int)
    ensures Base60(values + [v]) == Base60(values) * 60 + v
  {
    assert (values + [v])[..|values|] == values;
  }

  function Values(parts: seq<string>): (vs: seq<int>)
    ensures |vs| == |parts| && forall i :: 0 <= i < |parts| ==> vs[i] == DigitsValue(parts[i])
  {
    if parts == [] then []
    else
      var n := |parts| - 1;
      Values(parts[..n]) + [DigitsValue(parts[n])]
  }

  /** What parseDuration makes of a text. */
  function Duration(s: string): int {
    Base60(Values(Split(s)))
  }

  predicate AllNumbers(parts: seq<string>) {
    forall i :: 0 <= i < |parts| ==> StrconvAtoi(parts[i]).Some?
  }

  function Numbers(parts: seq<string>): (vs: seq<int>)
    requires AllNumbers(parts)
    ensures |vs| == |parts| && forall i :: 0 <= i < |parts| ==> vs[i] == StrconvAtoi(parts[i]).value
  {
    if parts == [] then []
    else
      var n := |parts| - 1;
      Numbers(parts[..n]) + [StrconvAtoi(parts[n]).value]
  }

  lemma NumbersSnoc(parts: seq<string>, p: string)
    requires AllNumbers(parts) && StrconvAtoi(p).Some?
    ensures AllNumbers(parts + [p]) && Numbers(parts + [p]) == Numbers(parts) + [StrconvAtoi(p).value]
  {
    assert (parts + [p])[..|parts|] == parts;
  }

  /** What parseTimeToSeconds makes of a text. */
  function Seconds(s: string): int {
    if AllNumbers(Split(s)) then Base60(Numbers(Split(s))) else 0
  }

  lemma TakeSnoc<T>(s: seq<T>, i: nat)
    requires i < |s|
    ensures s[..i + 1] == s[..i] + [s[i]]
  {
  }

  method Atoi(s: string) returns (n: nat)
    ensures n == DigitsValue(s)
  {
    n := 0;
    for i := 0 to |s|
      invariant n == DigitsValue(s[..i])
    {
      assert s[..i + 1][..i] == s[..i];
      if IsDigit(s[i]) {
        n := n * 10 + (s[i] as int - '0' as int);
      }
    }
    assert s[..|s|] == s;
  }

  /** Moving one value from the part still to be read to the part that has been summed up. */
  lemma ShiftWeight(values: seq<int>, i: nat, mul: int, total: int)
    requires i < |values|
    ensures Base60(values[..i + 1]) * mul + total == Base60(values[..i]) * (mul * 60) + (total + values[i] * mul)
  {
    TakeSnoc(values, i);
    Base60Snoc(values[..i], values[i]);
    Distribute(Base60(values[..i]), values[i], mul, total);
  }

  lemma Distribute(a: int, v: int, mul: int, total: int)
    ensures (a * 60 + v) * mul + total == a * (mul * 60) + (total + v * mul)
  {
  }

  /** Sums the parts from the right, each with sixty times the weight of the one after it. */
  method ParseDuration(s: string) returns (total: int)
    ensures total == Duration(s)
  {
    var parts := Split(s);
    ghost var values := Values(parts);
    total := 0;
    var mul: int := 1;
    var i := |parts|;
    assert values[..|parts|] == values;
    while i > 0
      invariant 0 <= i <= |parts|
      invariant Base60(values) == Base60(values[..i]) * mul + total
    {
      i := i - 1;
      var n := Atoi(parts[i]);
      ShiftWeight(values, i, mul, total);
      total, mul := total + n * mul, mul * 60;
    }
  }

  lemma OneMorePart(parts: seq<string>, i: nat)
    requires i < |parts| && AllNumbers(parts[..i]) && StrconvAtoi(parts[i]).Some?
    ensures AllNumbers(parts[..i + 1])
    ensures Base60(Numbers(parts[..i + 1])) == Base60(Numbers(parts[..i])) * 60 + StrconvAtoi(parts[i]).value
  {
    NumbersSnoc(parts[..i], parts[i]);
    TakeSnoc(parts, i);
    Base60Snoc(Numbers(parts[..i]), StrconvAtoi(parts[i]).value);
  }

  /** Reads the parts from the left; gives up with 0 on the first one that is not a number. */
  method ParseTimeToSeconds(s: string) returns (total: int)
    ensures total == Seconds(s)
  {
    var parts := Split(s);
    total := 0;
    for i := 0 to |parts|
      invariant AllNumbers(parts[..i]) && total == Base60(Numbers(parts[..i]))
    {
      var n := StrconvAtoi(parts[i]);
      if n.None? {
        return 0;
      }
      total := total * 60 + n.value;
      OneMorePart(parts, i);
    }
    assert parts[..|parts|] == parts;
  }

  /** The parts of a clock text. */
  predicate DigitParts(parts: seq<string>) {
    forall i :: 0 <= i < |parts| ==> parts[i] != "" && AllDigits(parts[i])
  }

  lemma DigitPartsRead(parts: seq<string>)
    requires DigitParts(parts)
    ensures AllNumbers(parts) && Numbers(parts) == Values(parts)
  {
    forall i | 0 <= i < |parts| ensures StrconvAtoi(parts[i]) == Some(DigitsValue(parts[i])) {
      assert IsDigit(parts[i][0]);
    }
  }

  /** Both parsers agree on every colon-separated text of non-empty digit parts. */
  lemma ParsersAgree(s: string)
    requires DigitParts(Split(s))
    ensures Duration(s) == Seconds(s)
  {
    DigitPartsRead(Split(s));
  }

  // ---------------------------------------------------------------- the printers

  function FormatTime(secs: int): string {
    var n := if secs < 0 then 0 else secs;
    var (h, m, s) := (n / 3600, n % 3600 / 60, n % 60);
    if h > 0 then Decimal(h) + ":" + Decimal2(m) + ":" + Decimal2(s)
    else Decimal2(m) + ":" + Decimal2(s)
  }

  function SecToMin(seconds: int): string {
    if seconds <= 0 then DaysText(0, 0, 0, 0)
    else DaysText(seconds / 86400, seconds % 86400 / 3600, seconds % 3600 / 60, seconds % 60)
  }

  function DaysText(d: nat, h: nat, m: nat, s: nat): string {
    if d > 0 then Decimal(d) + "d " + Decimal2(h) + ":" + Decimal2(m) + ":" + Decimal2(s)
    else if h > 0 then Decimal(h) + ":" + Decimal2(m) + ":" + Decimal2(s)
    else Decimal(m) + ":" + Decimal2(s)
  }

  /** A number is printed in digits, without a leading zero; its last digit is its last character. */
  lemma {:induction false} DecimalText(n: nat)
    ensures AllDigits(Decimal(n)) && Decimal(n) != "" && (Decimal(n)[0] == '0' <==> n == 0)
    ensures Decimal(n)[|Decimal(n)| - 1] as int == '0' as int + n % 10
    ensures if n < 10 then |Decimal(n)| == 1 else Decimal(n)[..|Decimal(n)| - 1] == Decimal(n / 10)
  {
    if n >= 10 {
      DecimalText(n / 10);
      assert Decimal(n)[..|Decimal(n)| - 1] == Decimal(n / 10);
    }
  }

  /** The text is "AA:BB", two digits for each number. */
  predicate Clock(text: string, a: nat, b: nat) {
    && |text| == 5 && text[2] == ':'
    && text[0] as int == '0' as int + a / 10 && text[1] as int == '0' as int + a % 10
    && text[3] as int == '0' as int + b / 10 && text[4] as int == '0' as int + b % 10
  }

  lemma ClockText(m: nat, s: nat)
    requires m < 100 && s < 100
    ensures Clock(Decimal2(m) + ":" + Decimal2(s), m, s)
  {
    TwoDigits(m);
    TwoDigits(s);
  }

  lemma Cut(a: string, b: string)
    ensures (a + b)[..|a|] == a && (a + b)[|a|..] == b
  {
  }

  /** FormatTime prints MM:SS with two digits each, and from an hour on the hours in front of that,
      without a leading zero. */
  lemma FormatTimeText(n: nat)
    ensures var text, m, s := FormatTime(n), n % 3600 / 60, n % 60;
            if n < 3600 then Clock(text, m, s)
            else |text| >= 7 && text[..|text| - 5] == Decimal(n / 3600) + ":" && Clock(text[|text| - 5..], m, s)
  {
    var h, m, s := n / 3600, n % 3600 / 60, n % 60;
    ClockText(m, s);
    DecimalText(h);
    Cut(Decimal(h) + ":", Decimal2(m) + ":" + Decimal2(s));
    assert Decimal(h) + ":" + Decimal2(m) + ":" + Decimal2(s) == (Decimal(h) + ":") + (Decimal2(m) + ":" + Decimal2(s));
  }

  /** Below an hour SecToMin prints the minutes without a leading zero and two digits of seconds, then up
      to a day what FormatTime does. */
  lemma SecToMinText(n: nat)
    requires n > 0
    ensures n < 3600 ==>
              var text := SecToMin(n);
              |text| >= 4 && text[..|text| - 2] == Decimal(n / 60) + ":" && Clock("00:" + text[|text| - 2..], 0, n % 60)
    ensures 3600 <= n < 86400 ==> SecToMin(n) == FormatTime(n)
  {
    if n < 3600 {
      MinutesOnly(n);
      MinutesText(n / 60, n % 60);
    } else if n < 86400 {
      ClockTime(n);
    }
  }

  lemma MinutesOnly(n: nat)
    requires 0 < n < 3600
    ensures SecToMin(n) == Decimal(n / 60) + ":" + Decimal2(n % 60)
  {
    assert n / 86400 == 0 && n % 86400 / 3600 == 0 && n % 3600 / 60 == n / 60;
  }

  lemma MinutesText(m: nat, s: nat)
    requires s < 60
    ensures var text := Decimal(m) + ":" + Decimal2(s);
            |text| >= 4 && text[..|text| - 2] == Decimal(m) + ":" && Clock("00:" + text[|text| - 2..], 0, s)
  {
    DecimalText(m);
    TwoDigits(s);
    Cut(Decimal(m) + ":", Decimal2(s));
  }

  /** From a day on SecToMin prints the days, "d " and HH:MM:SS. */
  lemma SecToMinDays(n: nat)
    requires n >= 86400
    ensures var text, h, m, s := SecToMin(n), n % 86400 / 3600, n % 3600 / 60, n % 60;
            && |text| >= 9 && text[..|text| - 8] == Decimal(n / 86400) + "d "
            && Clock(text[|text| - 8..|text| - 3], h, m) && Clock(text[|text| - 5..], m, s)
  {
    DaysTime(n);
    DayText(n / 86400, n % 86400 / 3600, n % 3600 / 60, n % 60);
  }

  lemma DayText(d: nat, h: nat, m: nat, s: nat)
    requires h < 24 && m < 60 && s < 60
    ensures var text := Decimal(d) + "d " + Decimal2(h) + ":" + Decimal2(m) + ":" + Decimal2(s);
            && |text| >= 9 && text[..|text| - 8] == Decimal(d) + "d "
            && Clock(text[|text| - 8..|text| - 3], h, m) && Clock(text[|text| - 5..], m, s)
  {
    ClockText(h, m);
    ClockText(m, s);
    DecimalText(d);
    TwoDigits(h);
    TwoDigits(m);
    TwoDigits(s);
    DayPieces(Decimal(d), Decimal2(h), Decimal2(m), Decimal2(s));
  }

  lemma DayPieces(d: string, h: string, m: string, s: string)
    requires d != "" && |h| == |m| == |s| == 2
    ensures var text := d + "d " + h + ":" + m + ":" + s;
            && |text| >= 9 && text[..|text| - 8] == d + "d "
            && text[|text| - 8..|text| - 3] == h + ":" + m && text[|text| - 5..] == m + ":" + s
  {
    var text, first, last := d + "d " + h + ":" + m + ":" + s, h + ":" + m, m + ":" + s;
    assert text == (d + "d " + first) + (":" + s) == (d + "d " + h + ":") + last;
    Cut(d + "d ", first);
    Cut(d + "d " + first, ":" + s);
    Cut(d + "d " + h + ":", last);
  }

  lemma Two(a: string, b: string)
    requires NoColon(a) && NoColon(b)
    ensures Split(a + ":" + b) == [a, b]
  {
    SplitFirst(a, b);
    SplitFirst(b, "");
  }

  lemma Three(a: string, b: string, c: string)
    requires NoColon(a) && NoColon(b) && NoColon(c)
    ensures Split(a + ":" + b + ":" + c) == [a, b, c]
  {
    SplitFirst(a, b + ":" + c);
    Two(b, c);
    assert a + ":" + b + ":" + c == a + ":" + (b + ":" + c);
  }

  lemma ThreeValue(x: int, y: int, z: int)
    ensures Base60([x, y, z]) == (x * 60 + y) * 60 + z && Base60([y, z]) == y * 60 + z
  {
    Base60Snoc([], x);
    Base60Snoc([], y);
    Base60Snoc([x], y);
    Base60Snoc([y], z);
    Base60Snoc([x, y], z);
    assert [x] + [y] == [x, y] && [x, y] + [z] == [x, y, z] && [y] + [z] == [y, z];
    assert [] + [x] == [x] && [] + [y] == [y];
  }

  lemma ValuesAre(parts: seq<string>, values: seq<int>)
    requires |values| == |parts| && forall i :: 0 <= i < |parts| ==> values[i] == DigitsValue(parts[i])
    ensures Values(parts) == values
  {
  }

  /** A text of digit parts is read as their base-60 value by both parsers. */
  lemma {:induction false} ReadParts(s: string, parts: seq<string>, values: seq<int>)
    requires Split(s) == parts && DigitParts(parts)
    requires |values| == |parts| && forall i :: 0 <= i < |parts| ==> values[i] == DigitsValue(parts[i])
    ensures Duration(s) == Seconds(s) == Base60(values)
  {
    DigitPartsRead(parts);
    ValuesAre(parts, values);
  }

  lemma {:induction false} ReadTwo(a: string, b: string)
    requires a != "" && b != "" && AllDigits(a) && AllDigits(b)
    ensures Duration(a + ":" + b) == Seconds(a + ":" + b) == DigitsValue(a) * 60 + DigitsValue(b)
  {
    Two(a, b);
    ReadParts(a + ":" + b, [a, b], [DigitsValue(a), DigitsValue(b)]);
    ThreeValue(0, DigitsValue(a), DigitsValue(b));
  }

  lemma {:induction false} ReadThree(a: string, b: string, c: string)
    requires a != "" && b != "" && c != "" && AllDigits(a) && AllDigits(b) && AllDigits(c)
    ensures var s := a + ":" + b + ":" + c;
            Duration(s) == Seconds(s) == (DigitsValue(a) * 60 + DigitsValue(b)) * 60 + DigitsValue(c)
  {
    var parts, x, y, z := [a, b, c], DigitsValue(a), DigitsValue(b), DigitsValue(c);
    Three(a, b, c);
    assert parts[0] == a && parts[1] == b && parts[2] == c;
    assert DigitParts(parts);
    ReadParts(a + ":" + b + ":" + c, parts, [x, y, z]);
    ThreeValue(x, y, z);
  }

  lemma ClockTime(t: nat)
    ensures (t / 3600 * 60 + t % 3600 / 60) * 60 + t % 60 == t
    ensures t < 86400 ==> t % 86400 / 3600 == t / 3600
  {
    assert t % 3600 == t - t / 3600 * 3600;
    assert t % 3600 % 60 == t % 60;
  }

  lemma {:induction false} ReadClock(h: nat, m: nat, s: nat)
    ensures Duration(Decimal(h) + ":" + Decimal2(m) + ":" + Decimal2(s)) == (h * 60 + m) * 60 + s
    ensures Seconds(Decimal(h) + ":" + Decimal2(m) + ":" + Decimal2(s)) == (h * 60 + m) * 60 + s
    ensures Duration(Decimal2(m) + ":" + Decimal2(s)) == Seconds(Decimal2(m) + ":" + Decimal2(s)) == m * 60 + s
    ensures Duration(Decimal(m) + ":" + Decimal2(s)) == Seconds(Decimal(m) + ":" + Decimal2(s)) == m * 60 + s
  {
    DecimalReads(h);
    DecimalReads(m);
    DecimalReads(s);
    ReadThree(Decimal(h), Decimal2(m), Decimal2(s));
    ReadTwo(Decimal2(m), Decimal2(s));
    ReadTwo(Decimal(m), Decimal2(s));
  }

  /** Both parsers invert FormatTime exactly on the non-negative times; it prints the others as 0. */
  lemma FormatTimeRoundTrip(n: int)
    ensures Duration(FormatTime(n)) == n <==> n >= 0
    ensures Seconds(FormatTime(n)) == n <==> n >= 0
  {
    var t := if n < 0 then 0 else n;
    ReadClock(t / 3600, t % 3600 / 60, t % 60);
    ClockTime(t);
  }

  lemma ZeroText(n: int)
    requires n <= 0
    ensures SecToMin(n) == "0:00"
  {
    assert Decimal(0) == [Digit(0)] && Decimal2(0) == "0" + [Digit(0)] && Digit(0) == '0';
  }

  /** Both parsers invert SecToMin exactly below one day: from then on its text starts with the days,
      which parseTimeToSeconds rejects and parseDuration reads together with the hours. */
  lemma SecToMinRoundTrip(n: int)
    ensures Duration(SecToMin(n)) == n <==> 0 <= n < 86400
    ensures Seconds(SecToMin(n)) == n <==> 0 <= n < 86400
  {
    if n <= 0 {
      ReadDays(0, 0, 0, 0);
    } else {
      var d, h, m, s := n / 86400, n % 86400 / 3600, n % 3600 / 60, n % 60;
      DaysTime(n);
      ReadDays(d, h, m, s);
    }
  }

  /** The parsers read a text without days as it is meant, and one with days as a hundred hours per day
      or not at all. */
  lemma ReadDays(d: nat, h: nat, m: nat, s: nat)
    requires h < 24 && m < 60 && s < 60
    ensures Duration(DaysText(d, h, m, s)) == ((d * 100 + h) * 60 + m) * 60 + s
    ensures Seconds(DaysText(d, h, m, s)) == if d == 0 then (h * 60 + m) * 60 + s else 0
  {
    if d > 0 {
      DaysMisread(d, h, m, s);
    } else {
      ReadClock(h, m, s);
    }
  }

  lemma Mods(d: nat, r: nat)
    ensures (d * 86400 + r) % 3600 == r % 3600 && (d * 86400 + r) % 60 == r % 60
  {
    Mod3600(d * 86400 + r, d * 24 + r / 3600, r % 3600);
    Mod60(d * 86400 + r, d * 1440 + r / 60, r % 60);
  }

  lemma Mod3600(x: int, q: int, rem: int)
    requires x == q * 3600 + rem && 0 <= rem < 3600
    ensures x % 3600 == rem
  {
  }

  lemma Mod60(x: int, q: int, rem: int)
    requires x == q * 60 + rem && 0 <= rem < 60
    ensures x % 60 == rem
  {
  }

  /** Taking a day for a hundred hours makes a time wrong exactly if it has days. */
  lemma DaysTime(n: nat)
    ensures n % 86400 / 3600 < 24 && n % 3600 / 60 < 60
    ensures ((n / 86400 * 100 + n % 86400 / 3600) * 60 + n % 3600 / 60) * 60 + n % 60 == n + n / 86400 * 273600
    ensures n / 86400 == 0 <==> n < 86400
  {
    Mods(n / 86400, n % 86400);
    ClockTime(n % 86400);
  }

  /** "3d 04" is read as 304 hours by one parser and as no number by the other. */
  lemma DaysMisread(d: nat, h: nat, m: nat, s: nat)
    requires d > 0 && h < 24 && m < 60 && s < 60
    ensures Seconds(DaysText(d, h, m, s)) == 0
    ensures Duration(DaysText(d, h, m, s)) == ((d * 100 + h) * 60 + m) * 60 + s
  {
    FirstPart(d, h);
    DecimalReads(m);
    DecimalReads(s);
    Three(Decimal(d) + "d " + Decimal2(h), Decimal2(m), Decimal2(s));
    MisreadThree(DaysText(d, h, m, s), Decimal(d) + "d " + Decimal2(h), Decimal2(m), Decimal2(s));
  }

  lemma MisreadThree(s: string, a: string, b: string, c: string)
    requires Split(s) == [a, b, c] && StrconvAtoi(a).None?
    ensures Seconds(s) == 0
    ensures Duration(s) == (DigitsValue(a) * 60 + DigitsValue(b)) * 60 + DigitsValue(c)
  {
    var parts, x, y, z := [a, b, c], DigitsValue(a), DigitsValue(b), DigitsValue(c);
    Misread(s, parts, [x, y, z]);
    ThreeValue(x, y, z);
  }

  lemma {:induction false} Misread(s: string, parts: seq<string>, values: seq<int>)
    requires Split(s) == parts && StrconvAtoi(parts[0]).None?
    requires |values| == |parts| && forall i :: 0 <= i < |parts| ==> values[i] == DigitsValue(parts[i])
    ensures Seconds(s) == 0 && Duration(s) == Base60(values)
  {
    ValuesAre(parts, values);
  }

  lemma {:induction false} FirstPart(d: nat, h: nat)
    requires h < 24
    ensures var first := Decimal(d) + "d " + Decimal2(h);
            NoColon(first) && StrconvAtoi(first).None? && DigitsValue(first) == d * 100 + h
  {
    DecimalReads(d);
    DecimalReads(h);
    TwoDigits(h);
    NotANumber(Decimal(d), Decimal2(h));
    DigitsJoin(Decimal(d), Digit(h / 10), Digit(h % 10));
  }

  lemma NotANumber(a: string, b: string)
    requires a != "" && AllDigits(a) && AllDigits(b)
    ensures NoColon(a + "d " + b) && StrconvAtoi(a + "d " + b).None?
  {
    var s := a + "d " + b;
    assert s[|a|] == 'd' && !IsDigit('d') && IsDigit(s[0]);
  }

  lemma DigitsJoin(a: string, x: char, y: char)
    requires IsDigit(x) && IsDigit(y)
    ensures DigitsValue(a + "d " + [x, y]) ==
            (DigitsValue(a) * 10 + (x as int - '0' as int)) * 10 + (y as int - '0' as int)
  {
    var t := a + ['d'] + [' '];
    DigitsSnoc(a, 'd');
    DigitsSnoc(a + ['d'], ' ');
    DigitsSnoc(t, x);
    DigitsSnoc(t + [x], y);
    assert a + "d " + [x, y] == t + [x] + [y];
  }

  lemma DigitsSnoc(s: string, c: char)
    ensures DigitsValue(s + [c]) == if IsDigit(c) then DigitsValue(s) * 10 + (c as int - '0' as int) else DigitsValue(s)
  {
    assert (s + [c])[..|s|] == s;
  }

  lemma TwoDigits(h: nat)
    requires h < 100
    ensures Decimal2(h) == [Digit(h / 10), Digit(h % 10)]
  {
    assert Digit(0) == '0';
    if h >= 10 {
      assert Decimal(h / 10) == [Digit(h / 10)];
    }
  }
}
