/** The client's date helpers: the `DD/MM/YYYY` and `HH:MM` input masks, and
    the display of a date's day, month and year or its hours and minutes. */
module DateUtils {
  import opened Support
  import opened Text

  /** `text.replace(/\D/g, "")`: the ASCII digits of the text, in order. */
  function Digits(text: string): (d: string)
    ensures AllDigits(d) && |d| <= |text|
    ensures Subsequence(d, text)
    ensures forall c :: c in d ==> c in text
  {
    var d := Filter(text, IsDigit);
    assert forall i :: 0 <= i < |d| ==> d[i] in d;
    d
  }

  /** Every digit of the text is kept as often as it occurs; nothing else is. */
  lemma DigitsCount(text: string, c: char)
    ensures multiset(Digits(text))[c] == if IsDigit(c) then multiset(text)[c] else 0
  {
    FilterCount(text, IsDigit, c);
  }

  /** A text made of digits keeps all of them. */
  lemma DigitsOfDigits(s: string)
    requires AllDigits(s)
    ensures Digits(s) == s
  {
    assert forall c :: c in s ==> IsDigit(c);
    FilterKeepsAll(s, IsDigit);
  }

  /** A separator that is no digit drops out of the digits. */
  lemma DigitsAround(a: string, sep: char, b: string)
    requires !IsDigit(sep)
    ensures Digits(a + [sep] + b) == Digits(a) + Digits(b)
  {
    FilterAppend(a + [sep], b, IsDigit);
    FilterAppend(a, [sep], IsDigit);
  }

  /** `s.slice(0, n)`. */
  function Prefix(s: string, n: nat): (r: string)
    ensures |r| <= n && |r| <= |s| && r == s[..|r|]
    ensures |s| <= n ==> r == s
  {
    if |s| <= n then s else s[..n]
  }

  lemma PrefixOfDigits(s: string, n: nat)
    requires AllDigits(s)
    ensures AllDigits(Prefix(s, n))
  {
    var r := Prefix(s, n);
    forall i | 0 <= i < |r| ensures IsDigit(r[i]) {
      assert r[i] == s[i];
    }
  }

  /** The date mask over at most eight digits: the first two, then a slash
      and the next two, then a slash and the rest.  The digits shown are the
      digits given. */
  function DateMask(d: string): (r: string)
    requires |d| <= 8 && AllDigits(d)
    ensures |r| == if |d| <= 2 then |d| else if |d| <= 4 then |d| + 1 else |d| + 2
    ensures Digits(r) == d
    ensures |d| > 2 ==> r[2] == '/'
    ensures |d| > 4 ==> r[5] == '/'
    ensures forall i :: 0 <= i < |r| && i != 2 && i != 5 ==> IsDigit(r[i])
  {
    if |d| <= 2 then
      DigitsOfDigits(d);
      d
    else if |d| <= 4 then
      OneSeparator(d, 2, '/');
      d[..2] + "/" + d[2..]
    else
      TwoSeparators(d, '/');
      d[..2] + "/" + d[2..4] + "/" + d[4..]
  }

  /** A digit string cut at `k` with a separator in between shows the same digits. */
  lemma OneSeparator(d: string, k: nat, sep: char)
    requires AllDigits(d) && k <= |d| && !IsDigit(sep)
    ensures Digits(d[..k] + [sep] + d[k..]) == d
  {
    var a, b := d[..k], d[k..];
    assert AllDigits(a) by {
      forall i | 0 <= i < |a| ensures IsDigit(a[i]) { assert a[i] == d[i]; }
    }
    assert AllDigits(b) by {
      forall i | 0 <= i < |b| ensures IsDigit(b[i]) { assert b[i] == d[k + i]; }
    }
    DigitsAround(a, sep, b);
    DigitsOfDigits(a);
    DigitsOfDigits(b);
    assert a + b == d;
  }

  lemma TwoSeparators(d: string, sep: char)
    requires AllDigits(d) && 4 <= |d| && !IsDigit(sep)
    ensures Digits(d[..2] + [sep] + d[2..4] + [sep] + d[4..]) == d
  {
    var head := d[..4];
    OneSeparator(head, 2, sep);
    assert head[..2] == d[..2] && head[2..] == d[2..4];
    DigitsAround(d[..2] + [sep] + d[2..4], sep, d[4..]);
    DigitsOfDigits(d[4..]);
    assert head + d[4..] == d;
  }

  /** `formatDateInput`: at most ten characters; the digits it shows are the
      first eight digits typed, with a slash after the second and the fourth. */
  function FormatDateInput(text: string): (r: string)
    ensures |r| <= 10
    ensures var n := |Prefix(Digits(text), 8)|;
            |r| == if n <= 2 then n else if n <= 4 then n + 1 else n + 2
    ensures Digits(r) == Prefix(Digits(text), 8)
    ensures |Prefix(Digits(text), 8)| > 2 ==> |r| >= 4 && r[2] == '/'
    ensures |Prefix(Digits(text), 8)| > 4 ==> |r| >= 7 && r[5] == '/'
    ensures forall i :: 0 <= i < |r| && i != 2 && i != 5 ==> IsDigit(r[i])
  {
    var d := Prefix(Digits(text), 8);
    PrefixOfDigits(Digits(text), 8);
    DateMask(d)
  }

  /** Masking a masked date again changes nothing. */
  lemma FormatDateInputIdempotent(text: string)
    ensures FormatDateInput(FormatDateInput(text)) == FormatDateInput(text)
  {
  }

  /** The time mask over at most four digits: the first two, then a colon
      and the rest. */
  function TimeMask(d: string): (r: string)
    requires |d| <= 4 && AllDigits(d)
    ensures |r| == if |d| <= 2 then |d| else |d| + 1
    ensures Digits(r) == d
    ensures |d| > 2 ==> r[2] == ':'
    ensures forall i :: 0 <= i < |r| && i != 2 ==> IsDigit(r[i])
  {
    if |d| <= 2 then
      DigitsOfDigits(d);
      d
    else
      OneSeparator(d, 2, ':');
      d[..2] + ":" + d[2..]
  }

  /** `formatTimeInput`: at most five characters; the digits it shows are the
      first four digits typed, with a colon after the second. */
  function FormatTimeInput(text: string): (r: string)
    ensures |r| <= 5
    ensures var n := |Prefix(Digits(text), 4)|;
            |r| == if n <= 2 then n else n + 1
    ensures Digits(r) == Prefix(Digits(text), 4)
    ensures |Prefix(Digits(text), 4)| > 2 ==> |r| >= 4 && r[2] == ':'
    ensures forall i :: 0 <= i < |r| && i != 2 ==> IsDigit(r[i])
  {
    var d := Prefix(Digits(text), 4);
    PrefixOfDigits(Digits(text), 4);
    TimeMask(d)
  }

  /** Masking a masked time again changes nothing. */
  lemma FormatTimeInputIdempotent(text: string)
    ensures FormatTimeInput(FormatTimeInput(text)) == FormatTimeInput(text)
  {
  }

  /** The local calendar fields of a date, as `getFullYear`, `getMonth`
      (January is 0), `getDate`, `getHours` and `getMinutes` report them. */
  datatype LocalDateTime = LocalDateTime(year: int, monthIndex: int, day: int, hours: int, minutes: int)

  /** Fields of a real calendar date with a four-digit year. */
  predicate DateInRange(t: LocalDateTime) {
    1000 <= t.year <= 9999 && 0 <= t.monthIndex <= 11 && 1 <= t.day <= 31
  }

  predicate TimeInRange(t: LocalDateTime) {
    0 <= t.hours <= 23 && 0 <= t.minutes <= 59
  }

  /** `s` is a decimal numeral worth `n`. */
  predicate Shows(s: string, n: int) {
    AllDigits(s) && NumeralValue(s, 10) == n
  }

  /** `String(n).padStart(2, "0")`: two digits worth `n` for every `n` below 100. */
  function Pad2(n: int): (s: string)
    ensures 0 <= n < 100 ==> |s| == 2 && Shows(s, n)
  {
    if 0 <= n < 100 then PadTwo(n); PadStart(IntToDecimal(n), 2, '0')
    else PadStart(IntToDecimal(n), 2, '0')
  }

  lemma PadTwo(n: nat)
    requires n < 100
    ensures |PadStart(IntToDecimal(n), 2, '0')| == 2
    ensures Shows(PadStart(IntToDecimal(n), 2, '0'), n)
  {
    var d := NatToDecimal(n);
    assert IntToDecimal(n) == d;
    DecimalWidth(n);
    var r := PadStart(d, 2, '0');
    if n < 10 {
      assert r == "0" + d;
      LeadingZero(d);
    } else {
      assert r == d;
    }
  }

  /** The decimal numeral of a number below 100 has one digit below 10 and two from there. */
  lemma DecimalWidth(n: nat)
    requires n < 100
    ensures |NatToDecimal(n)| == if n < 10 then 1 else 2
  {
    if n >= 10 {
      assert |NatToDecimal(n / 10)| == 1;
    }
  }

  /** The decimal numeral of a four-digit number has four digits. */
  lemma YearWidth(n: nat)
    requires 1000 <= n <= 9999
    ensures |NatToDecimal(n)| == 4
  {
    DecimalWidth(n / 100);
    assert NatToDecimal(n / 10) == NatToDecimal(n / 100) + [DigitChar((n / 10) % 10)];
  }

  /** Where the pieces of `a:b:c` sit, for two-character `a` and `b`. */
  lemma Fields(a: string, b: string, c: string, sep: char)
    requires |a| == 2 && |b| == 2
    ensures var r := a + [sep] + b + [sep] + c;
            |r| == 6 + |c| && r[..2] == a && r[2] == sep && r[3..5] == b && r[5] == sep && r[6..] == c
    ensures var r := a + [sep] + b;
            |r| == 5 && r[..2] == a && r[2] == sep && r[3..] == b
  {
  }

  /** `formatDate`: `DD/MM/YYYY` from the day, the month counted from 1 and
      the year; "" when there is no date. */
  function FormatDate(date: Option<LocalDateTime>): (r: string)
    ensures date.None? ==> r == ""
    ensures date.Some? && DateInRange(date.value) ==>
              && |r| == 10 && r[2] == '/' && r[5] == '/'
              && Shows(r[..2], date.value.day)
              && Shows(r[3..5], date.value.monthIndex + 1)
              && Shows(r[6..], date.value.year)
  {
    match date
    case None => ""
    case Some(t) =>
      var day := Pad2(t.day);
      var month := Pad2(t.monthIndex + 1);
      var year := IntToDecimal(t.year);
      if DateInRange(t) then
        YearWidth(t.year);
        Fields(day, month, year, '/');
        day + "/" + month + "/" + year
      else day + "/" + month + "/" + year
  }

  /** `formatTime`: `HH:MM` from the hours and minutes; "" when there is no date. */
  function FormatTime(date: Option<LocalDateTime>): (r: string)
    ensures date.None? ==> r == ""
    ensures date.Some? && TimeInRange(date.value) ==>
              && |r| == 5 && r[2] == ':'
              && Shows(r[..2], date.value.hours)
              && Shows(r[3..], date.value.minutes)
  {
    match date
    case None => ""
    case Some(t) =>
      var hours := Pad2(t.hours);
      var minutes := Pad2(t.minutes);
      if TimeInRange(t) then
        Fields(hours, minutes, "", ':');
        hours + ":" + minutes
      else hours + ":" + minutes
  }

  /** A displayed date passes through the date input mask unchanged. */
  lemma FormatDateMaskStable(t: LocalDateTime)
    requires DateInRange(t)
    ensures FormatDateInput(FormatDate(Some(t))) == FormatDate(Some(t))
  {
    var r := FormatDate(Some(t));
    Reassembled(r, '/');
    MaskedDate(r[..2], r[3..5], r[6..]);
  }

  /** A displayed time passes through the time input mask unchanged. */
  lemma FormatTimeMaskStable(t: LocalDateTime)
    requires TimeInRange(t)
    ensures FormatTimeInput(FormatTime(Some(t))) == FormatTime(Some(t))
  {
    var r := FormatTime(Some(t));
    Rejoined(r, ':');
    MaskedTime(r[..2], r[3..]);
  }

  /** A ten-character text with separators at 2 and 5 is its three pieces joined. */
  lemma Reassembled(r: string, sep: char)
    requires |r| == 10 && r[2] == sep && r[5] == sep
    ensures r == r[..2] + [sep] + r[3..5] + [sep] + r[6..]
  {
  }

  /** A five-character text with a separator at 2 is its two pieces joined. */
  lemma Rejoined(r: string, sep: char)
    requires |r| == 5 && r[2] == sep
    ensures r == r[..2] + [sep] + r[3..]
  {
  }

  lemma MaskedDate(a: string, b: string, c: string)
    requires |a| == 2 && |b| == 2 && |c| == 4
    requires AllDigits(a) && AllDigits(b) && AllDigits(c)
    ensures FormatDateInput(a + "/" + b + "/" + c) == a + "/" + b + "/" + c
  {
    var d := a + b + c;
    assert d[..2] == a && d[2..4] == b && d[4..] == c;
    TwoSeparators(d, '/');
    assert d[..2] + "/" + d[2..4] + "/" + d[4..] == a + "/" + b + "/" + c;
  }

  lemma MaskedTime(a: string, b: string)
    requires |a| == 2 && |b| == 2
    requires AllDigits(a) && AllDigits(b)
    ensures FormatTimeInput(a + ":" + b) == a + ":" + b
  {
    var d := a + b;
    assert d[..2] == a && d[2..] == b;
    OneSeparator(d, 2, ':');
  }
}
