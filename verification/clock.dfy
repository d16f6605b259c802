/** The one date-time layout the service reads and the analyzer writes, `%Y-%m-%d %H:%M:%S`:
    when `strptime` accepts a text, and what `strftime` writes for a calendar instant. */
module Clock {
  import opened Text
  import opened Patterns

  predicate IsLeap(year: nat)
  {
    year % 4 == 0 && (year % 100 != 0 || year % 400 == 0)
  }

  function DaysIn(year: nat, month: nat): (days: nat)
    requires 1 <= month <= 12
    ensures 28 <= days <= 31
  {
    if month == 2 then (if IsLeap(year) then 29 else 28)
    else if month == 4 || month == 6 || month == 9 || month == 11 then 30
    else 31
  }

  /** The fields of a `datetime`: what its constructor accepts. */
  predicate ValidInstant(year: nat, month: nat, day: nat, hour: nat, minute: nat, second: nat)
  {
    1 <= year && 1 <= month <= 12 && 1 <= day <= DaysIn(year, month) &&
    hour < 24 && minute < 60 && second < 60
  }

  /** The text has the layout `YYYY-MM-DD HH:MM:SS`, every field zero-padded. */
  predicate HasLayout(s: string)
  {
    |s| == 19 &&
    AllDigits(s, 0, 4) && s[4] == '-' && AllDigits(s, 5, 7) && s[7] == '-' &&
    AllDigits(s, 8, 10) && s[10] == ' ' && AllDigits(s, 11, 13) && s[13] == ':' &&
    AllDigits(s, 14, 16) && s[16] == ':' && AllDigits(s, 17, 19)
  }

  /** `datetime.strptime(s, "%Y-%m-%d %H:%M:%S")` succeeds. */
  predicate IsDateTimeText(s: string)
  {
    HasLayout(s) &&
    ValidInstant(GroupValue(s, 0, 4), GroupValue(s, 5, 7), GroupValue(s, 8, 10),
                 GroupValue(s, 11, 13), GroupValue(s, 14, 16), GroupValue(s, 17, 19))
  }

  function Pow10(w: nat): (p: nat)
    ensures p >= 1
  {
    if w == 0 then 1 else 10 * Pow10(w - 1)
  }

  /** `n` written with exactly `w` digits, zero-padded on the left (`%0<w>d` for `n < 10^w`). */
  function Pad(n: nat, w: nat): (r: string)
    ensures |r| == w && forall i :: 0 <= i < w ==> IsDigit(r[i])
  {
    if w == 0 then [] else Pad(n / 10, w - 1) + [DigitChar(n % 10)]
  }

  /** What `strftime("%Y-%m-%d %H:%M:%S")` writes for an instant with a four-digit year. */
  function Stamp(year: nat, month: nat, day: nat, hour: nat, minute: nat, second: nat): string
  {
    Pad(year, 4) + "-" + Pad(month, 2) + "-" + Pad(day, 2) + " " +
    Pad(hour, 2) + ":" + Pad(minute, 2) + ":" + Pad(second, 2)
  }

  /** Reading back a padded number gives the number. */
  lemma {:induction false} PadValue(n: nat, w: nat)
    requires n < Pow10(w)
    ensures DigitsValue(Pad(n, w)) == n
  {
    if w > 0 {
      PadValue(n / 10, w - 1);
      var r := Pad(n, w);
      assert r[..w - 1] == Pad(n / 10, w - 1);
    }
  }

  /** Padding the value of a digit string to its own length gives the string back. */
  lemma {:induction false} ValuePad(s: string)
    requires forall i :: 0 <= i < |s| ==> IsDigit(s[i])
    ensures DigitsValue(s) < Pow10(|s|)
    ensures Pad(DigitsValue(s), |s|) == s
  {
    if s != [] {
      var init := s[..|s| - 1];
      ValuePad(init);
      var d := s[|s| - 1] as int - '0' as int;
      assert 0 <= d < 10;
      var v := DigitsValue(init) * 10 + d;
      assert v / 10 == DigitsValue(init) && v % 10 == d;
      assert s == init + [s[|s| - 1]];
    }
  }

  lemma StampFields(year: nat, month: nat, day: nat, hour: nat, minute: nat, second: nat)
    ensures var s := Stamp(year, month, day, hour, minute, second);
      |s| == 19 && s[0..4] == Pad(year, 4) && s[4] == '-' && s[5..7] == Pad(month, 2) &&
      s[7] == '-' && s[8..10] == Pad(day, 2) && s[10] == ' ' && s[11..13] == Pad(hour, 2) &&
      s[13] == ':' && s[14..16] == Pad(minute, 2) && s[16] == ':' && s[17..19] == Pad(second, 2)
  {
  }

  /** A field holding the padded form of `n` reads back as `n`. */
  lemma FieldValue(s: string, i: int, j: int, n: nat)
    requires 0 <= i <= j <= |s| && s[i..j] == Pad(n, j - i) && n < Pow10(j - i)
    ensures AllDigits(s, i, j) && GroupValue(s, i, j) == n
  {
    PadValue(n, j - i);
    forall m | i <= m < j
      ensures IsDigit(s[m])
    {
      assert s[m] == s[i..j][m - i];
    }
  }

  /** `strptime` accepts what `strftime` writes exactly when the fields make a valid instant, and
      reads back the same fields. */
  lemma StampAccepted(year: nat, month: nat, day: nat, hour: nat, minute: nat, second: nat)
    requires year < 10000 && month < 100 && day < 100 && hour < 100 && minute < 100 && second < 100
    ensures var s := Stamp(year, month, day, hour, minute, second);
      HasLayout(s) &&
      GroupValue(s, 0, 4) == year && GroupValue(s, 5, 7) == month && GroupValue(s, 8, 10) == day &&
      GroupValue(s, 11, 13) == hour && GroupValue(s, 14, 16) == minute && GroupValue(s, 17, 19) == second &&
      (IsDateTimeText(s) <==> ValidInstant(year, month, day, hour, minute, second))
  {
    var s := Stamp(year, month, day, hour, minute, second);
    StampFields(year, month, day, hour, minute, second);
    assert Pow10(2) == 100 && Pow10(4) == 10000;
    FieldValue(s, 0, 4, year);
    FieldValue(s, 5, 7, month);
    FieldValue(s, 8, 10, day);
    FieldValue(s, 11, 13, hour);
    FieldValue(s, 14, 16, minute);
    FieldValue(s, 17, 19, second);
  }

  /** A text of the layout's length and separators is its six fields joined by them. */
  lemma JoinedFields(s: string)
    requires |s| == 19 && s[4] == '-' && s[7] == '-' && s[10] == ' ' && s[13] == ':' && s[16] == ':'
    ensures s == s[0..4] + "-" + s[5..7] + "-" + s[8..10] + " " + s[11..13] + ":" +
                 s[14..16] + ":" + s[17..19]
  {
    assert s[0..10] == s[0..4] + "-" + s[5..7] + "-" + s[8..10];
    assert s[10..19] == " " + s[11..13] + ":" + s[14..16] + ":" + s[17..19];
    assert s == s[0..10] + s[10..19];
  }

  /** A field of digits is the padded form of its own value. */
  lemma FieldIsPad(s: string, i: int, j: int)
    requires 0 <= i <= j <= |s| && AllDigits(s, i, j)
    ensures Pad(GroupValue(s, i, j), j - i) == s[i..j]
  {
    ValuePad(s[i..j]);
  }

  /** Every text `strptime` accepts is what `strftime` writes for the instant it reads. */
  lemma AcceptedIsStamp(s: string)
    requires IsDateTimeText(s)
    ensures s == Stamp(GroupValue(s, 0, 4), GroupValue(s, 5, 7), GroupValue(s, 8, 10),
                       GroupValue(s, 11, 13), GroupValue(s, 14, 16), GroupValue(s, 17, 19))
  {
    FieldIsPad(s, 0, 4);
    FieldIsPad(s, 5, 7);
    FieldIsPad(s, 8, 10);
    FieldIsPad(s, 11, 13);
    FieldIsPad(s, 14, 16);
    FieldIsPad(s, 17, 19);
    JoinedFields(s);
  }
}
