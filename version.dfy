/**
 * The version stamp of a cty.dat file: the eight digits after the first `VER`
 * that is directly followed by eight digits (the search of `regex_version_entry`),
 * and its human-friendly `YYYY-MM-DD` form (`formatted_version`).
 */
module Version {
  import opened Ascii
  import opened Numbers

  /** `VER` followed by eight digits starts at position `i`. */
  predicate VersionAt(text: string, i: nat)
  {
    i + 11 <= |text| && text[i..i + 3] == "VER" && AllDigits(text[i + 3..i + 11])
  }

  /** Where the leftmost match of `VER(\d{8})` at or after `i` starts, or `|text|` when there is none. */
  function FirstStamp(text: string, i: nat): (j: nat)
    requires i <= |text|
    ensures i <= j <= |text|
    ensures j < |text| ==> VersionAt(text, j)
    ensures forall k :: i <= k < j ==> !VersionAt(text, k)
    decreases |text| - i
  {
    if i + 11 > |text| then |text|
    else if VersionAt(text, i) then i
    else FirstStamp(text, i + 1)
  }

  /** The version `import_dat` records for a whole file: the digits of the first stamp, or "" when there is none. */
  function VersionOf(text: string): (v: string)
    ensures v == "" <==> forall j :: 0 <= j <= |text| ==> !VersionAt(text, j)
    ensures v != "" ==> |v| == 8 && AllDigits(v)
  {
    var j := FirstStamp(text, 0);
    if j < |text| then text[j + 3..j + 11] else ""
  }

  /** The stamp that is recorded is the one at the leftmost `VER` followed by eight digits. */
  lemma VersionOfFirstStamp(text: string, j: nat)
    requires VersionAt(text, j)
    requires forall k :: 0 <= k < j ==> !VersionAt(text, k)
    ensures VersionOf(text) == text[j + 3..j + 11]
  {
    var f := FirstStamp(text, 0);
  }

  predicate IsLeapYear(y: int)
  {
    y % 4 == 0 && (y % 100 != 0 || y % 400 == 0)
  }

  function DaysInMonth(y: int, m: int): int
    requires 1 <= m <= 12
  {
    if m == 2 then (if IsLeapYear(y) then 29 else 28)
    else if m == 4 || m == 6 || m == 9 || m == 11 then 30
    else 31
  }

  function Year(v: string): nat requires |v| == 8 && AllDigits(v) { DigitsValue(v[..4]) }
  function Month(v: string): nat requires |v| == 8 && AllDigits(v) { DigitsValue(v[4..6]) }
  function Day(v: string): nat requires |v| == 8 && AllDigits(v) { DigitsValue(v[6..]) }

  /** `v` is a `%Y%m%d` stamp of a day that exists (years start at 1, as in Python's `datetime`). */
  predicate IsCalendarDate(v: string)
  {
    && |v| == 8 && AllDigits(v)
    && Year(v) >= 1
    && 1 <= Month(v) <= 12
    && 1 <= Day(v) <= DaysInMonth(Year(v), Month(v))
  }

  /** `formatted_version`: `YYYY-MM-DD` for a real date, `0000-00-00` otherwise. */
  function FormatVersion(v: string): (r: string)
    ensures |r| == 10 && r[4] == '-' && r[7] == '-'
    ensures IsCalendarDate(v) ==> r[..4] + r[5..7] + r[8..] == v
    ensures !IsCalendarDate(v) ==> r == "0000-00-00"
  {
    if IsCalendarDate(v) then v[..4] + "-" + v[4..6] + "-" + v[6..] else "0000-00-00"
  }

  /** The placeholder is returned exactly for the stamps that are not dates. */
  lemma FormatVersionInvalid(v: string)
    ensures FormatVersion(v) == "0000-00-00" <==> !IsCalendarDate(v)
  {
    assert DigitsValue("0000") == 0 by {
      assert "0000"[..3] == "000" && "000"[..2] == "00" && "00"[..1] == "0";
    }
    if IsCalendarDate(v) {
      var r := FormatVersion(v);
      assert v[..4] != "0000";
      assert r[..4] == v[..4];
      assert r != "0000-00-00" by { assert "0000-00-00"[..4] == "0000"; }
    }
  }

  /** A 29th of February exists exactly in leap years. */
  lemma LeapDay(v: string)
    requires |v| == 8 && AllDigits(v) && Year(v) >= 1 && v[4..] == "0229"
    ensures IsCalendarDate(v) <==> IsLeapYear(Year(v))
  {
    assert v[4..6] == "02" && v[6..] == "29";
    assert DigitsValue("02") == 2 by { assert "02"[..1] == "0"; }
    assert DigitsValue("29") == 29 by { assert "29"[..1] == "2"; }
  }

  /** A month number of 13 is never a date. */
  lemma MonthThirteen(v: string)
    requires |v| == 8 && AllDigits(v) && v[4..6] == "13"
    ensures FormatVersion(v) == "0000-00-00"
  {
    assert DigitsValue("13") == 13 by { assert "13"[..1] == "1"; }
  }
}
