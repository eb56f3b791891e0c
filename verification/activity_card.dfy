/** The activity card: the icon and colour shown for an activity's type, and the duration
    label. Styling classes and the edit/delete buttons are left out. */
module ActivityCard {
  import opened Common
  import opened Text
  import opened Entities

  /** The activity types with an icon and colour of their own. */
  const KnownTypes: seq<string> := ["flight", "hotel", "restaurant", "sightseeing", "transport", "activity"]

  /** `getActivityIcon`: the type's icon, `MapPin` for any other type. */
  function ActivityIcon(kind: string): (r: string)
    ensures kind !in KnownTypes ==> r == "MapPin"
  {
    if kind == "flight" then "Plane"
    else if kind == "hotel" then "Building2"
    else if kind == "restaurant" then "Utensils"
    else if kind == "sightseeing" then "Camera"
    else if kind == "transport" then "Car"
    else "MapPin"
  }

  /** `getActivityColor`: the type's badge colour, `default` for any other type. */
  function ActivityColor(kind: string): (r: string)
    ensures kind !in KnownTypes ==> r == "default"
  {
    if kind == "flight" then "primary"
    else if kind == "hotel" then "secondary"
    else if kind == "restaurant" then "accent"
    else if kind == "sightseeing" then "success"
    else if kind == "transport" then "warning"
    else "default"
  }

  /** `formatDuration`: minutes under an hour as `Nm`, otherwise whole hours as `Nh` followed by
      ` Mm` when minutes remain. */
  function FormatDuration(minutes: int): (r: string)
    ensures |r| >= 2
    ensures minutes < 60 ==> r[|r| - 1] == 'm'
  {
    if minutes < 60 then IntToString(minutes) + "m"
    else
      var hours := minutes / 60;
      var mins := minutes % 60;
      if mins > 0 then NatToString(hours) + "h " + NatToString(mins) + "m"
      else NatToString(hours) + "h"
  }

  /** Reads a duration label back into minutes. Only the labels `formatDuration` writes are
      read: `Nm` with `N` below 60, `Nh` and `Nh Mm` with at least one hour and `M` from 1 to
      59, every number written without leading zeros. */
  function ReadDuration(s: string): Option<int>
  {
    var a := LeadingDigits(s);
    if |a| == 0 || (|a| > 1 && a[0] == '0') then None else ReadUnit(DigitsValue(a), s[|a|..])
  }

  /** What follows the leading number `n` of a duration label. */
  function ReadUnit(n: nat, rest: string): Option<int>
  {
    if rest == "m" then (if n < 60 then Some(n) else None)
    else if rest == "h" then (if n >= 1 then Some(60 * n) else None)
    else if n >= 1 && |rest| >= 2 && rest[..2] == "h " then
      match ReadMinutes(rest[2..])
      case Some(m) => if 1 <= m < 60 then Some(60 * n + m) else None
      case None => None
    else None
  }

  /** The `Mm` part of `Nh Mm`, without leading zeros. */
  function ReadMinutes(s: string): Option<nat>
  {
    var b := LeadingDigits(s);
    if |b| > 0 && (|b| == 1 || b[0] != '0') && s[|b|..] == "m" then Some(DigitsValue(b)) else None
  }

  /** A label that starts with `String(n)` followed by a non-digit is read by its unit part. */
  lemma ReadAfterNumber(n: nat, rest: string)
    requires |rest| > 0 && !IsDigit(rest[0])
    ensures ReadDuration(NatToString(n) + rest) == ReadUnit(n, rest)
  {
    var ds := NatToString(n);
    LeadingDigitsOf(ds, rest);
    assert (ds + rest)[|ds|..] == rest;
    NatToStringValue(n);
  }

  /** `Mm` reads back as `M` minutes. */
  lemma ReadMinutesOf(m: nat)
    ensures ReadMinutes(NatToString(m) + "m") == Some(m)
  {
    var ms := NatToString(m);
    LeadingDigitsOf(ms, "m");
    assert (ms + "m")[|ms|..] == "m";
    NatToStringValue(m);
  }

  /** After `Nh`, a ` Mm` part adds `M` minutes. */
  lemma ReadHoursThenMinutes(h: nat, m: nat)
    requires h >= 1 && 1 <= m < 60
    ensures ReadUnit(h, "h " + NatToString(m) + "m") == Some(60 * h + m)
  {
    var ms := NatToString(m);
    var rest := "h " + ms + "m";
    assert rest[..2] == "h " && rest[2..] == ms + "m";
    assert rest != "m" && rest != "h";
    ReadMinutesOf(m);
  }

  /** `Nh Mm` reads back as `N` hours and `M` minutes. */
  lemma ReadHoursMinutesLabel(h: nat, m: nat)
    requires h >= 1 && 1 <= m < 60
    ensures ReadDuration(NatToString(h) + "h " + NatToString(m) + "m") == Some(60 * h + m)
  {
    var rest := "h " + NatToString(m) + "m";
    assert NatToString(h) + "h " + NatToString(m) + "m" == NatToString(h) + rest;
    assert ReadDuration(NatToString(h) + rest) == ReadUnit(h, rest) by {
      assert rest[0] == 'h';
      ReadAfterNumber(h, rest);
    }
    ReadHoursThenMinutes(h, m);
  }

  /** The label of `h` hours and `mm` minutes, for at least one hour. */
  lemma LabelOfHoursMinutes(h: nat, mm: nat)
    requires h >= 1 && mm < 60
    ensures FormatDuration(60 * h + mm)
      == NatToString(h) + (if mm > 0 then "h " + NatToString(mm) + "m" else "h")
  {
    HoursAndMinutes(h, mm);
  }

  /** `60h + mm` splits back into `h` whole hours and `mm` minutes. */
  lemma HoursAndMinutes(h: nat, mm: nat)
    requires mm < 60
    ensures (60 * h + mm) / 60 == h && (60 * h + mm) % 60 == mm
  {
    var x := 60 * h + mm;
    var q, r := x / 60, x % 60;
    assert x == 60 * q + r && 0 <= r < 60;
    assert 60 * (h - q) == r - mm;
  }

  /** Every non-negative duration's label reads back as that duration, so no two such
      durations share a label. */
  lemma FormatDurationRoundTrip(minutes: int)
    requires minutes >= 0
    ensures ReadDuration(FormatDuration(minutes)) == Some(minutes)
  {
    if minutes < 60 {
      assert IntToString(minutes) == NatToString(minutes);
      ReadAfterNumber(minutes, "m");
    } else {
      var h, mm := minutes / 60, minutes % 60;
      assert minutes == 60 * h + mm;
      LabelOfHoursMinutes(h, mm);
      if mm > 0 {
        ReadHoursMinutesLabel(h, mm);
      } else {
        ReadAfterNumber(h, "h");
      }
    }
  }

  /** The only text read as the `Mm` part is `String(M) + "m"`. */
  lemma MinutesOnlyLabel(t: string, mm: nat)
    requires ReadMinutes(t) == Some(mm)
    ensures t == NatToString(mm) + "m"
  {
    var b := LeadingDigits(t);
    CanonicalDigits(b);
    assert t == b + t[|b|..];
  }

  /** `Nm` below an hour is the label of `N` minutes. */
  lemma MinutesLabelIs(n: nat, rest: string, m: int)
    requires rest == "m" && n < 60 && m == n
    ensures NatToString(n) + rest == FormatDuration(m)
  {
    assert IntToString(m) == NatToString(n);
  }

  /** `Nh` is the label of `N` whole hours. */
  lemma HoursLabelIs(n: nat, rest: string, m: int)
    requires rest == "h" && n >= 1 && m == 60 * n
    ensures NatToString(n) + rest == FormatDuration(m)
  {
    LabelOfHoursMinutes(n, 0);
    assert m == 60 * n + 0;
  }

  /** `Nh Mm` is the label of `60N + M` minutes. */
  lemma HoursMinutesLabelIs(n: nat, rest: string, m: int, mm: nat)
    requires n >= 1 && 1 <= mm < 60 && m == 60 * n + mm && |rest| >= 2 && rest[..2] == "h "
    requires ReadMinutes(rest[2..]) == Some(mm)
    ensures NatToString(n) + rest == FormatDuration(m)
  {
    var t, ms := rest[2..], NatToString(mm);
    MinutesOnlyLabel(t, mm);
    assert rest == "h " + ms + "m" by {
      assert rest == rest[..2] + t;
    }
    LabelOfHoursMinutes(n, mm);
  }

  /** What follows `String(n)` in a label read as `m` minutes is what `formatDuration(m)` writes. */
  lemma UnitOnlyLabels(n: nat, rest: string, m: int)
    requires ReadUnit(n, rest) == Some(m)
    ensures NatToString(n) + rest == FormatDuration(m)
  {
    if rest == "m" {
      MinutesLabelIs(n, rest, m);
    } else if rest == "h" {
      HoursLabelIs(n, rest, m);
    } else {
      HoursMinutesLabelIs(n, rest, m, ReadMinutes(rest[2..]).value);
    }
  }

  /** The only text read as `m` minutes is the label `formatDuration(m)`: with the round trip,
      the label is exactly `Nm`, `Nh` or `Nh Mm`. */
  lemma ReadOnlyLabels(s: string, m: int)
    requires ReadDuration(s) == Some(m)
    ensures s == FormatDuration(m)
  {
    var a := LeadingDigits(s);
    var rest := s[|a|..];
    var n := DigitsValue(a);
    assert ReadUnit(n, rest) == Some(m);
    CanonicalDigits(a);
    assert s == a + rest;
    UnitOnlyLabels(n, rest, m);
  }
}
