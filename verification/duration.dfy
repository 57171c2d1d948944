/** `formatDuration`: a number of seconds shown as days, hours and minutes
    ("21d 3h", "5h 30m", "45m"), minutes only below a day, and "< 1m" when
    nothing is left to show. Seconds are whole numbers here. */
module Duration {
  import opened Strings

  const SecondsPerDay := 86400
  const SecondsPerHour := 3600
  const SecondsPerMinute := 60

  /** JavaScript's `%` on a positive divisor: the remainder takes the sign
      of the dividend. */
  function JsRem(a: int, b: int): (r: int)
    requires b > 0
    ensures -b < r < b
    ensures a >= 0 ==> 0 <= r
    ensures a <= 0 ==> r <= 0
    ensures a >= 0 ==> r == a % b
  {
    if a >= 0 then a % b else -((-a) % b)
  }

  /** `Math.floor(seconds / 86400)`; Dafny's division by a positive number rounds down. */
  function Days(seconds: int): int
  {
    seconds / SecondsPerDay
  }

  function Hours(seconds: int): int
  {
    JsRem(seconds, SecondsPerDay) / SecondsPerHour
  }

  function Minutes(seconds: int): int
  {
    JsRem(seconds, SecondsPerHour) / SecondsPerMinute
  }

  /** For a non-negative duration the three components are the usual
      clock reading: hours below 24, minutes below 60, and together with
      the leftover seconds they add back up to the duration. */
  lemma Components(seconds: int)
    requires seconds >= 0
    ensures 0 <= Hours(seconds) < 24 && 0 <= Minutes(seconds) < 60
    ensures Days(seconds) * SecondsPerDay + Hours(seconds) * SecondsPerHour
            + Minutes(seconds) * SecondsPerMinute + seconds % SecondsPerMinute == seconds
  {
    var d, h := seconds / 86400, (seconds % 86400) / 3600;
    assert seconds % 3600 == (seconds % 86400) % 3600;
  }

  /** The parts shown, in day, hour, minute order. */
  function Parts(seconds: int): (parts: seq<string>)
    ensures |parts| <= 2
  {
    var d, h, m := Days(seconds), Hours(seconds), Minutes(seconds);
    (if d > 0 then [NatToString(d) + "d"] else [])
    + (if h > 0 then [NatToString(h) + "h"] else [])
    + (if m > 0 && d == 0 then [NatToString(m) + "m"] else [])
  }

  /** The parts joined by single spaces. */
  function JoinWords(parts: seq<string>): string
  {
    if |parts| == 0 then ""
    else if |parts| == 1 then parts[0]
    else parts[0] + " " + JoinWords(parts[1..])
  }

  /** The shown parts joined by spaces, or "< 1m" when none is shown. */
  function FormatDuration(seconds: int): (r: string)
    ensures |Parts(seconds)| == 0 ==> r == "< 1m"
    ensures |Parts(seconds)| > 0 ==> Parts(seconds)[0] <= r
  {
    var parts := Parts(seconds);
    if |parts| > 0 then JoinWords(parts) else "< 1m"
  }

  /** The unit letter that ends a part. */
  function Unit(part: string): char
  {
    if |part| == 0 then ' ' else part[|part| - 1]
  }

  function Units(parts: seq<string>): (r: string)
    ensures |r| == |parts|
  {
    if |parts| == 0 then [] else [Unit(parts[0])] + Units(parts[1..])
  }

  /** Which parts appear, in this order: days when positive, hours when
      positive, minutes when positive and there are no days. Each part is
      the number followed by its unit letter. */
  lemma PartsShown(seconds: int)
    ensures var d, h, m, parts := Days(seconds), Hours(seconds), Minutes(seconds), Parts(seconds);
            && Units(parts) == (if d > 0 then "d" else "") + (if h > 0 then "h" else "") + (if m > 0 && d == 0 then "m" else "")
            && (d > 0 ==> parts[0] == NatToString(d) + "d")
            && (h > 0 ==> parts[if d > 0 then 1 else 0] == NatToString(h) + "h")
            && (m > 0 && d == 0 ==> parts[|parts| - 1] == NatToString(m) + "m")
  {
  }

  /** "< 1m" exactly when no part is shown; in particular for less than a
      minute, and for negative durations. */
  lemma UnderAMinute(seconds: int)
    ensures FormatDuration(seconds) == "< 1m" <==> |Parts(seconds)| == 0
    ensures seconds < 60 ==> FormatDuration(seconds) == "< 1m"
  {
    var parts := Parts(seconds);
    if |parts| > 0 {
      assert IsDigit(parts[0][0]);
      JoinStartsWithFirst(parts);
      assert "< 1m"[0] == '<';
    }
  }

  /** The joined text begins with the whole first part. */
  lemma JoinStartsWithFirst(parts: seq<string>)
    requires |parts| > 0 && |parts[0]| > 0
    ensures parts[0] <= JoinWords(parts)
    ensures |JoinWords(parts)| > 0 && JoinWords(parts)[0] == parts[0][0]
  {
  }
}
