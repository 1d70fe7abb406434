/** Time helpers of bildwatch_sehbmaster.py. An instant is a whole number of
    seconds since the Unix epoch (UTC); `datetime.fromisoformat` is a parameter
    `fromIso` that yields the instant an ISO text denotes, or None where Python
    raises. */
module Timestamps {
  import opened Wrappers

  const SecondsPerHour: nat := 3600

  /** `parse_iso_dt`: None for a missing or empty value, otherwise the value with
      a trailing "Z" rewritten to "+00:00", handed to `fromisoformat`. */
  function ParseIsoDt(value: Option<string>, fromIso: string -> Option<int>): (r: Option<int>)
    ensures value.None? || value == Some("") ==> r.None?
    ensures value.Some? && value.value != "" && value.value[|value.value| - 1] != 'Z' ==> r == fromIso(value.value)
    ensures value.Some? && value.value != "" && value.value[|value.value| - 1] == 'Z' ==>
              r == fromIso(value.value[..|value.value| - 1] + "+00:00")
  {
    match value
    case None => None
    case Some(v) =>
      if v == "" then None
      else if v[|v| - 1] == 'Z' then fromIso(v[..|v| - 1] + "+00:00")
      else fromIso(v)
  }

  /** The text `parse_iso_dt` hands to `fromisoformat` for a non-empty value. */
  function IsoText(v: string): string
    requires v != ""
  {
    if v[|v| - 1] == 'Z' then v[..|v| - 1] + "+00:00" else v
  }

  /** `parse_iso_dt(value)` is a naive datetime: the value parses, and the text
      handed to `fromisoformat` carries no UTC offset. `hasOffset` says which
      texts `fromisoformat` reads with an offset. Subtracting such a value from
      the aware `now_utc()` raises TypeError. */
  predicate ParsesNaive(value: Option<string>, fromIso: string -> Option<int>, hasOffset: string -> bool)
  {
    value.Some? && value.value != "" && ParseIsoDt(value, fromIso).Some? && !hasOffset(IsoText(value.value))
  }

  /** The "Z" suffix and the explicit "+00:00" offset are read as the same instant. */
  lemma ZuluIsUtcOffset(t: string, fromIso: string -> Option<int>)
    ensures ParseIsoDt(Some(t + "Z"), fromIso) == fromIso(t + "+00:00")
    ensures ParseIsoDt(Some(t + "Z"), fromIso) == ParseIsoDt(Some(t + "+00:00"), fromIso)
  {
    var v := t + "Z";
    assert v[..|v| - 1] == t;
  }

  /** `hours_between`: None when either end is missing, otherwise the signed
      elapsed time in hours (an exact rational here, a float in Python). */
  function HoursBetween(start: Option<int>, end: Option<int>): (r: Option<real>)
    ensures r.Some? <==> start.Some? && end.Some?
    ensures r.Some? ==> r.value * 3600.0 == (end.value - start.value) as real
  {
    if start.None? || end.None? then None
    else Some((end.value - start.value) as real / 3600.0)
  }

  /** `now.replace(minute=0, second=0, microsecond=0)`: the start of the hour holding `t`. */
  function HourStart(t: int): (h: int)
    ensures h % SecondsPerHour == 0
    ensures h <= t < h + SecondsPerHour
  {
    t - t % SecondsPerHour
  }

  /** The hour bucket is the only hour boundary within the hour before `t`. */
  lemma HourStartUnique(t: int, h: int)
    requires h % SecondsPerHour == 0 && h <= t < h + SecondsPerHour
    ensures h == HourStart(t)
  {
  }
}
