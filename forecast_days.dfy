/** The five-day forecast: timestamped forecast entries grouped by UTC
    calendar day, the first (current) day skipped, at most five days kept,
    each summarised by its rounded average temperature and the icon of its
    first entry. */
module ForecastDays {
  import opened JsValues
  import Units

  const SecondsPerDay: int := 86400
  /** How many days the forecast shows at most. */
  const MaxDays: int := 5

  /** One forecast entry: its time in seconds since the epoch, its
      temperature, and `weather[0].icon` (None where any step of that chain
      is missing). */
  datatype Entry = Entry(dt: int, temp: real, icon: Option<string>)

  /** One day of the forecast: the day (days since the epoch, standing for
      the weekday label drawn from it), the temperature label and the icon. */
  datatype DaySummary = DaySummary(day: int, temp: string, icon: Option<string>)

  /** The UTC calendar day of a time. For years 0000 to 9999, two times
      share a "YYYY-MM-DD" key exactly when they fall in the same
      86400-second day. */
  function DayKey(dt: int): (k: int)
    ensures k * SecondsPerDay <= dt < (k + 1) * SecondsPerDay
  {
    dt / SecondsPerDay
  }

  /** Some entry of `list` falls on day `k`. */
  predicate HasDay(list: seq<Entry>, k: int) {
    exists i :: 0 <= i < |list| && DayKey(list[i].dt) == k
  }

  /** A day of a list is a day of the longer list, and the new entry adds its own. */
  lemma HasDayAppend(prefix: seq<Entry>, e: Entry, k: int)
    ensures HasDay(prefix + [e], k) <==> HasDay(prefix, k) || DayKey(e.dt) == k
  {
    var list := prefix + [e];
    if HasDay(list, k) && DayKey(e.dt) != k {
      var i :| 0 <= i < |list| && DayKey(list[i].dt) == k;
      assert i < |prefix| && prefix[i] == list[i];
    }
    if HasDay(prefix, k) {
      var i :| 0 <= i < |prefix| && DayKey(prefix[i].dt) == k;
      assert list[i] == prefix[i];
    }
    if DayKey(e.dt) == k {
      assert list[|prefix|] == e;
    }
  }

  /** The days of `list` without repetition, in the order in which each
      first appears: the keys of the `days` object, in insertion order. */
  function DayOrder(list: seq<Entry>): (keys: seq<int>)
    ensures forall a, b :: 0 <= a < b < |keys| ==> keys[a] != keys[b]
    ensures forall k :: k in keys <==> HasDay(list, k)
    ensures |keys| <= |list|
  {
    if list == [] then []
    else
      var prefix := list[..|list| - 1];
      var e := list[|list| - 1];
      assert list == prefix + [e];
      var keys := DayOrder(prefix);
      var k := DayKey(e.dt);
      assert forall x :: HasDay(list, x) <==> HasDay(prefix, x) || x == k by {
        forall x ensures HasDay(list, x) <==> HasDay(prefix, x) || x == k {
          HasDayAppend(prefix, e, x);
        }
      }
      if k in keys then keys else keys + [k]
  }

  /** `list.find(e => DayKey(e.dt) == k)`, as the index of the entry found:
      the first entry on day `k`, if any. */
  function FindDay(list: seq<Entry>, k: int): (r: Option<nat>)
    ensures r.Some? <==> HasDay(list, k)
    ensures r.Some? ==> r.value < |list| && DayKey(list[r.value].dt) == k
    ensures r.Some? ==> forall j :: 0 <= j < r.value ==> DayKey(list[j].dt) != k
  {
    if list == [] then None
    else if DayKey(list[0].dt) == k then Some(0)
    else
      match FindDay(list[1..], k)
      case None =>
        assert !HasDay(list, k) by {
          if i :| 0 <= i < |list| && DayKey(list[i].dt) == k {
            assert i > 0 && list[1..][i - 1] == list[i];
          }
        }
        None
      case Some(i) =>
        assert list[1..][i] == list[i + 1];
        assert forall j :: 1 <= j <= i ==> list[1..][j - 1] == list[j];
        Some(i + 1)
  }

  /** Appending an entry does not move the first entry of a day already
      present. */
  lemma FindDayAppendOld(prefix: seq<Entry>, e: Entry, k: int)
    requires HasDay(prefix, k)
    ensures FindDay(prefix + [e], k) == FindDay(prefix, k)
  {
    var list := prefix + [e];
    HasDayAppend(prefix, e, k);
    var i1 := FindDay(list, k).value;
    var i2 := FindDay(prefix, k).value;
    assert list[i2] == prefix[i2];
    assert i1 <= i2;
    assert list[i1] == prefix[i1];
    assert i2 <= i1;
  }

  /** Appending an entry on a new day makes it the first entry of that day. */
  lemma FindDayAppendNew(prefix: seq<Entry>, e: Entry)
    requires !HasDay(prefix, DayKey(e.dt))
    ensures FindDay(prefix + [e], DayKey(e.dt)) == Some(|prefix|)
  {
    var list := prefix + [e];
    var k := DayKey(e.dt);
    HasDayAppend(prefix, e, k);
    assert forall j :: 0 <= j < |prefix| ==> list[j] == prefix[j];
  }

  /** First-appearance order: of two days listed, the earlier one has the
      earlier first entry. */
  lemma {:induction false} DayOrderByFirstEntry(list: seq<Entry>, a: nat, b: nat)
    requires a < b < |DayOrder(list)|
    ensures FindDay(list, DayOrder(list)[a]).Some? && FindDay(list, DayOrder(list)[b]).Some?
    ensures FindDay(list, DayOrder(list)[a]).value < FindDay(list, DayOrder(list)[b]).value
  {
    var keys := DayOrder(list);
    var prefix := list[..|list| - 1];
    var e := list[|list| - 1];
    assert list == prefix + [e];
    var pkeys := DayOrder(prefix);
    assert keys[a] in keys && keys[b] in keys;
    if b < |pkeys| {
      assert keys[a] == pkeys[a] && keys[b] == pkeys[b];
      DayOrderByFirstEntry(prefix, a, b);
      assert pkeys[a] in pkeys && pkeys[b] in pkeys;
      FindDayAppendOld(prefix, e, pkeys[a]);
      FindDayAppendOld(prefix, e, pkeys[b]);
    } else {
      assert keys == pkeys + [DayKey(e.dt)] && keys[b] == DayKey(e.dt);
      assert keys[a] == pkeys[a] && pkeys[a] in pkeys;
      FindDayAppendOld(prefix, e, keys[a]);
      FindDayAppendNew(prefix, e);
    }
  }

  /** The first day listed is the day of the list's first entry. */
  lemma {:induction false} DayOrderStartsWithFirstEntry(list: seq<Entry>)
    requires list != []
    ensures |DayOrder(list)| > 0 && DayOrder(list)[0] == DayKey(list[0].dt)
  {
    if |list| > 1 {
      var prefix := list[..|list| - 1];
      assert prefix[0] == list[0];
      DayOrderStartsWithFirstEntry(prefix);
    }
  }

  /** The temperatures of the entries on day `k`, in list order: the `temps`
      array that the grouping pushes onto. */
  function TempsOn(list: seq<Entry>, k: int): (ts: seq<real>)
    ensures |ts| > 0 <==> HasDay(list, k)
    ensures |ts| <= |list|
  {
    if list == [] then []
    else
      var prefix := list[..|list| - 1];
      var e := list[|list| - 1];
      assert list == prefix + [e];
      HasDayAppend(prefix, e, k);
      var ts := TempsOn(prefix, k);
      if DayKey(e.dt) == k then ts + [e.temp] else ts
  }

  /** `temps.reduce((a, b) => a + b, 0)`, summing from the left. */
  function Sum(ts: seq<real>): real {
    if ts == [] then 0.0 else Sum(ts[..|ts| - 1]) + ts[|ts| - 1]
  }

  /** The mean of a non-empty list of temperatures. */
  function Average(ts: seq<real>): real
    requires |ts| > 0
  {
    Sum(ts) / |ts| as real
  }

  /** The sum lies between the list's length times its least and greatest element. */
  lemma {:induction false} SumBounds(ts: seq<real>, lo: real, hi: real)
    requires forall i :: 0 <= i < |ts| ==> lo <= ts[i] <= hi
    ensures |ts| as real * lo <= Sum(ts) <= |ts| as real * hi
  {
    if ts != [] {
      SumBounds(ts[..|ts| - 1], lo, hi);
    }
  }

  /** The average lies between the least and the greatest temperature. */
  lemma AverageBounds(ts: seq<real>, lo: real, hi: real)
    requires |ts| > 0
    requires forall i :: 0 <= i < |ts| ==> lo <= ts[i] <= hi
    ensures lo <= Average(ts) <= hi
  {
    SumBounds(ts, lo, hi);
    DivideBounds(Sum(ts), |ts| as real, lo, hi);
  }

  /** Dividing by a positive number keeps bounds given as multiples of it. */
  lemma DivideBounds(s: real, n: real, lo: real, hi: real)
    requires n > 0.0 && n * lo <= s <= n * hi
    ensures lo <= s / n <= hi
  {
  }

  /** The decimal digit `d` as a character. */
  function DigitChar(d: int): (c: char)
    requires 0 <= d < 10
    ensures '0' <= c <= '9'
    ensures c as int - '0' as int == d
  {
    ('0' as int + d) as char
  }

  /** The decimal numeral of a natural number, without leading zeros. */
  function NatToDecimal(n: nat): (s: string)
    ensures |s| >= 1 && (|s| > 1 ==> s[0] != '0')
    ensures forall i :: 0 <= i < |s| ==> '0' <= s[i] <= '9'
  {
    if n < 10 then [DigitChar(n)] else NatToDecimal(n / 10) + [DigitChar(n % 10)]
  }

  /** The number a string of decimal digits denotes. */
  function DecimalValue(s: string): nat
    requires forall i :: 0 <= i < |s| ==> '0' <= s[i] <= '9'
  {
    if s == [] then 0
    else DecimalValue(s[..|s| - 1]) * 10 + (s[|s| - 1] as int - '0' as int)
  }

  /** Reading a numeral back gives the number it was written from. */
  lemma {:induction false} DecimalRoundTrip(n: nat)
    ensures DecimalValue(NatToDecimal(n)) == n
  {
    if n >= 10 {
      var s := NatToDecimal(n);
      assert s[..|s| - 1] == NatToDecimal(n / 10);
      DecimalRoundTrip(n / 10);
    }
  }

  /** `String(n)` for an integer: an optional minus sign and its digits. */
  function IntToDecimal(n: int): (s: string)
    ensures |s| >= 1 && (s[0] == '-' <==> n < 0)
    ensures n < 0 ==> s[1..] == NatToDecimal(-n)
    ensures n >= 0 ==> s == NatToDecimal(n)
  {
    if n < 0 then "-" + NatToDecimal(-n) else NatToDecimal(n)
  }

  /** `${n}°C` for the metric unit, `${n}°F` for any other. */
  function TempLabel(n: int, unit: string): (s: string)
    ensures |s| >= 3 && s[..|s| - 2] == IntToDecimal(n) && s[|s| - 2] == '°'
    ensures s[|s| - 1] == 'C' <==> unit == "metric"
    ensures s[|s| - 1] == 'C' || s[|s| - 1] == 'F'
  {
    var num := IntToDecimal(n);
    var s := num + "°" + (if unit == "metric" then "C" else "F");
    assert s[..|s| - 2] == num;
    s
  }

  /** `entry?.weather?.[0]?.icon || null`: a missing or empty icon is null. */
  function DayIcon(e: Entry): (r: Option<string>)
    ensures r.Some? <==> e.icon.Some? && e.icon.value != ""
    ensures r.Some? ==> r == e.icon
  {
    if e.icon.Some? && e.icon.value != "" then e.icon else None
  }

  /** The icon shown for day `k`: that of the day's first entry. */
  function IconOf(list: seq<Entry>, k: int): Option<string> {
    match FindDay(list, k)
    case None => None
    case Some(i) => DayIcon(list[i])
  }

  function Min(a: int, b: int): int {
    if a <= b then a else b
  }

  /** `keys.slice(1, 6)`: the second to the sixth key, as many as exist. */
  function Window(keys: seq<int>): (w: seq<int>)
    ensures |w| == if |keys| <= 1 then 0 else Min(MaxDays, |keys| - 1)
    ensures forall j :: 0 <= j < |w| ==> w[j] == keys[j + 1]
  {
    if |keys| <= 1 then [] else keys[1..Min(MaxDays + 1, |keys|)]
  }

  /** The summary of day `k`, whose temperatures are `temps`. */
  function Summary(list: seq<Entry>, k: int, temps: seq<real>, unit: string): DaySummary
    requires |temps| > 0
  {
    DaySummary(k, TempLabel(Units.Round(Average(temps)), unit), IconOf(list, k))
  }

  /** The forecast of a non-empty entry list: every day but the first, in
      first-appearance order, at most five of them, each labelled with the
      rounded average of its temperatures and given its first entry's icon. */
  function Forecast(list: seq<Entry>, unit: string): (r: seq<DaySummary>)
    ensures var keys := DayOrder(list);
            |r| == if |keys| <= 1 then 0 else Min(MaxDays, |keys| - 1)
    ensures forall j :: 0 <= j < |r| ==> r[j].day == DayOrder(list)[j + 1]
    ensures list != [] ==> forall j :: 0 <= j < |r| ==> r[j].day != DayKey(list[0].dt)
    ensures forall j :: 0 <= j < |r| ==>
              FindDay(list, r[j].day).Some? && r[j].icon == DayIcon(list[FindDay(list, r[j].day).value])
    ensures forall j :: 0 <= j < |r| ==>
              |TempsOn(list, r[j].day)| > 0 &&
              r[j].temp == TempLabel(Units.Round(Average(TempsOn(list, r[j].day))), unit)
  {
    var keys := DayOrder(list);
    var w := Window(keys);
    assert forall j :: 0 <= j < |w| ==> w[j] in keys;
    assert list != [] ==> |keys| > 0 && keys[0] == DayKey(list[0].dt) by {
      if list != [] {
        DayOrderStartsWithFirstEntry(list);
      }
    }
    seq(|w|, j requires 0 <= j < |w| => Summary(list, w[j], TempsOn(list, w[j]), unit))
  }

  /** The first phase of groupForecastIntoDays: one pass over the entries
      that creates a day's `temps` array on its first entry and pushes every
      entry's temperature onto its day's array. */
  method CollectDays(entries: seq<Entry>) returns (keys: seq<int>, days: map<int, seq<real>>)
    ensures keys == DayOrder(entries)
    ensures forall k :: k in days <==> k in keys
    ensures forall k :: k in days ==> days[k] == TempsOn(entries, k)
  {
    keys, days := [], map[];
    for i := 0 to |entries|
      invariant keys == DayOrder(entries[..i])
      invariant forall k :: k in days <==> k in keys
      invariant forall k :: k in days ==> days[k] == TempsOn(entries[..i], k)
    {
      var e := entries[i];
      assert entries[..i + 1] == entries[..i] + [e];
      assert entries[..i + 1][..i] == entries[..i];
      var key := DayKey(e.dt);
      if key !in days {
        days := days[key := []];
        keys := keys + [key];
      }
      days := days[key := days[key] + [e.temp]];
    }
    assert entries[..|entries|] == entries;
  }

  /** groupForecastIntoDays: [] for a missing or empty list; otherwise the
      days gathered by the first phase, summarised by the second. */
  method GroupForecastIntoDays(list: Option<seq<Entry>>, unit: string) returns (result: seq<DaySummary>)
    ensures list.None? ==> result == []
    ensures list.Some? ==> result == Forecast(list.value, unit)
  {
    if list.None? || |list.value| == 0 {
      return [];
    }
    var entries := list.value;
    var keys, days := CollectDays(entries);
    var window := Window(keys);
    assert forall j :: 0 <= j < |window| ==> window[j] in keys;
    result := seq(|window|, j requires 0 <= j < |window| => Summary(entries, window[j], days[window[j]], unit));
  }

  /** The forecast never shows more than five days, and shows one day fewer
      than the list covers when the list covers six days or fewer. */
  lemma ForecastLength(list: seq<Entry>, unit: string)
    ensures |Forecast(list, unit)| <= MaxDays
    ensures |DayOrder(list)| <= MaxDays + 1 ==> |Forecast(list, unit)| == if list == [] then 0 else |DayOrder(list)| - 1
  {
  }

  /** Temperature labels carry the unit: "°C" exactly for "metric". */
  lemma ForecastUnits(list: seq<Entry>, unit: string, j: nat)
    requires j < |Forecast(list, unit)|
    ensures var t := Forecast(list, unit)[j].temp;
            |t| >= 2 && t[|t| - 2] == '°' && (t[|t| - 1] == 'C' <==> unit == "metric")
  {
  }
}
