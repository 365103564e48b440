/** Display helpers of the weather app: capitalising a description, building
    a condition icon's URL, and choosing a background colour from a
    description. Case mapping is ASCII's. */
module WeatherHelpers {
  import opened JsValues

  /** `toUpperCase` of one character: 'a'..'z' map to 'A'..'Z'. */
  function UpperChar(c: char): (u: char)
    ensures 'a' <= c <= 'z' ==> 'A' <= u <= 'Z' && u as int - c as int == 'A' as int - 'a' as int
    ensures !('a' <= c <= 'z') ==> u == c
  {
    if 'a' <= c <= 'z' then (c as int - 'a' as int + 'A' as int) as char else c
  }

  /** `toLowerCase` of one character: 'A'..'Z' map to 'a'..'z'. */
  function LowerChar(c: char): (l: char)
    ensures 'A' <= c <= 'Z' ==> 'a' <= l <= 'z' && l as int - c as int == 'a' as int - 'A' as int
    ensures !('A' <= c <= 'Z') ==> l == c
  {
    if 'A' <= c <= 'Z' then (c as int - 'A' as int + 'a' as int) as char else c
  }

  /** `s.toUpperCase()`. */
  function Upper(s: string): (u: string)
    ensures |u| == |s| && forall i :: 0 <= i < |s| ==> u[i] == UpperChar(s[i])
  {
    seq(|s|, i requires 0 <= i < |s| => UpperChar(s[i]))
  }

  /** `s.toLowerCase()`. */
  function Lower(s: string): (l: string)
    ensures |l| == |s| && forall i :: 0 <= i < |s| ==> l[i] == LowerChar(s[i])
  {
    seq(|s|, i requires 0 <= i < |s| => LowerChar(s[i]))
  }

  /** capitalize: "" for a missing or empty string; otherwise the string
      with its first character upper-cased and the rest as it was. */
  function Capitalize(str: Option<string>): (r: string)
    ensures str == None || str == Some("") ==> r == ""
    ensures str != None && str != Some("") ==>
              |r| == |str.value| && r[0] == UpperChar(str.value[0]) && r[1..] == str.value[1..]
  {
    if str.None? || str.value == "" then ""
    else [UpperChar(str.value[0])] + str.value[1..]
  }

  /** Capitalising twice is capitalising once, and a capitalised string
      never starts with a lower-case ASCII letter. */
  lemma CapitalizeIdempotent(str: Option<string>)
    ensures Capitalize(Some(Capitalize(str))) == Capitalize(str)
    ensures Capitalize(str) != "" ==> !('a' <= Capitalize(str)[0] <= 'z')
  {
  }

  /** Where the condition icons are served from. */
  const IconBase: string := "https://openweathermap.org/img/wn/"
  /** The icon size used when none is given. */
  const DefaultIconSize: string := "4x"

  /** The clear-night icon is shown as the clear-day icon. */
  function DayIconName(icon: string): (d: string)
    ensures d != "01n"
    ensures icon != "01n" ==> d == icon
    ensures icon == "01n" ==> d == "01d"
  {
    if icon == "01n" then "01d" else icon
  }

  /** getIconUrl: null for a missing or empty icon name; otherwise the URL of
      the icon (night-clear swapped for day-clear) at the given size, "4x"
      when the size is left out. */
  function IconUrl(icon: Option<string>, size: Option<string>): (r: Option<string>)
    ensures r.None? <==> icon == None || icon == Some("")
    ensures r.Some? ==>
              var sz := if size.Some? then size.value else DefaultIconSize;
              var name := DayIconName(icon.value);
              && |r.value| == |IconBase| + |name| + 1 + |sz| + 4
              && r.value[..|IconBase|] == IconBase
              && r.value[|IconBase|..|IconBase| + |name|] == name
              && r.value[|IconBase| + |name|..] == "@" + sz + ".png"
  {
    if icon.None? || icon.value == "" then None
    else
      var name := DayIconName(icon.value);
      var sz := if size.Some? then size.value else DefaultIconSize;
      var url := IconBase + name + "@" + sz + ".png";
      assert url == IconBase + name + ("@" + sz + ".png");
      Some(url)
  }

  /** At one size, two icon names give the same URL exactly when they show
      the same picture: the URL identifies the icon up to the night-clear
      swap. */
  lemma IconUrlIdentifiesIcon(a: string, b: string, size: Option<string>)
    requires a != "" && b != ""
    ensures IconUrl(Some(a), size) == IconUrl(Some(b), size) <==> DayIconName(a) == DayIconName(b)
  {
    var ua, ub := IconUrl(Some(a), size).value, IconUrl(Some(b), size).value;
    var na, nb := DayIconName(a), DayIconName(b);
    if ua == ub {
      assert |na| == |nb|;
      assert na == ua[|IconBase|..|IconBase| + |na|] == ub[|IconBase|..|IconBase| + |nb|] == nb;
    }
  }

  /** `pat` occurs in `s` starting at index `i`. */
  predicate OccursAt(s: string, pat: string, i: nat) {
    i + |pat| <= |s| && s[i..i + |pat|] == pat
  }

  /** `s.includes(pat)`. */
  function Includes(s: string, pat: string): (r: bool)
    decreases |s|
    ensures r <==> exists i: nat :: OccursAt(s, pat, i)
  {
    if |s| < |pat| then
      assert forall i: nat :: !OccursAt(s, pat, i);
      false
    else if s[..|pat|] == pat then
      assert OccursAt(s, pat, 0);
      true
    else if s == [] then
      false
    else
      var r := Includes(s[1..], pat);
      assert forall i: nat :: OccursAt(s[1..], pat, i) <==> OccursAt(s, pat, i + 1) by {
        forall i: nat ensures OccursAt(s[1..], pat, i) <==> OccursAt(s, pat, i + 1) {
          if i + |pat| <= |s[1..]| {
            assert s[1..][i..i + |pat|] == s[i + 1..i + 1 + |pat|];
          }
        }
      }
      assert !OccursAt(s, pat, 0);
      assert (exists i: nat :: OccursAt(s, pat, i)) ==> exists i: nat :: OccursAt(s[1..], pat, i) by {
        if i: nat :| OccursAt(s, pat, i) {
          assert i != 0 && OccursAt(s[1..], pat, i - 1);
        }
      }
      r
  }

  const CloudyColor: string := "#dfe6ed"
  const RainyColor: string := "#a5c8ff"
  const ClearColor: string := "#fef5b8"
  const DefaultColor: string := "#f0f4f8"

  /** getBackgroundColor: the first of "cloud", "rain", "clear" that the
      lower-cased description contains picks the colour; none picks the
      default. A missing description counts as "". */
  function BackgroundColor(description: Option<string>): (r: string)
    ensures var d := Lower(if description.Some? then description.value else "");
            && (r == CloudyColor <==> Includes(d, "cloud"))
            && (r == RainyColor <==> !Includes(d, "cloud") && Includes(d, "rain"))
            && (r == ClearColor <==> !Includes(d, "cloud") && !Includes(d, "rain") && Includes(d, "clear"))
            && (r == DefaultColor <==> !Includes(d, "cloud") && !Includes(d, "rain") && !Includes(d, "clear"))
  {
    var desc := Lower(if description.Some? then description.value else "");
    if Includes(desc, "cloud") then CloudyColor
    else if Includes(desc, "rain") then RainyColor
    else if Includes(desc, "clear") then ClearColor
    else DefaultColor
  }

  /** The colour does not depend on letter case: an upper-cased description,
      or any description with the same lower-case form, gets the same colour. */
  lemma BackgroundColorIgnoresCase(a: string, b: string)
    ensures Lower(a) == Lower(b) ==> BackgroundColor(Some(a)) == BackgroundColor(Some(b))
    ensures BackgroundColor(Some(Upper(a))) == BackgroundColor(Some(a))
  {
    assert Lower(Upper(a)) == Lower(a);
  }

  /** A description mentioning clouds is cloudy whatever else it says. */
  lemma CloudWins(pre: string, post: string)
    ensures BackgroundColor(Some(pre + "cloud" + post)) == CloudyColor
  {
    var s := pre + "cloud" + post;
    assert OccursAt(Lower(s), "cloud", |pre|) by {
      assert s[|pre|..|pre| + 5] == "cloud";
    }
  }
}
