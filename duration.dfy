/** The duration label the course pages and the player share: `--:--` for a
    missing or zero duration, otherwise `h:mm:ss` when there is at least one
    hour and `m:ss` below that. Durations are whole seconds. */
module Duration {
  import opened Types
  import Text

  const Placeholder: string := "--:--"

  function Hours(n: nat): nat { n / 3600 }
  function Minutes(n: nat): nat { (n % 3600) / 60 }
  function Seconds(n: nat): nat { n % 60 }

  /** A remainder by 60 is fixed by any decomposition with a digit below 60. */
  lemma {:induction false} ModSixty(n: nat, k: nat, s: nat)
    requires n == 60 * k + s && s < 60
    ensures n % 60 == s && n / 60 == k
  {
  }

  /** The three fields rebuild the duration, and the two lower ones stay below 60. */
  lemma {:induction false} Decomposition(n: nat)
    ensures Hours(n) * 3600 + Minutes(n) * 60 + Seconds(n) == n
    ensures Minutes(n) < 60 && Seconds(n) < 60
  {
    var h, r := n / 3600, n % 3600;
    assert n == 3600 * h + r && r < 3600;
    var m, s := r / 60, r % 60;
    assert r == 60 * m + s && s < 60;
    ModSixty(n, 60 * h + m, s);
  }

  /** The label for an optional duration; the placeholder appears exactly
      for a missing or zero duration, and every other label starts with a digit. */
  function FormatDuration(seconds: Option<nat>): (r: string)
    ensures r == Placeholder <==> seconds.None? || seconds.value == 0
    ensures seconds.Some? && seconds.value > 0 ==> |r| > 0 && Text.IsDigit(r[0])
  {
    if seconds.None? || seconds.value == 0 then Placeholder
    else
      var n := seconds.value;
      var hours := Hours(n);
      var minutes := Minutes(n);
      var secs := Seconds(n);
      var first := if hours > 0 then Text.DecimalString(hours) else Text.DecimalString(minutes);
      var r :=
        if hours > 0 then
          Text.DecimalString(hours) + ":" + Text.Pad2(Text.DecimalString(minutes)) + ":" + Text.Pad2(Text.DecimalString(secs))
        else
          Text.DecimalString(minutes) + ":" + Text.Pad2(Text.DecimalString(secs));
      assert r[0] == first[0] && Text.IsDigit(first[0]);
      assert !Text.IsDigit(Placeholder[0]);
      r
  }

  /** Reads a label back: two or three ':'-separated decimal fields, the last
      two of them exactly two digits wide. */
  function ParseDuration(r: string): Option<nat>
  {
    var parts := Text.Split(r, ':');
    if |parts| == 3 && Text.AllDigits(parts[0]) && parts[0] != "" && Text.AllDigits(parts[1]) && |parts[1]| == 2 &&
       Text.AllDigits(parts[2]) && |parts[2]| == 2 then
      Some(Text.ParseDecimal(parts[0]) * 3600 + Text.ParseDecimal(parts[1]) * 60 + Text.ParseDecimal(parts[2]))
    else if |parts| == 2 && Text.AllDigits(parts[0]) && parts[0] != "" && Text.AllDigits(parts[1]) && |parts[1]| == 2 then
      Some(Text.ParseDecimal(parts[0]) * 60 + Text.ParseDecimal(parts[1]))
    else None
  }

  lemma {:induction false} DigitsHaveNoColon(s: string)
    requires Text.AllDigits(s)
    ensures ':' !in s
  {
    forall i | 0 <= i < |s|
      ensures s[i] != ':'
    {
      assert Text.IsDigit(s[i]);
    }
  }

  /** The fields of the label for a positive duration: hours, then minutes
      and seconds padded to two digits; or, below an hour, unpadded minutes
      and padded seconds. */
  lemma {:induction false} FormatFields(n: nat)
    requires n > 0
    ensures var parts := Text.Split(FormatDuration(Some(n)), ':');
      && (Hours(n) > 0 ==> parts == [Text.DecimalString(Hours(n)), Text.Pad2(Text.DecimalString(Minutes(n))),
                                     Text.Pad2(Text.DecimalString(Seconds(n)))])
      && (Hours(n) == 0 ==> parts == [Text.DecimalString(Minutes(n)), Text.Pad2(Text.DecimalString(Seconds(n)))])
  {
    Decomposition(n);
    var h := Text.DecimalString(Hours(n));
    var m := Text.Pad2(Text.DecimalString(Minutes(n)));
    var m0 := Text.DecimalString(Minutes(n));
    var s := Text.Pad2(Text.DecimalString(Seconds(n)));
    Text.PaddedValue(Minutes(n));
    Text.PaddedValue(Seconds(n));
    DigitsHaveNoColon(h);
    DigitsHaveNoColon(m);
    DigitsHaveNoColon(m0);
    DigitsHaveNoColon(s);
    if Hours(n) > 0 {
      Text.JoinCons(m, [s], ':');
      Text.JoinCons(h, [m, s], ':');
      assert [h] + [m, s] == [h, m, s];
      assert Text.Join([h, m, s], ':') == FormatDuration(Some(n));
      Text.SplitJoin([h, m, s], ':');
    } else {
      Text.JoinCons(m0, [s], ':');
      assert [m0] + [s] == [m0, s];
      assert Text.Join([m0, s], ':') == FormatDuration(Some(n));
      Text.SplitJoin([m0, s], ':');
    }
  }

  /** Three well-formed fields read back as hours, minutes and seconds. */
  lemma {:induction false} ParseThreeFields(r: string, h: string, m: string, s: string)
    requires Text.Split(r, ':') == [h, m, s]
    requires Text.AllDigits(h) && h != "" && Text.AllDigits(m) && |m| == 2 && Text.AllDigits(s) && |s| == 2
    ensures ParseDuration(r) == Some(Text.ParseDecimal(h) * 3600 + Text.ParseDecimal(m) * 60 + Text.ParseDecimal(s))
  {
  }

  /** Two well-formed fields read back as minutes and seconds. */
  lemma {:induction false} ParseTwoFields(r: string, m: string, s: string)
    requires Text.Split(r, ':') == [m, s]
    requires Text.AllDigits(m) && m != "" && Text.AllDigits(s) && |s| == 2
    ensures ParseDuration(r) == Some(Text.ParseDecimal(m) * 60 + Text.ParseDecimal(s))
  {
  }

  /** The label of a positive duration reads back as that duration. */
  lemma {:induction false} FormatParse(n: nat)
    requires n > 0
    ensures ParseDuration(FormatDuration(Some(n))) == Some(n)
  {
    FormatFields(n);
    Decomposition(n);
    var shown := FormatDuration(Some(n));
    var m := Text.Pad2(Text.DecimalString(Minutes(n)));
    var s := Text.Pad2(Text.DecimalString(Seconds(n)));
    Text.PaddedValue(Minutes(n));
    Text.PaddedValue(Seconds(n));
    if Hours(n) > 0 {
      var h := Text.DecimalString(Hours(n));
      ParseThreeFields(shown, h, m, s);
    } else {
      var m0 := Text.DecimalString(Minutes(n));
      ParseTwoFields(shown, m0, s);
    }
  }
}
