/**
 * The stat counters (animateCounters): each .stat-number text is read with
 * parseInt, its suffix is the text without its digits, and the animation
 * pins the text to the end value followed by that suffix.
 */
module Counters {
  import opened Wrappers
  import opened JsText

  /** The number of interval ticks the animation is spread over. */
  const Steps := 50

  /** The text a counter shows once its animation has pinned; a text without a leading integer is never animated. */
  function PinnedText(text: string): (r: string)
    ensures ParseInt(text) == None ==> r == text
  {
    match ParseInt(text)
    case None => text
    case Some(endValue) => IntToString(endValue) + StripDigits(text)
  }

  /** The value of `current` after the given number of ticks, each adding endValue / 50. */
  function Accumulated(ticks: nat, endValue: int): real {
    ticks as real * (endValue as real / Steps as real)
  }

  /**
   * Within the first 50 ticks the sum reaches the end value on the first tick
   * for an end value of 0 or below and on the fiftieth tick otherwise.
   */
  lemma ReachedAt(ticks: nat, endValue: int)
    requires 1 <= ticks <= Steps
    ensures Accumulated(ticks, endValue) >= endValue as real <==> endValue <= 0 || ticks == Steps
  {
    var e := endValue as real;
    var k := ticks as real;
    assert Accumulated(ticks, endValue) - e == e * (k - 50.0) / 50.0;
    if endValue > 0 && ticks < Steps {
      assert e * (k - 50.0) < 0.0;
    }
  }

  /**
   * The setInterval callback run until it clears itself: every tick adds
   * endValue / 50 and shows the floor of the sum followed by the suffix,
   * until the sum reaches endValue and the text is pinned to endValue + suffix.
   */
  method RunInterval(endValue: int, suffix: string) returns (shown: string, ticks: nat)
    ensures shown == IntToString(endValue) + suffix
    ensures ticks == if endValue <= 0 then 1 else Steps
  {
    shown := "";
    ticks := 0;
    var increment := endValue as real / Steps as real;
    var current := 0.0;
    var done := false;
    while !done
      invariant ticks <= Steps
      invariant current == Accumulated(ticks, endValue)
      invariant !done ==> ticks < Steps && (ticks > 0 ==> endValue > 0)
      invariant done ==> shown == IntToString(endValue) + suffix && ticks == (if endValue <= 0 then 1 else Steps)
      decreases Steps - ticks, !done
    {
      assert Accumulated(ticks + 1, endValue) == current + increment;
      current := current + increment;
      ticks := ticks + 1;
      ReachedAt(ticks, endValue);
      if current >= endValue as real {
        shown := IntToString(endValue) + suffix;
        done := true;
      } else {
        shown := IntToString(current.Floor) + suffix;
      }
    }
  }

  /** One counter: a text without a leading integer is left alone, any other ends pinned. */
  method AnimateCounter(text: string) returns (shown: string, ticks: nat)
    ensures ParseInt(text) == None ==> shown == text && ticks == 0
    ensures ParseInt(text).Some? ==>
              shown == PinnedText(text) && ticks == (if ParseInt(text).value <= 0 then 1 else Steps)
  {
    var parsed := ParseInt(text);
    if parsed == None {
      return text, 0;
    }
    shown, ticks := RunInterval(parsed.value, StripDigits(text));
  }

  /** A string of digits loses all of it to replace(/[0-9]/g, ''). */
  lemma {:induction false} StripDigitsOfDigits(d: string)
    requires forall k :: 0 <= k < |d| ==> IsDecimalDigit(d[k])
    ensures StripDigits(d) == []
  {
    if d != [] {
      StripDigitsOfDigits(d[1..]);
    }
  }

  /**
   * The pinned text reads back as the same end value, and its suffix is the
   * original suffix after whatever non-digits the number itself writes (a '-').
   * The exception is an end value of 0 whose suffix starts with x or X.
   */
  lemma {:induction false} PinnedTextRoundTrip(text: string)
    requires ParseInt(text).Some?
    requires ParseInt(text).value != 0 || StripDigits(text) == []
             || (StripDigits(text)[0] != 'x' && StripDigits(text)[0] != 'X')
    ensures ParseInt(PinnedText(text)) == ParseInt(text)
    ensures StripDigits(PinnedText(text)) == StripDigits(IntToString(ParseInt(text).value)) + StripDigits(text)
  {
    var endValue := ParseInt(text).value;
    var suffix := StripDigits(text);
    ParseIntOfIntToString(endValue, suffix);
    StripDigitsAppend(IntToString(endValue), suffix);
  }

  /** For an end value of 0 or more, pinning a pinned text changes nothing. */
  lemma {:induction false} PinningIsIdempotent(text: string)
    requires ParseInt(text).Some? && ParseInt(text).value >= 0
    requires ParseInt(text).value != 0 || StripDigits(text) == []
             || (StripDigits(text)[0] != 'x' && StripDigits(text)[0] != 'X')
    ensures PinnedText(PinnedText(text)) == PinnedText(text)
  {
    var endValue := ParseInt(text).value;
    var suffix := StripDigits(text);
    var pinned := PinnedText(text);
    assert pinned == NatToString(endValue) + suffix;
    PinnedTextRoundTrip(text);
    StripDigitsOfDigits(NatToString(endValue));
    assert StripDigits(pinned) == suffix;
    assert ParseInt(pinned) == Some(endValue);
  }

  /**
   * A text that starts with a number written without leading zeros keeps
   * that number and loses the digits of the rest.
   */
  lemma {:induction false} PinnedDecimalText(n: nat, rest: string)
    requires rest == [] || !IsDecimalDigit(rest[0])
    requires n != 0 || rest == [] || (rest[0] != 'x' && rest[0] != 'X')
    ensures PinnedText(NatToString(n) + rest) == NatToString(n) + StripDigits(rest)
  {
    var text := NatToString(n) + rest;
    assert IntToString(n) == NatToString(n);
    ParseIntOfIntToString(n, rest);
    assert ParseInt(text) == Some(n);
    StripDigitsAppend(NatToString(n), rest);
    StripDigitsOfDigits(NatToString(n));
    assert StripDigits(text) == StripDigits(rest);
  }

  /** "500+" pins as "500+". */
  lemma PinnedFiveHundredPlus()
    ensures PinnedText("500+") == "500+"
  {
    assert NatToString(5) == "5";
    assert NatToString(50) == "50";
    assert NatToString(500) == "500";
    PinnedDecimalText(500, "+");
    assert NatToString(500) + "+" == "500+";
  }

  /** "24/7" pins as "24/": the 7 is a digit, so it leaves the suffix. */
  lemma PinnedTwentyFourSeven()
    ensures PinnedText("24/7") == "24/"
  {
    assert NatToString(2) == "2";
    assert NatToString(24) == "24";
    assert StripDigits("7") == [];
    assert StripDigits("/7") == "/";
    PinnedDecimalText(24, "/7");
    assert NatToString(24) + "/7" == "24/7";
  }
}
