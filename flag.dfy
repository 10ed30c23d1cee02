/**
 * `getFlagEmoji`: upper-case a country code, then replace every character matched
 * by `/./g` with the code point 127397 higher. For a two-letter ISO 3166-1 alpha-2
 * code this gives the pair of Regional Indicator Symbols (U+1F1E6..U+1F1FF) that an
 * emoji renderer shows as that country's flag (definition ED-14 and Annex B of
 * Unicode Technical Standard #51). The function appears twice, once per handler,
 * differing only in how `codePointAt` is called.
 */
module Flag {
  import opened JsText

  /** 127397 == 0x1F1E6 - 'A': the distance from an ASCII capital to its regional indicator. */
  const RegionalIndicatorOffset: int := 127397
  const RegionalIndicatorA: int := 0x1F1E6
  const RegionalIndicatorZ: int := 0x1F1FF

  predicate IsRegionalIndicator(c: char) {
    RegionalIndicatorA <= c as int <= RegionalIndicatorZ
  }

  /** The callback `(char) => String.fromCodePoint(127397 + char.codePointAt(arg))`. */
  function ShiftChar(c: char, arg: PositionArg): (r: char)
    requires c as int < 128
    ensures r as int == c as int + RegionalIndicatorOffset
  {
    var cp := CodePointAt([c], arg);
    (RegionalIndicatorOffset + cp.value) as char
  }

  /**
   * `s.replace(/./g, callback)`: every character but a line terminator goes
   * through the callback; line terminators are not matched and stay as they are.
   */
  function ReplaceEachMatched(s: string, arg: PositionArg): (r: string)
    requires IsAscii(s)
    ensures |r| == |s|
    ensures forall i :: 0 <= i < |s| && !IsLineTerminator(s[i]) ==>
      r[i] as int == s[i] as int + RegionalIndicatorOffset
    ensures forall i :: 0 <= i < |s| && IsLineTerminator(s[i]) ==> r[i] == s[i]
  {
    if s == [] then []
    else
      var head := if IsLineTerminator(s[0]) then s[0] else ShiftChar(s[0], arg);
      [head] + ReplaceEachMatched(s[1..], arg)
  }

  /** `getFlagEmoji`, with the way its callback calls `codePointAt` as a parameter. */
  function FlagEmoji(countryCode: string, arg: PositionArg): (r: string)
    requires IsAscii(countryCode)
    ensures |r| == |countryCode|
    ensures forall i :: 0 <= i < |countryCode| && !IsLineTerminator(countryCode[i]) ==>
      r[i] as int == UpperChar(countryCode[i]) as int + RegionalIndicatorOffset
    ensures forall i :: 0 <= i < |countryCode| && IsLineTerminator(countryCode[i]) ==>
      r[i] == countryCode[i]
  {
    ReplaceEachMatched(ToUpper(countryCode), arg)
  }

  /** The copy in geolocation/main.js: `char.codePointAt(undefined)`. */
  function GeolocationFlagEmoji(countryCode: string): (r: string)
    requires IsAscii(countryCode)
    ensures |r| == |countryCode|
    ensures forall i :: 0 <= i < |countryCode| && !IsLineTerminator(countryCode[i]) ==>
      r[i] as int == UpperChar(countryCode[i]) as int + RegionalIndicatorOffset
    ensures forall i :: 0 <= i < |countryCode| && IsLineTerminator(countryCode[i]) ==>
      r[i] == countryCode[i]
  {
    FlagEmoji(countryCode, Undefined)
  }

  /** The copy in location.js: `char.codePointAt()`. */
  function LocationFlagEmoji(countryCode: string): (r: string)
    requires IsAscii(countryCode)
    ensures |r| == |countryCode|
    ensures forall i :: 0 <= i < |countryCode| && !IsLineTerminator(countryCode[i]) ==>
      r[i] as int == UpperChar(countryCode[i]) as int + RegionalIndicatorOffset
    ensures forall i :: 0 <= i < |countryCode| && IsLineTerminator(countryCode[i]) ==>
      r[i] == countryCode[i]
  {
    FlagEmoji(countryCode, Omitted)
  }

  /** Both copies compute the same string for every input. */
  lemma CopiesAgree(countryCode: string)
    requires IsAscii(countryCode)
    ensures GeolocationFlagEmoji(countryCode) == LocationFlagEmoji(countryCode)
  {
    var g, l := GeolocationFlagEmoji(countryCode), LocationFlagEmoji(countryCode);
    forall i | 0 <= i < |countryCode| ensures g[i] == l[i] {
      if !IsLineTerminator(countryCode[i]) {
        assert g[i] as int == l[i] as int;
      }
    }
  }

  /** The transform ignores case: upper-casing the input first changes nothing. */
  lemma FlagIgnoresCase(countryCode: string, arg: PositionArg)
    requires IsAscii(countryCode)
    ensures FlagEmoji(countryCode, arg) == FlagEmoji(ToUpper(countryCode), arg)
  {
    ToUpperIdempotent(countryCode);
  }

  /** Inverse of one shifted character; characters that no shift produces are kept. */
  function UnshiftChar(c: char): (r: char)
  {
    if RegionalIndicatorOffset <= c as int < RegionalIndicatorOffset + 128
    then (c as int - RegionalIndicatorOffset) as char
    else c
  }

  /** Reads the upper-cased country code back out of a flag string. */
  function Unflag(flag: string): string
  {
    seq(|flag|, i requires 0 <= i < |flag| => UnshiftChar(flag[i]))
  }

  /** Unshifting undoes the callback's shift of any ASCII character. */
  lemma UnshiftShiftChar(c: char, arg: PositionArg)
    requires c as int < 128
    ensures UnshiftChar(ShiftChar(c, arg)) == c
  {
  }

  /** Decoding a flag gives back the upper-cased input, line terminators included. */
  lemma UnflagFlagEmoji(countryCode: string, arg: PositionArg)
    requires IsAscii(countryCode)
    ensures Unflag(FlagEmoji(countryCode, arg)) == ToUpper(countryCode)
  {
    var f, u := FlagEmoji(countryCode, arg), ToUpper(countryCode);
    forall i | 0 <= i < |countryCode| ensures Unflag(f)[i] == u[i] {
      if !IsLineTerminator(countryCode[i]) {
        assert (f[i] as int - RegionalIndicatorOffset) as char == u[i];
      }
    }
  }

  /** Two codes give the same flag exactly when they agree up to case. */
  lemma FlagEmojiEqualIff(s: string, t: string, arg: PositionArg)
    requires IsAscii(s) && IsAscii(t)
    ensures FlagEmoji(s, arg) == FlagEmoji(t, arg) <==> ToUpper(s) == ToUpper(t)
  {
    UnflagFlagEmoji(s, arg);
    UnflagFlagEmoji(t, arg);
    if ToUpper(s) == ToUpper(t) {
      assert FlagEmoji(s, arg) == ReplaceEachMatched(ToUpper(t), arg);
    }
  }

  /**
   * The output is made of regional indicators exactly when the input is made of ASCII
   * letters, in either case; each letter maps to the indicator of its capital.
   */
  lemma FlagEmojiRegionalIndicatorsIff(countryCode: string, arg: PositionArg)
    requires IsAscii(countryCode)
    ensures (forall i :: 0 <= i < |countryCode| ==> IsRegionalIndicator(FlagEmoji(countryCode, arg)[i]))
        <==> (forall i :: 0 <= i < |countryCode| ==> IsAsciiLetter(countryCode[i]))
  {
    var f := FlagEmoji(countryCode, arg);
    forall i | 0 <= i < |countryCode|
      ensures IsRegionalIndicator(f[i]) <==> IsAsciiLetter(countryCode[i])
    {
      var c := countryCode[i];
      if IsLineTerminator(c) {
        assert f[i] == c;
      } else {
        var u := UpperChar(c);
        assert f[i] as int == u as int + RegionalIndicatorOffset;
        assert IsAsciiLetter(u) <==> IsUpperAscii(u);
      }
    }
  }

  /**
   * A two-letter country code gives exactly two regional indicators: 'A' (or 'a') maps
   * to U+1F1E6 and 'Z' (or 'z') to U+1F1FF.
   */
  lemma TwoLetterCodeGivesFlag(countryCode: string, arg: PositionArg)
    requires |countryCode| == 2 && IsAsciiLetter(countryCode[0]) && IsAsciiLetter(countryCode[1])
    ensures |FlagEmoji(countryCode, arg)| == 2
    ensures IsRegionalIndicator(FlagEmoji(countryCode, arg)[0])
    ensures IsRegionalIndicator(FlagEmoji(countryCode, arg)[1])
    ensures FlagEmoji(countryCode, arg)[0] as int - RegionalIndicatorA
         == UpperChar(countryCode[0]) as int - 'A' as int
    ensures FlagEmoji(countryCode, arg)[1] as int - RegionalIndicatorA
         == UpperChar(countryCode[1]) as int - 'A' as int
  {
    FlagEmojiRegionalIndicatorsIff(countryCode, arg);
  }

  /** Example: "FR" and "fr" give U+1F1EB U+1F1F7, the flag of France. */
  lemma FranceFlag()
    ensures GeolocationFlagEmoji("FR") == "\U{1F1EB}\U{1F1F7}"
    ensures LocationFlagEmoji("fr") == "\U{1F1EB}\U{1F1F7}"
  {
    var g, l := GeolocationFlagEmoji("FR"), LocationFlagEmoji("fr");
    assert !IsLineTerminator("FR"[0]) && !IsLineTerminator("FR"[1]);
    assert !IsLineTerminator("fr"[0]) && !IsLineTerminator("fr"[1]);
    assert g[0] as int == 0x1F1EB && g[1] as int == 0x1F1F7;
    assert l[0] as int == 0x1F1EB && l[1] as int == 0x1F1F7;
  }

  /** The ends of the range: 'A' maps to U+1F1E6 and 'Z' to U+1F1FF. */
  lemma FirstAndLastLetter()
    ensures GeolocationFlagEmoji("AZ") == "\U{1F1E6}\U{1F1FF}"
  {
    var g := GeolocationFlagEmoji("AZ");
    assert !IsLineTerminator("AZ"[0]) && !IsLineTerminator("AZ"[1]);
    assert g[0] as int == RegionalIndicatorA && g[1] as int == RegionalIndicatorZ;
  }
}
