/** Serial numbers: how the back end and the warranty page normalise what
    was typed (`trim()` then `toUpperCase()`) and the `^[A-Z0-9]+$` format a
    stored serial must have. */
module Serials {
  import opened Text

  /** `s.trim().toUpperCase()`. */
  function Normalise(s: string): string
  {
    Upper(Trim(s))
  }

  /** A normalised serial has no white space at its ends and no lower-case
      ASCII letter. */
  lemma NormaliseSpec(s: string)
    ensures IsTrimmed(Normalise(s))
    ensures forall k :: 0 <= k < |Normalise(s)| ==> !IsLowerAscii(Normalise(s)[k])
  {
    TrimIsTrimmed(s);
    UpperKeepsTrimmed(Trim(s));
  }

  predicate IsSerialChar(c: char)
  {
    IsUpperAscii(c) || IsDigit(c)
  }

  /** The test `/^[A-Z0-9]+$/.test(s)`. */
  predicate IsValid(s: string)
  {
    |s| > 0 && forall k :: 0 <= k < |s| ==> IsSerialChar(s[k])
  }

  /** Normalising an already normalised serial changes nothing. */
  lemma NormaliseIdempotent(s: string)
    ensures Normalise(Normalise(s)) == Normalise(s)
  {
    var n := Normalise(s);
    NormaliseSpec(s);
    TrimOfTrimmed(n);
  }

  /** A valid serial is in normal form, so a serial the back end accepts is
      stored exactly as it was after normalisation. */
  lemma ValidIsNormal(s: string)
    requires IsValid(s)
    ensures Normalise(s) == s
  {
    assert IsTrimmed(s);
    TrimOfTrimmed(s);
  }

  /** "wh1001" is accepted as "WH1001". */
  lemma AcceptedExample()
    ensures Normalise("wh1001") == "WH1001" && IsValid("WH1001")
  {
    TrimOfTrimmed("wh1001");
    assert Upper("wh1001") == "WH1001";
  }

  /** "wh-1001" is refused: the dash survives normalisation. */
  lemma RefusedExample()
    ensures !IsValid(Normalise("wh-1001"))
  {
    TrimOfTrimmed("wh-1001");
    assert Normalise("wh-1001")[2] == '-';
  }
}
