/** The java.lang.String and java.lang.Character behaviour the receipt
    service relies on. Dafny strings are sequences of Unicode scalar values;
    Java strings are sequences of UTF-16 code units. Every character that
    String.trim removes is below U+0021, so trimming is the same on both; the
    length differs for characters outside the Basic Multilingual Plane and is
    modelled explicitly. A Java string holding an unpaired surrogate has no
    Dafny counterpart and is outside the model. */
module JavaText {
  import opened Counting

  /** String.trim removes leading and trailing characters whose code is at
      most U+0020 (space and all control characters). */
  predicate IsTrimmable(c: char)
  {
    c <= ' '
  }

  /** Every character is trimmable, so trim() gives the empty string. */
  ghost predicate IsBlank(s: string)
  {
    forall k :: 0 <= k < |s| ==> IsTrimmable(s[k])
  }

  /** The first loop of String.trim: skip trimmable characters from `st`. */
  function TrimStart(s: string, st: nat): (i: nat)
    requires st <= |s|
    decreases |s| - st
    ensures st <= i <= |s|
    ensures forall k :: st <= k < i ==> IsTrimmable(s[k])
    ensures i < |s| ==> !IsTrimmable(s[i])
  {
    if st < |s| && IsTrimmable(s[st]) then TrimStart(s, st + 1) else st
  }

  /** The second loop of String.trim: drop trimmable characters from the end,
      never moving below `st`. */
  function TrimEnd(s: string, st: nat, len: nat): (j: nat)
    requires st <= len <= |s|
    ensures st <= j <= len
    ensures forall k :: j <= k < len ==> IsTrimmable(s[k])
    ensures j > st ==> !IsTrimmable(s[j - 1])
  {
    if st < len && IsTrimmable(s[len - 1]) then TrimEnd(s, st, len - 1) else len
  }

  /** String.trim. The result is the part of `s` between a blank prefix and a
      blank suffix, it is empty exactly when `s` is blank, and otherwise it
      starts and ends with a non-trimmable character. */
  function Trim(s: string): (t: string)
    ensures |t| <= |s|
    ensures |t| == 0 <==> IsBlank(s)
    ensures |t| > 0 ==> !IsTrimmable(t[0]) && !IsTrimmable(t[|t| - 1])
    ensures exists i :: 0 <= i <= |s| - |t| && t == s[i..i + |t|]
                        && IsBlank(s[..i]) && IsBlank(s[i + |t|..])
  {
    var st := TrimStart(s, 0);
    var len := TrimEnd(s, st, |s|);
    assert IsBlank(s[..st]);
    assert IsBlank(s[len..]);
    s[st..len]
  }

  /** A string that starts and ends with a visible character is its own
      trim. */
  lemma TrimKeepsTrimmed(s: string)
    requires |s| > 0 && !IsTrimmable(s[0]) && !IsTrimmable(s[|s| - 1])
    ensures Trim(s) == s
  {
    var t := Trim(s);
    assert !IsBlank(s);
    var i :| 0 <= i <= |s| - |t| && t == s[i..i + |t|] && IsBlank(s[..i]) && IsBlank(s[i + |t|..]);
    assert i == 0;
    assert i + |t| == |s|;
    assert t == s[0..|s|];
  }

  /** trim is idempotent. */
  lemma TrimIdempotent(s: string)
    ensures Trim(Trim(s)) == Trim(s)
  {
    var t := Trim(s);
    if |t| > 0 {
      TrimKeepsTrimmed(t);
    } else {
      assert IsBlank(t);
    }
  }

  /** The number of UTF-16 code units a character occupies. */
  function CodeUnits(c: char): nat
  {
    if c as int >= 0x1_0000 then 2 else 1
  }

  /** A character outside the Basic Multilingual Plane, which UTF-16 writes
      as a surrogate pair. */
  ghost predicate IsSupplementary(c: char)
  {
    c as int >= 0x1_0000
  }

  /** String.length(): the number of UTF-16 code units, that is one per
      character plus one more per supplementary character. */
  function JavaLength(s: string): (n: nat)
    ensures n == |s| + |Positions(s, IsSupplementary)|
    ensures |s| <= n <= 2 * |s|
    ensures (forall k :: 0 <= k < |s| ==> s[k] as int < 0x1_0000) ==> n == |s|
  {
    if |s| == 0 then
      PositionsEmpty(s, IsSupplementary);
      0
    else
      var front := s[..|s| - 1];
      assert s == front + [s[|s| - 1]];
      PositionsAppend(front, s[|s| - 1], IsSupplementary);
      JavaLength(front) + CodeUnits(s[|s| - 1])
  }

  /** The length Java reports for a trimmed string of plain (BMP) characters
      that needs no trimming is its number of characters. */
  lemma PlainTrimmedLength(s: string)
    requires |s| > 0 && !IsTrimmable(s[0]) && !IsTrimmable(s[|s| - 1])
    requires forall k :: 0 <= k < |s| ==> s[k] as int < 0x1_0000
    ensures JavaLength(Trim(s)) == |s|
  {
    TrimKeepsTrimmed(s);
  }

  /** An ASCII character is a letter or digit exactly when its code is in
      one of the three ranges 0x30-0x39, 0x41-0x5A and 0x61-0x7A. */
  ghost predicate IsAsciiAlphanumeric(c: char)
  {
    var n := c as int;
    (0x30 <= n < 0x3A) || (0x41 <= n < 0x5B) || (0x61 <= n < 0x7B)
  }

  /** Character.isLetterOrDigit, exact for U+0000 to U+00FF (ASCII digits and
      letters, and the Latin-1 letters ª µ º À-Ö Ø-ö ø-ÿ). Characters above
      U+00FF are classified as neither. */
  predicate IsLetterOrDigit(c: char)
    ensures IsLetterOrDigit(c) ==> !IsTrimmable(c) && c as int <= 0xFF
    ensures c as int < 0x80 ==> (IsLetterOrDigit(c) <==> IsAsciiAlphanumeric(c))
  {
    || ('0' <= c <= '9')
    || ('A' <= c <= 'Z')
    || ('a' <= c <= 'z')
    || c == 'ª' || c == 'µ' || c == 'º'
    || ('À' <= c <= 'Ö')
    || ('Ø' <= c <= 'ö')
    || ('ø' <= c <= 'ÿ')
  }

  /** The reference meaning of "the number of alphanumeric characters": how
      many positions hold a letter or digit, repeats included. */
  ghost function LetterOrDigitCount(s: string): nat
  {
    |Positions(s, IsLetterOrDigit)|
  }

  /** The count of a concatenation is the sum of the counts. */
  lemma {:induction false} LetterOrDigitCountConcat(a: string, b: string)
    ensures LetterOrDigitCount(a + b) == LetterOrDigitCount(a) + LetterOrDigitCount(b)
  {
    if |b| == 0 {
      assert a + b == a;
      PositionsEmpty(b, IsLetterOrDigit);
    } else {
      var front := b[..|b| - 1];
      var c := b[|b| - 1];
      assert b == front + [c];
      assert a + b == (a + front) + [c];
      LetterOrDigitCountConcat(a, front);
      PositionsAppend(a + front, c, IsLetterOrDigit);
      PositionsAppend(front, c, IsLetterOrDigit);
    }
  }

  /** A string of letters and digits only counts every character. */
  lemma {:induction false} AllLettersOrDigits(s: string)
    requires forall k :: 0 <= k < |s| ==> IsLetterOrDigit(s[k])
    ensures LetterOrDigitCount(s) == |s|
  {
    if |s| == 0 {
      PositionsEmpty(s, IsLetterOrDigit);
    } else {
      var front := s[..|s| - 1];
      assert s == front + [s[|s| - 1]];
      AllLettersOrDigits(front);
      PositionsAppend(front, s[|s| - 1], IsLetterOrDigit);
    }
  }

  /** A string with no letter or digit counts zero. */
  lemma {:induction false} NoLettersOrDigits(s: string)
    requires forall k :: 0 <= k < |s| ==> !IsLetterOrDigit(s[k])
    ensures LetterOrDigitCount(s) == 0
  {
    if |s| == 0 {
      PositionsEmpty(s, IsLetterOrDigit);
    } else {
      var front := s[..|s| - 1];
      assert s == front + [s[|s| - 1]];
      NoLettersOrDigits(front);
      PositionsAppend(front, s[|s| - 1], IsLetterOrDigit);
    }
  }
}
