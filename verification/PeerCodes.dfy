/** Peer-code and signal-target validation. */
module PeerCodes {
  import opened Wire
  import opened Filters
  import opened Utf8Text

  const MAX_PEER_CODE_BYTES := 16

  function NotHyphen(): char -> bool { c => c != '-' }

  function StripHyphens(s: string): string { Keep(NotHyphen(), s) }

  predicate IsAsciiAlphanumeric(c: char) {
    || '0' <= c <= '9'
    || 'A' <= c <= 'Z'
    || 'a' <= c <= 'z'
  }

  lemma {:induction false} Utf8LenOfAscii(s: string)
    ensures Utf8Len(s) >= |s|
    ensures (forall c :: c in s ==> IsAsciiAlphanumeric(c)) ==> Utf8Len(s) == |s|
  {
    if s != [] {
      Utf8LenOfAscii(s[..|s| - 1]);
      assert IsAsciiAlphanumeric(s[|s| - 1]) ==> Utf8Size(s[|s| - 1]) == 1;
      assert s[|s| - 1] in s;
      assert forall c :: c in s[..|s| - 1] ==> c in s;
    }
  }

  /** The code a client registers under. */
  function ValidatePeerCode(code: string): Result<string, CodeError> {
    var normalized := StripHyphens(code);
    if normalized == [] then Err(EmptyCode)
    else if Utf8Len(normalized) > MAX_PEER_CODE_BYTES then Err(CodeTooLong)
    else if !forall c :: c in normalized ==> IsAsciiAlphanumeric(c) then Err(CodeNotAlphanumeric)
    else Ok(normalized)
  }

  /** The code a relayed signal is addressed to. */
  function ValidateSignalTarget(to: string): Result<string, CodeError> {
    var normalized := StripHyphens(to);
    if |normalized| == 0 then Err(EmptyCode)
    else if Utf8Len(normalized) > MAX_PEER_CODE_BYTES then Err(CodeTooLong)
    else if exists c :: c in normalized && !IsAsciiAlphanumeric(c) then Err(CodeNotAlphanumeric)
    else Ok(normalized)
  }

  /** A code in normal form: between 1 and 16 ASCII letters and digits. */
  predicate IsNormal(code: string) {
    && 0 < |code| <= MAX_PEER_CODE_BYTES
    && forall c :: c in code ==> IsAsciiAlphanumeric(c)
  }

  /** `text` is `code` with hyphens inserted at some places. */
  ghost predicate IsSpelling(text: string, code: string) {
    if text == [] then code == []
    else if text[|text| - 1] == '-' then IsSpelling(text[..|text| - 1], code)
    else code != [] && code[|code| - 1] == text[|text| - 1]
         && IsSpelling(text[..|text| - 1], code[..|code| - 1])
  }

  lemma {:induction false} SpellingIsStripping(text: string, code: string)
    ensures IsSpelling(text, code) <==> StripHyphens(text) == code
  {
    if text != [] {
      var init := text[..|text| - 1];
      if text[|text| - 1] == '-' {
        SpellingIsStripping(init, code);
      } else if code != [] {
        SpellingIsStripping(init, code[..|code| - 1]);
        assert code == code[..|code| - 1] + [code[|code| - 1]];
        if StripHyphens(text) == code {
          assert StripHyphens(text)[..|code| - 1] == StripHyphens(init);
        }
      }
    }
  }

  /** Registering or addressing succeeds exactly for the spellings of normal codes,
      and both validators then give that code. */
  lemma ValidatorsNameTheSpelledCode(text: string, code: string)
    ensures ValidatePeerCode(text) == Ok(code) <==> IsNormal(code) && IsSpelling(text, code)
    ensures ValidateSignalTarget(text) == Ok(code) <==> IsNormal(code) && IsSpelling(text, code)
    ensures ValidatePeerCode(text) == ValidateSignalTarget(text)
  {
    SpellingIsStripping(text, code);
    Utf8LenOfAscii(StripHyphens(text));
  }

  function HyphensIn(s: string): nat {
    if s == [] then 0 else HyphensIn(s[..|s| - 1]) + (if s[|s| - 1] == '-' then 1 else 0)
  }

  lemma {:induction false} StrippedBytes(s: string)
    ensures |Utf8(StripHyphens(s))| + HyphensIn(s) == |Utf8(s)|
  {
    if s != [] {
      var init, kept := s[..|s| - 1], StripHyphens(s[..|s| - 1]);
      StrippedBytes(init);
      var last := s[|s| - 1];
      if last == '-' {
        assert StripHyphens(s) == kept && Utf8Bytes('-') == [0x2D];
      } else {
        assert StripHyphens(s) == kept + [last] && (kept + [last])[..|kept|] == kept;
      }
    }
  }

  /** The reason a text is refused with: nothing but hyphens; otherwise more than 16 bytes
      besides hyphens; otherwise a character that is no letter, digit or hyphen. */
  lemma RefusalsAreNamed(text: string)
    ensures ValidatePeerCode(text) == Err(EmptyCode) <==> forall c :: c in text ==> c == '-'
    ensures ValidatePeerCode(text) == Err(CodeTooLong) <==> |Utf8(text)| > 16 + HyphensIn(text)
    ensures ValidatePeerCode(text) == Err(CodeNotAlphanumeric) <==>
              |Utf8(text)| <= 16 + HyphensIn(text) && exists c :: c in text && c != '-' && !IsAsciiAlphanumeric(c)
  {
    var kept := StripHyphens(text);
    StrippedBytes(text);
    Utf8LenCountsBytes(kept);
    if kept != [] {
      assert kept[0] in kept;
      Utf8LenCountsBytes(text);
    }
    if c :| c in text && c != '-' && !IsAsciiAlphanumeric(c) { assert c in kept; }
  }

  /** The characters of a code by their numbers in ASCII. */
  lemma AlphanumericsInAscii(c: char)
    ensures var n := c as int;
            IsAsciiAlphanumeric(c) <==> 0x30 <= n <= 0x39 || 0x41 <= n <= 0x5A || 0x61 <= n <= 0x7A
  {}

  lemma StripsInsertedHyphen(a: string, b: string)
    ensures StripHyphens(a + "-" + b) == StripHyphens(a + b)
  {
    var p := NotHyphen();
    calc {
      Keep(p, (a + "-") + b);
      { KeepConcat(p, a + "-", b); }
      Keep(p, a + "-") + Keep(p, b);
      { assert Keep(p, a + "-") == Keep(p, a) by { assert (a + "-")[..|a|] == a; } }
      Keep(p, a) + Keep(p, b);
      { KeepConcat(p, a, b); }
      Keep(p, a + b);
    }
  }

  /** A hyphen may be inserted anywhere without changing the outcome. */
  lemma HyphensAreIgnored(s: string, i: nat)
    requires i <= |s|
    ensures ValidatePeerCode(s[..i] + "-" + s[i..]) == ValidatePeerCode(s)
    ensures ValidateSignalTarget(s[..i] + "-" + s[i..]) == ValidateSignalTarget(s)
  {
    StripsInsertedHyphen(s[..i], s[i..]);
    assert s == s[..i] + s[i..];
  }

  /** A normal code is its own normal form. */
  lemma NormalCodesAreFixed(code: string)
    requires IsNormal(code)
    ensures StripHyphens(code) == code
    ensures ValidatePeerCode(code) == Ok(code) == ValidateSignalTarget(code)
  {
    KeepAll(NotHyphen(), code);
    Utf8LenOfAscii(code);
  }
}
