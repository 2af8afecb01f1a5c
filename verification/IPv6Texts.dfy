/** What the address tests make of printed IPv6 addresses. */
module IPv6Texts {
  import opened RoomKeys

  function HexDigit(n: nat): char
    requires n < 16
  {
    if n < 10 then ('0' as nat + n) as char else ('a' as nat + n - 10) as char
  }

  /** A group of an IPv6 address as it is printed: lower case, without leading zeros. */
  function Hex(g: nat): string
    requires g < 0x1_0000
  {
    if g < 0x10 then [HexDigit(g)]
    else if g < 0x100 then [HexDigit(g / 0x10), HexDigit(g % 0x10)]
    else if g < 0x1000 then [HexDigit(g / 0x100), HexDigit(g / 0x10 % 0x10), HexDigit(g % 0x10)]
    else [HexDigit(g / 0x1000), HexDigit(g / 0x100 % 0x10), HexDigit(g / 0x10 % 0x10), HexDigit(g % 0x10)]
  }

  /** fc00::/7 of RFC 4193, section 3.1, and fe80::/10 of RFC 4291, section 2.5.6, by the
      first group of an address. */
  predicate IsLocalGroup(g: nat) { 0xFC00 <= g <= 0xFDFF || 0xFE80 <= g <= 0xFEBF }

  /** The first groups whose printed form begins like those of the blocks without being in
      them, and those of the second block that do not begin with "fe80". */
  predicate IsMisread(g: nat) {
    g == 0xFC || g == 0xFD || 0xFC0 <= g <= 0xFDF || 0xFE81 <= g <= 0xFEBF
  }

  lemma HexDigitsAre(m: nat)
    requires m < 16
    ensures (HexDigit(m) == 'f' <==> m == 15) && (HexDigit(m) == 'c' <==> m == 12) && (HexDigit(m) == 'd' <==> m == 13)
    ensures (HexDigit(m) == 'e' <==> m == 14) && (HexDigit(m) == '8' <==> m == 8) && (HexDigit(m) == '0' <==> m == 0)
    ensures HexDigit(m) != ':' && HexDigit(m) != '.'
  {}

  lemma StartsWithTwo(s: string, c: char, d: char)
    ensures StartsWith(s, [c, d]) <==> |s| >= 2 && s[0] == c && s[1] == d
  {}

  lemma StartsWithFour(s: string, c: char, d: char, e: char, f: char)
    ensures StartsWith(s, [c, d, e, f]) <==> |s| >= 4 && s[0] == c && s[1] == d && s[2] == e && s[3] == f
  {}

  /** The first two digits of a printed group of at least two. */
  function Lead(g: nat): nat
    requires g < 0x1_0000
  {
    if g < 0x100 then g else if g < 0x1000 then g / 0x10 else g / 0x100
  }

  lemma HexBeginsWithLead(g: nat, rest: string)
    requires g < 0x1_0000
    ensures var text := Hex(g) + ":" + rest;
            if g < 0x10 then text[1] == ':'
            else text[0] == HexDigit(Lead(g) / 0x10) && text[1] == HexDigit(Lead(g) % 0x10)
  {
    if 0x100 <= g < 0x1000 { assert g / 0x10 / 0x10 == g / 0x100; }
    if 0x1000 <= g { assert g / 0x100 / 0x10 == g / 0x1000; }
  }

  lemma HexPrefixes(g: nat, rest: string)
    requires g < 0x1_0000
    ensures var text := Hex(g) + ":" + rest;
            && (StartsWith(text, "fc") <==> g >= 0x10 && Lead(g) == 0xFC)
            && (StartsWith(text, "fd") <==> g >= 0x10 && Lead(g) == 0xFD)
  {
    var text := Hex(g) + ":" + rest;
    HexBeginsWithLead(g, rest);
    HexDigitsAre(Lead(g) / 0x10 % 0x10);
    HexDigitsAre(Lead(g) % 0x10);
    StartsWithTwo(text, 'f', 'c');
    StartsWithTwo(text, 'f', 'd');
  }

  lemma HexLinkLocal(g: nat, rest: string)
    requires g < 0x1_0000
    ensures StartsWith(Hex(g) + ":" + rest, "fe80") <==> g == 0xFE80
  {
    var text := Hex(g) + ":" + rest;
    StartsWithFour(text, 'f', 'e', '8', '0');
    if g < 0x1000 {
      assert text[|Hex(g)|] == ':';
    } else {
      HexDigitsAre(g / 0x1000);
      HexDigitsAre(g / 0x100 % 0x10);
      HexDigitsAre(g / 0x10 % 0x10);
      HexDigitsAre(g % 0x10);
      assert text[0] == HexDigit(g / 0x1000) && text[1] == HexDigit(g / 0x100 % 0x10);
      assert text[2] == HexDigit(g / 0x10 % 0x10) && text[3] == HexDigit(g % 0x10);
    }
  }

  /** A dotted prefix does not fit a text with a colon before its first dot. */
  lemma ColonBeforeDot(text: string, k: nat, prefix: string, j: nat)
    requires k < |text| && text[k] == ':' && (forall i :: 0 <= i < k ==> text[i] != '.')
    requires j < |prefix| && prefix[j] == '.' && ':' !in prefix
    ensures !StartsWith(text, prefix)
  {}

  lemma NoDottedTest(g: nat, rest: string)
    requires g < 0x1_0000
    ensures var text := Hex(g) + ":" + rest;
            && !StartsWith(text, "10.") && !StartsWith(text, "192.168.") && !StartsWith(text, "169.254.")
            && !StartsWith(text, "172.") && !StartsWith(text, "100.") && text != "127.0.0.1" && text != "::1"
  {
    var text, k := Hex(g) + ":" + rest, |Hex(g)|;
    forall i | 0 <= i < k ensures text[i] != '.' && text[i] != ':' {
      assert text[i] == Hex(g)[i];
      HexDigitsAre(g % 0x10);
      HexDigitsAre(g / 0x10 % 0x10);
      HexDigitsAre(g / 0x100 % 0x10);
      HexDigitsAre(g / 0x1000);
    }
    assert text[k] == ':' && text[0] != ':';
    ColonBeforeDot(text, k, "10.", 2);
    ColonBeforeDot(text, k, "192.168.", 3);
    ColonBeforeDot(text, k, "169.254.", 3);
    ColonBeforeDot(text, k, "172.", 3);
    ColonBeforeDot(text, k, "100.", 3);
  }

  /** What the text tests do with a printed IPv6 address that begins with a group: they hold
      exactly for the blocks they name, except for the misread groups, where they err. */
  lemma IPv6TestsExactly(g: nat, rest: string)
    requires g < 0x1_0000
    ensures IsPrivateIp(Hex(g) + ":" + rest) == IsLocalGroup(g) <==> !IsMisread(g)
  {
    NoDottedTest(g, rest);
    HexPrefixes(g, rest);
    HexLinkLocal(g, rest);
  }

  /** A text that begins with two colons is taken for a local one only if it is "::1". */
  lemma CompressedTexts(rest: string)
    ensures IsPrivateIp("::" + rest) <==> rest == "1"
  {
    var text := "::" + rest;
    assert text[0] == ':' && text[2..] == rest;
    assert text == "::1" ==> rest == "1";
  }
}
