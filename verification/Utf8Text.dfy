/** How many bytes a text takes in UTF-8. */
module Utf8Text {

  /** Bytes of one character in UTF-8. */
  function Utf8Size(c: char): (n: nat)
    ensures 1 <= n <= 4
  {
    if c < 128 as char then 1 else if c < 2048 as char then 2 else if c < 65536 as char then 3 else 4
  }

  function Utf8Len(s: string): nat {
    if s == [] then 0 else Utf8Len(s[..|s| - 1]) + Utf8Size(s[|s| - 1])
  }

  // ---- The encoding behind the counts ----

  /** The UTF-8 bytes of a character, as RFC 3629, section 3, lays them out. */
  function Utf8Bytes(c: char): seq<int> {
    var n := c as int;
    if n < 0x80 then [n]
    else if n < 0x800 then [0xC0 + n / 0x40, 0x80 + n % 0x40]
    else if n < 0x1_0000 then [0xE0 + n / 0x1000, 0x80 + n / 0x40 % 0x40, 0x80 + n % 0x40]
    else [0xF0 + n / 0x4_0000, 0x80 + n / 0x1000 % 0x40, 0x80 + n / 0x40 % 0x40, 0x80 + n % 0x40]
  }

  function Utf8(s: string): seq<int> {
    if s == [] then [] else Utf8(s[..|s| - 1]) + Utf8Bytes(s[|s| - 1])
  }

  /** How many bytes a leading byte announces. */
  function LengthByLead(lead: int): nat {
    if lead < 0x80 then 1 else if lead < 0xE0 then 2 else if lead < 0xF0 then 3 else 4
  }

  /** The number that the bytes of one character carry: the lead byte without its mark, then
      six bits of every further byte. */
  function Decoded(bytes: seq<int>): int {
    if |bytes| == 1 then bytes[0]
    else if |bytes| == 2 then (bytes[0] - 0xC0) * 0x40 + (bytes[1] - 0x80)
    else if |bytes| == 3 then (bytes[0] - 0xE0) * 0x1000 + (bytes[1] - 0x80) * 0x40 + (bytes[2] - 0x80)
    else if |bytes| == 4 then
      (bytes[0] - 0xF0) * 0x4_0000 + (bytes[1] - 0x80) * 0x1000 + (bytes[2] - 0x80) * 0x40 + (bytes[3] - 0x80)
    else 0
  }

  lemma SixBits(n: int)
    requires 0 <= n
    ensures n == n / 0x40 * 0x40 + n % 0x40 && 0 <= n % 0x40 < 0x40
    ensures n / 0x1000 == n / 0x40 / 0x40 && n / 0x4_0000 == n / 0x1000 / 0x40
  {}

  /** A character is counted with as many bytes as its encoding has; the encoding announces
      its own length and can be read back. */
  lemma Utf8SizeIsExact(c: char)
    ensures var bytes := Utf8Bytes(c);
            |bytes| == Utf8Size(c) == LengthByLead(bytes[0]) && Decoded(bytes) == c as int
  {
    var n := c as int;
    SixBits(n);
    SixBits(n / 0x40);
    SixBits(n / 0x1000);
  }

  lemma {:induction false} Utf8LenCountsBytes(s: string)
    ensures Utf8Len(s) == |Utf8(s)|
  {
    if s != [] {
      Utf8LenCountsBytes(s[..|s| - 1]);
      Utf8SizeIsExact(s[|s| - 1]);
    }
  }
}
