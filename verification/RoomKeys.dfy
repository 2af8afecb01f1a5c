/** Which room a connection belongs to: the text tests on addresses and the trust in
    forwarded headers. */
module RoomKeys {
  import opened Wire

  // ---- Text ----

  predicate StartsWith(s: string, prefix: string) { |prefix| <= |s| && s[..|prefix|] == prefix }

  /** The part of `s` before the first `sep`. */
  function Head(s: string, sep: char): string {
    if s == [] || s[0] == sep then [] else [s[0]] + Head(s[1..], sep)
  }

  /** `s.split(sep).nth(1)`: the part between the first and the second `sep`. */
  function SecondPart(s: string, sep: char): Option<string> {
    if s == [] then None else if s[0] == sep then Some(Head(s[1..], sep)) else SecondPart(s[1..], sep)
  }

  predicate IsDigit(c: char) { '0' <= c <= '9' }

  function DigitValue(c: char): nat
    requires IsDigit(c)
  {
    c as nat - '0' as nat
  }

  /** The number written by a string of decimal digits. */
  function DigitsValue(s: string): nat
    requires forall i :: 0 <= i < |s| ==> IsDigit(s[i])
  {
    if s == [] then 0 else 10 * DigitsValue(s[..|s| - 1]) + DigitValue(s[|s| - 1])
  }

  /** Parsing an unsigned byte: digits, optionally after a plus sign, up to 255. */
  function ParseByte(s: string): Option<nat> {
    var digits := if StartsWith(s, "+") then s[1..] else s;
    if digits != [] && (forall i :: 0 <= i < |digits| ==> IsDigit(digits[i])) && DigitsValue(digits) <= 255
    then Some(DigitsValue(digits)) else None
  }

  predicate IsBlank(c: char) { c == ' ' || c == '\t' }

  /** Header values hold visible ASCII, spaces and tabs only, so these are what trimming removes. */
  function TrimStart(s: string): string { if s != [] && IsBlank(s[0]) then TrimStart(s[1..]) else s }

  function TrimEnd(s: string): string {
    if s != [] && IsBlank(s[|s| - 1]) then TrimEnd(s[..|s| - 1]) else s
  }

  function Trim(s: string): string { TrimEnd(TrimStart(s)) }

  // ---- The address tests ----

  predicate SecondPartWithin(ip: string, low: nat, high: nat) {
    match SecondPart(ip, '.')
    case None => false
    case Some(second) => (match ParseByte(second) case None => false case Some(n) => low <= n <= high)
  }

  predicate IsPrivateIp(ip: string) {
    || ip == "127.0.0.1"
    || StartsWith(ip, "10.")
    || StartsWith(ip, "192.168.")
    || StartsWith(ip, "169.254.")
    || (StartsWith(ip, "172.") && SecondPartWithin(ip, 16, 31))
    || (StartsWith(ip, "100.") && SecondPartWithin(ip, 64, 127))
    || ip == "::1"
    || StartsWith(ip, "fc")
    || StartsWith(ip, "fd")
    || StartsWith(ip, "fe80")
  }

  // ---- The room key ----

  /** The forwarding headers of a request, where present and readable as text. */
  datatype Headers = Headers(flyClientIp: Option<string>, forwardedFor: Option<string>)

  /** `validIp` is the standard library's address syntax. */
  function ForwardedIp(headers: Headers, validIp: string -> bool): Option<string> {
    if headers.flyClientIp.Some? && validIp(Trim(headers.flyClientIp.value)) then
      Some(Trim(headers.flyClientIp.value))
    else if headers.forwardedFor.Some? && validIp(Trim(Head(headers.forwardedFor.value, ','))) then
      Some(Trim(Head(headers.forwardedFor.value, ',')))
    else None
  }

  /** `socket` is the printed address of the peer; `trusted` lists printed proxy addresses. */
  function RoomKey(socket: string, trusted: set<string>, headers: Headers, validIp: string -> bool): string {
    var forwarded := ForwardedIp(headers, validIp);
    var ip :=
      if forwarded.None? then socket
      else if socket in trusted then forwarded.value
      else if IsPrivateIp(socket) && forwarded.value != [] then forwarded.value
      else socket;
    if IsPrivateIp(ip) then "local" else ip
  }

  // ---- Which header decides ----

  predicate AllBlank(s: string) { forall i :: 0 <= i < |s| ==> IsBlank(s[i]) }

  /** `text` is `v` with blanks around it; `v` itself neither begins nor ends with one. */
  ghost predicate Holds(text: string, v: string) {
    && (v != "" ==> !IsBlank(v[0]) && !IsBlank(v[|v| - 1]))
    && exists p, q :: AllBlank(p) && AllBlank(q) && text == p + v + q
  }

  lemma {:induction false} TrimStartSplits(s: string) returns (p: string)
    ensures AllBlank(p) && s == p + TrimStart(s)
    ensures TrimStart(s) != "" ==> !IsBlank(TrimStart(s)[0])
  {
    p := "";
    if s != [] && IsBlank(s[0]) {
      var q := TrimStartSplits(s[1..]);
      p := [s[0]] + q;
    }
  }

  lemma {:induction false} TrimEndSplits(s: string) returns (q: string)
    ensures AllBlank(q) && s == TrimEnd(s) + q
    ensures TrimEnd(s) != "" ==> !IsBlank(TrimEnd(s)[|TrimEnd(s)| - 1])
  {
    q := "";
    if s != [] && IsBlank(s[|s| - 1]) {
      var p := TrimEndSplits(s[..|s| - 1]);
      q := p + [s[|s| - 1]];
    }
  }

  lemma {:induction false} TrimStartSkips(p: string, v: string)
    requires AllBlank(p) && (v != "" ==> !IsBlank(v[0]))
    ensures TrimStart(p + v) == v
  {
    if p == [] {
      assert p + v == v;
    } else {
      TrimStartSkips(p[1..], v);
      assert (p + v)[1..] == p[1..] + v;
    }
  }

  lemma {:induction false} TrimEndSkips(v: string, q: string)
    requires AllBlank(q) && (v != "" ==> !IsBlank(v[|v| - 1]))
    ensures TrimEnd(v + q) == v
  {
    if q == [] {
      assert v + q == v;
    } else {
      TrimEndSkips(v, q[..|q| - 1]);
      assert (v + q)[..|v + q| - 1] == v + q[..|q| - 1];
    }
  }

  lemma {:induction false} TrimOfBlanks(s: string)
    requires AllBlank(s)
    ensures Trim(s) == ""
  {
    TrimStartSkips(s, "");
    assert s + "" == s;
  }

  /** Trimming gives what a text holds, and nothing else. */
  lemma TrimmingIsHolding(text: string, v: string)
    ensures Holds(text, v) <==> v == Trim(text)
  {
    var p := TrimStartSplits(text);
    var q := TrimEndSplits(TrimStart(text));
    assert text == p + Trim(text) + q;
    if Trim(text) != "" {
      assert Trim(text)[0] == TrimStart(text)[0];
    }
    if Holds(text, v) {
      var p', q' :| AllBlank(p') && AllBlank(q') && text == p' + v + q';
      if v == "" {
        TrimOfBlanks(text);
      } else {
        assert text == p' + (v + q');
        TrimStartSkips(p', v + q');
        TrimEndSkips(v, q');
      }
    }
  }

  lemma {:induction false} HeadOfList(first: string, rest: string)
    requires ',' !in first && (rest == "" || rest[0] == ',')
    ensures Head(first + rest, ',') == first
  {
    if first == [] {
      assert first + rest == rest;
    } else {
      HeadOfList(first[1..], rest);
      assert (first + rest)[1..] == first[1..] + rest;
    }
  }

  /** The room of an address: the shared one for a private address. */
  function RoomOf(ip: string): string { if IsPrivateIp(ip) then "local" else ip }

  /** The room of a connection for which a header names the address `v`: that of `v` if the
      socket is a trusted proxy or private, else that of the socket. */
  function RoomGiven(socket: string, trusted: set<string>, v: string): string {
    if socket in trusted || IsPrivateIp(socket) then RoomOf(v) else RoomOf(socket)
  }

  /** A valid address in `Fly-Client-IP` decides, whatever `X-Forwarded-For` says: the header
      that clients cannot set goes first. */
  lemma FlyAddressDecides(
    socket: string, trusted: set<string>, fly: string, v: string, other: Option<string>, validIp: string -> bool)
    requires Holds(fly, v) && v != "" && validIp(v)
    ensures RoomKey(socket, trusted, Headers(Some(fly), other), validIp) == RoomGiven(socket, trusted, v)
  {
    TrimmingIsHolding(fly, v);
  }

  /** There is no valid address in the header. */
  ghost predicate NamesNoAddress(header: Option<string>, validIp: string -> bool) {
    header.Some? ==> forall v :: Holds(header.value, v) ==> !validIp(v)
  }

  /** Otherwise the first entry of `X-Forwarded-For` decides, if it is a valid address. */
  lemma ForwardedForIsSecond(
    socket: string, trusted: set<string>, fly: Option<string>, first: string, rest: string, v: string,
    validIp: string -> bool)
    requires NamesNoAddress(fly, validIp)
    requires Holds(first, v) && v != "" && validIp(v) && ',' !in first && (rest == "" || rest[0] == ',')
    ensures RoomKey(socket, trusted, Headers(fly, Some(first + rest)), validIp) == RoomGiven(socket, trusted, v)
  {
    HeadOfList(first, rest);
    TrimmingIsHolding(first, v);
    if fly.Some? { TrimmingIsHolding(fly.value, Trim(fly.value)); }
  }

  /** Without a valid address in either the socket decides; `forwarded` is the value of the
      second header, as its first entry and the rest. */
  lemma SocketIsLast(
    socket: string, trusted: set<string>, fly: Option<string>, forwarded: Option<(string, string)>,
    validIp: string -> bool)
    requires NamesNoAddress(fly, validIp)
    requires forwarded.Some? ==>
               && ',' !in forwarded.value.0 && (forwarded.value.1 == "" || forwarded.value.1[0] == ',')
               && NamesNoAddress(Some(forwarded.value.0), validIp)
    ensures var header := if forwarded.Some? then Some(forwarded.value.0 + forwarded.value.1) else None;
            RoomKey(socket, trusted, Headers(fly, header), validIp) == RoomOf(socket)
  {
    if fly.Some? { TrimmingIsHolding(fly.value, Trim(fly.value)); }
    if forwarded.Some? {
      HeadOfList(forwarded.value.0, forwarded.value.1);
      TrimmingIsHolding(forwarded.value.0, Trim(forwarded.value.0));
    }
  }

  // ---- Dotted-quad addresses ----

  datatype IPv4 = IPv4(a: nat, b: nat, c: nat, d: nat) {
    predicate Valid() { a <= 255 && b <= 255 && c <= 255 && d <= 255 }

    /** The address as a 32-bit number. */
    function Number(): nat { ((a * 256 + b) * 256 + c) * 256 + d }

    function Print(): string { Decimal(a) + "." + Decimal(b) + "." + Decimal(c) + "." + Decimal(d) }
  }

  function DigitChar(n: nat): (c: char)
    requires n < 10
    ensures IsDigit(c) && DigitValue(c) == n
  {
    ('0' as nat + n) as char
  }

  function Decimal(n: nat): (s: string)
    ensures s != [] && forall i :: 0 <= i < |s| ==> IsDigit(s[i])
    ensures DigitsValue(s) == n
  {
    if n < 10 then
      var s := [DigitChar(n)];
      assert s[..0] == [];
      s
    else
      var s := Decimal(n / 10) + [DigitChar(n % 10)];
      assert s[..|s| - 1] == Decimal(n / 10);
      s
  }

  /** Address blocks as ranges of numbers: `width` addresses from `base` on. */
  predicate InBlock(ip: IPv4, base: IPv4, width: nat) {
    base.Number() <= ip.Number() < base.Number() + width
  }

  /** 127.0.0.1; the three blocks of RFC 1918, section 3; 169.254/16 of RFC 3927, section
      2.1; 100.64/10 of RFC 6598, section 7. */
  predicate IsPrivate(ip: IPv4) {
    || InBlock(ip, IPv4(127, 0, 0, 1), 1)
    || InBlock(ip, IPv4(10, 0, 0, 0), 0x100_0000)
    || InBlock(ip, IPv4(172, 16, 0, 0), 0x10_0000)
    || InBlock(ip, IPv4(192, 168, 0, 0), 0x1_0000)
    || InBlock(ip, IPv4(169, 254, 0, 0), 0x1_0000)
    || InBlock(ip, IPv4(100, 64, 0, 0), 0x40_0000)
  }

  predicate NoDot(s: string) { forall i :: 0 <= i < |s| ==> s[i] != '.' }

  /** A prefix ending in a dot reads off the first part. */
  lemma {:induction false} DottedPrefix(x: string, rest: string, y: string, more: string)
    requires NoDot(x) && NoDot(y)
    ensures StartsWith(x + "." + rest, y + "." + more) <==> x == y && StartsWith(rest, more)
  {
    var s, p := x + "." + rest, y + "." + more;
    if StartsWith(s, p) {
      assert forall i :: 0 <= i < |p| ==> s[i] == p[i];
      assert p[|y|] == '.' && s[|x|] == '.';
      assert |x| == |y|;
      assert forall i :: 0 <= i < |x| ==> s[i] == x[i] && p[i] == y[i];
      assert x == y;
      assert rest == s[|x| + 1..];
      assert rest[..|more|] == p[|y| + 1..] == more;
    }
    if x == y && StartsWith(rest, more) {
      assert rest == more + rest[|more|..];
      assert s == p + rest[|more|..];
    }
  }

  lemma {:induction false} HeadOfDotted(x: string, rest: string)
    requires NoDot(x)
    ensures Head(x + "." + rest, '.') == x
    ensures SecondPart(x + "." + rest, '.') == Some(Head(rest, '.'))
  {
    var s := x + "." + rest;
    if x == [] {
      assert s[1..] == rest;
    } else {
      HeadOfDotted(x[1..], rest);
      assert s[1..] == x[1..] + "." + rest;
    }
  }

  lemma DecimalIsInjective(m: nat, n: nat)
    ensures Decimal(m) == Decimal(n) <==> m == n
  {}

  lemma DecimalParses(n: nat)
    requires n <= 255
    ensures ParseByte(Decimal(n)) == Some(n)
  {
    assert !StartsWith(Decimal(n), "+");
  }

  lemma PartsOfPrint(ip: IPv4)
    ensures var a, b := Decimal(ip.a), Decimal(ip.b);
            var tail := Decimal(ip.c) + "." + Decimal(ip.d);
            ip.Print() == a + "." + (b + "." + tail) && NoDot(a) && NoDot(b)
  {}

  lemma FirstPart(ip: IPv4, n: nat)
    ensures StartsWith(ip.Print(), Decimal(n) + ".") <==> ip.a == n
  {
    var rest := Decimal(ip.b) + "." + (Decimal(ip.c) + "." + Decimal(ip.d));
    PartsOfPrint(ip);
    DottedPrefix(Decimal(ip.a), rest, Decimal(n), "");
    assert Decimal(n) + "." + "" == Decimal(n) + ".";
  }

  lemma FirstTwoParts(ip: IPv4, m: nat, n: nat)
    ensures StartsWith(ip.Print(), Decimal(m) + "." + Decimal(n) + ".") <==> ip.a == m && ip.b == n
  {
    var tail := Decimal(ip.c) + "." + Decimal(ip.d);
    PartsOfPrint(ip);
    DottedPrefix(Decimal(ip.a), Decimal(ip.b) + "." + tail, Decimal(m), Decimal(n) + ".");
    DottedPrefix(Decimal(ip.b), tail, Decimal(n), "");
    assert Decimal(n) + "." + "" == Decimal(n) + ".";
    assert Decimal(m) + "." + (Decimal(n) + ".") == Decimal(m) + "." + Decimal(n) + ".";
  }

  lemma SecondPartOfPrint(ip: IPv4, low: nat, high: nat)
    requires ip.Valid()
    ensures SecondPartWithin(ip.Print(), low, high) <==> low <= ip.b <= high
  {
    PartsOfPrint(ip);
    var tail := Decimal(ip.c) + "." + Decimal(ip.d);
    HeadOfDotted(Decimal(ip.a), Decimal(ip.b) + "." + tail);
    HeadOfDotted(Decimal(ip.b), tail);
    DecimalParses(ip.b);
  }

  lemma TwoDigits(n: nat)
    requires 10 <= n < 100
    ensures Decimal(n) == [DigitChar(n / 10), DigitChar(n % 10)]
  {}

  lemma ThreeDigits(n: nat)
    requires 100 <= n < 1000
    ensures Decimal(n) == [DigitChar(n / 100), DigitChar(n / 10 % 10), DigitChar(n % 10)]
  {
    TwoDigits(n / 10);
  }

  /** Printing is injective. */
  lemma PrintIsInjective(x: IPv4, y: IPv4)
    requires x.Print() == y.Print()
    ensures x == y
  {
    var tx, ty := Decimal(x.c) + "." + Decimal(x.d), Decimal(y.c) + "." + Decimal(y.d);
    PartsOfPrint(x);
    PartsOfPrint(y);
    EqualDotted(Decimal(x.a), Decimal(x.b) + "." + tx, Decimal(y.a), Decimal(y.b) + "." + ty);
    EqualDotted(Decimal(x.b), tx, Decimal(y.b), ty);
    EqualDotted(Decimal(x.c), Decimal(x.d), Decimal(y.c), Decimal(y.d));
    DecimalIsInjective(x.a, y.a);
  }

  lemma EqualDotted(x: string, rest: string, y: string, more: string)
    requires NoDot(x) && NoDot(y) && x + "." + rest == y + "." + more
    ensures x == y && rest == more
  {
    var s := x + "." + rest;
    assert s[..|s|] == s;
    DottedPrefix(x, rest, y, more);
    assert rest == s[|x| + 1..] && more == s[|x| + 1..];
  }

  lemma PrintedPrefixes()
    ensures "10." == Decimal(10) + "." && "172." == Decimal(172) + "." && "100." == Decimal(100) + "."
    ensures "192.168." == Decimal(192) + "." + Decimal(168) + "."
    ensures "169.254." == Decimal(169) + "." + Decimal(254) + "."
    ensures "127.0.0.1" == IPv4(127, 0, 0, 1).Print()
  {
    TwoDigits(10);
    ThreeDigits(172);
    ThreeDigits(100);
    ThreeDigits(192);
    ThreeDigits(168);
    ThreeDigits(169);
    ThreeDigits(254);
    ThreeDigits(127);
  }

  lemma LoopbackText(ip: IPv4)
    ensures ip.Print() == "127.0.0.1" <==> ip == IPv4(127, 0, 0, 1)
  {
    PrintedPrefixes();
    if ip.Print() == "127.0.0.1" { PrintIsInjective(ip, IPv4(127, 0, 0, 1)); }
  }

  /** A printed address begins with a digit, so it is no IPv6 text and no name. */
  lemma BeginsWithDigit(ip: IPv4)
    ensures ip.Print() != [] && IsDigit(ip.Print()[0])
  {
    PartsOfPrint(ip);
  }

  /** The blocks, told from the leading bytes. */
  predicate HasPrivateBytes(ip: IPv4) {
    || ip == IPv4(127, 0, 0, 1)
    || ip.a == 10
    || (ip.a == 172 && 16 <= ip.b <= 31)
    || (ip.a == 192 && ip.b == 168)
    || (ip.a == 169 && ip.b == 254)
    || (ip.a == 100 && 64 <= ip.b <= 127)
  }

  lemma PrefixTests(ip: IPv4)
    ensures StartsWith(ip.Print(), "10.") <==> ip.a == 10
    ensures StartsWith(ip.Print(), "172.") <==> ip.a == 172
    ensures StartsWith(ip.Print(), "100.") <==> ip.a == 100
    ensures StartsWith(ip.Print(), "192.168.") <==> ip.a == 192 && ip.b == 168
    ensures StartsWith(ip.Print(), "169.254.") <==> ip.a == 169 && ip.b == 254
  {
    PrintedPrefixes();
    FirstPart(ip, 10);
    FirstPart(ip, 172);
    FirstPart(ip, 100);
    FirstTwoParts(ip, 192, 168);
    FirstTwoParts(ip, 169, 254);
  }

  lemma NoNameTests(ip: IPv4)
    ensures var p := ip.Print(); p != "::1" && !StartsWith(p, "fc") && !StartsWith(p, "fd") && !StartsWith(p, "fe80")
  {
    BeginsWithDigit(ip);
  }

  lemma TextTestsReadBytes(ip: IPv4)
    requires ip.Valid()
    ensures IsPrivateIp(ip.Print()) <==> HasPrivateBytes(ip)
  {
    PrefixTests(ip);
    NoNameTests(ip);
    SecondPartOfPrint(ip, 16, 31);
    SecondPartOfPrint(ip, 64, 127);
    LoopbackText(ip);
  }

  lemma BlocksByBytes(ip: IPv4)
    requires ip.Valid()
    ensures IsPrivate(ip) <==> HasPrivateBytes(ip)
  {}

  /** On printed IPv4 addresses the text tests are exact. */
  lemma TextTestsAreExact(ip: IPv4)
    requires ip.Valid()
    ensures IsPrivateIp(ip.Print()) <==> IsPrivate(ip)
  {
    TextTestsReadBytes(ip);
    BlocksByBytes(ip);
  }

  /** The forwarded address is used instead of that of the socket `y`: there is one, and the
      socket is a trusted proxy or a private address. */
  predicate Honours(y: IPv4, trusted: set<string>, headers: Headers, validIp: string -> bool) {
    ForwardedIp(headers, validIp).Some? && (y.Print() in trusted || IsPrivate(y))
  }

  /** Who is in the room of a public address `x`, for all proxy lists and headers: a socket
      whose forwarded address is used and is `x`, or the socket of `x` itself where no
      forwarded address is used. So a private socket enters a public peer's room with a header. */
  lemma RoomOfAnAddressExactly(x: IPv4, y: IPv4, trusted: set<string>, headers: Headers, validIp: string -> bool)
    requires x.Valid() && y.Valid() && !IsPrivate(x)
    ensures RoomKey(y.Print(), trusted, headers, validIp) == x.Print() <==>
              if Honours(y, trusted, headers, validIp) then ForwardedIp(headers, validIp) == Some(x.Print()) else y == x
  {
    TextTestsAreExact(x);
    TextTestsAreExact(y);
    BeginsWithDigit(x);
    if x.Print() == y.Print() { PrintIsInjective(x, y); }
  }

  /** Who is in the shared local room: a socket whose forwarded address is used and is a
      private one, or a private socket where no forwarded address is used. */
  lemma LocalRoomExactly(y: IPv4, trusted: set<string>, headers: Headers, validIp: string -> bool)
    requires y.Valid() && !validIp("") && !validIp("local")
    ensures RoomKey(y.Print(), trusted, headers, validIp) == "local" <==>
              if Honours(y, trusted, headers, validIp)
              then IsPrivateIp(ForwardedIp(headers, validIp).value)
              else IsPrivate(y)
  {
    TextTestsAreExact(y);
    BeginsWithDigit(y);
  }

  /** Whatever the proxy list and the headers say, a public IPv4 peer that is not a trusted
      proxy is put in the room of its own address, and no other such peer shares it. */
  lemma PublicPeersGetTheirOwnRoom(x: IPv4, trusted: set<string>, headers: Headers, validIp: string -> bool)
    requires x.Valid() && !IsPrivate(x) && x.Print() !in trusted
    ensures RoomKey(x.Print(), trusted, headers, validIp) == x.Print() != "local"
    ensures forall y: IPv4, h | y.Valid() && !IsPrivate(y) && y.Print() !in trusted ::
              RoomKey(y.Print(), trusted, h, validIp) == RoomKey(x.Print(), trusted, headers, validIp) ==> y == x
  {
    RoomOfAnAddressExactly(x, x, trusted, headers, validIp);
    BeginsWithDigit(x);
    forall y: IPv4, h | y.Valid() && !IsPrivate(y) && y.Print() !in trusted
                        && RoomKey(y.Print(), trusted, h, validIp) == RoomKey(x.Print(), trusted, headers, validIp)
      ensures y == x
    {
      RoomOfAnAddressExactly(x, y, trusted, h, validIp);
    }
  }

  /** The same for IPv4: behind a private or trusted socket, a public address in
      `Fly-Client-IP` is the room, with any blanks around it and any other header. */
  lemma FlyAddressIsTheRoom(
    y: IPv4, trusted: set<string>, p: string, x: IPv4, q: string, other: Option<string>, validIp: string -> bool)
    requires x.Valid() && y.Valid() && !IsPrivate(x) && (IsPrivate(y) || y.Print() in trusted)
    requires AllBlank(p) && AllBlank(q) && validIp(x.Print())
    ensures RoomKey(y.Print(), trusted, Headers(Some(p + x.Print() + q), other), validIp) == x.Print()
  {
    TextTestsAreExact(x);
    TextTestsAreExact(y);
    EndsWithDigit(x);
    FlyAddressDecides(y.Print(), trusted, p + x.Print() + q, x.Print(), other, validIp);
  }

  lemma EndsWithDigit(ip: IPv4)
    ensures var s := ip.Print(); s != [] && !IsBlank(s[0]) && !IsBlank(s[|s| - 1])
  {
    BeginsWithDigit(ip);
    var d := Decimal(ip.d);
    assert ip.Print()[|ip.Print()| - 1] == d[|d| - 1];
    assert IsDigit(d[|d| - 1]);
  }
}
