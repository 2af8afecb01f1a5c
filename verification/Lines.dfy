/** Joining lines into one text and splitting it again. */
module Lines {
  import opened Wire
  import opened Filters

  /** `lines.join("\n")`. */
  function Join(lines: seq<string>): string {
    if lines == [] then []
    else if |lines| == 1 then lines[0]
    else lines[0] + "\n" + Join(lines[1..])
  }

  /** `split(separator: "\n")`, which leaves out empty pieces; `current` is the piece begun. */
  function Scan(text: string, current: string): seq<string> {
    if text == [] then Piece(current)
    else if text[0] == '\n' then Piece(current) + Scan(text[1..], "")
    else Scan(text[1..], current + [text[0]])
  }

  function Piece(s: string): seq<string> { if s == [] then [] else [s] }

  function Split(text: string): seq<string> { Scan(text, "") }

  /** A line feed stands between the lines, and nowhere else. */
  lemma {:induction false} JoinOfConcat(a: seq<string>, b: seq<string>)
    requires a != [] && b != []
    ensures Join(a + b) == Join(a) + "\n" + Join(b)
    ensures |a| == 1 ==> Join(a) == a[0]
  {
    assert (a + b)[0] == a[0] && (a + b)[1..] == a[1..] + b;
    if |a| > 1 {
      JoinOfConcat(a[1..], b);
    } else {
      assert a[1..] + b == b;
    }
  }

  predicate IsLine(s: string) { '\n' !in s }

  function NonEmpty(): string -> bool { s => s != [] }

  lemma {:induction false} ScanLine(line: string, rest: string, current: string)
    requires IsLine(line)
    ensures Scan(line, current) == Piece(current + line)
    ensures Scan(line + "\n" + rest, current) == Piece(current + line) + Scan(rest, "")
    decreases |line|
  {
    var text := line + "\n" + rest;
    if line == [] {
      assert text[0] == '\n' && text[1..] == rest;
      assert current + line == current;
    } else {
      ScanLine(line[1..], rest, current + [line[0]]);
      assert text[0] == line[0] && text[1..] == line[1..] + "\n" + rest;
      assert current + line == current + [line[0]] + line[1..];
    }
  }

  /** Splitting joined lines gives the lines back, except empty ones. */
  lemma {:induction false} SplitJoined(lines: seq<string>)
    requires forall s :: s in lines ==> IsLine(s)
    ensures Split(Join(lines)) == Keep(NonEmpty(), lines)
  {
    if lines != [] {
      var first, rest := lines[0], lines[1..];
      assert lines == [first] + rest;
      KeepConcat(NonEmpty(), [first], rest);
      assert Keep(NonEmpty(), [first]) == Piece(first) by { assert [first][..0] == []; }
      assert "" + first == first;
      if |lines| == 1 {
        ScanLine(first, "", "");
      } else {
        SplitJoined(rest);
        ScanLine(first, Join(rest), "");
      }
    }
  }

  /** The last `n` elements, or all if there are fewer. */
  function Last<T>(s: seq<T>, n: nat): (r: seq<T>)
    ensures |r| == if n <= |s| then n else |s|
  {
    if n <= |s| then s[|s| - n..] else s
  }

  lemma LastOfLast<T>(s: seq<T>, m: nat, n: nat)
    requires n <= m
    ensures Last(Last(s, m), n) == Last(s, n)
  {}

  lemma LastOfGrown<T>(s: seq<T>, x: T, n: nat)
    ensures Last(s, n) + [x] == Last(s + [x], n + 1)
  {}

  lemma LastIsTheEnd<T>(s: seq<T>, n: nat)
    ensures s == s[..|s| - |Last(s, n)|] + Last(s, n)
  {}

  /** The first `n` elements, or all if there are fewer. */
  function First<T>(s: seq<T>, n: nat): seq<T> { if n <= |s| then s[..n] else s }

  /** A text with a NUL character cannot be handed over as a C string. */
  function Handover(text: string): Option<string> { if '\0' in text then None else Some(text) }

  lemma {:induction false} JoinHasNoNul(lines: seq<string>)
    ensures '\0' in Join(lines) <==> exists s :: s in lines && '\0' in s
  {
    if |lines| > 1 {
      JoinHasNoNul(lines[1..]);
      assert forall s :: s in lines <==> s == lines[0] || s in lines[1..];
    }
  }
}
