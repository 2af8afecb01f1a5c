/** What the monitor looks for in a line of the daemon's log. */
module SessionLines {
  import opened Wire

  /** What follows the first occurrence of `pattern` in `s`. */
  function After(s: string, pattern: string): Option<string> {
    if |pattern| <= |s| && s[..|pattern|] == pattern then Some(s[|pattern|..])
    else if s == [] then None
    else After(s[1..], pattern)
  }

  predicate Contains(s: string, pattern: string) { After(s, pattern).Some? }

  /** `true` for a line that reports a session registered, `false` for one cleared. */
  function Lifecycle(line: string): Option<bool> {
    if Contains(line, "ACTIVE_SESSION registered") then Some(true)
    else if Contains(line, "ACTIVE_SESSION cleared") then Some(false)
    else None
  }

  const CODE_LENGTH: nat := 6

  /** The verification code a line prints, if there are enough characters for one. */
  function PrintedCode(line: string): Option<string> {
    var rest := After(line, "[SAS] ");
    if rest.Some? && |rest.value| >= CODE_LENGTH then Some(rest.value[..CODE_LENGTH]) else None
  }

  // ---- What these texts are ----

  predicate OccursAt(s: string, pattern: string, i: int) {
    0 <= i <= |s| - |pattern| && s[i..i + |pattern|] == pattern
  }

  ghost predicate Occurs(s: string, pattern: string) { exists i :: OccursAt(s, pattern, i) }

  lemma OccursLater(s: string, pattern: string, i: int)
    requires s != []
    ensures i >= 1 ==> (OccursAt(s, pattern, i) <==> OccursAt(s[1..], pattern, i - 1))
    ensures OccursAt(s, pattern, 0) <==> |pattern| <= |s| && s[..|pattern|] == pattern
  {
    if i >= 1 && i <= |s| - |pattern| {
      assert s[1..][i - 1..i - 1 + |pattern|] == s[i..i + |pattern|];
    }
  }

  /** The text after the pattern is that after its first occurrence, if there is one. */
  lemma {:induction false} AfterIsFirst(s: string, pattern: string) returns (i: int)
    ensures After(s, pattern).None? ==> forall j :: !OccursAt(s, pattern, j)
    ensures After(s, pattern).Some? ==>
              && OccursAt(s, pattern, i) && After(s, pattern) == Some(s[i + |pattern|..])
              && forall j :: 0 <= j < i ==> !OccursAt(s, pattern, j)
  {
    i := 0;
    if |pattern| <= |s| && s[..|pattern|] == pattern {
      assert OccursAt(s, pattern, 0);
    } else if s != [] {
      var k := AfterIsFirst(s[1..], pattern);
      i := k + 1;
      forall j: int ensures j >= 1 ==> (OccursAt(s, pattern, j) <==> OccursAt(s[1..], pattern, j - 1))
                    ensures !OccursAt(s, pattern, 0) {
        OccursLater(s, pattern, j);
      }
      if After(s, pattern).Some? {
        assert OccursAt(s[1..], pattern, i - 1);
        assert s[1..][k + |pattern|..] == s[i + |pattern|..];
      }
    }
  }

  lemma ContainsIsOccurs(s: string, pattern: string)
    ensures Contains(s, pattern) <==> Occurs(s, pattern)
  {
    var i := AfterIsFirst(s, pattern);
  }

  /** Which lines report a session, and what: exactly those that hold one of two texts. */
  lemma LifecycleExactly(line: string)
    ensures Lifecycle(line) == Some(true) <==> Occurs(line, "ACTIVE_SESSION registered")
    ensures Lifecycle(line) == Some(false) <==>
              !Occurs(line, "ACTIVE_SESSION registered") && Occurs(line, "ACTIVE_SESSION cleared")
  {
    ContainsIsOccurs(line, "ACTIVE_SESSION registered");
    ContainsIsOccurs(line, "ACTIVE_SESSION cleared");
  }

  lemma OccursInside(a: string, pattern: string, b: string)
    ensures Occurs(a + pattern + b, pattern)
  {
    assert (a + pattern + b)[|a|..|a| + |pattern|] == pattern;
    assert OccursAt(a + pattern + b, pattern, |a|);
  }

  /** In particular, wherever the text stands in the line. */
  lemma RegisteredLines(a: string, b: string)
    ensures Lifecycle(a + "ACTIVE_SESSION registered" + b) == Some(true)
  {
    OccursInside(a, "ACTIVE_SESSION registered", b);
    LifecycleExactly(a + "ACTIVE_SESSION registered" + b);
  }

  lemma ClearedLines(a: string, b: string)
    requires !Occurs(a + "ACTIVE_SESSION cleared" + b, "ACTIVE_SESSION registered")
    ensures Lifecycle(a + "ACTIVE_SESSION cleared" + b) == Some(false)
  {
    OccursInside(a, "ACTIVE_SESSION cleared", b);
    LifecycleExactly(a + "ACTIVE_SESSION cleared" + b);
  }

  /** The code is the six characters after the first mark; a line without a mark, or with
      fewer characters after the first one, prints none. */
  lemma PrintedCodeExactly(line: string, code: string)
    ensures PrintedCode(line) == Some(code) <==>
              |code| == 6 && exists i :: OccursAt(line, "[SAS] " + code, i)
                                         && forall j :: 0 <= j < i ==> !OccursAt(line, "[SAS] ", j)
  {
    var mark := "[SAS] ";
    var first := AfterIsFirst(line, mark);
    if PrintedCode(line) == Some(code) {
      MarkAndCode(line, mark, code, first);
      assert OccursAt(line, mark + code, first);
    }
    if i :| |code| == 6 && OccursAt(line, mark + code, i) && forall j :: 0 <= j < i ==> !OccursAt(line, mark, j) {
      MarkAndCode(line, mark, code, i);
      assert OccursAt(line, mark, i) && i == first;
    }
  }

  lemma MarkAndCode(line: string, mark: string, code: string, i: int)
    ensures OccursAt(line, mark + code, i) <==>
              OccursAt(line, mark, i) && |code| <= |line| - i - |mark| && line[i + |mark|..][..|code|] == code
  {
    if 0 <= i <= |line| - |mark| - |code| {
      var piece := line[i..i + |mark| + |code|];
      assert piece == line[i..i + |mark|] + line[i + |mark|..][..|code|];
      assert piece[..|mark|] == line[i..i + |mark|] && piece[|mark|..] == line[i + |mark|..][..|code|];
    }
  }
}
