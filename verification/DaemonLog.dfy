/** The daemon's captured error output: a bounded buffer, and a monitor that reads only its
    last lines to follow WebTransport sessions. */
module DaemonLog {
  import opened Wire
  import opened Filters
  import opened Lines
  import opened SessionLines

  const CAP: nat := 1000
  const DRAIN: nat := 500
  const TAIL: nat := 30

  // ---- The buffer ----

  function AfterLine(buffer: seq<string>, line: string): seq<string> {
    var grown := buffer + [line];
    if |grown| > CAP then grown[DRAIN..] else grown
  }

  /** The buffer after a whole log. */
  function Buffer(log: seq<string>): seq<string> {
    if log == [] then [] else AfterLine(Buffer(log[..|log| - 1]), log[|log| - 1])
  }

  class StderrBuffer {
    var lines: seq<string>
    ghost var log: seq<string>  // every line captured so far

    ghost predicate Valid()
      reads this
    {
      lines == Buffer(log)
    }

    constructor ()
      ensures Valid() && log == []
    {
      lines, log := [], [];
    }

    method Capture(line: string)
      requires Valid()
      modifies this
      ensures Valid() && log == old(log) + [line]
    {
      lines := lines + [line];
      if |lines| > CAP { lines := lines[DRAIN..]; }
      log := log + [line];
    }

    method Recent(n: nat) returns (text: Option<string>)
      requires Valid()
      ensures text == Handover(Join(Last(Buffer(log), n)))
    {
      var start := if |lines| < n then 0 else |lines| - n;
      assert lines[start..] == Last(lines, n);
      text := Handover(Join(lines[start..]));
    }
  }

  /** How many lines the buffer holds after `total` lines. */
  function Held(total: nat): (n: nat)
    ensures n <= total && n <= CAP
    ensures n >= total || n > DRAIN
  {
    if total <= CAP then total else DRAIN + 1 + (total - CAP - 1) % DRAIN
  }

  lemma HeldStep(n: nat)
    ensures Held(n + 1) == if Held(n) < CAP then Held(n) + 1 else DRAIN + 1
  {
    if n > CAP {
      var k := n - CAP - 1;
      assert (k + 1) % DRAIN == if k % DRAIN + 1 == DRAIN then 0 else k % DRAIN + 1;
    }
  }

  /** The buffer is the end of the full log: all of it up to 1000 lines, and then between 501
      and 1000 lines of it. */
  lemma {:induction false} BufferIsTheEndOfTheLog(log: seq<string>)
    ensures Buffer(log) == Last(log, Held(|log|))
  {
    if log != [] {
      var n := |log| - 1;
      var init, line := log[..n], log[n];
      BufferIsTheEndOfTheLog(init);
      HeldStep(n);
      assert log == init + [line];
      LastOfGrown(init, line, Held(n));
      if Held(n) == CAP {
        LastOfLast(log, CAP + 1, DRAIN + 1);
        assert Last(log, CAP + 1)[DRAIN..] == Last(Last(log, CAP + 1), DRAIN + 1);
      }
    }
  }

  /** The last `n` lines are those of the full log exactly if the buffer holds that many, or
      holds the whole log; so always for `n` up to 501. */
  lemma RecentLinesAreExact(log: seq<string>, n: nat)
    ensures Last(Buffer(log), n) == Last(log, n) <==> n <= Held(|log|) || |log| <= 1000
    ensures n <= 501 ==> Last(Buffer(log), n) == Last(log, n)
  {
    BufferIsTheEndOfTheLog(log);
    if n <= Held(|log|) {
      LastOfLast(log, Held(|log|), n);
    } else {
      assert |Last(Buffer(log), n)| == Held(|log|);
    }
  }

  // ---- Session lines ----

  function LastLifecycle(lines: seq<string>): Option<bool> {
    if lines == [] then None
    else
      var last := Lifecycle(lines[|lines| - 1]);
      if last.Some? then last else LastLifecycle(lines[..|lines| - 1])
  }

  function Or(latest: Option<bool>, otherwise: bool): bool { if latest.Some? then latest.value else otherwise }

  lemma {:induction false} LastLifecycleConcat(a: seq<string>, b: seq<string>)
    ensures LastLifecycle(a + b) == if LastLifecycle(b).Some? then LastLifecycle(b) else LastLifecycle(a)
  {
    if b == [] {
      assert a + b == a;
    } else {
      assert (a + b)[..|a + b| - 1] == a + b[..|b| - 1];
      LastLifecycleConcat(a, b[..|b| - 1]);
    }
  }

  lemma OneLine(line: string)
    ensures LastLifecycle([line]) == LastLifecycle(Piece(line)) == Lifecycle(line)
  {
    assert LastLifecycle([line][..0]) == None;
    assert line == "" ==> Lifecycle(line) == None;
  }

  lemma {:induction false} LastLifecycleOfNonEmpty(lines: seq<string>)
    ensures LastLifecycle(Keep(NonEmpty(), lines)) == LastLifecycle(lines)
  {
    if lines != [] {
      var init, last := lines[..|lines| - 1], lines[|lines| - 1];
      LastLifecycleOfNonEmpty(init);
      LastLifecycleConcat(Keep(NonEmpty(), init), Piece(last));
      OneLine(last);
    }
  }

  // ---- The monitor ----

  /** What parsing lines in order finds: the last session line, the last code printed, and
      the code that was last printed when the session was registered. */
  datatype Reading = Reading(lifecycle: Option<bool>, pending: Option<string>, registered: Option<string>)

  function ReadLine(r: Reading, line: string): Reading {
    var code := PrintedCode(line);
    var pending := if code.Some? then code else r.pending;
    var reported := Lifecycle(line);
    if reported.None? then r.(pending := pending)
    else Reading(reported, pending, if reported.value then pending else None)
  }

  function Read(lines: seq<string>): Reading {
    if lines == [] then Reading(None, None, None) else ReadLine(Read(lines[..|lines| - 1]), lines[|lines| - 1])
  }

  /** What the monitor keeps between polls: the text it last saw, its session flag and the
      code of the session. */
  datatype Seen = Seen(text: string, active: bool, code: Option<string>)

  function Update(s: Seen, r: Reading): Seen {
    if r.lifecycle == Some(true) then
      s.(active := true,
         code := if r.registered.Some? then r.registered else if s.active then s.code else None)
    else if r.lifecycle == Some(false) && s.active then s.(active := false, code := None)
    else s
  }

  /** One poll of a running daemon whose full log is `log`. */
  function Poll(s: Seen, log: seq<string>): Seen {
    var tail := Handover(Join(Last(Buffer(log), TAIL)));
    var text := if tail.Some? then tail.value else s.text;
    Update(s.(text := text), Read(Split(text)))
  }

  class Monitor {
    var hasHandle: bool
    var recentStderr: string
    var wtSessionActive: bool
    var wtSessionSas: Option<string>

    function Value(): Seen
      reads this
    {
      Seen(recentStderr, wtSessionActive, wtSessionSas)
    }

    constructor ()
      ensures hasHandle && Value() == Seen("", false, None) && Settled(Value())
    {
      hasHandle, recentStderr, wtSessionActive, wtSessionSas := true, "", false, None;
    }

    /** Parses the tail line by line. */
    method Parse() returns (latest: Option<bool>, registered: Option<string>)
      ensures latest == Read(Split(recentStderr)).lifecycle && registered == Read(Split(recentStderr)).registered
    {
      latest, registered := None, None;
      var pending: Option<string> := None;
      var pieces := Split(recentStderr);
      for i := 0 to |pieces|
        invariant Reading(latest, pending, registered) == Read(pieces[..i])
      {
        assert pieces[..i + 1][..i] == pieces[..i];
        var code := PrintedCode(pieces[i]);
        if code.Some? { pending := code; }
        var reported := Lifecycle(pieces[i]);
        if reported == Some(true) {
          latest, registered := Some(true), pending;
        } else if reported == Some(false) {
          latest, registered := Some(false), None;
        }
      }
      assert pieces[..|pieces|] == pieces;
    }

    method PollOnce(buffer: StderrBuffer, running: bool)
      requires buffer.Valid()
      modifies this
      ensures !old(hasHandle) ==> Value() == old(Value()) && !hasHandle
      ensures old(hasHandle) ==> hasHandle == running
      ensures old(hasHandle) ==>
                Value() == (if running then Poll(old(Value()), buffer.log)
                            else Poll(old(Value()), buffer.log).(active := false, code := None))
    {
      if !hasHandle { return; }
      var tail := buffer.Recent(TAIL);
      if tail.Some? { recentStderr := tail.value; }
      var latest, registered := Parse();
      if latest == Some(true) {
        if !wtSessionActive { wtSessionActive, wtSessionSas := true, None; }
        if registered.Some? && wtSessionSas != registered { wtSessionSas := registered; }
      } else if latest == Some(false) && wtSessionActive {
        wtSessionActive, wtSessionSas := false, None;
      }
      if !running {
        wtSessionActive, wtSessionSas, hasHandle := false, None, false;
      }
    }
  }

  /** The flag depends on the last session line read, whatever codes are printed. */
  lemma {:induction false} ReadFindsTheLastLifecycle(lines: seq<string>)
    ensures Read(lines).lifecycle == LastLifecycle(lines)
  {
    if lines != [] { ReadFindsTheLastLifecycle(lines[..|lines| - 1]); }
  }

  ghost predicate IsCode(code: Option<string>) { code.Some? ==> |code.value| == CODE_LENGTH }

  lemma {:induction false} ReadFindsCodes(lines: seq<string>)
    ensures IsCode(Read(lines).pending) && IsCode(Read(lines).registered)
  {
    if lines != [] { ReadFindsCodes(lines[..|lines| - 1]); }
  }

  // ---- Following a daemon over many polls ----

  /** The log made of the batches of lines that arrived between polls. */
  function Log(batches: seq<seq<string>>): seq<string> {
    if batches == [] then [] else Log(batches[..|batches| - 1]) + batches[|batches| - 1]
  }

  /** A poll after each batch. */
  function PollEach(s: Seen, batches: seq<seq<string>>): Seen {
    if batches == [] then s else Poll(PollEach(s, batches[..|batches| - 1]), Log(batches))
  }

  ghost predicate CodeNeedsSession(s: Seen) { (s.code.Some? ==> s.active) && IsCode(s.code) }

  lemma PollKeepsCodes(s: Seen, log: seq<string>)
    requires CodeNeedsSession(s)
    ensures CodeNeedsSession(Poll(s, log))
  {
    ReadFindsCodes(Split(Poll(s, log).text));
  }

  /** No poll of any run shows a code without a session, or a code of another length. */
  lemma {:induction false} CodesBelongToSessions(s: Seen, batches: seq<seq<string>>)
    requires CodeNeedsSession(s)
    ensures CodeNeedsSession(PollEach(s, batches))
  {
    if batches != [] {
      CodesBelongToSessions(s, batches[..|batches| - 1]);
      PollKeepsCodes(PollEach(s, batches[..|batches| - 1]), Log(batches));
    }
  }

  ghost predicate HasNul(lines: seq<string>) { exists x :: x in lines && '\0' in x }

  /** Captured lines hold no line feed. */
  ghost predicate AreLines(lines: seq<string>) { forall x :: x in lines ==> IsLine(x) }

  /** Reading the last text again would change nothing. */
  ghost predicate Settled(s: Seen) { Or(LastLifecycle(Split(s.text)), s.active) == s.active }

  lemma PollReadsItsText(s: Seen, log: seq<string>)
    ensures Poll(s, log).active == Or(LastLifecycle(Split(Poll(s, log).text)), s.active)
    ensures Settled(Poll(s, log))
  {
    ReadFindsTheLastLifecycle(Split(Poll(s, log).text));
  }

  /** A poll reads the last 30 lines of the full log, or, if there is a NUL among them, its
      previous text. */
  lemma PollOfALog(s: Seen, log: seq<string>)
    requires AreLines(Last(log, TAIL)) && Settled(s)
    ensures Poll(s, log).active ==
            if HasNul(Last(log, TAIL)) then s.active else Or(LastLifecycle(Last(log, TAIL)), s.active)
  {
    PollReadsItsText(s, log);
    RecentLinesAreExact(log, TAIL);
    var tail := Last(log, TAIL);
    JoinHasNoNul(tail);
    if !HasNul(tail) {
      SplitJoined(tail);
      LastLifecycleOfNonEmpty(tail);
    }
  }

  /** What the flag ought to be: the last session line of the log, or what it began with. */
  function Truth(log: seq<string>, initial: bool): bool { Or(LastLifecycle(log), initial) }

  /** A poll after `batch` can see what `batch` did: its last session line is among the 30
      lines read and none of these holds a NUL, or it does not change the truth. */
  ghost predicate IsVisible(before: seq<string>, batch: seq<string>, initial: bool) {
    || (!HasNul(Last(before + batch, TAIL)) && LastLifecycle(Last(batch, TAIL)).Some?)
    || Truth(before + batch, initial) == Truth(before, initial)
  }

  lemma EndOfSum(a: seq<string>, b: seq<string>, n: nat)
    ensures Last(a + b, n) == if n <= |b| then Last(b, n) else Last(a, n - |b|) + b
  {}

  /** The last session line of the end of a log, if there is one, is that of the log. */
  lemma LastLifecycleOfTheEnd(log: seq<string>, n: nat)
    ensures LastLifecycle(Last(log, n)).Some? ==> LastLifecycle(log) == LastLifecycle(Last(log, n))
  {
    LastIsTheEnd(log, n);
    LastLifecycleConcat(log[..|log| - |Last(log, n)|], Last(log, n));
  }

  /** What the 30 lines read after a batch say. */
  lemma TailOfABatch(before: seq<string>, batch: seq<string>)
    ensures var tail := LastLifecycle(Last(before + batch, TAIL));
            && (tail.Some? ==> LastLifecycle(before + batch) == tail)
            && (LastLifecycle(Last(batch, TAIL)).Some? ==> tail.Some?)
            && (tail.Some? && LastLifecycle(Last(batch, TAIL)).None? ==>
                  LastLifecycle(batch).None? && LastLifecycle(before) == tail)
            && (LastLifecycle(Last(batch, TAIL)).None? && LastLifecycle(batch).Some? ==> tail.None?)
  {
    LastLifecycleOfTheEnd(before + batch, TAIL);
    EndOfSum(before, batch, TAIL);
    if |batch| < TAIL {
      LastLifecycleConcat(Last(before, TAIL - |batch|), batch);
      LastLifecycleConcat(before, batch);
    }
  }

  /** A poll of a right and settled monitor is right exactly if the batch is visible. */
  lemma PollIsRightExactly(s: Seen, before: seq<string>, batch: seq<string>, initial: bool)
    requires AreLines(before + batch)
    requires s.active == Truth(before, initial) && Settled(s)
    ensures Poll(s, before + batch).active == Truth(before + batch, initial) <==> IsVisible(before, batch, initial)
    ensures Settled(Poll(s, before + batch))
  {
    var log := before + batch;
    forall x | x in Last(log, TAIL) ensures x in log {}
    PollOfALog(s, log);
    PollReadsItsText(s, log);
    TailOfABatch(before, batch);
    LastLifecycleConcat(before, batch);
  }

  ghost predicate RightAfter(s: Seen, batches: seq<seq<string>>, i: nat)
    requires i <= |batches|
  {
    PollEach(s, batches[..i]).active == Truth(Log(batches[..i]), s.active)
  }

  ghost predicate VisibleAt(batches: seq<seq<string>>, i: nat, initial: bool)
    requires i < |batches|
  {
    IsVisible(Log(batches[..i]), batches[i], initial)
  }

  ghost predicate AllRight(s: Seen, batches: seq<seq<string>>) {
    forall i :: 0 <= i <= |batches| ==> RightAfter(s, batches, i)
  }

  ghost predicate AllVisible(batches: seq<seq<string>>, initial: bool) {
    forall i :: 0 <= i < |batches| ==> VisibleAt(batches, i, initial)
  }

  lemma PrefixAt(s: Seen, batches: seq<seq<string>>, n: nat, i: nat)
    requires i <= n <= |batches|
    ensures RightAfter(s, batches[..n], i) == RightAfter(s, batches, i)
    ensures i < n ==> VisibleAt(batches[..n], i, s.active) == VisibleAt(batches, i, s.active)
  {
    assert batches[..n][..i] == batches[..i];
  }

  lemma PrefixesOfARun(s: Seen, batches: seq<seq<string>>)
    requires batches != []
    ensures var n := |batches| - 1;
            && (AllRight(s, batches) <==> AllRight(s, batches[..n]) && RightAfter(s, batches, n + 1))
            && (AllVisible(batches, s.active) <==>
                  AllVisible(batches[..n], s.active) && VisibleAt(batches, n, s.active))
  {
    var n := |batches| - 1;
    forall i | 0 <= i <= n
      ensures RightAfter(s, batches[..n], i) == RightAfter(s, batches, i)
      ensures i < n ==> VisibleAt(batches[..n], i, s.active) == VisibleAt(batches, i, s.active)
    {
      PrefixAt(s, batches, n, i);
    }
    if AllRight(s, batches[..n]) && RightAfter(s, batches, n + 1) {
      forall i | 0 <= i <= n + 1 ensures RightAfter(s, batches, i) {
        if i <= n { assert RightAfter(s, batches[..n], i); }
      }
    }
    if AllVisible(batches[..n], s.active) && VisibleAt(batches, n, s.active) {
      forall i | 0 <= i < n + 1 ensures VisibleAt(batches, i, s.active) {
        if i < n { assert VisibleAt(batches[..n], i, s.active); }
      }
    }
  }

  /** The flag is right after every poll of a run exactly if every batch is visible. */
  lemma {:induction false} EveryPollIsRightExactly(s: Seen, batches: seq<seq<string>>)
    requires AreLines(Log(batches)) && Settled(s)
    ensures AllRight(s, batches) <==> AllVisible(batches, s.active)
    ensures Settled(PollEach(s, batches))
  {
    if batches != [] {
      var init, batch := batches[..|batches| - 1], batches[|batches| - 1];
      EveryPollIsRightExactly(s, init);
      PrefixesOfARun(s, batches);
      PollReadsItsText(PollEach(s, init), Log(batches));
      assert batches[..|batches|] == batches;
      if AllRight(s, init) {
        assert RightAfter(s, init, |init|) && init[..|init|] == init;
        PollIsRightExactly(PollEach(s, init), Log(init), batch, s.active);
      }
    } else {
      assert batches[..0] == batches;
    }
  }

  ghost predicate ShortCleanBatches(batches: seq<seq<string>>) {
    forall b :: b in batches ==> |b| <= 30 && AreLines(b) && !HasNul(b)
  }

  lemma {:induction false} CleanLog(batches: seq<seq<string>>)
    requires ShortCleanBatches(batches)
    ensures AreLines(Log(batches)) && !HasNul(Log(batches))
  {
    if batches != [] { CleanLog(batches[..|batches| - 1]); }
  }

  lemma ShortBatchIsVisible(before: seq<string>, batch: seq<string>, initial: bool)
    requires |batch| <= TAIL && !HasNul(before) && !HasNul(batch)
    ensures IsVisible(before, batch, initial)
  {
    assert forall x :: x in Last(before + batch, TAIL) ==> x in before || x in batch;
    LastLifecycleConcat(before, batch);
  }

  /** If at most 30 lines arrive between polls and none holds a NUL, every batch is visible:
      the flag always says what the last session line of the whole log says, although only 30
      lines are read each time. */
  lemma TailPollingFollowsTheFullLog(s: Seen, batches: seq<seq<string>>)
    requires ShortCleanBatches(batches) && Settled(s)
    ensures AllVisible(batches, s.active) && AllRight(s, batches)
  {
    CleanLog(batches);
    EveryPollIsRightExactly(s, batches);
    forall i | 0 <= i < |batches| ensures VisibleAt(batches, i, s.active) {
      CleanLog(batches[..i]);
      ShortBatchIsVisible(Log(batches[..i]), batches[i], s.active);
    }
  }

  /** Thirty is the limit: after any log, a session line that changes the truth and is
      followed by thirty or more others is missed. */
  lemma ALongerBatchCanHideASession(
    s: Seen, before: seq<string>, line: string, others: seq<string>, initial: bool)
    requires AreLines(before + ([line] + others)) && s.active == Truth(before, initial) && Settled(s)
    requires Lifecycle(line) == Some(!s.active) && LastLifecycle(others) == None && |others| >= 30
    ensures Poll(s, before + ([line] + others)).active != Truth(before + ([line] + others), initial)
  {
    var batch := [line] + others;
    LastLifecycleConcat([line], others);
    assert LastLifecycle([line]) == Lifecycle(line);
    LastLifecycleConcat(before, batch);
    EndOfSum([line], others, TAIL);
    LastLifecycleOfTheEnd(others, TAIL);
    PollIsRightExactly(s, before, batch, initial);
  }

  /** So is a session line that changes the truth, with a line holding a NUL right after it. */
  lemma ANulLineCanHideASession(s: Seen, before: seq<string>, line: string, nul: string, initial: bool)
    requires AreLines(before + [line, nul]) && s.active == Truth(before, initial) && Settled(s)
    requires Lifecycle(line) == Some(!s.active) && Lifecycle(nul) == None && '\0' in nul
    ensures Poll(s, before + [line, nul]).active != Truth(before + [line, nul], initial)
  {
    var batch := [line, nul];
    assert batch == [line] + [nul];
    LastLifecycleConcat([line], [nul]);
    assert LastLifecycle([line]) == Lifecycle(line) && LastLifecycle([nul]) == None;
    LastLifecycleConcat(before, batch);
    EndOfSum(before, batch, TAIL);
    assert nul in batch;
    PollIsRightExactly(s, before, batch, initial);
  }

  // ---- The same with the texts of the lines ----

  ghost predicate Registers(line: string) { Occurs(line, "ACTIVE_SESSION registered") }

  ghost predicate Clears(line: string) { !Registers(line) && Occurs(line, "ACTIVE_SESSION cleared") }

  /** The lines leave a session open: one registers it and none clears it afterwards, or it
      was open before and none clears it. */
  ghost predicate LeavesOpen(lines: seq<string>, before: bool) {
    || (exists i :: 0 <= i < |lines| && Registers(lines[i]) && NoneClears(lines, i + 1))
    || (before && NoneClears(lines, 0))
  }

  ghost predicate NoneClears(lines: seq<string>, from: nat) {
    forall j :: from <= j < |lines| ==> !Clears(lines[j])
  }

  lemma {:induction false} TruthExactly(lines: seq<string>, before: bool)
    ensures Truth(lines, before) <==> LeavesOpen(lines, before)
  {
    if lines != [] {
      var n := |lines| - 1;
      TruthExactly(lines[..n], before);
      LifecycleExactly(lines[n]);
      if Registers(lines[n]) {
        assert NoneClears(lines, n + 1);
      } else if !Clears(lines[n]) {
        forall i | 0 <= i <= n ensures NoneClears(lines, i) <==> NoneClears(lines[..n], i) {
          NoneClearsInPrefix(lines, n, i);
        }
        OpenInPrefix(lines, before);
      }
    }
  }

  lemma NoneClearsInPrefix(lines: seq<string>, n: nat, i: nat)
    requires n + 1 == |lines| && i <= n && !Clears(lines[n])
    ensures NoneClears(lines, i) <==> NoneClears(lines[..n], i)
  {
    if NoneClears(lines[..n], i) {
      forall j | i <= j < |lines| ensures !Clears(lines[j]) {
        if j < n { assert lines[..n][j] == lines[j]; }
      }
    }
  }

  /** A line that neither registers nor clears changes nothing. */
  lemma OpenInPrefix(lines: seq<string>, before: bool)
    requires lines != [] && !Registers(lines[|lines| - 1]) && !Clears(lines[|lines| - 1])
    ensures LeavesOpen(lines, before) <==> LeavesOpen(lines[..|lines| - 1], before)
  {
    var n := |lines| - 1;
    NoneClearsInPrefix(lines, n, 0);
    forall i | 0 <= i < n
      ensures Registers(lines[i]) && NoneClears(lines, i + 1) <==>
              Registers(lines[..n][i]) && NoneClears(lines[..n], i + 1)
    {
      NoneClearsInPrefix(lines, n, i + 1);
    }
    if i :| 0 <= i < |lines| && Registers(lines[i]) && NoneClears(lines, i + 1) {
      assert Registers(lines[..n][i]) && NoneClears(lines[..n], i + 1);
    }
    if i :| 0 <= i < n && Registers(lines[..n][i]) && NoneClears(lines[..n], i + 1) {
      assert Registers(lines[i]) && NoneClears(lines, i + 1);
    }
  }

  /** If at most 30 lines arrive between polls and none holds a NUL, then after every poll of
      every run the flag says whether the whole log leaves a session open. */
  lemma FlagTellsTheLog(s: Seen, batches: seq<seq<string>>)
    requires ShortCleanBatches(batches) && Settled(s)
    ensures PollEach(s, batches).active <==> LeavesOpen(Log(batches), s.active)
  {
    TailPollingFollowsTheFullLog(s, batches);
    TruthExactly(Log(batches), s.active);
    assert RightAfter(s, batches, |batches|) && batches[..|batches|] == batches;
  }

  // ---- The code of the session ----

  lemma {:induction false} ReadOfNonEmpty(lines: seq<string>)
    ensures Read(Keep(NonEmpty(), lines)) == Read(lines)
  {
    if lines != [] {
      var n := |lines| - 1;
      var kept := Keep(NonEmpty(), lines[..n]);
      ReadOfNonEmpty(lines[..n]);
      if lines[n] == "" {
        assert Keep(NonEmpty(), lines) == kept;
        assert PrintedCode(lines[n]) == None && Lifecycle(lines[n]) == None;
      } else {
        assert (kept + [lines[n]])[..|kept|] == kept;
      }
    }
  }

  /** A poll without NULs works on the last 30 lines of the full log. */
  lemma PollReadsTheTail(s: Seen, log: seq<string>)
    requires AreLines(Last(log, TAIL)) && !HasNul(Last(log, TAIL))
    ensures var tail := Last(log, TAIL); Poll(s, log) == Update(s.(text := Join(tail)), Read(tail))
  {
    RecentLinesAreExact(log, TAIL);
    var tail := Last(log, TAIL);
    JoinHasNoNul(tail);
    SplitJoined(tail);
    ReadOfNonEmpty(tail);
  }

  /** The text kept after a poll: the last 30 lines of the full log, or the text kept before
      if one of them holds a NUL. */
  lemma PollText(s: Seen, log: seq<string>)
    ensures Poll(s, log).text == if HasNul(Last(log, 30)) then s.text else Join(Last(log, 30))
  {
    RecentLinesAreExact(log, TAIL);
    JoinHasNoNul(Last(log, TAIL));
  }

  /** Line `r` is the last one that registers or clears a session. */
  ghost predicate LastReport(lines: seq<string>, r: nat) {
    && r < |lines| && (Registers(lines[r]) || Clears(lines[r]))
    && forall j :: r < j < |lines| ==> !Registers(lines[j]) && !Clears(lines[j])
  }

  /** `code` is the last code printed up to line `r`. */
  ghost predicate LastCodeBy(lines: seq<string>, r: nat, code: Option<string>)
    requires r < |lines|
  {
    if code.None? then forall j :: 0 <= j <= r ==> PrintedCode(lines[j]).None?
    else exists k :: 0 <= k <= r && PrintedCode(lines[k]) == code
                     && forall j :: k < j <= r ==> PrintedCode(lines[j]).None?
  }

  lemma {:induction false} PendingExactly(lines: seq<string>, code: Option<string>)
    requires lines != [] && LastCodeBy(lines, |lines| - 1, code)
    ensures Read(lines).pending == code
  {
    var n := |lines| - 1;
    if PrintedCode(lines[n]).None? && n > 0 {
      if code.Some? {
        var k :| 0 <= k <= n && PrintedCode(lines[k]) == code && forall j :: k < j <= n ==> PrintedCode(lines[j]).None?;
        assert k < n && lines[..n][k] == lines[k];
      }
      assert forall j :: 0 <= j < n ==> lines[..n][j] == lines[j];
      assert LastCodeBy(lines[..n], n - 1, code);
      PendingExactly(lines[..n], code);
    }
  }

  /** Reading finds the last report, and the last code printed up to it if it registers. */
  lemma {:induction false} ReadExactly(lines: seq<string>, r: nat, code: Option<string>)
    requires LastReport(lines, r) && LastCodeBy(lines, r, code)
    ensures Read(lines).lifecycle == Some(Registers(lines[r]))
    ensures Read(lines).registered == if Registers(lines[r]) then code else None
  {
    var n := |lines| - 1;
    LifecycleExactly(lines[n]);
    if r == n {
      PendingExactly(lines, code);
    } else {
      assert forall j :: 0 <= j < n ==> lines[..n][j] == lines[j];
      ReadExactly(lines[..n], r, code);
    }
  }

  /** The code shown after a poll whose 30 lines hold no NUL: if their last report registers a
      session, the last code printed up to that report, or, if there is none, the code of the
      session that was already shown; if it clears one, no code. */
  lemma CodeTellsTheTail(s: Seen, log: seq<string>, r: nat, code: Option<string>)
    requires AreLines(Last(log, 30)) && !HasNul(Last(log, 30)) && CodeNeedsSession(s)
    requires LastReport(Last(log, 30), r) && LastCodeBy(Last(log, 30), r, code)
    ensures var s' := Poll(s, log);
            && (s'.active <==> Registers(Last(log, 30)[r]))
            && s'.code == (if !s'.active then None else if code.Some? then code else s.code)
  {
    PollReadsTheTail(s, log);
    ReadExactly(Last(log, TAIL), r, code);
  }
}
