/** The capped queue of daemon events, drained as one text. */
module EventQueue {
  import opened Wire
  import opened Filters
  import opened Lines

  const CAPACITY: nat := 1000

  function AfterPush(queue: seq<string>, event: string): seq<string> {
    if |queue| < CAPACITY then queue + [event] else queue
  }

  class Queue {
    var events: seq<string>
    ghost var pushed: seq<string>  // everything pushed since the last drain

    ghost predicate Valid()
      reads this
    {
      events == First(pushed, CAPACITY)
    }

    constructor ()
      ensures Valid() && pushed == []
    {
      events, pushed := [], [];
    }

    method Push(event: string)
      requires Valid()
      modifies this
      ensures Valid() && pushed == old(pushed) + [event] && events == AfterPush(old(events), event)
    {
      if |events| < CAPACITY { events := events + [event]; }
      pushed := pushed + [event];
    }

    method Drain() returns (text: Option<string>)
      requires Valid()
      modifies this
      ensures Valid() && pushed == [] && events == []
      ensures text == (if old(pushed) == [] then None else Handover(Join(First(old(pushed), CAPACITY))))
    {
      if events == [] {
        pushed := [];
        return None;
      }
      var joined := Join(events);
      events, pushed := [], [];
      return Handover(joined);
    }
  }

  /** A serialised event: not empty, on one line, without NUL. */
  predicate IsEventText(s: string) { s != [] && IsLine(s) && '\0' !in s }

  /** Each drain hands over the first thousand events pushed since the previous one, and
      splitting its text gives exactly those events. */
  lemma DrainsSplitBack(pushed: seq<string>)
    requires pushed != [] && forall s :: s in pushed ==> IsEventText(s)
    ensures Handover(Join(First(pushed, CAPACITY))).Some?
    ensures Split(Handover(Join(First(pushed, CAPACITY))).value) == First(pushed, 1000)
  {
    var kept := First(pushed, CAPACITY);
    assert forall s :: s in kept ==> s in pushed;
    JoinHasNoNul(kept);
    SplitJoined(kept);
    KeepAll(NonEmpty(), kept);
  }
}
