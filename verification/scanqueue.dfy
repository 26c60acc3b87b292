/** The queue of scans: a limiter with a changing limit whose waiters are let
    in first come first served, and callers that wait, run and cancel. */
module ScanQueue {
  import opened Common

  const MAX_SCANS_LIMIT := 64

  function ClampScans(n: int): int {
    Min(Max(n, 1), MAX_SCANS_LIMIT)
  }

  // ---------------------------------------------------------------------
  // The limiter.

  /** The limiter's fields: its slots, how many run, and the channels of the
      waiting callers, oldest first. */
  datatype Slots = Slots(limit: int, running: int, waiters: seq<nat>)

  /** How many waiters are let in. */
  function FreeFor(s: Slots): (n: nat)
    ensures n <= |s.waiters|
  {
    Max(Min(s.limit - s.running, |s.waiters|), 0)
  }

  /** The slots once the oldest waiters are let in while any is free. */
  function Admitted(s: Slots): Slots {
    Slots(s.limit, s.running + FreeFor(s), s.waiters[FreeFor(s)..])
  }

  /** The waiters let in. */
  function LetIn(s: Slots): seq<nat> {
    s.waiters[..FreeFor(s)]
  }

  function Without(waiters: seq<nat>, i: nat): seq<nat>
    requires i < |waiters|
  {
    waiters[..i] + waiters[i + 1..]
  }

  class SlotLimiter {
    var limit: int
    var running: int
    var waiters: seq<nat>
    /** The channels closed so far, in order. */
    ghost var closed: seq<nat>

    ghost function Fields(): Slots
      reads this`limit, this`running, this`waiters
    {
      Slots(limit, running, waiters)
    }

    constructor (n: int)
      ensures Fields() == Slots(ClampScans(n), 0, []) && closed == []
      ensures limit == if n < 1 then 1 else if n > 64 then 64 else n
    {
      limit, running, waiters, closed := ClampScans(n), 0, [], [];
    }

    /** Moves the head of the queue to the running callers, as far as the limit
        goes. */
    method AdmitLocked()
      modifies this
      ensures Fields() == Admitted(old(Fields())) && closed == old(closed) + LetIn(old(Fields()))
    {
      ghost var s, n := Fields(), FreeFor(Fields());
      assert s.waiters[0..] == s.waiters;
      assert old(closed) + s.waiters[..0] == old(closed);
      ghost var k := 0;
      while running < limit && |waiters| > 0
        invariant 0 <= k <= n && running == s.running + k && limit == s.limit
        invariant waiters == s.waiters[k..] && closed == old(closed) + s.waiters[..k]
        decreases |waiters|
      {
        assert s.waiters[..k + 1] == s.waiters[..k] + [s.waiters[k]];
        var ch := waiters[0];
        waiters, running := waiters[1..], running + 1;
        closed, k := closed + [ch], k + 1;
      }
    }

    /** The first part of acquire: a slot at once when one is free and no one
        waits, else a place in the queue with the caller's channel. */
    method Enter(ch: nat) returns (got: bool)
      modifies this
      ensures got <==> old(running < limit && waiters == [])
      ensures Fields() == if got then old(Fields()).(running := old(running) + 1)
                          else old(Fields()).(waiters := old(waiters) + [ch])
      ensures closed == old(closed)
    {
      if running < limit && |waiters| == 0 {
        running := running + 1;
        return true;
      }
      waiters := waiters + [ch];
      return false;
    }

    /** How acquire ends for a canceled caller: its place in the queue goes,
        or, when it was let in meanwhile, its slot does. */
    method Cancel(ch: nat)
      modifies this
      ensures if ch in old(waiters)
              then exists i :: 0 <= i < |old(waiters)| && old(waiters)[i] == ch
                     && Fields() == old(Fields()).(waiters := Without(old(waiters), i)) && closed == old(closed)
              else
                var freed := old(Fields()).(running := old(running) - 1);
                Fields() == Admitted(freed) && closed == old(closed) + LetIn(freed)
    {
      for i := 0 to |waiters|
        invariant waiters == old(waiters) && Fields() == old(Fields()) && closed == old(closed)
        invariant forall j :: 0 <= j < i ==> waiters[j] != ch
      {
        if waiters[i] == ch {
          waiters := Without(waiters, i);
          return;
        }
      }
      Release();
    }

    /** One caller fewer is running; the head of the queue moves up. */
    method Release()
      modifies this
      ensures var freed := old(Fields()).(running := old(running) - 1);
              Fields() == Admitted(freed) && closed == old(closed) + LetIn(freed)
    {
      running := running - 1;
      AdmitLocked();
    }

    /** Changes the number of slots. */
    method SetLimit(n: int)
      modifies this
      ensures var changed := old(Fields()).(limit := ClampScans(n));
              Fields() == Admitted(changed) && closed == old(closed) + LetIn(changed)
      ensures limit == if n < 1 then 1 else if n > 64 then 64 else n
    {
      limit := ClampScans(n);
      AdmitLocked();
    }
  }

  // ---------------------------------------------------------------------
  // The callers.

  /** Where a caller of acquire is: in the queue; let in, its channel closed,
      but not yet noticed; running; or gone, its slot given back or never
      had. */
  datatype Caller = Waiting | LetInNow | Running | Gone

  /** The limiter and every caller so far, by arrival; a caller's channel is
      its number. */
  datatype System = System(slots: Slots, callers: seq<Caller>)

  /** The callers once the channels of some of them are closed. */
  function Closed(callers: seq<Caller>, channels: seq<nat>): seq<Caller> {
    seq(|callers|, i requires 0 <= i < |callers| => if i in channels then LetInNow else callers[i])
  }

  datatype Step = Arrive | Notice(c: nat) | Cancel(c: nat) | Finish(c: nat) | SetLimit(n: int)

  /** The system once slots changed to s before waiters are let in. */
  function LetInAfter(callers: seq<Caller>, s: Slots): System {
    System(Admitted(s), Closed(callers, LetIn(s)))
  }

  ghost predicate Next(x: System, y: System, step: Step) {
    match step
    case Arrive =>
      if x.slots.running < x.slots.limit && x.slots.waiters == []
      then y == System(x.slots.(running := x.slots.running + 1), x.callers + [Running])
      else y == System(x.slots.(waiters := x.slots.waiters + [|x.callers|]), x.callers + [Waiting])
    case Notice(c) =>
      c < |x.callers| && x.callers[c] == LetInNow && y == x.(callers := x.callers[c := Running])
    case Cancel(c) =>
      c < |x.callers| &&
      (if x.callers[c] == Waiting
       then exists i :: 0 <= i < |x.slots.waiters| && x.slots.waiters[i] == c
              && y == System(x.slots.(waiters := Without(x.slots.waiters, i)), x.callers[c := Gone])
       else x.callers[c] == LetInNow
            && y == LetInAfter(x.callers[c := Gone], x.slots.(running := x.slots.running - 1)))
    case Finish(c) =>
      && c < |x.callers| && x.callers[c] == Running
      && y == LetInAfter(x.callers[c := Gone], x.slots.(running := x.slots.running - 1))
    case SetLimit(n) => y == LetInAfter(x.callers, x.slots.(limit := ClampScans(n)))
  }

  predicate HasSlot(c: Caller) {
    c == LetInNow || c == Running
  }

  /** The callers that have a slot. */
  function SlotsHeld(callers: seq<Caller>): nat {
    if |callers| == 0 then 0
    else SlotsHeld(callers[..|callers| - 1]) + (if HasSlot(callers[|callers| - 1]) then 1 else 0)
  }

  /** waiters are the callers that wait, in order of arrival. */
  ghost predicate Queued(waiters: seq<nat>, callers: seq<Caller>) {
    && (forall i, j :: 0 <= i < j < |waiters| ==> waiters[i] < waiters[j])
    && (forall i :: 0 <= i < |waiters| ==> waiters[i] < |callers| && callers[waiters[i]] == Waiting)
    && (forall c: nat :: c < |callers| && callers[c] == Waiting ==> c in waiters)
  }

  ghost predicate Inv(x: System) {
    && 1 <= x.slots.limit <= MAX_SCANS_LIMIT
    && x.slots.running == SlotsHeld(x.callers)
    && Queued(x.slots.waiters, x.callers)
    && (x.slots.waiters != [] ==> x.slots.running >= x.slots.limit)
  }

  predicate Init(x: System) {
    1 <= x.slots.limit <= MAX_SCANS_LIMIT && x.slots.running == 0 && x.slots.waiters == [] && x.callers == []
  }

  lemma {:induction false} SlotsHeldOfUpdate(callers: seq<Caller>, c: nat, to': Caller)
    requires c < |callers|
    ensures SlotsHeld(callers[c := to']) == SlotsHeld(callers)
            + (if HasSlot(to') then 1 else 0) - (if HasSlot(callers[c]) then 1 else 0)
    decreases |callers|
  {
    var n := |callers| - 1;
    if c < n {
      SlotsHeldOfUpdate(callers[..n], c, to');
      assert callers[c := to'][..n] == callers[..n][c := to'];
    } else {
      assert callers[c := to'][..n] == callers[..n];
    }
  }

  lemma SlotsHeldOfMore(callers: seq<Caller>, c: Caller)
    ensures SlotsHeld(callers + [c]) == SlotsHeld(callers) + (if HasSlot(c) then 1 else 0)
  {
    assert (callers + [c])[..|callers|] == callers;
  }

  /** Closing the channels of waiting callers gives each of them a slot. */
  lemma {:induction false} SlotsHeldOfClosed(callers: seq<Caller>, channels: seq<nat>)
    requires forall i, j :: 0 <= i < j < |channels| ==> channels[i] < channels[j]
    requires forall i :: 0 <= i < |channels| ==> channels[i] < |callers| && callers[channels[i]] == Waiting
    ensures SlotsHeld(Closed(callers, channels)) == SlotsHeld(callers) + |channels|
    decreases |channels|
  {
    if |channels| == 0 {
      assert Closed(callers, channels) == callers;
    } else {
      var n := |channels| - 1;
      SlotsHeldOfClosed(callers, channels[..n]);
      var before := Closed(callers, channels[..n]);
      assert channels == channels[..n] + [channels[n]];
      assert channels[n] !in channels[..n];
      assert Closed(callers, channels) == before[channels[n] := LetInNow];
      SlotsHeldOfUpdate(before, channels[n], LetInNow);
    }
  }

  /** Waiters let in as slots are free: the queue is empty after, or every
      slot is taken; each has a slot, and those left still wait. */
  lemma LetInKeeps(callers: seq<Caller>, s: Slots)
    requires 1 <= s.limit <= MAX_SCANS_LIMIT && s.running == SlotsHeld(callers) && Queued(s.waiters, callers)
    ensures Inv(LetInAfter(callers, s))
  {
    LetInQueued(callers, s);
    LetInWaits(s, callers);
    SlotsHeldOfClosed(callers, LetIn(s));
    hide SlotsHeld, Queued, Closed;
  }

  lemma LetInWaits(s: Slots, callers: seq<Caller>)
    requires Queued(s.waiters, callers)
    ensures var channels := LetIn(s);
            && (forall i, j :: 0 <= i < j < |channels| ==> channels[i] < channels[j])
            && (forall i :: 0 <= i < |channels| ==> channels[i] < |callers| && callers[channels[i]] == Waiting)
  {
  }

  /** The waiters left still wait, and no other caller does. */
  lemma LetInQueued(callers: seq<Caller>, s: Slots)
    requires Queued(s.waiters, callers)
    ensures Queued(s.waiters[FreeFor(s)..], Closed(callers, LetIn(s)))
  {
    hide FreeFor, LetIn;
    var n, after, left := FreeFor(s), Closed(callers, LetIn(s)), s.waiters[FreeFor(s)..];
    forall i | 0 <= i < |left|
      ensures left[i] < |after| && after[left[i]] == Waiting
    {
      assert left[i] == s.waiters[n + i];
      NotInPrefix(s, n + i);
    }
    forall c: nat | c < |after| && after[c] == Waiting
      ensures c in left
    {
      LeftWaits(callers, s, c);
    }
    assert forall i :: 0 <= i < |left| ==> left[i] == s.waiters[n + i];
    hide Closed;
  }

  /** A caller that still waits is one of the waiters left. */
  lemma LeftWaits(callers: seq<Caller>, s: Slots, c: nat)
    requires Queued(s.waiters, callers) && c < |callers| && Closed(callers, LetIn(s))[c] == Waiting
    ensures c in s.waiters[FreeFor(s)..]
  {
    hide FreeFor;
    var k :| 0 <= k < |s.waiters| && s.waiters[k] == c;
    InPrefix(s, k);
    assert s.waiters[FreeFor(s)..][k - FreeFor(s)] == c;
  }

  lemma NotInPrefix(s: Slots, k: nat)
    requires FreeFor(s) <= k < |s.waiters| && forall i, j :: 0 <= i < j < |s.waiters| ==> s.waiters[i] < s.waiters[j]
    ensures s.waiters[k] !in LetIn(s)
  {
  }

  lemma InPrefix(s: Slots, k: nat)
    requires k < |s.waiters|
    ensures k < FreeFor(s) ==> s.waiters[k] in LetIn(s)
  {
    if k < FreeFor(s) {
      assert LetIn(s)[k] == s.waiters[k];
    }
  }

  lemma ArriveKeeps(x: System, y: System)
    requires Inv(x) && Next(x, y, Arrive)
    ensures Inv(y)
  {
    SlotsHeldOfMore(x.callers, Running);
    SlotsHeldOfMore(x.callers, Waiting);
    hide SlotsHeld;
  }

  /** A waiter that leaves the queue leaves it as it was without it. */
  lemma LeaveKeeps(x: System, y: System, c: nat)
    requires Inv(x) && Next(x, y, Cancel(c)) && x.callers[c] == Waiting
    ensures Inv(y)
  {
    SlotsHeldOfUpdate(x.callers, c, Gone);
    var i: nat :| i < |x.slots.waiters| && x.slots.waiters[i] == c
                  && y == System(x.slots.(waiters := Without(x.slots.waiters, i)), x.callers[c := Gone]);
    WithoutQueued(x.slots.waiters, x.callers, i);
    hide SlotsHeld, Queued, Without;
  }

  lemma WithoutQueued(waiters: seq<nat>, callers: seq<Caller>, i: nat)
    requires Queued(waiters, callers) && i < |waiters|
    ensures waiters[i] < |callers| && Queued(Without(waiters, i), callers[waiters[i] := Gone])
  {
    var left, c := Without(waiters, i), waiters[i];
    assert forall k :: 0 <= k < |left| ==> left[k] == waiters[if k < i then k else k + 1];
    forall d: nat | d < |callers| && d != c && callers[d] == Waiting
      ensures d in left
    {
      var k :| 0 <= k < |waiters| && waiters[k] == d;
      assert left[if k < i then k else k - 1] == d;
    }
  }

  /** A slot given back goes to the oldest waiter. */
  lemma GiveBackKeeps(x: System, y: System, c: nat)
    requires Inv(x) && c < |x.callers| && HasSlot(x.callers[c])
    requires y == LetInAfter(x.callers[c := Gone], x.slots.(running := x.slots.running - 1))
    ensures Inv(y)
  {
    SlotsHeldOfUpdate(x.callers, c, Gone);
    hide SlotsHeld, LetInAfter;
    LetInKeeps(x.callers[c := Gone], x.slots.(running := x.slots.running - 1));
  }

  lemma StepKeeps(x: System, y: System, step: Step)
    requires Inv(x) && Next(x, y, step)
    ensures Inv(y)
  {
    match step
    case Arrive => ArriveKeeps(x, y);
    case Notice(c) =>
      SlotsHeldOfUpdate(x.callers, c, Running);
      hide SlotsHeld;
    case Cancel(c) =>
      if x.callers[c] == Waiting {
        LeaveKeeps(x, y, c);
      } else {
        GiveBackKeeps(x, y, c);
      }
    case Finish(c) => GiveBackKeeps(x, y, c);
    case SetLimit(n) => LetInKeeps(x.callers, x.slots.(limit := ClampScans(n)));
  }

  /** The caller gets a slot in the step. */
  predicate GetsSlot(x: System, y: System, c: nat) {
    c < |y.callers| && HasSlot(y.callers[c]) && (c < |x.callers| ==> !HasSlot(x.callers[c]))
  }

  /** A slot is given only below the limit, and only to a caller before whom
      no one is left waiting. */
  lemma GivenInOrder(x: System, y: System, step: Step, c: nat)
    requires Inv(x) && Next(x, y, step) && GetsSlot(x, y, c)
    ensures y.slots.running <= y.slots.limit
    ensures forall d: nat :: d < c ==> y.callers[d] != Waiting
  {
    hide SlotsHeld, Queued;
    if step == Arrive {
      NoneQueued(x.callers);
    } else if step.SetLimit? {
      LetInOrder(x.callers, x.slots.(limit := ClampScans(step.n)), c);
    } else if step.Finish? || step.Cancel? {
      if x.callers[step.c] != Waiting {
        StillQueued(x.slots.waiters, x.callers, step.c);
        LetInOrder(x.callers[step.c := Gone], x.slots.(running := x.slots.running - 1), c);
      }
    }
  }

  lemma NoneQueued(callers: seq<Caller>)
    requires Queued([], callers)
    ensures forall d: nat :: d < |callers| ==> callers[d] != Waiting
  {
  }

  lemma StillQueued(waiters: seq<nat>, callers: seq<Caller>, c: nat)
    requires Queued(waiters, callers) && c < |callers| && callers[c] != Waiting
    ensures Queued(waiters, callers[c := Gone])
  {
  }

  /** Whoever is let in, no one before it is left waiting, and its slot is
      within the limit. */
  lemma LetInOrder(callers: seq<Caller>, s: Slots, c: nat)
    requires Queued(s.waiters, callers) && c < |callers|
    ensures Closed(callers, LetIn(s))[c] != callers[c] ==>
              && Admitted(s).running <= s.limit
              && forall d: nat :: d < c ==> Closed(callers, LetIn(s))[d] != Waiting
  {
    if Closed(callers, LetIn(s))[c] != callers[c] {
      var k :| 0 <= k < FreeFor(s) && LetIn(s)[k] == c;
      forall d: nat | d < c && callers[d] == Waiting
        ensures d in LetIn(s)
      {
        var j :| 0 <= j < |s.waiters| && s.waiters[j] == d;
        assert s.waiters[k] == c && j < k;
        assert LetIn(s)[j] == d;
      }
    }
  }

  /** No caller waits while one that came after it has a slot. */
  ghost predicate NoOvertaking(x: System) {
    forall c: nat, d: nat :: d < c < |x.callers| && HasSlot(x.callers[c]) ==> x.callers[d] != Waiting
  }

  lemma NoOvertakingStays(x: System, y: System, step: Step)
    requires Inv(x) && NoOvertaking(x) && Next(x, y, step)
    ensures NoOvertaking(y)
  {
    forall c: nat, d: nat | d < c < |y.callers| && HasSlot(y.callers[c])
      ensures y.callers[d] != Waiting
    {
      if GetsSlot(x, y, c) {
        GivenInOrder(x, y, step, c);
      } else {
        NeverWaitsAgain(x, y, step, d);
      }
    }
  }

  /** Only an arriving caller starts to wait. */
  lemma NeverWaitsAgain(x: System, y: System, step: Step, d: nat)
    requires Inv(x) && Next(x, y, step) && d < |x.callers| && x.callers[d] != Waiting
    ensures d < |y.callers| && y.callers[d] != Waiting
  {
    hide SlotsHeld;
  }

  ghost predicate IsRun(run: seq<System>, steps: seq<Step>) {
    && |run| == |steps| + 1 && Init(run[0])
    && forall i :: 0 <= i < |steps| ==> Next(run[i], run[i + 1], steps[i])
  }

  /** In every run of arrivals, cancels, ends and changes of the limit: the
      slots counted are those the callers have; a caller waits only while
      every slot is taken; and no one overtakes a caller that waits. */
  lemma {:induction false} RunKeeps(run: seq<System>, steps: seq<Step>, n: nat)
    requires IsRun(run, steps) && n < |run|
    ensures Inv(run[n]) && NoOvertaking(run[n])
  {
    hide Inv, Next, NoOvertaking;
    if n == 0 {
      InitKeeps(run[0]);
    } else {
      RunKeeps(run, steps, n - 1);
      assert Next(run[n - 1], run[n - 1 + 1], steps[n - 1]);
      StepKeeps(run[n - 1], run[n], steps[n - 1]);
      NoOvertakingStays(run[n - 1], run[n], steps[n - 1]);
    }
  }

  lemma InitKeeps(x: System)
    requires Init(x)
    ensures Inv(x) && NoOvertaking(x)
  {
  }

  lemma {:induction false} NoneHeld(callers: seq<Caller>)
    requires forall c :: 0 <= c < |callers| ==> !HasSlot(callers[c])
    ensures SlotsHeld(callers) == 0
  {
    if |callers| > 0 {
      NoneHeld(callers[..|callers| - 1]);
    }
  }

  /** No slot is lost, whatever cancels raced with admissions: once no caller
      has a slot, none is counted and no one waits. */
  lemma NoSlotIsLost(run: seq<System>, steps: seq<Step>, n: nat)
    requires IsRun(run, steps) && n < |run|
    requires forall c :: 0 <= c < |run[n].callers| ==> !HasSlot(run[n].callers[c])
    ensures run[n].slots.running == 0 && run[n].slots.waiters == []
    ensures forall c :: 0 <= c < |run[n].callers| ==> run[n].callers[c] == Gone
  {
    RunKeeps(run, steps, n);
    NoneHeld(run[n].callers);
    hide SlotsHeld, IsRun, NoOvertaking;
  }

  // ---------------------------------------------------------------------
  // What a caller can always do.

  /** In every state a caller can arrive and the limit be changed; a caller
      that waits can cancel, one let in can notice it or cancel, and one that
      runs can finish. */
  lemma CallersCanGoOn(x: System, c: nat, n: int)
    requires Inv(x)
    ensures Init(System(Slots(if n < 1 then 1 else if n > 64 then 64 else n, 0, []), []))
    ensures (exists y :: Next(x, y, Arrive)) && (exists y :: Next(x, y, SetLimit(n)))
    ensures c < |x.callers| && (x.callers[c] == Waiting || x.callers[c] == LetInNow) ==> exists y :: Next(x, y, Cancel(c))
    ensures c < |x.callers| && x.callers[c] == LetInNow ==> exists y :: Next(x, y, Notice(c))
    ensures c < |x.callers| && x.callers[c] == Running ==> exists y :: Next(x, y, Finish(c))
  {
    hide Admitted, LetIn, Closed, SlotsHeld;
    var arrived := if x.slots.running < x.slots.limit && x.slots.waiters == []
                   then System(x.slots.(running := x.slots.running + 1), x.callers + [Running])
                   else System(x.slots.(waiters := x.slots.waiters + [|x.callers|]), x.callers + [Waiting]);
    assert Next(x, arrived, Arrive);
    assert Next(x, LetInAfter(x.callers, x.slots.(limit := ClampScans(n))), SetLimit(n));
    if c < |x.callers| {
      var back := LetInAfter(x.callers[c := Gone], x.slots.(running := x.slots.running - 1));
      match x.callers[c]
      case Waiting =>
        var i :| 0 <= i < |x.slots.waiters| && x.slots.waiters[i] == c;
        assert Next(x, System(x.slots.(waiters := Without(x.slots.waiters, i)), x.callers[c := Gone]), Cancel(c));
      case LetInNow =>
        assert Next(x, back, Cancel(c));
        assert Next(x, x.(callers := x.callers[c := Running]), Notice(c));
      case Running => assert Next(x, back, Finish(c));
      case Gone =>
    }
  }

  /** A slot given back while a caller waits, at an unchanged limit, goes to
      the caller that waits longest. */
  lemma SlotPassesOn(x: System, y: System, c: nat)
    requires Inv(x) && x.slots.waiters != [] && x.slots.running == x.slots.limit
    requires Next(x, y, Finish(c))
    ensures y.slots.running == x.slots.limit && y.slots.waiters == x.slots.waiters[1..]
    ensures x.slots.waiters[0] < |y.callers| && y.callers[x.slots.waiters[0]] == LetInNow
  {
    hide SlotsHeld;
  }
}
