/** One lock per file, in a table that keeps an entry only while someone holds
    it, waits for it, or is leaving it. */
module FileLocking {
  import opened Common

  /** A lock: its key, whether its token is in, and its references. */
  datatype Lock = Lock(key: string, token: bool, refs: int)

  /** The table, and every lock made so far, by number. */
  datatype Table = Table(held: map<string, nat>, locks: seq<Lock>)

  /** The number of the lock a caller of key gets: the one in the table, or a
      new one. */
  function LockFor(t: Table, key: string): nat {
    if key in t.held then t.held[key] else |t.locks|
  }

  /** The table once a caller of key counts. */
  function Entered(t: Table, key: string): Table
    requires key in t.held ==> t.held[key] < |t.locks|
  {
    if key in t.held then
      var l := t.held[key];
      Table(t.held, t.locks[l := t.locks[l].(refs := t.locks[l].refs + 1)])
    else Table(t.held[key := |t.locks|], t.locks + [Lock(key, false, 1)])
  }

  /** The table once a caller of lock l no longer counts; with no caller left
      its key leaves the table. */
  function Dropped(t: Table, key: string, l: nat): Table
    requires l < |t.locks|
  {
    var refs := t.locks[l].refs - 1;
    Table(if refs == 0 then t.held - {key} else t.held, t.locks[l := t.locks[l].(refs := refs)])
  }

  function WithToken(t: Table, l: nat, token: bool): Table
    requires l < |t.locks|
  {
    t.(locks := t.locks[l := t.locks[l].(token := token)])
  }

  // ---------------------------------------------------------------------
  // The objects.

  class FileLock {
    const key: string
    ghost const number: nat
    /** Whether someone's token is in the channel. */
    var token: bool
    var refs: int

    constructor (key: string, ghost number: nat)
      ensures this.key == key && this.number == number && !token && refs == 0
    {
      this.key, this.number, token, refs := key, number, false, 0;
    }
  }

  class FileLocks {
    var held: map<string, FileLock>
    /** Every lock made, in the order of their numbers. */
    ghost var made: seq<FileLock>

    ghost predicate Valid()
      reads this
    {
      && (forall i :: 0 <= i < |made| ==> made[i].number == i)
      && (forall key :: key in held ==> held[key] in made && held[key].key == key)
    }

    ghost function Locks(): seq<Lock>
      reads this, made
    {
      seq(|made|, i requires 0 <= i < |made| reads this, made => Lock(made[i].key, made[i].token, made[i].refs))
    }

    ghost function Abstract(): Table
      requires Valid()
      reads this, made
    {
      Table(map key | key in held :: held[key].number, Locks())
    }

    constructor ()
      ensures Valid() && Abstract() == Table(map[], [])
    {
      held, made := map[], [];
    }

    /** The first part of lock: the caller counts in its key's lock. */
    method Enter(key: string) returns (fl: FileLock)
      requires Valid()
      modifies this, made
      ensures Valid() && fl in made && fl.key == key && fl.number == LockFor(old(Abstract()), key)
      ensures key in old(Abstract()).held ==> old(Abstract()).held[key] < |old(Abstract()).locks|
      ensures Abstract() == Entered(old(Abstract()), key)
    {
      if key in held {
        fl := held[key];
      } else {
        fl := new FileLock(key, |made|);
        held := held[key := fl];
        made := made + [fl];
      }
      fl.refs := fl.refs + 1;
    }

    /** Counts a caller out of fl; the key leaves the table at zero. */
    method Drop(key: string, fl: FileLock)
      requires Valid() && fl in made
      modifies this, made
      ensures Valid() && fl.number < |old(made)| && Abstract() == Dropped(old(Abstract()), key, fl.number)
    {
      fl.refs := fl.refs - 1;
      if fl.refs == 0 {
        held := held - {key};
      }
    }

    /** Sends the caller's token, when the channel has room. */
    method TryTake(fl: FileLock) returns (got: bool)
      requires Valid() && fl in made
      modifies fl`token
      ensures Valid() && fl.number < |made| && got == !old(fl.token)
      ensures Abstract() == if got then WithToken(old(Abstract()), fl.number, true) else old(Abstract())
    {
      got := !fl.token;
      fl.token := true;
    }

    /** Takes the caller's token out of the channel. */
    method TakeOut(fl: FileLock)
      requires Valid() && fl in made && fl.token
      modifies fl`token
      ensures Valid() && fl.number < |made| && Abstract() == WithToken(old(Abstract()), fl.number, false)
    {
      fl.token := false;
    }
  }

  // ---------------------------------------------------------------------
  // The callers.

  /** A caller of lock: it waits for its lock's token, holds it, is leaving
      (its token out, or canceled, but not yet forgotten), or is gone. */
  datatype Caller = Waits(l: nat) | Holds(l: nat) | Leaves(l: nat) | Gone

  datatype System = System(table: Table, callers: seq<Caller>)

  datatype Step = Arrive(key: string) | Take(c: nat) | Cancel(c: nat) | Unlock(c: nat) | Forget(c: nat)

  ghost predicate Next(x: System, y: System, step: Step) {
    match step
    case Arrive(key) =>
      && (key in x.table.held ==> x.table.held[key] < |x.table.locks|)
      && y == System(Entered(x.table, key), x.callers + [Waits(LockFor(x.table, key))])
    case Take(c) =>
      && c < |x.callers| && x.callers[c].Waits? && x.callers[c].l < |x.table.locks|
      && var l := x.callers[c].l;
      !x.table.locks[l].token && y == System(WithToken(x.table, l, true), x.callers[c := Holds(l)])
    case Cancel(c) =>
      c < |x.callers| && x.callers[c].Waits? && y == x.(callers := x.callers[c := Leaves(x.callers[c].l)])
    case Unlock(c) =>
      && c < |x.callers| && x.callers[c].Holds? && x.callers[c].l < |x.table.locks|
      && var l := x.callers[c].l;
      y == System(WithToken(x.table, l, false), x.callers[c := Leaves(l)])
    case Forget(c) =>
      && c < |x.callers| && x.callers[c].Leaves? && x.callers[c].l < |x.table.locks|
      && var l := x.callers[c].l;
      y == System(Dropped(x.table, x.table.locks[l].key, l), x.callers[c := Gone])
  }

  /** The callers that count in lock l: holding it, waiting, or leaving. */
  function Users(callers: seq<Caller>, l: nat): nat {
    if |callers| == 0 then 0
    else
      var c := callers[|callers| - 1];
      Users(callers[..|callers| - 1], l) + (if !c.Gone? && c.l == l then 1 else 0)
  }

  function Holders(callers: seq<Caller>, l: nat): nat {
    if |callers| == 0 then 0
    else Holders(callers[..|callers| - 1], l) + (if callers[|callers| - 1] == Holds(l) then 1 else 0)
  }

  /** The lock counts its callers, and its token is in while one holds it. */
  ghost predicate Counts(lock: Lock, callers: seq<Caller>, l: nat) {
    lock.refs == Users(callers, l) && Holders(callers, l) == (if lock.token then 1 else 0)
  }

  /** The table holds a key exactly while its lock has a caller. */
  ghost predicate Tabled(t: Table) {
    && (forall key :: key in t.held ==> t.held[key] < |t.locks| && t.locks[t.held[key]].key == key && t.locks[t.held[key]].refs > 0)
    && (forall l :: 0 <= l < |t.locks| && t.locks[l].refs > 0 ==>
          t.locks[l].key in t.held && t.held[t.locks[l].key] == l)
  }

  ghost predicate Inv(x: System) {
    && (forall c :: 0 <= c < |x.callers| && !x.callers[c].Gone? ==> x.callers[c].l < |x.table.locks|)
    && (forall l :: 0 <= l < |x.table.locks| ==> Counts(x.table.locks[l], x.callers, l))
    && Tabled(x.table)
  }

  predicate Init(x: System) {
    x.table == Table(map[], []) && x.callers == []
  }

  lemma {:induction false} CountsOfUpdate(callers: seq<Caller>, c: nat, next: Caller, l: nat)
    requires c < |callers|
    ensures Users(callers[c := next], l) == Users(callers, l)
            + (if !next.Gone? && next.l == l then 1 else 0) - (if !callers[c].Gone? && callers[c].l == l then 1 else 0)
    ensures Holders(callers[c := next], l) == Holders(callers, l)
            + (if next == Holds(l) then 1 else 0) - (if callers[c] == Holds(l) then 1 else 0)
    decreases |callers|
  {
    var n := |callers| - 1;
    if c < n {
      CountsOfUpdate(callers[..n], c, next, l);
      assert callers[c := next][..n] == callers[..n][c := next];
    } else {
      assert callers[c := next][..n] == callers[..n];
    }
  }

  lemma CountsOfMore(callers: seq<Caller>, k: nat, l: nat)
    ensures Users(callers + [Waits(k)], l) == Users(callers, l) + (if k == l then 1 else 0)
    ensures Holders(callers + [Waits(k)], l) == Holders(callers, l)
  {
    assert (callers + [Waits(k)])[..|callers|] == callers;
  }

  lemma {:induction false} NoUsers(callers: seq<Caller>, l: nat)
    requires forall c :: 0 <= c < |callers| && !callers[c].Gone? ==> callers[c].l < l
    ensures Users(callers, l) == 0 == Holders(callers, l)
  {
    if |callers| > 0 {
      NoUsers(callers[..|callers| - 1], l);
    }
  }

  lemma {:induction false} CallersCount(callers: seq<Caller>, c: nat, l: nat)
    requires c < |callers| && !callers[c].Gone? && callers[c].l == l
    ensures Users(callers, l) > 0 && (callers[c].Holds? ==> Holders(callers, l) > 0)
    decreases |callers|
  {
    if c < |callers| - 1 {
      CallersCount(callers[..|callers| - 1], c, l);
    }
  }

  lemma {:induction false} TwoHolders(callers: seq<Caller>, c: nat, d: nat, l: nat)
    requires c < d < |callers| && callers[c] == Holds(l) == callers[d]
    ensures Holders(callers, l) >= 2
    decreases |callers|
  {
    var n := |callers| - 1;
    if d < n {
      TwoHolders(callers[..n], c, d, l);
    } else {
      CallersCount(callers[..n], c, l);
    }
  }

  lemma ArriveTabled(x: System, y: System, key: string)
    requires Tabled(x.table) && Next(x, y, Arrive(key))
    requires forall l :: 0 <= l < |x.table.locks| ==> x.table.locks[l].refs >= 0
    ensures Tabled(y.table) && |x.table.locks| <= |y.table.locks| && LockFor(x.table, key) < |y.table.locks|
  {
  }

  lemma ArriveKeeps(x: System, y: System, key: string)
    requires Inv(x) && Next(x, y, Arrive(key))
    ensures Inv(y)
  {
    var k := LockFor(x.table, key);
    NoUsers(x.callers, |x.table.locks|);
    forall l | 0 <= l < |x.table.locks|
      ensures x.table.locks[l].refs >= 0
    {
      assert Counts(x.table.locks[l], x.callers, l);
    }
    ArriveTabled(x, y, key);
    hide Tabled;
    forall l | 0 <= l < |y.table.locks|
      ensures Counts(y.table.locks[l], y.callers, l)
    {
      CountsOfMore(x.callers, k, l);
      assert l < |x.table.locks| ==> Counts(x.table.locks[l], x.callers, l);
    }
    hide Users, Holders, Counts;
  }

  lemma MoveTabled(x: System, y: System, step: Step, c: nat)
    requires Tabled(x.table) && Next(x, y, step) && !step.Arrive? && c == step.c
    requires c < |x.callers| && (!x.callers[c].Gone? ==> x.callers[c].l < |x.table.locks| && x.table.locks[x.callers[c].l].refs > 0)
    ensures Tabled(y.table) && |y.callers| == |x.callers| && y.callers == x.callers[c := y.callers[c]]
    ensures !x.callers[c].Gone? && (!y.callers[c].Gone? ==> y.callers[c].l == x.callers[c].l)
  {
  }

  /** A caller moves on: what its lock counts moves with it. */
  lemma MoveKeeps(x: System, y: System, step: Step, c: nat)
    requires Inv(x) && Next(x, y, step) && !step.Arrive? && c == step.c
    ensures Inv(y)
  {
    var l := x.callers[c].l;
    CountsMove(x, y, step, c);
    CallersCount(x.callers, c, l);
    assert Counts(x.table.locks[l], x.callers, l) && x.table.locks[l].refs > 0;
    hide Users, Holders, Tabled, Next;
    MoveTabled(x, y, step, c);
  }

  lemma CountsMove(x: System, y: System, step: Step, c: nat)
    requires Inv(x) && Next(x, y, step) && !step.Arrive? && c == step.c
    ensures |y.table.locks| == |x.table.locks|
    ensures forall k :: 0 <= k < |x.table.locks| ==> Counts(y.table.locks[k], y.callers, k)
  {
    forall k | 0 <= k < |x.table.locks|
      ensures Counts(y.table.locks[k], y.callers, k)
    {
      CountsOfUpdate(x.callers, c, y.callers[c], k);
      assert Counts(x.table.locks[k], x.callers, k);
      hide Users, Holders, Tabled;
    }
  }

  lemma StepKeeps(x: System, y: System, step: Step)
    requires Inv(x) && Next(x, y, step)
    ensures Inv(y)
  {
    if step.Arrive? {
      ArriveKeeps(x, y, step.key);
    } else {
      MoveKeeps(x, y, step, step.c);
    }
  }

  ghost predicate IsRun(run: seq<System>, steps: seq<Step>) {
    && |run| == |steps| + 1 && Init(run[0])
    && forall i :: 0 <= i < |steps| ==> Next(run[i], run[i + 1], steps[i])
  }

  lemma {:induction false} RunKeeps(run: seq<System>, steps: seq<Step>, n: nat)
    requires IsRun(run, steps) && n < |run|
    ensures Inv(run[n])
  {
    if n > 0 {
      RunKeeps(run, steps, n - 1);
      hide Inv, Next;
      assert Next(run[n - 1], run[n - 1 + 1], steps[n - 1]);
      StepKeeps(run[n - 1], run[n], steps[n - 1]);
    }
  }

  /** In every run, cancels and deleted and recreated entries included, at
      most one caller holds a key. */
  lemma OneHolder(run: seq<System>, steps: seq<Step>, n: nat, c: nat, d: nat)
    requires IsRun(run, steps) && n < |run| && c < |run[n].callers| && d < |run[n].callers|
    requires run[n].callers[c].Holds? && run[n].callers[d].Holds?
    ensures run[n].callers[c].l < |run[n].table.locks| && run[n].callers[d].l < |run[n].table.locks|
    ensures run[n].table.locks[run[n].callers[c].l].key == run[n].table.locks[run[n].callers[d].l].key ==> c == d
  {
    RunKeeps(run, steps, n);
    var x := run[n];
    var k, l := x.callers[c].l, x.callers[d].l;
    CallersCount(x.callers, c, k);
    CallersCount(x.callers, d, l);
    assert Counts(x.table.locks[k], x.callers, k) && Counts(x.table.locks[l], x.callers, l);
    if x.table.locks[k].key == x.table.locks[l].key && c != d {
      TwoHolders(x.callers, if c < d then c else d, if c < d then d else c, k);
    }
  }

  /** In every run the table holds a key exactly while a caller counts in its
      lock, and a lock's references are the callers that hold it, wait for
      it, or are leaving it. */
  lemma TableIsCallers(run: seq<System>, steps: seq<Step>, n: nat, key: string)
    requires IsRun(run, steps) && n < |run|
    ensures var x := run[n];
            && (key in x.table.held ==>
                  x.table.held[key] < |x.table.locks| && x.table.locks[x.table.held[key]].refs == Users(x.callers, x.table.held[key]) > 0)
            && (key !in x.table.held ==>
                  forall c :: 0 <= c < |x.callers| && !x.callers[c].Gone? ==>
                    x.callers[c].l < |x.table.locks| && x.table.locks[x.callers[c].l].key != key)
  {
    RunKeeps(run, steps, n);
    var x := run[n];
    if key in x.table.held {
      assert Counts(x.table.locks[x.table.held[key]], x.callers, x.table.held[key]);
    } else {
      forall c: nat | c < |x.callers| && !x.callers[c].Gone?
        ensures x.callers[c].l < |x.table.locks| && x.table.locks[x.callers[c].l].key != key
      {
        CallersCount(x.callers, c, x.callers[c].l);
        assert Counts(x.table.locks[x.callers[c].l], x.callers, x.callers[c].l);
      }
    }
  }

  // ---------------------------------------------------------------------
  // When references are the holders and waiters.

  /** The callers that hold lock l or wait for it. */
  function Engaged(callers: seq<Caller>, l: nat): nat {
    if |callers| == 0 then 0
    else
      var c := callers[|callers| - 1];
      Engaged(callers[..|callers| - 1], l) + (if c == Holds(l) || c == Waits(l) then 1 else 0)
  }

  /** The callers that unlocked lock l, or gave up waiting for it, and are not
      forgotten yet. */
  function Leaving(callers: seq<Caller>, l: nat): nat {
    if |callers| == 0 then 0
    else Leaving(callers[..|callers| - 1], l) + (if callers[|callers| - 1] == Leaves(l) then 1 else 0)
  }

  lemma {:induction false} UsersAre(callers: seq<Caller>, l: nat)
    ensures Users(callers, l) == Engaged(callers, l) + Leaving(callers, l)
  {
    if |callers| == 0 {
    } else {
      UsersAre(callers[..|callers| - 1], l);
    }
  }

  lemma {:induction false} NoneLeaving(callers: seq<Caller>, l: nat)
    ensures Leaving(callers, l) == 0 <==> forall c :: 0 <= c < |callers| ==> callers[c] != Leaves(l)
  {
    if |callers| == 0 {
    } else {
      var rest := callers[..|callers| - 1];
      NoneLeaving(rest, l);
      if Leaving(callers, l) != 0 && callers[|callers| - 1] != Leaves(l) {
        var c :| 0 <= c < |rest| && rest[c] == Leaves(l);
        assert callers[c] == Leaves(l);
      } else if Leaving(callers, l) == 0 {
        assert forall c :: 0 <= c < |rest| ==> callers[c] == rest[c];
      }
    }
  }

  /** In every run a lock's references are exactly the callers that hold it
      or wait for it when, and only when, no caller that unlocked it or gave
      up waiting is still to be forgotten. */
  lemma RefsAreHoldersAndWaiters(run: seq<System>, steps: seq<Step>, n: nat, l: nat)
    requires IsRun(run, steps) && n < |run| && l < |run[n].table.locks|
    ensures run[n].table.locks[l].refs == Engaged(run[n].callers, l) <==>
            forall c :: 0 <= c < |run[n].callers| ==> run[n].callers[c] != Leaves(l)
  {
    RunKeeps(run, steps, n);
    assert Counts(run[n].table.locks[l], run[n].callers, l);
    UsersAre(run[n].callers, l);
    NoneLeaving(run[n].callers, l);
    hide Holders, Tabled, Next;
  }

  /** A caller that took a lock and has just given its token back: the lock
      has a reference, and its key is in the table, although no caller holds
      it or waits for it. */
  lemma UnlockedStillCounts(key: string) returns (run: seq<System>, steps: seq<Step>)
    ensures IsRun(run, steps) && |steps| == 3 && steps == [Arrive(key), Take(0), Unlock(0)]
    ensures var x := run[3];
            && key in x.table.held && x.table.held[key] == 0 && |x.table.locks| == 1
            && x.table.locks[0].refs == 1 && Engaged(x.callers, 0) == 0
  {
    var empty := System(Table(map[], []), []);
    var arrived := System(Table(map[key := 0], [Lock(key, false, 1)]), [Waits(0)]);
    var taken := System(Table(map[key := 0], [Lock(key, true, 1)]), [Holds(0)]);
    var unlocked := System(Table(map[key := 0], [Lock(key, false, 1)]), [Leaves(0)]);
    run, steps := [empty, arrived, taken, unlocked], [Arrive(key), Take(0), Unlock(0)];
    assert Next(empty, arrived, Arrive(key)) && Next(arrived, taken, Take(0)) && Next(taken, unlocked, Unlock(0));
    assert unlocked.callers[..0] == [];
  }

  // ---------------------------------------------------------------------
  // What a caller can always do.

  /** In every state a caller can arrive; one that waits can give up, and take
      the lock when no one holds it; one that holds it can unlock it, and one
      that is leaving be forgotten. */
  lemma CallersCanGoOn(x: System, key: string, c: nat)
    requires Inv(x)
    ensures exists y :: Next(x, y, Arrive(key))
    ensures c < |x.callers| && x.callers[c].Waits? ==>
              && (exists y :: Next(x, y, Cancel(c)))
              && (Holders(x.callers, x.callers[c].l) == 0 ==> exists y :: Next(x, y, Take(c)))
    ensures c < |x.callers| && x.callers[c].Holds? ==> exists y :: Next(x, y, Unlock(c))
    ensures c < |x.callers| && x.callers[c].Leaves? ==> exists y :: Next(x, y, Forget(c))
  {
    assert key in x.table.held ==> x.table.held[key] < |x.table.locks|;
    assert Next(x, System(Entered(x.table, key), x.callers + [Waits(LockFor(x.table, key))]), Arrive(key));
    if c < |x.callers| && !x.callers[c].Gone? {
      var l := x.callers[c].l;
      assert Counts(x.table.locks[l], x.callers, l);
      hide Users, Holders, Entered, Tabled;
      match x.callers[c]
      case Waits(_) =>
        assert Next(x, x.(callers := x.callers[c := Leaves(l)]), Cancel(c));
        if Holders(x.callers, l) == 0 {
          assert Next(x, System(WithToken(x.table, l, true), x.callers[c := Holds(l)]), Take(c));
        }
      case Holds(_) => assert Next(x, System(WithToken(x.table, l, false), x.callers[c := Leaves(l)]), Unlock(c));
      case Leaves(_) => assert Next(x, System(Dropped(x.table, x.table.locks[l].key, l), x.callers[c := Gone]), Forget(c));
    }
  }
}
