/**
 Waiting for one of several conditions. A wakeup marks every multiwait that the condition may
 wake, under all their locks, and then opens the condition for a winner; the multiwaits it woke
 race for it. Every locked region is one step, so a run is any interleaving.
 */
module Multiwait {
  import opened Optional

  // ---------- Taking all locks or none ----------

  ghost predicate Distinct(mws: seq<nat>) {
    forall i, j :: 0 <= i < j < |mws| ==> mws[i] != mws[j]
  }

  // Try to lock every multiwait of a condition. When one is taken, the ones locked so far are
  // released again.
  method TryLockAll(locked: array<bool>, mws: seq<nat>) returns (ok: bool)
    requires Distinct(mws) && forall m <- mws :: m < locked.Length
    modifies locked
    ensures ok <==> forall m <- mws :: !old(locked[m])
    ensures ok ==> forall i :: 0 <= i < locked.Length ==> locked[i] == (i in mws || old(locked[i]))
    ensures !ok ==> locked[..] == old(locked[..])
  {
    for j := 0 to |mws|
      invariant forall m <- mws[..j] :: m < locked.Length && !old(locked[m])
      invariant forall i :: 0 <= i < locked.Length ==> locked[i] == (i in mws[..j] || old(locked[i]))
    {
      assert mws[j] in mws;
      assert mws[..j + 1] == mws[..j] + [mws[j]];
      if locked[mws[j]] {
        UnlockFirst(locked, mws, j);
        return false;
      }
      locked[mws[j]] := true;
    }
    assert mws[..|mws|] == mws;
    ok := true;
  }

  method UnlockFirst(locked: array<bool>, mws: seq<nat>, j: nat)
    requires j <= |mws| && forall m <- mws :: m < locked.Length
    modifies locked
    ensures forall i :: 0 <= i < locked.Length ==> locked[i] == (i !in mws[..j] && old(locked[i]))
  {
    for k := 0 to j
      invariant forall i :: 0 <= i < locked.Length ==> locked[i] == (i !in mws[..k] && old(locked[i]))
    {
      assert mws[k] in mws;
      assert mws[..k + 1] == mws[..k] + [mws[k]];
      locked[mws[k]] := false;
    }
  }

  // ---------- The protocol ----------

  datatype Event = Woke(cond: nat) | Won(cond: nat, mw: nat)

  // Where the owner of a multiwait is: not in a wait; asleep, perhaps already signalled; gone to
  // see the condition that woke it; about to look again after losing; about to return a win.
  datatype Phase = Outside | Waiting(signalled: bool) | Seeing(cond: nat) | Retry | Leaving

  // A multiwait: which condition woke it, its critical section flag, and the conditions that may
  // wake it.
  datatype Waiter = Waiter(waker: Option<nat>, critsect: bool, mask: set<nat>, phase: Phase)

  // A condition: its winner, whether its lock is held by a wakeup, and who is registered.
  datatype Cond = Cond(winner: Option<nat>, waking: bool, wakeAll: bool, members: set<nat>)

  datatype State = State(waiters: map<nat, Waiter>, conds: map<nat, Cond>, hist: seq<Event>)

  datatype Action =
    | Register(mw: nat, cond: nat, active: bool)
    | SetMask(mw: nat, cond: nat, active: bool)
    | EnterCrit(mw: nat)
    | LeaveCrit(mw: nat)
    | Wait(mw: nat)
    | Wake(mw: nat)
    | Timeout(mw: nat)
    | Decide(mw: nat)
    | Mark(cond: nat)
    | Open(cond: nat)

  predicate Enabled(s: State, a: Action) {
    match a
    case Register(m, c, _) => m in s.waiters && c in s.conds && !s.conds[c].waking && m !in s.conds[c].members
    case SetMask(m, c, _) => m in s.waiters
    case EnterCrit(m) => m in s.waiters && s.waiters[m].phase.Outside?
    case LeaveCrit(m) =>
      m in s.waiters && (s.waiters[m].phase.Leaving? || (s.waiters[m].phase.Outside? && s.waiters[m].critsect))
    case Wait(m) => m in s.waiters && (s.waiters[m].phase.Outside? || s.waiters[m].phase.Retry?)
    case Wake(m) => m in s.waiters && s.waiters[m].phase == Waiting(true)
    case Timeout(m) => m in s.waiters && s.waiters[m].phase.Waiting?
    case Decide(m) =>
      && m in s.waiters && s.waiters[m].phase.Seeing? && s.waiters[m].phase.cond in s.conds
      && !s.conds[s.waiters[m].phase.cond].waking
    case Mark(c) => c in s.conds && !s.conds[c].waking
    case Open(c) => c in s.conds && s.conds[c].waking
  }

  // A wakeup leaves its condition, and a signal for one that is asleep.
  function Woken(w: Waiter, c: nat): Waiter {
    w.(waker := Some(c), phase := if w.phase.Waiting? then Waiting(true) else w.phase)
  }

  // Every member whose mask lets the condition through is woken.
  function Marked(ws: map<nat, Waiter>, c: nat, members: set<nat>): map<nat, Waiter> {
    map m | m in ws :: if m in members && c in ws[m].mask then Woken(ws[m], c) else ws[m]
  }

  function Masked(w: Waiter, c: nat, active: bool): Waiter {
    w.(mask := if active then w.mask + {c} else w.mask - {c})
  }

  // Take the waker and go to see it.
  function Taken(w: Waiter): Waiter
    requires w.waker.Some?
  {
    w.(waker := None, critsect := true, phase := Seeing(w.waker.value))
  }

  // Begin to wait: only a multiwait in its critical section looks for a wakeup it has missed.
  function Looked(w: Waiter): Waiter {
    if w.critsect && w.waker.Some? then Taken(w) else w.(critsect := false, phase := Waiting(false))
  }

  function Apply(s: State, a: Action): State
    requires Enabled(s, a)
  {
    match a
    case Register(m, c, active) =>
      s.(conds := s.conds[c := s.conds[c].(members := s.conds[c].members + {m})],
         waiters := s.waiters[m := Masked(s.waiters[m], c, active)])
    case SetMask(m, c, active) => s.(waiters := s.waiters[m := Masked(s.waiters[m], c, active)])
    case EnterCrit(m) => s.(waiters := s.waiters[m := s.waiters[m].(critsect := true, waker := None)])
    case LeaveCrit(m) => s.(waiters := s.waiters[m := s.waiters[m].(critsect := false, phase := Outside)])
    case Wait(m) => s.(waiters := s.waiters[m := Looked(s.waiters[m])])
    case Wake(m) => if s.waiters[m].waker.Some? then s.(waiters := s.waiters[m := Taken(s.waiters[m])]) else s
    case Timeout(m) => s.(waiters := s.waiters[m := s.waiters[m].(phase := Outside)])
    case Decide(m) =>
      var c := s.waiters[m].phase.cond;
      if s.conds[c].wakeAll then s.(waiters := s.waiters[m := s.waiters[m].(phase := Leaving)])
      else if s.conds[c].winner.None? then
        s.(waiters := s.waiters[m := s.waiters[m].(phase := Leaving)],
           conds := s.conds[c := s.conds[c].(winner := Some(m))], hist := s.hist + [Won(c, m)])
      else s.(waiters := s.waiters[m := s.waiters[m].(phase := Retry)])
    case Mark(c) =>
      s.(waiters := Marked(s.waiters, c, s.conds[c].members), conds := s.conds[c := s.conds[c].(waking := true)])
    case Open(c) =>
      s.(conds := s.conds[c := s.conds[c].(winner := None, waking := false)], hist := s.hist + [Woke(c)])
  }

  ghost predicate Legal(s: State, acts: seq<Action>)
    decreases |acts|
  {
    acts != [] ==> Enabled(s, acts[0]) && Legal(Apply(s, acts[0]), acts[1..])
  }

  ghost function Exec(s: State, acts: seq<Action>): State
    requires Legal(s, acts)
    decreases |acts|
  {
    if acts == [] then s else Exec(Apply(s, acts[0]), acts[1..])
  }

  ghost predicate Initial(s: State) {
    && s.hist == []
    && (forall m :: m in s.waiters ==> s.waiters[m].waker == None && s.waiters[m].phase == Outside)
    && (forall c :: c in s.conds ==> s.conds[c].winner == None && !s.conds[c].waking)
  }

  // ---------- Winners ----------

  function Wakes(h: seq<Event>, c: nat): nat {
    if h == [] then 0 else Wakes(h[..|h| - 1], c) + if h[|h| - 1] == Woke(c) then 1 else 0
  }

  predicate IsWin(e: Event, c: nat) {
    e.Won? && e.cond == c
  }

  function Wins(h: seq<Event>, c: nat): nat {
    if h == [] then 0 else Wins(h[..|h| - 1], c) + if IsWin(h[|h| - 1], c) then 1 else 0
  }

  // No win of c comes after its last wakeup.
  predicate Unclaimed(h: seq<Event>, c: nat) {
    h == [] || h[|h| - 1] == Woke(c) || (!IsWin(h[|h| - 1], c) && Unclaimed(h[..|h| - 1], c))
  }

  // Between two wins of c there is a wakeup of c.
  ghost predicate WinsApart(h: seq<Event>, c: nat) {
    forall i, j :: 0 <= i < j < |h| && IsWin(h[i], c) && IsWin(h[j], c) ==> exists k :: i < k < j && h[k] == Woke(c)
  }

  // What holds of one condition.
  ghost predicate CondOk(s: State, c: nat)
    requires c in s.conds
  {
    && WinsApart(s.hist, c)
    && (s.conds[c].winner.None? ==> Unclaimed(s.hist, c))
    && (if Wakes(s.hist, c) == 0 then Wins(s.hist, c) == 0
        else Wins(s.hist, c) <= Wakes(s.hist, c) - (if Unclaimed(s.hist, c) then 1 else 0))
  }

  // A condition that somebody was woken by, or has gone to see, has had a wakeup.
  ghost predicate WokenBy(s: State, c: nat) {
    c in s.conds && (Wakes(s.hist, c) > 0 || s.conds[c].waking)
  }

  // What holds of one multiwait: a signal comes with its condition, one that sleeps is out of its
  // critical section, and one that has taken a waker is in it until it returns.
  ghost predicate WaiterOk(w: Waiter) {
    match w.phase
    case Outside => true
    case Waiting(signalled) => !w.critsect && (signalled ==> w.waker.Some?)
    case _ => w.critsect
  }

  ghost predicate Inv(s: State) {
    && (forall c :: c in s.conds ==> CondOk(s, c))
    && (forall m :: m in s.waiters ==> WaiterOk(s.waiters[m]))
    && (forall m :: m in s.waiters && s.waiters[m].waker.Some? ==> WokenBy(s, s.waiters[m].waker.value))
    && (forall m :: m in s.waiters && s.waiters[m].phase.Seeing? ==> WokenBy(s, s.waiters[m].phase.cond))
  }

  lemma Appended(h: seq<Event>, e: Event, c: nat)
    ensures Wakes(h + [e], c) == Wakes(h, c) + (if e == Woke(c) then 1 else 0)
    ensures Wins(h + [e], c) == Wins(h, c) + (if IsWin(e, c) then 1 else 0)
    ensures Unclaimed(h + [e], c) <==> e == Woke(c) || (!IsWin(e, c) && Unclaimed(h, c))
  {
    assert (h + [e])[..|h|] == h;
  }

  // An unclaimed condition has a wakeup after every earlier win.
  lemma {:induction false} WakeAfter(h: seq<Event>, c: nat, i: nat)
    requires Unclaimed(h, c) && i < |h| && IsWin(h[i], c)
    ensures exists k :: i < k < |h| && h[k] == Woke(c)
    decreases |h|
  {
    var n := |h| - 1;
    if h[n] == Woke(c) {
      assert i < n;
    } else {
      WakeAfter(h[..n], c, i);
      var k :| i < k < n && h[..n][k] == Woke(c);
      assert h[k] == Woke(c);
    }
  }

  lemma ApartAppended(h: seq<Event>, e: Event, c: nat)
    requires WinsApart(h, c) && (IsWin(e, c) ==> Unclaimed(h, c))
    ensures WinsApart(h + [e], c)
  {
    hide Unclaimed;
    var t := h + [e];
    forall i, j | 0 <= i < j < |t| && IsWin(t[i], c) && IsWin(t[j], c)
      ensures exists k :: i < k < j && t[k] == Woke(c)
    {
      assert t[i] == h[i];
      var k: nat;
      if j < |h| {
        assert t[j] == h[j];
        k :| i < k < j && h[k] == Woke(c);
      } else {
        WakeAfter(h, c, i);
        k :| i < k < |h| && h[k] == Woke(c);
      }
      assert t[k] == h[k];
    }
  }

  // An event of one condition says nothing about the others.
  lemma EventKeeps(s: State, t: State, e: Event, c: nat)
    requires c in s.conds && c in t.conds && CondOk(s, c) && t.hist == s.hist + [e]
    requires t.conds[c].winner == s.conds[c].winner && e.cond != c
    ensures CondOk(t, c)
  {
    hide Wakes, Wins, Unclaimed, WinsApart;
    Appended(s.hist, e, c);
    ApartAppended(s.hist, e, c);
  }

  lemma OpenKeeps(s: State, c: nat)
    requires Inv(s) && Enabled(s, Open(c))
    ensures Inv(Apply(s, Open(c)))
  {
    hide Wakes, Wins, Unclaimed, WinsApart;
    var t := Apply(s, Open(c));
    forall d | d in t.conds
      ensures CondOk(t, d) && Wakes(t.hist, d) >= Wakes(s.hist, d) && (d == c ==> Wakes(t.hist, d) > 0)
    {
      assert CondOk(s, d);
      Appended(s.hist, Woke(c), d);
      ApartAppended(s.hist, Woke(c), d);
      if d != c {
        EventKeeps(s, t, Woke(c), d);
      }
    }
  }

  lemma DecideKeeps(s: State, m: nat)
    requires Inv(s) && Enabled(s, Decide(m))
    ensures Inv(Apply(s, Decide(m)))
  {
    hide Wakes, Wins, Unclaimed, WinsApart;
    var t := Apply(s, Decide(m));
    var c := s.waiters[m].phase.cond;
    assert WokenBy(s, c);
    if t.hist != s.hist {
      forall d | d in t.conds
        ensures CondOk(t, d) && Wakes(t.hist, d) == Wakes(s.hist, d)
      {
        assert CondOk(s, d);
        Appended(s.hist, Won(c, m), d);
        ApartAppended(s.hist, Won(c, m), d);
        if d != c {
          EventKeeps(s, t, Won(c, m), d);
        }
      }
    } else {
      assert forall d :: d in t.conds ==> CondOk(s, d);
    }
  }

  // Steps that record nothing and leave the winners alone.
  lemma QuietKeeps(s: State, t: State)
    requires Inv(s) && t.hist == s.hist && t.conds.Keys == s.conds.Keys
    requires forall c :: c in s.conds ==>
      t.conds[c].winner == s.conds[c].winner && (s.conds[c].waking ==> t.conds[c].waking)
    requires forall m :: m in t.waiters ==> WaiterOk(t.waiters[m])
    requires forall m :: m in t.waiters && t.waiters[m].waker.Some? ==> WokenBy(t, t.waiters[m].waker.value)
    requires forall m :: m in t.waiters && t.waiters[m].phase.Seeing? ==> WokenBy(t, t.waiters[m].phase.cond)
    ensures Inv(t)
  {
    hide Wakes, Wins, Unclaimed, WinsApart;
    forall c | c in t.conds
      ensures CondOk(t, c)
    {
      assert c in s.conds && CondOk(s, c);
    }
  }

  lemma StepKeepsInv(s: State, a: Action)
    requires Inv(s) && Enabled(s, a)
    ensures Inv(Apply(s, a))
  {
    match a
    case Open(c) => OpenKeeps(s, c);
    case Decide(m) => DecideKeeps(s, m);
    case _ => QuietStep(s, a);
  }

  lemma QuietStep(s: State, a: Action)
    requires Inv(s) && Enabled(s, a) && !a.Open? && !a.Decide?
    ensures Inv(Apply(s, a))
  {
    hide Wakes, CondOk;
    var t := Apply(s, a);
    assert t.conds.Keys == s.conds.Keys;
    forall c | WokenBy(s, c)
      ensures WokenBy(t, c)
    {}
    QuietKeeps(s, t);
  }

  lemma {:induction false} RunKeepsInv(s: State, acts: seq<Action>)
    requires Inv(s) && Legal(s, acts)
    ensures Inv(Exec(s, acts))
    decreases |acts|
  {
    hide Inv, Apply, Enabled;
    if acts != [] {
      StepKeepsInv(s, acts[0]);
      RunKeepsInv(Apply(s, acts[0]), acts[1..]);
    }
  }

  // Over every interleaving: a condition that does not wake all has at most as many winners as
  // wakeups, and never two winners without a wakeup between them.
  lemma SingleWinner(s: State, acts: seq<Action>, c: nat)
    requires Initial(s) && Legal(s, acts) && c in Exec(s, acts).conds
    ensures var h := Exec(s, acts).hist; Wins(h, c) <= Wakes(h, c) && WinsApart(h, c)
  {
    hide Legal, Exec;
    InitialInv(s);
    RunKeepsInv(s, acts);
    assert CondOk(Exec(s, acts), c);
  }

  // The assertions on the way out of a wait hold in every interleaving: a signal always comes with
  // the condition that sent it, and the critical section that a win leaves has been entered.
  lemma WaitAssertionsHold(s: State, acts: seq<Action>, m: nat)
    requires Initial(s) && Legal(s, acts) && m in Exec(s, acts).waiters
    ensures var w := Exec(s, acts).waiters[m];
      (w.phase == Waiting(true) ==> w.waker.Some?) && (w.phase.Leaving? ==> w.critsect)
  {
    hide Legal, Exec;
    InitialInv(s);
    RunKeepsInv(s, acts);
  }

  // ---------- Which wakeups are kept ----------

  // A wakeup of c reaches m: m is registered, and its mask lets c through.
  predicate Reached(s: State, c: nat, m: nat) {
    c in s.conds && m in s.waiters && m in s.conds[c].members && c in s.waiters[m].mask
  }

  // A wakeup is there to be taken: by the signal for one that is asleep, by the flag of one that
  // is not.
  predicate Kept(w: Waiter) {
    if w.phase.Waiting? then w.phase.signalled else w.critsect && w.waker.Some?
  }

  // Exactly then the next look takes a waker; otherwise the multiwait goes to sleep, signalled by
  // nobody.
  lemma LookTakes(s: State, m: nat)
    requires Inv(s) && m in s.waiters
    ensures Enabled(s, Wait(m)) ==>
      var w := Apply(s, Wait(m)).waiters[m];
      if Kept(s.waiters[m]) then w.phase.Seeing? && s.waiters[m].waker == Some(w.phase.cond) && w.waker == None
      else w.phase == Waiting(false) && w.waker == s.waiters[m].waker
    ensures Enabled(s, Wake(m)) ==>
      var w := Apply(s, Wake(m)).waiters[m];
      Kept(s.waiters[m]) && w.phase.Seeing? && s.waiters[m].waker == Some(w.phase.cond) && w.waker == None
  {
    hide CondOk, WokenBy;
    assert WaiterOk(s.waiters[m]);
  }

  // m does not look for a wakeup.
  ghost predicate NoLook(acts: seq<Action>, m: nat) {
    Wait(m) !in acts && Wake(m) !in acts
  }

  // No wakeup reaches m.
  ghost predicate Undisturbed(s: State, acts: seq<Action>, m: nat)
    requires Legal(s, acts)
    decreases |acts|
  {
    acts != [] ==>
      && (acts[0].Mark? ==> !Reached(s, acts[0].cond, m))
      && Undisturbed(Apply(s, acts[0]), acts[1..], m)
  }

  // Over every interleaving: the last wakeup to reach a multiwait before it looks is kept if and
  // only if the multiwait was asleep at the wakeup and does not time out, or was in its critical
  // section and has neither left it nor entered it again.
  lemma WakeupKept(s: State, acts: seq<Action>, c: nat, m: nat)
    requires Inv(s) && Reached(s, c, m) && acts != [] && acts[0] == Mark(c) && Legal(s, acts) && NoLook(acts, m)
    requires Undisturbed(Apply(s, Mark(c)), acts[1..], m)
    ensures m in Exec(s, acts).waiters
    ensures Kept(Exec(s, acts).waiters[m]) <==>
      || (s.waiters[m].phase.Waiting? && Timeout(m) !in acts)
      || (s.waiters[m].critsect && EnterCrit(m) !in acts && LeaveCrit(m) !in acts)
  {
    hide Legal, Exec, Inv, Undisturbed, Kept;
    ExecUnfolds(s, acts);
    MarkKeeps(s, c, m);
    StepKeepsInv(s, Mark(c));
    assert acts == [Mark(c)] + acts[1..];
    StillKept(Apply(s, Mark(c)), acts[1..], m);
  }

  lemma MarkKeeps(s: State, c: nat, m: nat)
    requires Inv(s) && Reached(s, c, m) && Enabled(s, Mark(c))
    ensures var w := Apply(s, Mark(c)).waiters[m];
      && w.waker == Some(c) && w.phase.Waiting? == s.waiters[m].phase.Waiting? && !(w.phase.Waiting? && w.critsect)
      && w.critsect == s.waiters[m].critsect
      && (Kept(w) <==> s.waiters[m].phase.Waiting? || s.waiters[m].critsect)
  {
    hide CondOk, WokenBy;
  }

  // What can lose a kept wakeup: a timeout for one that is asleep, leaving or entering the critical
  // section for one that is not.
  predicate Loses(w: Waiter, a: Action, m: nat) {
    if w.phase.Waiting? then a == Timeout(m) else a == EnterCrit(m) || a == LeaveCrit(m)
  }

  ghost predicate NoLoss(w: Waiter, acts: seq<Action>, m: nat) {
    forall a <- acts :: !Loses(w, a, m)
  }

  lemma {:induction false} StillKept(s: State, acts: seq<Action>, m: nat)
    requires Inv(s) && m in s.waiters && Legal(s, acts) && NoLook(acts, m) && Undisturbed(s, acts, m)
    ensures m in Exec(s, acts).waiters
    ensures Kept(Exec(s, acts).waiters[m]) <==> Kept(s.waiters[m]) && NoLoss(s.waiters[m], acts, m)
    decreases |acts|
  {
    hide Inv, Apply, Enabled, Reached, Kept;
    if acts != [] {
      var a, rest := acts[0], acts[1..];
      assert acts == [a] + rest;
      StepKeepsInv(s, a);
      StepKept(s, a, m);
      StillKept(Apply(s, a), rest, m);
      var w, w' := s.waiters[m], Apply(s, a).waiters[m];
      assert NoLoss(w, acts, m) <==> !Loses(w, a, m) && NoLoss(w, rest, m);
      assert w.phase.Waiting? == w'.phase.Waiting? ==> (NoLoss(w, rest, m) <==> NoLoss(w', rest, m));
    }
  }

  lemma StepKept(s: State, a: Action, m: nat)
    requires Inv(s) && m in s.waiters && Enabled(s, a) && NoLook([a], m) && (a.Mark? ==> !Reached(s, a.cond, m))
    ensures m in Apply(s, a).waiters
    ensures Kept(Apply(s, a).waiters[m]) <==> Kept(s.waiters[m]) && !Loses(s.waiters[m], a, m)
    ensures Loses(s.waiters[m], a, m) || Apply(s, a).waiters[m].phase.Waiting? == s.waiters[m].phase.Waiting?
  {
    hide CondOk, WokenBy;
    assert WaiterOk(s.waiters[m]);
    assert [a][0] == a;
  }

  lemma ExecUnfolds(s: State, acts: seq<Action>)
    requires acts != [] && Legal(s, acts)
    ensures Enabled(s, acts[0]) && Legal(Apply(s, acts[0]), acts[1..])
    ensures Exec(s, acts) == Exec(Apply(s, acts[0]), acts[1..])
  {}

  // The last condition whose wakeup reaches m in a run that begins after one of c did.
  ghost function LastToReach(s: State, acts: seq<Action>, c: nat, m: nat): nat
    requires Legal(s, acts)
    decreases |acts|
  {
    if acts == [] then c
    else
      LastToReach(Apply(s, acts[0]), acts[1..],
                  if acts[0].Mark? && Reached(s, acts[0].cond, m) then acts[0].cond else c, m)
  }

  // The waker that is kept is c's if and only if no other condition's wakeup was the last to
  // reach m.
  lemma {:induction false} WakerIsLast(s: State, acts: seq<Action>, c: nat, m: nat)
    requires m in s.waiters && s.waiters[m].waker == Some(c) && Legal(s, acts)
    requires NoLook(acts, m) && EnterCrit(m) !in acts
    ensures m in Exec(s, acts).waiters
    ensures Exec(s, acts).waiters[m].waker == Some(LastToReach(s, acts, c, m))
    decreases |acts|
  {
    if acts != [] {
      assert acts == [acts[0]] + acts[1..];
      var a := acts[0];
      var d := if a.Mark? && Reached(s, a.cond, m) then a.cond else c;
      assert Apply(s, a).waiters[m].waker == Some(d);
      WakerIsLast(Apply(s, a), acts[1..], d, m);
    }
  }

  // A multiwait that was asleep misses a wakeup: it is signalled, but its time runs out, and the
  // next time it waits it goes to sleep on the wakeup.
  lemma TimedOutWakeup()
    ensures
      var s := State(map[0 := Waiter(None, false, {7}, Outside)], map[7 := Cond(None, false, false, {0})], []);
      var acts := [Wait(0), Mark(7), Timeout(0), Wait(0)];
      && Initial(s) && Legal(s, acts) && 0 in Exec(s, acts).waiters
      && Exec(s, acts).waiters[0].waker == Some(7) && Exec(s, acts).waiters[0].phase == Waiting(false)
  {
    hide Legal, Exec;
    var s := State(map[0 := Waiter(None, false, {7}, Outside)], map[7 := Cond(None, false, false, {0})], []);
    var s1 := Apply(s, Wait(0));
    var s2 := Apply(s1, Mark(7));
    var s3 := Apply(s2, Timeout(0));
    NoSteps(Apply(s3, Wait(0)));
    ExecStep(s3, Wait(0), []);
    assert [Wait(0)] + [] == [Wait(0)] && [Timeout(0)] + [Wait(0)] == [Timeout(0), Wait(0)];
    assert [Mark(7)] + [Timeout(0), Wait(0)] == [Mark(7), Timeout(0), Wait(0)];
    assert [Wait(0)] + [Mark(7), Timeout(0), Wait(0)] == [Wait(0), Mark(7), Timeout(0), Wait(0)];
    ExecStep(s2, Timeout(0), [Wait(0)]);
    ExecStep(s1, Mark(7), [Timeout(0), Wait(0)]);
    ExecStep(s, Wait(0), [Mark(7), Timeout(0), Wait(0)]);
  }

  // A multiwait outside its critical section misses a wakeup: it goes to sleep on it.
  lemma LostWakeup()
    ensures
      var s := State(map[0 := Waiter(None, false, {7}, Outside)], map[7 := Cond(None, false, false, {0})], []);
      var acts := [Mark(7), Open(7), Wait(0)];
      && Initial(s) && Legal(s, acts) && 0 in Exec(s, acts).waiters
      && Exec(s, acts).waiters[0].waker == Some(7) && Exec(s, acts).waiters[0].phase == Waiting(false)
  {
    hide Legal, Exec;
    var s := State(map[0 := Waiter(None, false, {7}, Outside)], map[7 := Cond(None, false, false, {0})], []);
    var s1 := Apply(s, Mark(7));
    var s2 := Apply(s1, Open(7));
    NoSteps(Apply(s2, Wait(0)));
    ExecStep(s2, Wait(0), []);
    assert [Wait(0)] + [] == [Wait(0)] && [Open(7)] + [Wait(0)] == [Open(7), Wait(0)];
    assert [Mark(7)] + [Open(7), Wait(0)] == [Mark(7), Open(7), Wait(0)];
    ExecStep(s1, Open(7), [Wait(0)]);
    ExecStep(s, Mark(7), [Open(7), Wait(0)]);
  }

  lemma NoSteps(s: State)
    ensures Legal(s, []) && Exec(s, []) == s
  {}

  lemma ExecStep(s: State, a: Action, rest: seq<Action>)
    requires Enabled(s, a) && Legal(Apply(s, a), rest)
    ensures Legal(s, [a] + rest) && Exec(s, [a] + rest) == Exec(Apply(s, a), rest)
  {
    hide Enabled, Apply;
    assert ([a] + rest)[1..] == rest;
  }

  // ---------- The first to decide ----------

  // Nobody decides on c.
  ghost predicate NoDecideOn(s: State, acts: seq<Action>, c: nat)
    requires Legal(s, acts)
    decreases |acts|
  {
    acts != [] ==>
      && (acts[0].Decide? ==> s.waiters[acts[0].mw].phase.cond != c)
      && NoDecideOn(Apply(s, acts[0]), acts[1..], c)
  }

  lemma {:induction false} StaysOpen(s: State, acts: seq<Action>, c: nat)
    requires c in s.conds && s.conds[c].winner == None && Legal(s, acts) && NoDecideOn(s, acts, c)
    ensures c in Exec(s, acts).conds && Exec(s, acts).conds[c].winner == None
    ensures Exec(s, acts).conds[c].wakeAll == s.conds[c].wakeAll
    decreases |acts|
  {
    if acts != [] {
      StaysOpen(Apply(s, acts[0]), acts[1..], c);
    }
  }

  // After a wakeup of a condition that does not wake all, whatever happens in between, the first
  // multiwait to decide on it wins it.
  lemma FirstDeciderWins(s: State, acts: seq<Action>, c: nat, m: nat)
    requires acts != [] && acts[0] == Open(c) && Legal(s, acts) && !s.conds[c].wakeAll
    requires NoDecideOn(Apply(s, Open(c)), acts[1..], c)
    requires var t := Exec(s, acts); Enabled(t, Decide(m)) && t.waiters[m].phase.cond == c
    ensures var t, u := Exec(s, acts), Apply(Exec(s, acts), Decide(m));
      u.conds[c].winner == Some(m) && u.hist == t.hist + [Won(c, m)] && u.waiters[m].phase == Leaving
  {
    hide Legal, Exec, NoDecideOn;
    ExecUnfolds(s, acts);
    StaysOpen(Apply(s, Open(c)), acts[1..], c);
  }

  // ---------- Successful returns ----------

  // Those whose wait for c ends in success at a step: they go from seeing c to the way out.
  ghost function Returning(s: State, a: Action, c: nat): set<nat>
    requires Enabled(s, a)
  {
    var t := Apply(s, a);
    set m | m in s.waiters && s.waiters[m].phase == Seeing(c) && m in t.waiters && t.waiters[m].phase == Leaving
  }

  // How many waits for c end in success in a run, and how many wakeups of c there are in it.
  ghost function Returns(s: State, acts: seq<Action>, c: nat): nat
    requires Legal(s, acts)
    decreases |acts|
  {
    if acts == [] then 0 else |Returning(s, acts[0], c)| + Returns(Apply(s, acts[0]), acts[1..], c)
  }

  function Wakeups(acts: seq<Action>, c: nat): nat {
    if acts == [] then 0 else (if acts[0] == Open(c) then 1 else 0) + Wakeups(acts[1..], c)
  }

  // c has been returned for since its last wakeup, in a run that begins with or without such a return.
  ghost predicate Claimed(s: State, acts: seq<Action>, c: nat, before: bool)
    requires Legal(s, acts)
    decreases |acts|
  {
    if acts == [] then before
    else
      Claimed(Apply(s, acts[0]), acts[1..], c, acts[0] != Open(c) && (before || Returning(s, acts[0], c) != {}))
  }

  // No way out but a decision.
  lemma LeavingIsReturning(s: State, a: Action, m: nat)
    requires Enabled(s, a) && m in s.waiters
    ensures m in Apply(s, a).waiters
    ensures s.waiters[m].phase != Leaving && Apply(s, a).waiters[m].phase == Leaving ==>
      a == Decide(m) && s.waiters[m].phase.Seeing? && m in Returning(s, a, s.waiters[m].phase.cond)
  {}

  // What one step does to a condition that does not wake all.
  lemma ReturningStep(s: State, a: Action, c: nat)
    requires Enabled(s, a) && c in s.conds && !s.conds[c].wakeAll
    ensures
      var t := Apply(s, a);
      && c in t.conds && !t.conds[c].wakeAll
      && (t.conds[c].winner.Some? <==> a != Open(c) && (s.conds[c].winner.Some? || Returning(s, a, c) != {}))
      && (Returning(s, a, c) != {} ==> s.conds[c].winner.None? && a.Decide? && Returning(s, a, c) == {a.mw})
      && (t.hist == s.hist ==> Returning(s, a, c) == {} && a != Open(c))
      && (t.hist == s.hist
          || exists e :: t.hist == s.hist + [e] && (IsWin(e, c) <==> Returning(s, a, c) != {}) && (e == Woke(c) <==> a == Open(c)))
  {
    var t := Apply(s, a);
    if a.Decide? {
      DecideReturns(s, a.mw, c);
    } else {
      assert Returning(s, a, c) == {};
      if a.Open? {
        assert t.hist == s.hist + [Woke(a.cond)];
      }
    }
  }

  lemma DecideReturns(s: State, m: nat, c: nat)
    requires Enabled(s, Decide(m))
    ensures
      var d := s.waiters[m].phase.cond;
      Returning(s, Decide(m), c) == if c == d && (s.conds[d].wakeAll || s.conds[d].winner.None?) then {m} else {}
  {}

  // Winners in the history are returns, and its wakeups those of the run.
  lemma {:induction false} HistoryCounts(s: State, acts: seq<Action>, c: nat)
    requires Legal(s, acts) && c in s.conds && !s.conds[c].wakeAll
    ensures Wins(Exec(s, acts).hist, c) == Wins(s.hist, c) + Returns(s, acts, c)
    ensures Wakes(Exec(s, acts).hist, c) == Wakes(s.hist, c) + Wakeups(acts, c)
    ensures c in Exec(s, acts).conds
    decreases |acts|
  {
    hide Apply, Enabled, Returning, Wins, Wakes, IsWin;
    if acts != [] {
      var a, t := acts[0], Apply(s, acts[0]);
      ReturningStep(s, a, c);
      StepCounts(s, a, c);
      HistoryCounts(t, acts[1..], c);
    }
  }

  lemma StepCounts(s: State, a: Action, c: nat)
    requires Enabled(s, a) && c in s.conds && !s.conds[c].wakeAll
    ensures Wins(Apply(s, a).hist, c) == Wins(s.hist, c) + |Returning(s, a, c)|
    ensures Wakes(Apply(s, a).hist, c) == Wakes(s.hist, c) + if a == Open(c) then 1 else 0
  {
    hide Apply, Enabled, Returning, Wins, Wakes, Unclaimed;
    ReturningStep(s, a, c);
    var h, h' := s.hist, Apply(s, a).hist;
    if h' != h {
      var e :| h' == h + [e] && (IsWin(e, c) <==> Returning(s, a, c) != {}) && (e == Woke(c) <==> a == Open(c));
      Appended(h, e, c);
    }
  }

  // Over every interleaving: as many waits end in success as there were wakeups, at most, for a
  // condition that does not wake all.
  lemma AtMostOneReturnPerWakeup(s: State, acts: seq<Action>, c: nat)
    requires Initial(s) && Legal(s, acts) && c in s.conds && !s.conds[c].wakeAll
    ensures Returns(s, acts, c) <= Wakeups(acts, c)
  {
    hide Legal, Exec, Returns, Wakeups;
    HistoryCounts(s, acts, c);
    SingleWinner(s, acts, c);
  }

  // And there is a wakeup between any two of them.
  lemma ReturnsApart(s: State, acts: seq<Action>, c: nat)
    requires acts != [] && Legal(s, acts) && c in s.conds && !s.conds[c].wakeAll
    requires Returning(s, acts[0], c) != {} && Open(c) !in acts
    ensures |Returning(s, acts[0], c)| == 1 && Returns(Apply(s, acts[0]), acts[1..], c) == 0
  {
    hide Legal, Returning, Returns, Apply, Enabled;
    ExecUnfolds(s, acts);
    ReturningStep(s, acts[0], c);
    NoReturns(Apply(s, acts[0]), acts[1..], c);
  }

  lemma {:induction false} NoReturns(s: State, acts: seq<Action>, c: nat)
    requires Legal(s, acts) && c in s.conds && !s.conds[c].wakeAll && s.conds[c].winner.Some? && Open(c) !in acts
    ensures Returns(s, acts, c) == 0
    decreases |acts|
  {
    hide Returning, Apply, Enabled;
    if acts != [] {
      ReturningStep(s, acts[0], c);
      NoReturns(Apply(s, acts[0]), acts[1..], c);
    }
  }

  // A condition has a winner exactly when it has been returned for since its last wakeup.
  lemma {:induction false} WinnerIsClaim(s: State, acts: seq<Action>, c: nat)
    requires Legal(s, acts) && c in s.conds && !s.conds[c].wakeAll
    ensures var t := Exec(s, acts);
      c in t.conds && !t.conds[c].wakeAll && (t.conds[c].winner.Some? <==> Claimed(s, acts, c, s.conds[c].winner.Some?))
    decreases |acts|
  {
    hide Returning, Apply, Enabled;
    if acts != [] {
      ReturningStep(s, acts[0], c);
      WinnerIsClaim(Apply(s, acts[0]), acts[1..], c);
    }
  }

  // Over every interleaving: one that decides on a condition that does not wake all returns if and
  // only if nobody has since its last wakeup, and otherwise is to look again.
  lemma DecisionOutcome(s: State, acts: seq<Action>, c: nat, m: nat)
    requires Initial(s) && Legal(s, acts) && c in s.conds && !s.conds[c].wakeAll
    requires Enabled(Exec(s, acts), Decide(m)) && Exec(s, acts).waiters[m].phase == Seeing(c)
    ensures Apply(Exec(s, acts), Decide(m)).waiters[m].phase == if Claimed(s, acts, c, false) then Retry else Leaving
  {
    hide Legal, Exec, Claimed;
    WinnerIsClaim(s, acts, c);
  }

  // A condition that wakes all is returned for by everyone who decides on it.
  lemma {:induction false} WakeAllReturns(s: State, acts: seq<Action>, c: nat, m: nat)
    requires Legal(s, acts) && c in s.conds && s.conds[c].wakeAll
    requires Enabled(Exec(s, acts), Decide(m)) && Exec(s, acts).waiters[m].phase == Seeing(c)
    ensures Apply(Exec(s, acts), Decide(m)).waiters[m].phase == Leaving
    decreases |acts|
  {
    if acts != [] {
      WakeAllReturns(Apply(s, acts[0]), acts[1..], c, m);
    }
  }

  // One that is to look again does nothing else before it has.
  lemma {:induction false} LoserLooksAgain(s: State, acts: seq<Action>, m: nat)
    requires Legal(s, acts) && m in s.waiters && s.waiters[m].phase == Retry && Wait(m) !in acts
    ensures var t := Exec(s, acts); m in t.waiters && t.waiters[m].phase == Retry && Enabled(t, Wait(m))
    decreases |acts|
  {
    if acts != [] {
      LoserLooksAgain(Apply(s, acts[0]), acts[1..], m);
    }
  }

  // Over every interleaving: nobody is stuck but those asleep that no wakeup has reached. A decision
  // waits for nothing but the end of the wakeup that is under way.
  lemma NobodyStuck(s: State, acts: seq<Action>, m: nat)
    requires Initial(s) && Legal(s, acts) && m in Exec(s, acts).waiters
    ensures
      var t := Exec(s, acts);
      match t.waiters[m].phase
      case Outside => Enabled(t, Wait(m)) && Enabled(t, EnterCrit(m))
      case Waiting(signalled) => Enabled(t, Timeout(m)) && (signalled ==> Enabled(t, Wake(m)))
      case Seeing(c) => Enabled(t, Decide(m)) || (Enabled(t, Open(c)) && Enabled(Apply(t, Open(c)), Decide(m)))
      case Retry => Enabled(t, Wait(m))
      case Leaving => Enabled(t, LeaveCrit(m))
  {
    hide Legal, Exec, CondOk;
    InitialInv(s);
    RunKeepsInv(s, acts);
  }

  lemma InitialInv(s: State)
    requires Initial(s)
    ensures Inv(s)
  {}

  // How often m takes a waker in a run, and how many wakeups reach m in it.
  ghost function Takes(s: State, acts: seq<Action>, m: nat): nat
    requires Legal(s, acts)
    decreases |acts|
  {
    if acts == [] then 0
    else
      var t := Apply(s, acts[0]);
      (if m in s.waiters && m in t.waiters && !s.waiters[m].phase.Seeing? && t.waiters[m].phase.Seeing? then 1 else 0)
      + Takes(t, acts[1..], m)
  }

  ghost function Reaches(s: State, acts: seq<Action>, m: nat): nat
    requires Legal(s, acts)
    decreases |acts|
  {
    if acts == [] then 0
    else
      (if acts[0].Mark? && Reached(s, acts[0].cond, m) then 1 else 0) + Reaches(Apply(s, acts[0]), acts[1..], m)
  }

  // Over every interleaving: a wakeup is taken once at most.
  lemma {:induction false} TakenOnce(s: State, acts: seq<Action>, m: nat)
    requires Legal(s, acts) && m in s.waiters
    ensures Takes(s, acts, m) <= Reaches(s, acts, m) + if s.waiters[m].waker.Some? then 1 else 0
    decreases |acts|
  {
    if acts != [] {
      TakenOnce(Apply(s, acts[0]), acts[1..], m);
    }
  }

  // What a step leaves alone: the other multiwaits, unless it is a wakeup that reaches them, and the
  // other conditions. Leaving a critical section ends a wait.
  lemma StepTouches(s: State, a: Action, n: nat, d: nat)
    requires Enabled(s, a) && n in s.waiters && d in s.conds
    ensures n in Apply(s, a).waiters && d in Apply(s, a).conds
    ensures (if a.Mark? then !Reached(s, a.cond, n) else a.Open? || a.mw != n) ==> Apply(s, a).waiters[n] == s.waiters[n]
    ensures a.Mark? && Reached(s, a.cond, n) ==>
      Apply(s, a).waiters[n] == s.waiters[n].(waker := Some(a.cond), phase := Apply(s, a).waiters[n].phase)
    ensures Apply(s, a).conds[d] == s.conds[d]
      || (a.Register? && a.cond == d) || (a.Mark? && a.cond == d) || (a.Open? && a.cond == d)
      || (a.Decide? && s.waiters[a.mw].phase == Seeing(d))
    ensures a == LeaveCrit(n) ==> Apply(s, a).waiters[n] == s.waiters[n].(critsect := false, phase := Outside)
    ensures a == EnterCrit(n) ==> Apply(s, a).waiters[n] == s.waiters[n].(critsect := true, waker := None)
    ensures a == Timeout(n) ==> Apply(s, a).waiters[n] == s.waiters[n].(phase := Outside)
  {}

  // ---------- Masks ----------

  // What the last change of m's mask for c was, in a run that begins with c let through or not.
  function MaskAfter(acts: seq<Action>, c: nat, m: nat, on: bool): bool
    decreases |acts|
  {
    if acts == [] then on
    else
      MaskAfter(acts[1..], c, m,
                if (acts[0].Register? || acts[0].SetMask?) && acts[0].mw == m && acts[0].cond == c then acts[0].active else on)
  }

  // Over every interleaving: a wakeup reaches those registered and not masked, by the last change.
  lemma {:induction false} ReachedByMask(s: State, acts: seq<Action>, c: nat, m: nat)
    requires Legal(s, acts) && c in s.conds && m in s.waiters
    ensures Reached(Exec(s, acts), c, m) <==>
      && (m in s.conds[c].members || exists a <- acts :: a.Register? && a.mw == m && a.cond == c)
      && MaskAfter(acts, c, m, c in s.waiters[m].mask)
    decreases |acts|
  {
    if acts != [] {
      var a, rest := acts[0], acts[1..];
      assert acts == [a] + rest;
      MaskStep(s, a, c, m);
      ReachedByMask(Apply(s, a), rest, c, m);
    }
  }

  lemma MaskStep(s: State, a: Action, c: nat, m: nat)
    requires Enabled(s, a) && c in s.conds && m in s.waiters
    ensures
      var t := Apply(s, a);
      && c in t.conds && m in t.waiters
      && (m in t.conds[c].members <==> m in s.conds[c].members || (a.Register? && a.mw == m && a.cond == c))
      && (c in t.waiters[m].mask <==>
            if (a.Register? || a.SetMask?) && a.mw == m && a.cond == c then a.active else c in s.waiters[m].mask)
  {}
}
