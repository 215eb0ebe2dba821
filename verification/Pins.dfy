/**
 The pins on the list of file system modules: readers count themselves in, a writer first shuts
 new readers out and then waits for the count to drain. Every locked region is one step.
 */
module Pins {
  datatype Writer = Idle | Draining(thr: nat) | Active(thr: nat)

  // `modifying` and `pins` are the program's variables; the rest says who holds what.
  datatype State = State(modifying: bool, pins: int, readers: multiset<nat>, writer: Writer)

  datatype Action = RdPin(thr: nat) | RdUnpin(thr: nat) | WrShut(thr: nat) | WrEnter(thr: nat) | WrUnpin(thr: nat)

  const INITIAL := State(false, 0, multiset{}, Idle)

  // Loops that wait are steps that are not enabled yet. Releases come from holders.
  predicate Enabled(s: State, a: Action) {
    match a
    case RdPin(_) => !s.modifying
    case RdUnpin(t) => t in s.readers
    case WrShut(_) => !s.modifying
    case WrEnter(t) => s.writer == Draining(t) && s.pins == 0
    case WrUnpin(t) => s.writer == Active(t)
  }

  function Apply(s: State, a: Action): State {
    match a
    case RdPin(t) => s.(pins := s.pins + 1, readers := s.readers + multiset{t})
    case RdUnpin(t) => s.(pins := s.pins - 1, readers := s.readers - multiset{t})
    case WrShut(t) => s.(modifying := true, writer := Draining(t))
    case WrEnter(t) => s.(writer := Active(t))
    case WrUnpin(_) => s.(modifying := false, writer := Idle)
  }

  ghost predicate Legal(s: State, acts: seq<Action>)
    decreases |acts|
  {
    acts != [] ==> Enabled(s, acts[0]) && Legal(Apply(s, acts[0]), acts[1..])
  }

  ghost function Exec(s: State, acts: seq<Action>): State
    decreases |acts|
  {
    if acts == [] then s else Exec(Apply(s, acts[0]), acts[1..])
  }

  ghost predicate Inv(s: State) {
    && s.pins == |s.readers| && (s.modifying <==> !s.writer.Idle?)
    && (s.writer.Active? ==> s.readers == multiset{})
  }

  lemma StepKeepsInv(s: State, a: Action)
    requires Inv(s) && Enabled(s, a)
    ensures Inv(Apply(s, a))
  {}

  lemma {:induction false} RunKeepsInv(s: State, acts: seq<Action>)
    requires Inv(s) && Legal(s, acts)
    ensures Inv(Exec(s, acts))
    decreases |acts|
  {
    hide Inv, Enabled, Apply;
    if acts != [] {
      StepKeepsInv(s, acts[0]);
      RunKeepsInv(Apply(s, acts[0]), acts[1..]);
    }
  }

  // In every run: the count is the number of readers, so the assertion on release holds; a writer
  // past its drain loop has no readers beside it and no second writer can begin.
  lemma Exclusion(acts: seq<Action>, thr: nat)
    requires Legal(INITIAL, acts)
    ensures
      var s := Exec(INITIAL, acts);
      && s.pins == |s.readers| && (Enabled(s, RdUnpin(thr)) ==> s.pins > 0)
      && (s.writer.Active? ==> s.readers == multiset{} && s.pins == 0)
      && (!s.writer.Idle? ==> !Enabled(s, WrShut(thr)) && !Enabled(s, RdPin(thr)))
  {
    RunKeepsInv(INITIAL, acts);
    var s := Exec(INITIAL, acts);
    assert thr in s.readers ==> |s.readers| > 0;
  }

  // How often a thread has pinned for reading more than it has unpinned, by the actions alone.
  ghost function Held(acts: seq<Action>, thr: nat): int {
    if acts == [] then 0
    else
      var n := |acts| - 1;
      Held(acts[..n], thr) + if acts[n] == RdPin(thr) then 1 else if acts[n] == RdUnpin(thr) then -1 else 0
  }

  // In every run: each thread is among the readers as often as it has pinned and not unpinned.
  lemma {:induction false} ReadersAre(acts: seq<Action>, thr: nat)
    requires Legal(INITIAL, acts)
    ensures Exec(INITIAL, acts).readers[thr] == Held(acts, thr)
    decreases |acts|
  {
    if acts != [] {
      var n := |acts| - 1;
      LastStep(INITIAL, acts);
      ReadersAre(acts[..n], thr);
    }
  }

  // What the last step of a writer was, by the actions alone.
  ghost function WriterAfter(acts: seq<Action>): Writer {
    if acts == [] then Idle
    else
      var n := |acts| - 1;
      match acts[n]
      case WrShut(t) => Draining(t)
      case WrEnter(t) => Active(t)
      case WrUnpin(_) => Idle
      case _ => WriterAfter(acts[..n])
  }

  // In every run: the writer is where its last step has brought it.
  lemma {:induction false} WriterIs(acts: seq<Action>)
    requires Legal(INITIAL, acts)
    ensures Exec(INITIAL, acts).writer == WriterAfter(acts)
    decreases |acts|
  {
    if acts != [] {
      LastStep(INITIAL, acts);
      WriterIs(acts[..|acts| - 1]);
    }
  }

  lemma {:induction false} LastStep(s: State, acts: seq<Action>)
    requires acts != [] && Legal(s, acts)
    ensures var n := |acts| - 1;
      && Legal(s, acts[..n]) && Enabled(Exec(s, acts[..n]), acts[n])
      && Exec(s, acts) == Apply(Exec(s, acts[..n]), acts[n])
    decreases |acts|
  {
    hide Enabled, Apply;
    var n := |acts| - 1;
    if n > 0 {
      LastStep(Apply(s, acts[0]), acts[1..]);
      assert acts[1..][..n - 1] == acts[..n][1..];
    }
  }

  // In every run: with no writer anybody is let in; a writer that drains waits for readers only, and
  // those that hold a pin can give it back.
  lemma NobodyStuck(acts: seq<Action>, thr: nat)
    requires Legal(INITIAL, acts)
    ensures
      var s := Exec(INITIAL, acts);
      match s.writer
      case Idle => Enabled(s, RdPin(thr)) && Enabled(s, WrShut(thr))
      case Draining(t) => s.readers == multiset{} <==> Enabled(s, WrEnter(t))
      case Active(t) => Enabled(s, WrUnpin(t))
    ensures thr in Exec(INITIAL, acts).readers ==> Enabled(Exec(INITIAL, acts), RdUnpin(thr))
  {
    RunKeepsInv(INITIAL, acts);
  }

  // While one writer drains or writes, the readers only get fewer: none is admitted.
  lemma {:induction false} NoneAdmitted(s: State, acts: seq<Action>)
    requires Inv(s) && Legal(s, acts) && !s.writer.Idle? && forall a <- acts :: !a.WrUnpin?
    ensures
      var t := Exec(s, acts);
      t.readers <= s.readers && !t.writer.Idle? && t.writer.thr == s.writer.thr
    decreases |acts|
  {
    if acts != [] {
      assert acts[0] in acts && forall a <- acts[1..] :: a in acts;
      StepKeepsInv(s, acts[0]);
      NoneAdmitted(Apply(s, acts[0]), acts[1..]);
    }
  }
}
