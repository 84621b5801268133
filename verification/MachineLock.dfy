/**
 * harness/exclusive.py and the probe of harness/delegate.py: single-threaded
 * processes stepping through held, try_held and busy over one kernel file lock,
 * a holder file and an inherited environment flag. Any process may die at any step.
 */
module MachineLock {
  import opened Common

  type Pid = nat

  /** The kinds `held` locks for; any other kind's block runs without the lock. */
  const GATED := {"image", "video", "eval", "ramp", "external", "chaos"}

  /** How a process entered a `with` block: on its own lock, passed by the flag, of an ungated kind, or told no. */
  datatype Frame = Own | Passed | Open | Refused
  datatype Block = Block(frame: Frame, kind: string)

  datatype Phase =
    | Calm                   // ordinary code, in or out of blocks
    | Waiting(kind: string)  // held's polling loop
    | Took(kind: string)     // the lock is taken, the holder file not yet written
    | Named(kind: string)    // the holder file is written, the flag not yet set
    | Leaving                // the flag is dropped, the holder file not yet unlinked
    | Unlinked               // the lock is not yet released
    | Probing                // busy took the lock and is about to release it

  /** `origin` is the process that set the flag this one carries; `wrote` whether its last holder write succeeded. */
  datatype Proc = Proc(alive: bool, flag: bool, phase: Phase, blocks: seq<Block>,
                       parent: Option<Pid>, origin: Option<Pid>, wrote: bool) {
    function Frames(): (fs: seq<Frame>)
      ensures |fs| == |blocks| && forall i :: 0 <= i < |fs| ==> fs[i] == blocks[i].frame
    {
      seq(|blocks|, i requires 0 <= i < |blocks| => blocks[i].frame)
    }
  }

  datatype HolderFile = NoFile | Garbled | Names(kind: string, pid: Pid)

  /** `unlinkFailed` holds the processes whose unlink of the holder file raised and was suppressed. */
  datatype State = State(procs: map<Pid, Proc>, owner: Option<Pid>, file: HolderFile, unlinkFailed: set<Pid>)

  datatype Write = Written | Cut | Failed

  datatype Action =
    | Start(p: Pid)
    | Spawn(p: Pid, child: Pid)
    | EnterOpen(p: Pid, kind: string)
    | EnterPassed(p: Pid, kind: string)
    | StartHeld(p: Pid, kind: string)
    | Take(p: Pid)
    | TryHeld(p: Pid, kind: string)
    | WriteHolder(p: Pid, how: Write)
    | SetFlag(p: Pid)
    | Leave(p: Pid)
    | Unlink(p: Pid, ok: bool)
    | Release(p: Pid)
    | Exit(p: Pid)
    | Probe(p: Pid)
    | ProbeRelease(p: Pid)
    | Die(p: Pid)

  const INIT := State(map[], None, NoFile, {})

  predicate Live(s: State, p: Pid) { p in s.procs && s.procs[p].alive }

  predicate At(s: State, p: Pid, phase: Phase) { Live(s, p) && s.procs[p].phase == phase }

  function Top(p: Proc): Frame
    requires p.blocks != []
  {
    p.blocks[|p.blocks| - 1].frame
  }

  function Popped(p: Proc): (q: Proc)
    requires p.blocks != []
    ensures q.Frames() == p.Frames()[..|p.blocks| - 1]
  {
    p.(blocks := p.blocks[..|p.blocks| - 1])
  }

  function Pushed(p: Proc, f: Frame, kind: string): (q: Proc)
    ensures q.Frames() == p.Frames() + [f]
  {
    p.(blocks := p.blocks + [Block(f, kind)])
  }

  predicate Enabled(s: State, a: Action) {
    match a
    case Start(p) => p !in s.procs
    case Spawn(p, child) => At(s, p, Calm) && child !in s.procs
    case EnterOpen(p, kind) => At(s, p, Calm) && kind !in GATED
    case EnterPassed(p, _) => At(s, p, Calm) && s.procs[p].flag
    case StartHeld(p, kind) => At(s, p, Calm) && !s.procs[p].flag && kind in GATED
    case Take(p) => Live(s, p) && s.procs[p].phase.Waiting? && s.owner == None
    case TryHeld(p, _) => At(s, p, Calm) && !s.procs[p].flag
    case WriteHolder(p, _) => Live(s, p) && s.procs[p].phase.Took?
    case SetFlag(p) => Live(s, p) && s.procs[p].phase.Named?
    case Leave(p) => At(s, p, Calm) && s.procs[p].blocks != [] && Top(s.procs[p]) == Own
    case Unlink(p, _) => At(s, p, Leaving)
    case Release(p) => At(s, p, Unlinked)
    case Exit(p) => At(s, p, Calm) && s.procs[p].blocks != [] && Top(s.procs[p]) != Own
    case Probe(p) => At(s, p, Calm) && !s.procs[p].flag && s.owner == None
    case ProbeRelease(p) => At(s, p, Probing)
    case Die(p) => Live(s, p)
  }

  function Set(s: State, p: Pid, proc: Proc): State { s.(procs := s.procs[p := proc]) }

  function Do(s: State, a: Action): State
    requires Enabled(s, a)
  {
    match a
    case Start(p) => Set(s, p, Proc(true, false, Calm, [], None, None, false))
    case Spawn(p, child) => Set(s, child, Proc(true, s.procs[p].flag, Calm, [], Some(p), s.procs[p].origin, false))
    case EnterOpen(p, kind) => Set(s, p, Pushed(s.procs[p], Open, kind))
    case EnterPassed(p, kind) => Set(s, p, Pushed(s.procs[p], Passed, kind))
    case StartHeld(p, kind) => Set(s, p, s.procs[p].(phase := Waiting(kind)))
    case Take(p) => Set(s, p, s.procs[p].(phase := Took(s.procs[p].phase.kind))).(owner := Some(p))
    case TryHeld(p, kind) =>
      if s.owner == None then Set(s, p, s.procs[p].(phase := Took(kind))).(owner := Some(p))
      else Set(s, p, Pushed(s.procs[p], Refused, kind))
    case WriteHolder(p, how) =>
      var kind := s.procs[p].phase.kind;
      Set(s, p, s.procs[p].(phase := Named(kind), wrote := how == Written))
        .(file := match how case Written => Names(kind, p) case Cut => Garbled case Failed => s.file)
    case SetFlag(p) =>
      var kind := s.procs[p].phase.kind;
      Set(s, p, Pushed(s.procs[p].(phase := Calm, flag := true, origin := Some(p)), Own, kind))
    case Leave(p) => Set(s, p, Popped(s.procs[p]).(phase := Leaving, flag := false, origin := None))
    case Unlink(p, ok) =>
      if ok then Set(s, p, s.procs[p].(phase := Unlinked)).(file := NoFile)
      else Set(s, p, s.procs[p].(phase := Unlinked)).(unlinkFailed := s.unlinkFailed + {p})
    case Release(p) => Set(s, p, s.procs[p].(phase := Calm)).(owner := None)
    case Exit(p) => Set(s, p, Popped(s.procs[p]))
    case Probe(p) => Set(s, p, s.procs[p].(phase := Probing)).(owner := Some(p))
    case ProbeRelease(p) => Set(s, p, s.procs[p].(phase := Calm)).(owner := None)
    case Die(p) =>
      // The kernel frees the lock with the process; the holder file survives it.
      Set(s, p, s.procs[p].(alive := false)).(owner := if s.owner == Some(p) then None else s.owner)
  }

  // ---- runs ----

  /** Every action is enabled when its turn comes. */
  predicate IsRun(actions: seq<Action>)
    decreases |actions|, 0
  {
    actions == [] ||
    (var n := |actions| - 1;
     IsRun(actions[..n]) && Enabled(Reached(actions[..n]), actions[n]))
  }

  function Reached(actions: seq<Action>): State
    requires IsRun(actions)
    decreases |actions|, 1
  {
    if actions == [] then INIT else var n := |actions| - 1; Do(Reached(actions[..n]), actions[n])
  }

  lemma Extend(actions: seq<Action>, a: Action) returns (next: seq<Action>)
    requires IsRun(actions) && Enabled(Reached(actions), a)
    ensures next == actions + [a] && IsRun(next) && Reached(next) == Do(Reached(actions), a)
  {
    next := actions + [a];
    assert next[..|next| - 1] == actions && next[|next| - 1] == a;
  }

  // ---- what is promised ----

  /** Past its own successful take and not yet past its release. */
  predicate Holding(p: Proc) {
    p.alive && (p.phase.Took? || p.phase.Named? || p.phase in {Leaving, Unlinked, Probing} || Own in p.Frames())
  }

  predicate InOwnBody(s: State, p: Pid) { Live(s, p) && Own in s.procs[p].Frames() }

  /** In a block that was let through by the flag, without a lock of its own. */
  predicate InBorrowedBlock(s: State, p: Pid) {
    Live(s, p) && Passed in s.procs[p].Frames() && Own !in s.procs[p].Frames()
  }

  /** It died with its name in the holder file and the file not yet unlinked. */
  predicate DiedNamed(p: Proc) { !p.alive && (p.phase.Named? || p.phase == Leaving || Own in p.Frames()) }

  // ---- the invariant every step keeps ----

  predicate FramesOk(p: Proc) {
    && (Own in p.Frames() ==> p.flag && p.phase == Calm)
    && (Passed in p.Frames() ==> p.flag)
    && forall i, j :: 0 <= i < j < |p.Frames()| && p.Frames()[j] == Own ==> p.Frames()[i] in {Open, Refused}
  }

  predicate ProcOk(s: State, p: Pid)
    requires p in s.procs
  {
    var proc := s.procs[p];
    && FramesOk(proc)
    && (Holding(proc) <==> s.owner == Some(p))
    && (proc.flag <==> proc.origin.Some?)
    && (Own in proc.Frames() <==> proc.origin == Some(p))
    && (proc.phase != Calm ==> !proc.flag)
    && (proc.origin.Some? ==> proc.origin.value in s.procs)
    && (proc.alive && proc.wrote && (proc.phase.Named? || proc.phase == Leaving || Own in proc.Frames())
        ==> s.file.Names? && s.file.pid == p)
  }

  predicate FileOk(s: State) {
    s.file.Names? ==>
      && s.file.pid in s.procs
      && var p := s.procs[s.file.pid];
      && (|| s.file.pid in s.unlinkFailed || DiedNamed(p)
          || (p.alive && p.wrote && (p.phase.Named? || p.phase == Leaving || Own in p.Frames())))
  }

  predicate Inv(s: State) {
    && (s.owner.Some? ==> s.owner.value in s.procs)
    && FileOk(s)
    && forall p <- s.procs :: ProcOk(s, p)
  }

  function Actor(a: Action): Pid { if a.Spawn? then a.child else a.p }

  lemma StepKeepsInv(s: State, a: Action)
    requires Inv(s) && Enabled(s, a)
    ensures Inv(Do(s, a))
  {
    var t := Do(s, a);
    FileStays(s, a);
    ActorOk(s, a);
    hide FileOk, ProcOk;
    assert t.procs.Keys == s.procs.Keys + {Actor(a)};
    forall q <- t.procs
      ensures ProcOk(t, q)
    {
      if q != Actor(a) {
        OthersOk(s, a, q);
      }
    }
  }

  lemma FileStays(s: State, a: Action)
    requires Inv(s) && Enabled(s, a)
    ensures FileOk(Do(s, a))
    ensures Do(s, a).owner.Some? ==> Do(s, a).owner.value in Do(s, a).procs
  {
    if a.p in s.procs {
      assert ProcOk(s, a.p);
    }
    if a.Leave? {
      LeavingIsClean(s.procs[a.p]);
    }
    if s.file.Names? {
      assert ProcOk(s, s.file.pid);
    }
  }

  lemma LeavingIsClean(p: Proc)
    requires FramesOk(p) && p.blocks != [] && Top(p) == Own
    ensures FramesOk(Popped(p)) && Own !in Popped(p).Frames() && Passed !in Popped(p).Frames()
  {
    var n := |p.Frames()| - 1;
    assert forall i :: 0 <= i < n ==> p.Frames()[i] in {Open, Refused};
    assert forall f :: f in p.Frames()[..n] ==> f in {Open, Refused};
  }

  lemma ExitIsClean(p: Proc)
    requires FramesOk(p) && p.blocks != [] && Top(p) != Own
    ensures FramesOk(Popped(p)) && (Own in Popped(p).Frames() <==> Own in p.Frames())
  {
    var n := |p.Frames()| - 1;
    assert p.Frames() == p.Frames()[..n] + [p.Frames()[n]];
  }

  lemma PushIsClean(p: Proc, f: Frame, kind: string)
    requires FramesOk(p)
    requires f == Own ==> p.flag && p.phase == Calm && Own !in p.Frames() && Passed !in p.Frames()
    requires f == Passed ==> p.flag
    ensures FramesOk(Pushed(p, f, kind)) && (Own in Pushed(p, f, kind).Frames() <==> Own in p.Frames() || f == Own)
  {
    var frames := Pushed(p, f, kind).Frames();
    forall g
      ensures g in frames <==> g in p.Frames() || g == f
    {
      assert frames[|p.Frames()|] == f;
      assert g in p.Frames() ==> g in frames;
    }
    if f == Own {
      assert forall i :: 0 <= i < |p.Frames()| ==> p.Frames()[i] in p.Frames();
    }
  }

  lemma ActorOk(s: State, a: Action)
    requires Inv(s) && Enabled(s, a)
    ensures ProcOk(Do(s, a), Actor(a))
  {
    if a.Start? || a.Spawn? {
      NewcomerOk(s, a);
    } else if a.EnterOpen? || a.EnterPassed? || a.TryHeld? || a.SetFlag? || a.Leave? || a.Exit? {
      BlockOk(s, a);
    } else {
      PhaseOk(s, a);
    }
  }

  lemma NewcomerOk(s: State, a: Action)
    requires Inv(s) && Enabled(s, a) && (a.Start? || a.Spawn?)
    ensures ProcOk(Do(s, a), Actor(a))
  {
    if a.Spawn? {
      assert ProcOk(s, a.p);
    }
  }

  /** A step that enters or leaves a block. */
  lemma BlockOk(s: State, a: Action)
    requires Inv(s) && Enabled(s, a)
    requires a.EnterOpen? || a.EnterPassed? || a.TryHeld? || a.SetFlag? || a.Leave? || a.Exit?
    ensures ProcOk(Do(s, a), Actor(a))
  {
    var p := s.procs[a.p];
    assert ProcOk(s, a.p);
    hide FramesOk;
    match a
    case Leave(_) => LeavingIsClean(p);
    case Exit(_) => ExitIsClean(p);
    case EnterOpen(_, kind) => PushIsClean(p, Open, kind);
    case EnterPassed(_, kind) => PushIsClean(p, Passed, kind);
    case TryHeld(_, kind) =>
      PushIsClean(p, Refused, kind);
      PhaseIsClean(p, p.(phase := Took(kind)));
    case SetFlag(_) =>
      UnflaggedIsClean(p);
      PushIsClean(p.(phase := Calm, flag := true, origin := Some(a.p)), Own, p.phase.kind);
  }

  /** A step that only moves a process along the protocol, or ends it. */
  lemma PhaseOk(s: State, a: Action)
    requires Inv(s) && Enabled(s, a) && !a.Start? && !a.Spawn?
    requires !(a.EnterOpen? || a.EnterPassed? || a.TryHeld? || a.SetFlag? || a.Leave? || a.Exit?)
    ensures ProcOk(Do(s, a), Actor(a))
  {
    var p := s.procs[a.p];
    assert ProcOk(s, a.p);
    PhaseIsClean(p, Do(s, a).procs[a.p]);
    if !p.flag {
      UnflaggedIsClean(p);
    }
    hide FramesOk;
  }

  lemma UnflaggedIsClean(p: Proc)
    requires FramesOk(p) && !p.flag
    ensures Own !in p.Frames() && Passed !in p.Frames()
    ensures forall phase, flag, origin :: FramesOk(p.(phase := phase, flag := flag, origin := origin))
  {
  }

  lemma PhaseIsClean(p: Proc, p': Proc)
    requires FramesOk(p) && p'.blocks == p.blocks && (p'.flag == p.flag)
    requires p'.phase == p.phase || !p.flag
    ensures FramesOk(p')
  {
    assert p'.Frames() == p.Frames();
  }

  lemma OthersOk(s: State, a: Action, q: Pid)
    requires Inv(s) && Enabled(s, a)
    requires q in s.procs && q != Actor(a)
    ensures ProcOk(Do(s, a), q)
  {
    assert ProcOk(s, q);
    if a.p in s.procs {
      assert ProcOk(s, a.p);
    }
  }

  lemma {:induction false} RunsKeepInv(actions: seq<Action>)
    requires IsRun(actions)
    ensures Inv(Reached(actions))
    decreases |actions|
  {
    if actions != [] {
      var n := |actions| - 1;
      RunsKeepInv(actions[..n]);
      StepKeepsInv(Reached(actions[..n]), actions[n]);
    }
  }

  // ---- exclusion ----

  /** At most one live process is past its own take and not past its release, and the lock is free otherwise. */
  lemma LockIsExclusive(actions: seq<Action>)
    requires IsRun(actions)
    ensures var s := Reached(actions);
            && (forall p, q :: p in s.procs && q in s.procs && Holding(s.procs[p]) && Holding(s.procs[q]) ==> p == q)
            && (s.owner == None <==> forall p <- s.procs :: !Holding(s.procs[p]))
  {
    var s := Reached(actions);
    RunsKeepInv(actions);
    forall p <- s.procs
      ensures Holding(s.procs[p]) <==> s.owner == Some(p)
    {
      assert ProcOk(s, p);
    }
  }

  /** No lock outlives its process: if nobody live holds it, any waiter can take it now. */
  lemma NoStaleLock(actions: seq<Action>, p: Pid)
    requires IsRun(actions)
    requires var s := Reached(actions); Live(s, p) && s.procs[p].phase.Waiting?
    requires var s := Reached(actions); forall q <- s.procs :: !Holding(s.procs[q])
    ensures IsRun(actions + [Take(p)])
    ensures Holding(Reached(actions + [Take(p)]).procs[p])
  {
    LockIsExclusive(actions);
    var next := actions + [Take(p)];
    assert next[..|next| - 1] == actions && next[|next| - 1] == Take(p);
  }

  /** try_held says no exactly when another live process holds the lock, be it only for a probe. */
  lemma RefusedExactlyWhenHeld(actions: seq<Action>, p: Pid, kind: string)
    requires IsRun(actions) && Enabled(Reached(actions), TryHeld(p, kind))
    ensures var s := Reached(actions);
            Do(s, TryHeld(p, kind)).procs[p].blocks == s.procs[p].blocks + [Block(Refused, kind)]
            <==> exists q :: q in s.procs && q != p && Holding(s.procs[q])
  {
    var s := Reached(actions);
    RunsKeepInv(actions);
    LockIsExclusive(actions);
    assert ProcOk(s, p);
    if s.owner.Some? {
      assert ProcOk(s, s.owner.value);
      assert s.owner.value in s.procs && s.owner.value != p && Holding(s.procs[s.owner.value]);
    }
  }

  // ---- the kinds that need the machine ----

  /** Nothing ungated waits or takes the lock through held, and only ungated kinds are let through without it. */
  predicate KindsOk(p: Proc) {
    && (forall i :: 0 <= i < |p.blocks| && p.blocks[i].frame == Open ==>
          p.blocks[i].kind !in {"image", "video", "eval", "ramp", "external", "chaos"})
    && (p.phase.Waiting? ==> p.phase.kind in {"image", "video", "eval", "ramp", "external", "chaos"})
  }

  lemma StepKeepsKinds(s: State, a: Action)
    requires Enabled(s, a) && forall p <- s.procs :: KindsOk(s.procs[p])
    ensures forall p <- Do(s, a).procs :: KindsOk(Do(s, a).procs[p])
  {
    var t := Do(s, a);
    forall q <- t.procs
      ensures KindsOk(t.procs[q])
    {
      if q in s.procs {
        assert KindsOk(s.procs[q]);
      }
      if q != Actor(a) {
        assert t.procs[q] == s.procs[q];
      }
    }
  }

  lemma {:induction false} RunsKeepKinds(actions: seq<Action>)
    requires IsRun(actions)
    ensures forall p <- Reached(actions).procs :: KindsOk(Reached(actions).procs[p])
    decreases |actions|
  {
    if actions != [] {
      var n := |actions| - 1;
      RunsKeepKinds(actions[..n]);
      StepKeepsKinds(Reached(actions[..n]), actions[n]);
    }
  }

  /**
   * A live process inside a block of one of these kinds, unless try_held told it no there, is the one that holds the
   * lock or carries the flag of one that did.
   */
  lemma GatedBlocksHoldTheMachine(actions: seq<Action>, p: Pid, block: Block)
    requires IsRun(actions)
    requires var s := Reached(actions); Live(s, p) && block in s.procs[p].blocks && block.frame != Refused
    requires block.kind in {"image", "video", "eval", "ramp", "external", "chaos"}
    ensures var s := Reached(actions); s.owner == Some(p) || s.procs[p].flag
    ensures block.frame == Own ==> Reached(actions).owner == Some(p)
  {
    var proc := Reached(actions).procs[p];
    RunsKeepInv(actions);
    RunsKeepKinds(actions);
    assert ProcOk(Reached(actions), p) && KindsOk(proc);
    var i :| 0 <= i < |proc.blocks| && proc.blocks[i] == block;
    assert proc.Frames()[i] == block.frame;
  }

  /** held waits for these kinds alone: no process waits for another, and it is entered whoever holds the lock. */
  lemma OtherKindsNeverWait(actions: seq<Action>, p: Pid, kind: string)
    requires IsRun(actions) && kind !in {"image", "video", "eval", "ramp", "external", "chaos"}
    ensures p in Reached(actions).procs ==> Reached(actions).procs[p].phase != Waiting(kind)
    ensures At(Reached(actions), p, Calm) ==>
              && IsRun(actions + [EnterOpen(p, kind)])
              && Reached(actions + [EnterOpen(p, kind)]).procs[p].blocks
                 == Reached(actions).procs[p].blocks + [Block(Open, kind)]
  {
    RunsKeepKinds(actions);
    if p in Reached(actions).procs {
      assert KindsOk(Reached(actions).procs[p]);
    }
    if At(Reached(actions), p, Calm) {
      var next := Extend(actions, EnterOpen(p, kind));
    }
  }

  /** For the others a process without the flag can only start to wait, and one with it is let through. */
  lemma GatedKindsAsk(actions: seq<Action>, p: Pid, kind: string)
    requires IsRun(actions) && kind in {"image", "video", "eval", "ramp", "external", "chaos"}
    requires At(Reached(actions), p, Calm)
    ensures var s := Reached(actions);
            && !Enabled(s, EnterOpen(p, kind))
            && (Enabled(s, EnterPassed(p, kind)) <==> s.procs[p].flag)
            && (Enabled(s, StartHeld(p, kind)) <==> !s.procs[p].flag)
  {
  }

  // ---- the holder file ----

  /** If its write succeeded, the file names a process from the write to the unlink, its whole body included. */
  lemma FileNamesTheBody(actions: seq<Action>, p: Pid)
    requires IsRun(actions)
    requires var s := Reached(actions); InOwnBody(s, p) && s.procs[p].wrote
    ensures var s := Reached(actions);
            s.file.Names? && s.file.pid == p && s.owner == Some(p)
  {
    RunsKeepInv(actions);
    assert ProcOk(Reached(actions), p);
  }

  /** A name that is not the current owner's is of a process that died holding, or whose unlink failed. */
  lemma StaleNamesAreOfTheDead(actions: seq<Action>)
    requires IsRun(actions)
    requires var s := Reached(actions); s.file.Names? && s.owner != Some(s.file.pid)
    ensures var s := Reached(actions);
            && s.file.pid in s.procs
            && (DiedNamed(s.procs[s.file.pid]) || s.file.pid in s.unlinkFailed)
  {
    RunsKeepInv(actions);
    assert ProcOk(Reached(actions), Reached(actions).file.pid);
  }

  // ---- the inherited flag ----

  function ParentOf(s: State, p: Pid): Option<Pid> { if p in s.procs then s.procs[p].parent else None }

  /** `path` climbs from `p` to `o` by parents. */
  predicate Climbs(s: State, path: seq<Pid>, p: Pid, o: Pid) {
    && path != [] && path[0] == p && path[|path| - 1] == o
    && forall i :: 0 <= i < |path| - 1 ==> ParentOf(s, path[i]) == Some(path[i + 1])
  }

  lemma ParentsStay(s: State, a: Action, path: seq<Pid>, p: Pid, o: Pid)
    requires Enabled(s, a) && Climbs(s, path, p, o)
    ensures Climbs(Do(s, a), path, p, o)
  {
    forall i | 0 <= i < |path| - 1
      ensures ParentOf(Do(s, a), path[i]) == Some(path[i + 1])
    {
      assert ParentOf(s, path[i]) == Some(path[i + 1]);
    }
  }

  /** Some prefix of the run had `o` in a body of its own. */
  ghost predicate HeldOnce(actions: seq<Action>, o: Pid)
    requires IsRun(actions)
  {
    exists n: nat :: n <= |actions| && IsRun(actions[..n]) && InOwnBody(Reached(actions[..n]), o)
  }

  lemma HeldOnceStays(actions: seq<Action>, n: nat, o: Pid)
    requires n <= |actions| && IsRun(actions) && IsRun(actions[..n]) && HeldOnce(actions[..n], o)
    ensures HeldOnce(actions, o)
  {
    var m: nat :| m <= n && IsRun(actions[..n][..m]) && InOwnBody(Reached(actions[..n][..m]), o);
    assert actions[..n][..m] == actions[..m];
  }

  /** A flag comes from a process that was in its own body, itself or an ancestor it was inherited down from. */
  lemma {:induction false} FlagComesFromAHolder(actions: seq<Action>, p: Pid) returns (path: seq<Pid>)
    requires IsRun(actions)
    requires p in Reached(actions).procs && Reached(actions).procs[p].flag
    ensures var s := Reached(actions);
            && s.procs[p].origin.Some?
            && Climbs(s, path, p, s.procs[p].origin.value)
            && HeldOnce(actions, s.procs[p].origin.value)
    decreases |actions|
  {
    var s := Reached(actions);
    RunsKeepInv(actions);
    assert ProcOk(s, p);
    var n := |actions| - 1;
    var before, a := Reached(actions[..n]), actions[n];
    var o := s.procs[p].origin.value;
    RunsKeepInv(actions[..n]);
    assert s == Do(before, a);
    FlagStep(before, a, p);
    hide Inv, ProcOk, Do, Enabled;
    if a == SetFlag(p) {
      path := [p];
      assert actions[..n + 1] == actions;
    } else {
      var from := if a.Spawn? && a.child == p then a.p else p;
      var up := FlagComesFromAHolder(actions[..n], from);
      ParentsStay(before, a, up, from, o);
      path := if from == p then up else [p] + up;
      assert from != p ==> forall i :: 0 < i < |path| ==> path[i] == up[i - 1];
      HeldOnceStays(actions, n, o);
    }
  }

  /** A set flag was set by this step, copied from the parent by this step, or already there. */
  lemma FlagStep(before: State, a: Action, p: Pid)
    requires Enabled(before, a) && Inv(before)
    requires p in Do(before, a).procs && Do(before, a).procs[p].flag
    ensures var s := Do(before, a);
            if a == SetFlag(p) then InOwnBody(s, p) && s.procs[p].origin == Some(p)
            else
              var from := if a.Spawn? && a.child == p then a.p else p;
              && from in before.procs && before.procs[from].flag
              && before.procs[from].origin == s.procs[p].origin
              && (from != p ==> s.procs[p].parent == Some(from))
  {
    if a == SetFlag(p) {
      var frames := Do(before, a).procs[p].Frames();
      assert frames[|frames| - 1] == Own;
    }
  }

  /** Inside a gated block without a lock of its own, a process carries the flag of a proper ancestor's body. */
  lemma BorrowedBlocksWereInherited(actions: seq<Action>, p: Pid) returns (path: seq<Pid>)
    requires IsRun(actions) && InBorrowedBlock(Reached(actions), p)
    ensures |path| >= 2
    ensures Climbs(Reached(actions), path, p, path[|path| - 1])
    ensures HeldOnce(actions, path[|path| - 1])
  {
    RunsKeepInv(actions);
    assert ProcOk(Reached(actions), p);
    path := FlagComesFromAHolder(actions, p);
  }

  // ---- two runs that show the promises cannot be widened ----

  /** The four steps from outside into a body, as states. */
  lemma Entering(s: State, p: Pid)
    requires p !in s.procs && s.owner == None
    ensures Enabled(s, Start(p))
    ensures var s1 := Do(s, Start(p));
            && Enabled(s1, TryHeld(p, "eval"))
            && var s2 := Do(s1, TryHeld(p, "eval"));
            && s2.owner == Some(p) && s2.procs == s.procs[p := Proc(true, false, Took("eval"), [], None, None, false)]
  {
  }

  lemma Settling(s: State, p: Pid)
    requires p in s.procs && s.procs[p] == Proc(true, false, Took("eval"), [], None, None, false) && s.owner == Some(p)
    ensures Enabled(s, WriteHolder(p, Written))
    ensures var s1 := Do(s, WriteHolder(p, Written));
            && Enabled(s1, SetFlag(p))
            && var s2 := Do(s1, SetFlag(p));
            && s2.owner == Some(p)
            && s2.procs == s.procs[p := Proc(true, true, Calm, [Block(Own, "eval")], None, Some(p), true)]
  {
    assert [] + [Block(Own, "eval")] == [Block(Own, "eval")];
  }

  lemma EnterBody(actions: seq<Action>, p: Pid) returns (next: seq<Action>)
    requires IsRun(actions) && p !in Reached(actions).procs && Reached(actions).owner == None
    ensures IsRun(next)
    ensures var s := Reached(next);
            && s.procs == Reached(actions).procs[p := Proc(true, true, Calm, [Block(Own, "eval")], None, Some(p), true)]
            && s.owner == Some(p)
  {
    hide *;
    var s := Reached(actions);
    Entering(s, p);
    next := Extend(actions, Start(p));
    next := Extend(next, TryHeld(p, "eval"));
    Settling(Reached(next), p);
    next := Extend(next, WriteHolder(p, Written));
    next := Extend(next, SetFlag(p));
  }

  /** From a body: a child borrows the flag, and the parent dies. */
  lemma Orphaning(s: State)
    requires 1 in s.procs && s.procs[1] == Proc(true, true, Calm, [Block(Own, "eval")], None, Some(1), true)
    requires 2 !in s.procs && 3 !in s.procs && s.owner == Some(1)
    ensures Enabled(s, Spawn(1, 2))
    ensures var s1 := Do(s, Spawn(1, 2));
            && Enabled(s1, EnterPassed(2, "eval"))
            && var s2 := Do(s1, EnterPassed(2, "eval"));
            && Enabled(s2, Die(1))
            && var s3 := Do(s2, Die(1));
            && s3.owner == None && 3 !in s3.procs && 2 in s3.procs
            && s3.procs[2] == Proc(true, true, Calm, [Block(Passed, "eval")], Some(1), Some(1), false)
  {
    assert [] + [Block(Passed, "eval")] == [Block(Passed, "eval")];
  }

  lemma OrphanIsBorrowing(s: State)
    requires 2 in s.procs && s.procs[2] == Proc(true, true, Calm, [Block(Passed, "eval")], Some(1), Some(1), false)
    requires 3 in s.procs && s.procs[3] == Proc(true, true, Calm, [Block(Own, "eval")], None, Some(3), true)
    requires s.owner == Some(3)
    ensures InBorrowedBlock(s, 2) && InOwnBody(s, 3)
  {
    assert s.procs[2].Frames()[0] == Passed && s.procs[3].Frames()[0] == Own;
  }

  lemma InitIsEmpty()
    ensures INIT.procs == map[] && INIT.owner == None && IsRun([]) && Reached([]) == INIT
  {
  }

  /** A child may outlive the parent whose flag it carries, and work beside the next owner of the lock. */
  lemma OrphansRunBesideTheOwner() returns (actions: seq<Action>)
    ensures IsRun(actions)
    ensures InBorrowedBlock(Reached(actions), 2) && InOwnBody(Reached(actions), 3)
  {
    hide *;
    InitIsEmpty();
    actions := EnterBody([], 1);
    Orphaning(Reached(actions));
    actions := Extend(actions, Spawn(1, 2));
    actions := Extend(actions, EnterPassed(2, "eval"));
    actions := Extend(actions, Die(1));
    actions := EnterBody(actions, 3);
    OrphanIsBorrowing(Reached(actions));
  }

  /** Two processes start, the one probes, and the other tries. */
  lemma Probed(s: State)
    requires s.procs == map[] && s.owner == None
    ensures Enabled(s, Start(1))
    ensures var s1 := Do(s, Start(1));
            && Enabled(s1, Start(2))
            && var s2 := Do(s1, Start(2));
            && Enabled(s2, Probe(1))
            && var s3 := Do(s2, Probe(1));
            && Enabled(s3, TryHeld(2, "chaos"))
            && var s4 := Do(s3, TryHeld(2, "chaos"));
            && 2 in s4.procs && s4.procs[2].blocks == [Block(Refused, "chaos")]
            && forall p <- s4.procs :: !InOwnBody(s4, p)
  {
    assert [] + [Block(Refused, "chaos")] == [Block(Refused, "chaos")];
  }

  /** A probe alone can make try_held say no: nobody is in a block, and the machine is still refused. */
  lemma ProbesCanRefuse() returns (actions: seq<Action>)
    ensures IsRun(actions)
    ensures var s := Reached(actions);
            && 2 in s.procs && s.procs[2].blocks == [Block(Refused, "chaos")]
            && forall p <- s.procs :: !InOwnBody(s, p)
  {
    hide *;
    InitIsEmpty();
    Probed(INIT);
    actions := Extend([], Start(1));
    actions := Extend(actions, Start(2));
    actions := Extend(actions, Probe(1));
    actions := Extend(actions, TryHeld(2, "chaos"));
  }

  // ---- what a waiter says ----

  type Identity = Option<(string, Pid)>

  /** What is being waited on, with no clock in it; an absent or unreadable file names nobody. */
  function IdentityOf(file: HolderFile): Identity {
    if file.Names? then Some((file.kind, file.pid)) else None
  }

  /** The polls at which the identity differs from the one before, the first poll always among them. */
  function Changes(polls: seq<HolderFile>): seq<Identity> {
    if polls == [] then []
    else
      var n := |polls| - 1;
      Changes(polls[..n])
      + (if n == 0 || IdentityOf(polls[n]) != IdentityOf(polls[n - 1]) then [IdentityOf(polls[n])] else [])
  }

  /** held's polling loop over the holder file as each failed poll reads it: what it announces. */
  method Announce(polls: seq<HolderFile>) returns (announced: seq<Identity>)
    ensures announced == Changes(polls)
    ensures forall i :: 0 < i < |announced| ==> announced[i] != announced[i - 1]
    ensures polls != [] ==> announced != [] && announced[|announced| - 1] == IdentityOf(polls[|polls| - 1])
  {
    announced := [];
    var said: Option<Identity> := None;
    var i := 0;
    while i < |polls|
      invariant 0 <= i <= |polls|
      invariant announced == Changes(polls[..i])
      invariant i == 0 ==> said == None && announced == []
      invariant i > 0 ==> announced != [] && said == Some(IdentityOf(polls[i - 1])) == Some(announced[|announced| - 1])
      invariant forall j :: 0 < j < |announced| ==> announced[j] != announced[j - 1]
    {
      assert polls[..i + 1][..i] == polls[..i];
      var who := IdentityOf(polls[i]);
      if said != Some(who) {
        announced := announced + [who];
        said := Some(who);
      }
      i := i + 1;
    }
    assert polls[..i] == polls;
  }
}
