/** How runs change when code grows, jumps are patched or the last instruction is widened. */
module LuaRuns {
  import opened Basics
  import opened LuaMachine
  import opened LuaGen

  /** Every test is followed by the jump it controls, and jumps have their destinations worked out. */
  predicate Paired(c: seq<Instr>) {
    && (forall j :: 0 <= j < |c| ==> !c[j].Jmp?)
    && (forall j :: 0 <= j < |c| && IsTest(c[j]) ==> j + 1 < |c| && c[j + 1].Goto?)
  }

  /** Control may reach `pc` other than through a test. */
  predicate Open(c: seq<Instr>, pc: nat) {
    pc <= |c| && (0 < pc < |c| ==> !IsTest(c[pc - 1]))
  }

  predicate Pends(c: seq<Instr>, p: nat) {
    p < |c| && c[p] == Goto(PENDING)
  }

  /** `xs` is a list of pending jumps whose tests have no destination yet. */
  predicate Pending(c: seq<Instr>, xs: seq<nat>) {
    forall p :: p in xs ==> Pends(c, p) && (p > 0 && c[p - 1].TestSet? ==> c[p - 1].dest == NO_REG)
  }

  lemma {:induction false} NextStaysOpen(c: seq<Instr>, w: World, pc: nat, regs: Regs)
    requires Paired(c) && Open(c, pc) && pc < |c|
    ensures Next(c, w, pc, regs).Goes? ==> Open(c, Next(c, w, pc, regs).pc)
  {
  }

  // ----- appending -----

  lemma {:induction false} LandExtends(c: seq<Instr>, d: seq<Instr>, pc: int, regs: Regs)
    requires Paired(c) && Land(c, pc, regs) != Ends(Stuck)
    ensures Land(c + d, pc, regs) == Land(c, pc, regs)
  {
    if pc > 0 {
      assert (c + d)[pc - 1] == c[pc - 1];
    }
  }

  lemma {:induction false} JumpExtends(c: seq<Instr>, d: seq<Instr>, j: nat, regs: Regs)
    requires Paired(c) && TakeJump(c, j, regs) != Ends(Stuck)
    ensures TakeJump(c + d, j, regs) == TakeJump(c, j, regs)
  {
    assert (c + d)[j] == c[j];
    if c[j].Goto? && c[j].target > j {
      LandExtends(c, d, c[j].target, regs);
    }
  }

  lemma {:induction false} NextExtends(c: seq<Instr>, d: seq<Instr>, w: World, pc: nat, regs: Regs)
    requires Paired(c) && pc < |c| && Next(c, w, pc, regs) != Ends(Stuck)
    ensures Next(c + d, w, pc, regs) == Next(c, w, pc, regs)
  {
    assert (c + d)[pc] == c[pc];
    match c[pc] {
      case TestSet(dest, b, cond) =>
        if Truthy(Get(regs, b)) == cond {
          JumpExtends(c, d, pc + 1, if dest < 0 then regs else regs[dest := Get(regs, b)]);
        } else {
          LandExtends(c, d, pc + 2, regs);
        }
      case Test(a, cond) =>
        if Truthy(Get(regs, a)) == cond {
          JumpExtends(c, d, pc + 1, regs);
        } else {
          LandExtends(c, d, pc + 2, regs);
        }
      case Cmp(rel, want, x, y) =>
        var o := w.cmp(rel, Operand(x, w, regs), Operand(y, w, regs));
        if o == Some(want) {
          JumpExtends(c, d, pc + 1, regs);
        } else if o.Some? {
          LandExtends(c, d, pc + 2, regs);
        }
      case Goto(_) => JumpExtends(c, d, pc, regs);
      case LoadBool(a, b, skip) =>
        if skip {
          LandExtends(c, d, pc + 2, regs[a := Bool(b)]);
        }
      case _ =>
    }
  }

  /** A run of longer code goes through the shorter code first. */
  lemma {:induction false} ExecExtends(c: seq<Instr>, d: seq<Instr>, w: World, pc: nat, regs: Regs)
    requires Paired(c) && pc <= |c| && Exec(c, w, pc, regs) != Stuck
    ensures Exec(c + d, w, pc, regs) ==
      match Exec(c, w, pc, regs) case Fall(r) => Exec(c + d, w, |c|, r) case x => x
    decreases |c| - pc
  {
    if pc < |c| {
      NextExtends(c, d, w, pc, regs);
      match Next(c, w, pc, regs)
      case Ends(_) =>
      case Goes(pc', regs') => ExecExtends(c, d, w, pc', regs');
    }
  }

  // ----- patching -----

  /** Where a patched jump goes. */
  function PatchTarget(c: seq<Instr>, p: nat, vtarget: int, dtarget: int): int
    requires p < |c|
  {
    if p > 0 && c[p - 1].TestSet? then vtarget else dtarget
  }

  /** What a patched test has stored when its jump is taken. */
  function PatchRegs(c: seq<Instr>, p: nat, reg: int, regs: Regs): Regs
    requires p < |c|
  {
    if p > 0 && c[p - 1].TestSet? && reg >= 0 && reg != c[p - 1].b then regs[reg := Get(regs, c[p - 1].b)] else regs
  }

  /** The destinations of patched jumps are ahead and can be landed on. */
  predicate Ahead(c: seq<Instr>, xs: seq<nat>, vtarget: int, dtarget: int) {
    forall p :: p in xs && p < |c| ==>
      var t := PatchTarget(c, p, vtarget, dtarget); p < t <= |c| && Open(c, t)
  }

  lemma {:induction false} PatchKeepsPaired(c: seq<Instr>, xs: seq<nat>, vtarget: int, reg: int, dtarget: int)
    requires Paired(c) && Pending(c, xs)
    ensures Paired(Patch(c, xs, vtarget, reg, dtarget))
    ensures forall j :: 0 <= j < |c| ==> IsTest(Patch(c, xs, vtarget, reg, dtarget)[j]) == IsTest(c[j])
  {
    var c' := Patch(c, xs, vtarget, reg, dtarget);
    forall j | 0 <= j < |c|
      ensures IsTest(c'[j]) == IsTest(c[j]) && !c'[j].Jmp? && (c[j].Goto? ==> c'[j].Goto?)
    {
      assert c'[j] == PatchedAt(c, xs, vtarget, reg, dtarget, j);
      assert j in xs ==> Pends(c, j);
    }
  }

  lemma {:induction false} LandPatched(c: seq<Instr>, xs: seq<nat>, vtarget: int, reg: int, dtarget: int, pc: int,
                                       regs: Regs)
    requires Paired(c) && Pending(c, xs)
    ensures Land(Patch(c, xs, vtarget, reg, dtarget), pc, regs) == Land(c, pc, regs)
  {
    PatchKeepsPaired(c, xs, vtarget, reg, dtarget);
  }

  /** The registers a patched test hands to its jump: those of the unpatched test, and the value it now stores. */
  lemma {:induction false} JumpPatched(c: seq<Instr>, xs: seq<nat>, vtarget: int, reg: int, dtarget: int, j: nat,
                                       regs: Regs, regs': Regs)
    requires Paired(c) && Pending(c, xs) && Ahead(c, xs, vtarget, dtarget)
    requires j < |c| && c[j].Goto? && TakeJump(c, j, regs) != Ends(Stuck)
    requires regs' == if j in xs then PatchRegs(c, j, reg, regs) else regs
    ensures TakeJump(Patch(c, xs, vtarget, reg, dtarget), j, regs') ==
      if j in xs then Goes(PatchTarget(c, j, vtarget, dtarget), regs') else TakeJump(c, j, regs)
  {
    var c' := Patch(c, xs, vtarget, reg, dtarget);
    assert c'[j] == PatchedAt(c, xs, vtarget, reg, dtarget, j);
    if j in xs {
      LandPatched(c, xs, vtarget, reg, dtarget, PatchTarget(c, j, vtarget, dtarget), regs');
    } else {
      LandPatched(c, xs, vtarget, reg, dtarget, c[j].target, regs);
    }
  }

  /** What a hop becomes: leaving through a patched jump is going on at its destination. */
  function PatchHop(c: seq<Instr>, xs: seq<nat>, vtarget: int, reg: int, dtarget: int, h: Hop): Hop {
    if h.Ends? && h.x.Leave? && h.x.p in xs && h.x.p < |c| then
      var t := PatchTarget(c, h.x.p, vtarget, dtarget);
      Goes(if t < 0 then 0 else t, PatchRegs(c, h.x.p, reg, h.x.regs))
    else h
  }

  lemma {:induction false} NextPatched(c: seq<Instr>, xs: seq<nat>, vtarget: int, reg: int, dtarget: int, w: World,
                                       pc: nat, regs: Regs)
    requires Paired(c) && Pending(c, xs) && Ahead(c, xs, vtarget, dtarget)
    requires Open(c, pc) && pc < |c| && Next(c, w, pc, regs) != Ends(Stuck)
    ensures Next(Patch(c, xs, vtarget, reg, dtarget), w, pc, regs) ==
      PatchHop(c, xs, vtarget, reg, dtarget, Next(c, w, pc, regs))
  {
    var c' := Patch(c, xs, vtarget, reg, dtarget);
    assert c'[pc] == PatchedAt(c, xs, vtarget, reg, dtarget, pc);
    LandPatched(c, xs, vtarget, reg, dtarget, pc + 2, regs);
    match c[pc] {
      case TestSet(dest, b, cond) => TestSetPatched(c, xs, vtarget, reg, dtarget, w, pc, regs);
      case Cmp(_, _, _, _) => JumpIfTaken(c, xs, vtarget, reg, dtarget, pc + 1, regs);
      case Test(_, _) => JumpIfTaken(c, xs, vtarget, reg, dtarget, pc + 1, regs);
      case Goto(_) => JumpIfTaken(c, xs, vtarget, reg, dtarget, pc, regs);
      case LoadBool(a, b, _) => LandPatched(c, xs, vtarget, reg, dtarget, pc + 2, regs[a := Bool(b)]);
      case _ =>
    }
  }

  lemma {:induction false} JumpIfTaken(c: seq<Instr>, xs: seq<nat>, vtarget: int, reg: int, dtarget: int, j: nat,
                                       regs: Regs)
    requires Paired(c) && Pending(c, xs) && Ahead(c, xs, vtarget, dtarget)
    requires j < |c| && c[j].Goto? && !(j > 0 && c[j - 1].TestSet?)
    ensures TakeJump(c, j, regs) != Ends(Stuck) ==>
      TakeJump(Patch(c, xs, vtarget, reg, dtarget), j, regs) ==
        PatchHop(c, xs, vtarget, reg, dtarget, TakeJump(c, j, regs))
  {
    if TakeJump(c, j, regs) != Ends(Stuck) {
      JumpPatched(c, xs, vtarget, reg, dtarget, j, regs, regs);
      assert j in xs ==> Pends(c, j);
    }
  }

  lemma {:induction false} TestSetPatched(c: seq<Instr>, xs: seq<nat>, vtarget: int, reg: int, dtarget: int, w: World,
                                          pc: nat, regs: Regs)
    requires Paired(c) && Pending(c, xs) && Ahead(c, xs, vtarget, dtarget)
    requires pc < |c| && c[pc].TestSet? && Next(c, w, pc, regs) != Ends(Stuck)
    ensures Next(Patch(c, xs, vtarget, reg, dtarget), w, pc, regs) ==
      PatchHop(c, xs, vtarget, reg, dtarget, Next(c, w, pc, regs))
  {
    var c', i := Patch(c, xs, vtarget, reg, dtarget), c[pc];
    assert c'[pc] == PatchedAt(c, xs, vtarget, reg, dtarget, pc);
    assert !(pc in xs) by {
      assert pc in xs ==> Pends(c, pc);
    }
    LandPatched(c, xs, vtarget, reg, dtarget, pc + 2, regs);
    if Truthy(Get(regs, i.b)) == i.c {
      if pc + 1 in xs {
        assert Pends(c, pc + 1);
        JumpPatched(c, xs, vtarget, reg, dtarget, pc + 1, regs, PatchRegs(c, pc + 1, reg, regs));
      } else {
        var r := if i.dest < 0 then regs else regs[i.dest := Get(regs, i.b)];
        JumpPatched(c, xs, vtarget, reg, dtarget, pc + 1, r, r);
      }
    }
  }

  /** A run of patched code leaves the patched jumps for their destinations. */
  lemma {:induction false} ExecPatched(c: seq<Instr>, xs: seq<nat>, vtarget: int, reg: int, dtarget: int, w: World,
                                       pc: nat, regs: Regs)
    requires Paired(c) && Pending(c, xs) && Ahead(c, xs, vtarget, dtarget)
    requires Open(c, pc) && Exec(c, w, pc, regs) != Stuck
    ensures var c', x := Patch(c, xs, vtarget, reg, dtarget), Exec(c, w, pc, regs);
      Exec(c', w, pc, regs) ==
        if x.Leave? && x.p in xs && x.p < |c| then
          Exec(c', w, PatchTarget(c, x.p, vtarget, dtarget), PatchRegs(c, x.p, reg, x.regs))
        else x
    decreases |c| - pc
  {
    if pc < |c| {
      NextPatched(c, xs, vtarget, reg, dtarget, w, pc, regs);
      NextStaysOpen(c, w, pc, regs);
      match Next(c, w, pc, regs)
      case Ends(x) =>
      case Goes(pc', regs') => ExecPatched(c, xs, vtarget, reg, dtarget, w, pc', regs');
    }
  }

  /** A run leaves only through waiting jumps. */
  lemma {:induction false} LeavesThroughPending(c: seq<Instr>, w: World, pc: nat, regs: Regs)
    requires pc <= |c|
    ensures Exec(c, w, pc, regs).Leave? ==> Pends(c, Exec(c, w, pc, regs).p)
    decreases |c| - pc
  {
    if pc < |c| {
      match Next(c, w, pc, regs)
      case Ends(_) =>
      case Goes(pc', regs') => LeavesThroughPending(c, w, pc', regs');
    }
  }
}
