/** What the elementary steps of the generator do to the runs of the code. */
module LuaSteps {
  import opened Basics
  import opened LuaMachine
  import opened LuaGen
  import opened LuaRuns

  /** A jump whose destination is known goes forward, and not beyond the last known target. */
  predicate Reaches(i: Instr, j: nat, last: nat) {
    && (i.Goto? && i.target != PENDING ==> j < i.target <= last)
    && (i.LoadBool? && i.skip ==> j + 2 <= last)
  }

  predicate WellFormed(g: Gen) {
    && Paired(g.code) && g.lastTarget <= |g.code| && g.nact <= g.free
    && Pending(g.code, g.here) && (g.here != [] ==> g.lastTarget == |g.code|)
    && (forall j :: 0 <= j < |g.code| ==> Reaches(g.code[j], j, g.lastTarget))
  }

  /** How a run of the whole code ends, jumps to "here" counted as reaching the end. */
  function Out(g: Gen, w: World, regs: Regs): Exit {
    Arrived(Exec(g.code, w, 0, regs), g.here)
  }

  function Arrived(x: Exit, here: seq<nat>): Exit {
    if x.Leave? && x.p in here then Fall(x.regs) else x
  }

  /** The jump at `p` still waits, with the test that controls it unchanged. */
  predicate Survives(g: Gen, g': Gen, p: nat) {
    && Pends(g'.code, p) && p !in g'.here && p < |g.code|
    && (p > 0 ==> IsTest(g'.code[p - 1]) == IsTest(g.code[p - 1]))
    && (p > 0 && IsTest(g.code[p - 1]) ==> g'.code[p - 1] == g.code[p - 1])
  }

  /** `g'` comes after `g`: jumps that wait for something else than "here" still wait. */
  ghost predicate Grown(g: Gen, g': Gen) {
    && |g.code| <= |g'.code| && g'.nact == g.nact && g.ks <= g'.ks
    && (forall p: nat :: Pends(g.code, p) && p !in g.here ==> Survives(g, g', p))
    && (forall p :: p in g'.here ==> p in g.here || p >= |g.code|)
  }

  lemma {:induction false} GrownTrans(a: Gen, b: Gen, c: Gen)
    requires Grown(a, b) && Grown(b, c)
    ensures Grown(a, c)
  {
    forall p: nat | Pends(a.code, p) && p !in a.here ensures Survives(a, c, p) {
      assert Survives(a, b, p);
      assert Survives(b, c, p);
    }
  }

  // ----- code appended after the jumps to here are settled -----

  /** The code of `g` with "here" settled, followed by `d`. */
  function Block(g: Gen, d: seq<Instr>): Gen {
    Discharge(g).(code := Discharge(g).code + d)
  }

  lemma {:induction false} DischargedAt(g: Gen, j: nat)
    requires j < |g.code|
    ensures Discharge(g).code[j] ==
      if j in g.here then Goto(|g.code|)
      else if j + 1 in g.here && g.code[j].TestSet? then Test(g.code[j].b, g.code[j].c)
      else g.code[j]
  {
    assert Discharge(g).code[j] == PatchedAt(g.code, g.here, |g.code|, NO_REG, |g.code|, j);
  }

  /** A run of a block: what ended at "here" goes on behind the old code. */
  lemma {:induction false} BlockRuns(g: Gen, d: seq<Instr>, w: World, regs: Regs)
    requires WellFormed(g) && Out(g, w, regs) != Stuck
    ensures Exec(Block(g, d).code, w, 0, regs) ==
      match Out(g, w, regs) case Fall(r) => Exec(Block(g, d).code, w, |g.code|, r) case x => x
  {
    var c, n := g.code, |g.code|;
    var c' := Patch(c, g.here, n, NO_REG, n);
    assert Ahead(c, g.here, n, n);
    ExecPatched(c, g.here, n, NO_REG, n, w, 0, regs);
    PatchKeepsPaired(c, g.here, n, NO_REG, n);
    ExecExtends(c', d, w, 0, regs);
  }

  /** Instructions that compute a value and go on. */
  predicate Plain(i: Instr) {
    i.Move? || i.LoadK? || i.LoadNil? || i.NotOp? || (i.LoadBool? && !i.skip)
  }

  /** A block whose tests are followed by waiting jumps. */
  predicate BlockOk(d: seq<Instr>) {
    && Paired(d)
    && (forall j :: 0 <= j < |d| ==> (d[j].Goto? ==> d[j].target == PENDING) && (d[j].LoadBool? ==> !d[j].skip))
  }

  lemma {:induction false} DischargeWellFormed(g: Gen)
    requires WellFormed(g)
    ensures WellFormed(Discharge(g)) && Grown(g, Discharge(g))
  {
    PatchKeepsPaired(g.code, g.here, |g.code|, NO_REG, |g.code|);
    var g' := Discharge(g);
    forall j | 0 <= j < |g'.code| ensures Reaches(g'.code[j], j, g'.lastTarget) {
      DischargedAt(g, j);
    }
    forall p: nat | Pends(g.code, p) && p !in g.here ensures Survives(g, g', p) {
      DischargedAt(g, p);
      if p > 0 {
        DischargedAt(g, p - 1);
      }
    }
  }

  lemma {:induction false} BlockWellFormed(g: Gen, d: seq<Instr>)
    requires WellFormed(g) && BlockOk(d)
    ensures WellFormed(Block(g, d)) && Grown(g, Block(g, d))
  {
    DischargeWellFormed(g);
    var g1, g' := Discharge(g), Block(g, d);
    assert forall j :: 0 <= j < |g'.code| ==> g'.code[j] == if j < |g1.code| then g1.code[j] else d[j - |g1.code|];
    forall j | 0 <= j < |g'.code| && IsTest(g'.code[j]) ensures j + 1 < |g'.code| && g'.code[j + 1].Goto? {
      if j < |g1.code| {
        assert IsTest(g1.code[j]);
      } else {
        assert IsTest(d[j - |g1.code|]);
      }
    }
    forall j | 0 <= j < |g'.code| ensures Reaches(g'.code[j], j, g'.lastTarget) {
      if j < |g1.code| {
        assert Reaches(g1.code[j], j, g1.lastTarget);
      }
    }
    assert Grown(g1, g') by {
      forall p: nat | Pends(g1.code, p) ensures Survives(g1, g', p) {
      }
    }
    GrownTrans(g, g1, g');
  }

  /** Emitting a plain instruction: runs that reached the end carry it out. */
  lemma {:induction false} EmitPlain(g: Gen, i: Instr, w: World, regs: Regs)
    requires WellFormed(g) && Plain(i)
    ensures WellFormed(Emit(g, i)) && Grown(g, Emit(g, i)) && Emit(g, i).here == []
    ensures Out(g, w, regs) != Stuck ==>
      Out(Emit(g, i), w, regs) == match Out(g, w, regs) case Fall(r) => Fall(Next([i], w, 0, r).regs) case x => x
  {
    BlockWellFormed(g, [i]);
    assert Emit(g, i) == Block(g, [i]);
    if Out(g, w, regs) != Stuck {
      BlockRuns(g, [i], w, regs);
      if Out(g, w, regs).Fall? {
        var c, n := Block(g, [i]).code, |g.code|;
        assert c[n] == i && |c| == n + 1;
        assert Exec(c, w, n + 1, Next([i], w, 0, Out(g, w, regs).regs).regs).Fall?;
      }
    }
  }

  /** Whether a test makes its jump, and `None` for an error. */
  function Jumps(i: Instr, w: World, regs: Regs): Option<bool>
    requires IsTest(i)
  {
    match i
    case Cmp(rel, want, x, y) =>
      (match w.cmp(rel, Operand(x, w, regs), Operand(y, w, regs)) case None => None case Some(b) => Some(b == want))
    case Test(a, c) => Some(Truthy(Get(regs, a)) == c)
    case TestSet(_, b, c) => Some(Truthy(Get(regs, b)) == c)
  }

  /** A test and its waiting jump at the end of the code. */
  lemma {:induction false} TestAtEnd(c: seq<Instr>, w: World, n: nat, r: Regs)
    requires |c| == n + 2 && IsTest(c[n]) && c[n + 1] == Goto(PENDING) && (c[n].TestSet? ==> c[n].dest == NO_REG)
    ensures Exec(c, w, n, r) ==
      match Jumps(c[n], w, r) case None => Raise case Some(b) => if b then Leave(n + 1, r) else Fall(r)
  {
    assert TakeJump(c, n + 1, r) == Ends(Leave(n + 1, r));
    assert Land(c, n + 2, r) == Goes(n + 2, r);
    assert Exec(c, w, n + 2, r) == Fall(r);
  }

  lemma {:induction false} CondJumpIsBlock(g: Gen, i: Instr)
    ensures CondJump(g, i) == (Block(g, [i, Goto(PENDING)]), |g.code| + 1)
    ensures var c, n := Block(g, [i, Goto(PENDING)]).code, |g.code|;
      |c| == n + 2 && c[n] == i && c[n + 1] == Goto(PENDING)
  {
    assert Discharge(g).code + [i] + [Goto(PENDING)] == Discharge(g).code + [i, Goto(PENDING)];
  }

  /** Emitting a conditional jump: runs that reached the end go on or leave through the new jump. */
  lemma {:induction false} EmitTest(g: Gen, i: Instr, w: World, regs: Regs)
    requires WellFormed(g) && IsTest(i) && (i.TestSet? ==> i.dest == NO_REG)
    ensures var (h, j) := CondJump(g, i);
      && WellFormed(h) && Grown(g, h) && h.here == [] && h.lastTarget == g.lastTarget
      && |h.code| == |g.code| + 2 && j == |g.code| + 1 && h.code[j - 1] == i && Pends(h.code, j) && Pending(h.code, [j])
      && (Out(g, w, regs) != Stuck ==>
           Out(h, w, regs) ==
             match Out(g, w, regs)
             case Fall(r) => (match Jumps(i, w, r) case None => Raise case Some(b) => if b then Leave(j, r)
                              else Fall(r))
             case x => x)
  {
    var d := [i, Goto(PENDING)];
    CondJumpIsBlock(g, i);
    BlockWellFormed(g, d);
    if Out(g, w, regs) != Stuck {
      BlockRuns(g, d, w, regs);
      if Out(g, w, regs).Fall? {
        TestAtEnd(Block(g, d).code, w, |g.code|, Out(g, w, regs).regs);
      }
    }
  }

  // ----- widening the last LOADNIL -----

  lemma {:induction false} SetNilIs(regs: Regs, a: nat, n: nat)
    ensures forall r: nat :: r in SetNil(regs, a, n) <==> r in regs || a <= r <= a + n
    ensures forall r: nat :: r in SetNil(regs, a, n) ==>
            SetNil(regs, a, n)[r] == if a <= r <= a + n then Nil else regs[r]
  {
    if n > 0 {
      SetNilIs(regs, a, n - 1);
    }
  }

  lemma {:induction false} WidenSets(regs: Regs, a: nat, n: nat, reg: nat)
    requires Adjacent(a, n, reg)
    ensures SetNil(regs, Widen(a, n, reg).a, Widen(a, n, reg).n) == SetNil(regs, a, n)[reg := Nil]
  {
    SetNilIs(regs, a, n);
    SetNilIs(regs, Widen(a, n, reg).a, Widen(a, n, reg).n);
  }

  /** The instruction before the end is a LOADNIL to be widened, and no jump comes behind it. */
  predicate Widens(g: Gen, reg: nat) {
    var n := |g.code|;
    n > g.lastTarget && n > 0 && g.code[n - 1].LoadNil? && Adjacent(g.code[n - 1].a, g.code[n - 1].n, reg)
  }

  lemma {:induction false} LandSame(c: seq<Instr>, c': seq<Instr>, pc: int, regs: Regs)
    requires |c'| == |c| && forall j :: 0 <= j < |c| ==> IsTest(c'[j]) == IsTest(c[j])
    ensures Land(c', pc, regs) == Land(c, pc, regs)
  {
  }

  lemma {:induction false} JumpSame(c: seq<Instr>, c': seq<Instr>, j: nat, regs: Regs)
    requires |c'| == |c| && forall j :: 0 <= j < |c| ==> IsTest(c'[j]) == IsTest(c[j])
    requires j < |c| && c'[j] == c[j]
    ensures TakeJump(c', j, regs) == TakeJump(c, j, regs)
  {
    if c[j].Goto? {
      LandSame(c, c', c[j].target, regs);
    } else if c[j].Jmp? {
      LandSame(c, c', j + 1 + c[j].sbx, regs);
    }
  }

  /** A hop depends on the instruction, its jump, and where the tests are. */
  lemma {:induction false} NextSame(c: seq<Instr>, c': seq<Instr>, w: World, pc: nat, regs: Regs)
    requires |c'| == |c| && forall j :: 0 <= j < |c| ==> IsTest(c'[j]) == IsTest(c[j])
    requires pc < |c| && c'[pc] == c[pc] && Paired(c) && (IsTest(c[pc]) ==> c'[pc + 1] == c[pc + 1])
    ensures Next(c', w, pc, regs) == Next(c, w, pc, regs)
  {
    LandSame(c, c', pc + 2, regs);
    match c[pc] {
      case TestSet(dest, b, _) => JumpSame(c, c', pc + 1, if dest < 0 then regs else regs[dest := Get(regs, b)]);
      case Test(_, _) => JumpSame(c, c', pc + 1, regs);
      case Cmp(_, _, _, _) => JumpSame(c, c', pc + 1, regs);
      case Goto(_) => JumpSame(c, c', pc, regs);
      case LoadBool(a, b, _) => LandSame(c, c', pc + 2, regs[a := Bool(b)]);
      case _ =>
    }
  }

  /** How far one hop goes, and where it can leave. */
  lemma {:induction false} NextReach(g: Gen, w: World, pc: nat, regs: Regs, bound: nat)
    requires WellFormed(g) && pc < |g.code| && g.lastTarget <= bound
    requires if IsTest(g.code[pc]) then pc + 2 <= bound else pc + 1 <= bound
    ensures match Next(g.code, w, pc, regs)
            case Goes(pc', _) => pc' <= bound
            case Ends(Leave(p, _)) => p < bound
            case Ends(_) => true
  {
    assert Reaches(g.code[pc], pc, g.lastTarget);
    if IsTest(g.code[pc]) {
      assert g.code[pc + 1].Goto? && Reaches(g.code[pc + 1], pc + 1, g.lastTarget);
    }
  }

  lemma {:induction false} WidenedNext(g: Gen, reg: nat, w: World, pc: nat, regs: Regs)
    requires WellFormed(g) && Widens(g, reg) && pc < |g.code| - 1
    ensures Next(LoadNilAt(g, reg).code, w, pc, regs) == Next(g.code, w, pc, regs)
    ensures Next(g.code, w, pc, regs).Goes? ==> Next(g.code, w, pc, regs).pc < |g.code|
  {
    var c, c' := g.code, LoadNilAt(g, reg).code;
    assert forall j :: 0 <= j < |c| - 1 ==> c'[j] == c[j];
    assert IsTest(c[pc]) ==> c[pc + 1].Goto?;
    NextSame(c, c', w, pc, regs);
    NextReach(g, w, pc, regs, |c| - 1);
  }

  lemma {:induction false} WidenedRuns(g: Gen, reg: nat, w: World, pc: nat, regs: Regs)
    requires WellFormed(g) && Widens(g, reg) && pc < |g.code|
    ensures Exec(LoadNilAt(g, reg).code, w, pc, regs) ==
      match Exec(g.code, w, pc, regs) case Fall(r) => Fall(r[reg := Nil]) case x => x
    decreases |g.code| - pc
  {
    var c, c' := g.code, LoadNilAt(g, reg).code;
    if pc == |c| - 1 {
      WidenSets(regs, c[pc].a, c[pc].n, reg);
      assert Exec(c', w, pc + 1, SetNil(regs, c'[pc].a, c'[pc].n)).Fall?;
      assert Exec(c, w, pc + 1, SetNil(regs, c[pc].a, c[pc].n)).Fall?;
    } else {
      WidenedNext(g, reg, w, pc, regs);
      match Next(c, w, pc, regs)
      case Ends(_) =>
      case Goes(pc', regs') => WidenedRuns(g, reg, w, pc', regs');
    }
  }

  /** Loading nil, merged into the previous instruction or not. */
  lemma {:induction false} EmitNil(g: Gen, reg: nat, w: World, regs: Regs)
    requires WellFormed(g)
    ensures var g' := LoadNilAt(g, reg);
      && WellFormed(g') && Grown(g, g')
      && (Out(g, w, regs) != Stuck ==>
           Out(g', w, regs) == match Out(g, w, regs) case Fall(r) => Fall(r[reg := Nil]) case x => x)
  {
    if Widens(g, reg) {
      var g' := LoadNilAt(g, reg);
      WidenedRuns(g, reg, w, 0, regs);
      assert forall j :: 0 <= j < |g.code| ==> IsTest(g'.code[j]) == IsTest(g.code[j]);
      forall j | 0 <= j < |g'.code| ensures Reaches(g'.code[j], j, g'.lastTarget) {
        assert Reaches(g.code[j], j, g.lastTarget);
      }
      forall p: nat | Pends(g.code, p) ensures Survives(g, g', p) {
      }
    } else {
      EmitPlain(g, LoadNil(reg, 0), w, regs);
    }
  }
}
