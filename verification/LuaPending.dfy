/** No jump is left unpatched: what waits after an expression is in its lists, and nothing new waits once it is in a
    register. */
module LuaPending {
  import opened LuaMachine
  import opened LuaGen
  import opened LuaRuns
  import opened LuaSteps
  import opened LuaSem
  import opened LuaClose
  import opened LuaOperands
  import opened LuaNot
  import opened LuaCompile

  /** Every waiting jump waits for "here" or is one of `ys`. */
  ghost predicate Waits(g: Gen, ys: set<nat>) {
    forall p: nat :: Pends(g.code, p) ==> p in g.here || p in ys
  }

  /** The jumps of an expression, a pending test included. */
  function Lists(e: Exp): set<nat> {
    (set p | p in e.t) + (set p | p in e.f) + (if e.k.VJmp? then {e.k.pc} else {})
  }

  // ----- emitting -----

  lemma {:induction false} DischargeWaits(g: Gen, ys: set<nat>)
    requires Waits(g, ys)
    ensures Waits(Discharge(g), ys)
  {
    forall p: nat | Pends(Discharge(g).code, p) ensures p in ys {
      DischargedAt(g, p);
      assert Pends(g.code, p);
    }
  }

  lemma {:induction false} EmitWaits(g: Gen, i: Instr, ys: set<nat>)
    requires Waits(g, ys) && !i.Goto?
    ensures Waits(Emit(g, i), ys) && Emit(g, i).here == []
  {
    DischargeWaits(g, ys);
    forall p: nat | Pends(Emit(g, i).code, p) ensures p in ys {
      assert Pends(Discharge(g).code, p);
    }
  }

  lemma {:induction false} CondJumpWaits(g: Gen, i: Instr, ys: set<nat>)
    requires Waits(g, ys) && !i.Goto?
    ensures var (h, j) := CondJump(g, i); Waits(h, ys + {j})
  {
    EmitWaits(g, i, ys);
    var (h, j) := CondJump(g, i);
    forall p: nat | Pends(h.code, p) ensures p in ys + {j} {
      if p != j {
        assert Pends(Emit(g, i).code, p);
      }
    }
  }

  lemma {:induction false} LoadNilWaits(g: Gen, reg: nat, ys: set<nat>)
    requires Waits(g, ys)
    ensures Waits(LoadNilAt(g, reg), ys)
  {
    if Widens(g, reg) {
      forall p: nat | Pends(LoadNilAt(g, reg).code, p) ensures Pends(g.code, p) {
      }
    } else {
      EmitWaits(g, LoadNil(reg, 0), ys);
    }
  }

  lemma {:induction false} ToRegWaits(g: Gen, e: Exp, reg: nat, ys: set<nat>)
    requires Waits(g, ys)
    ensures Waits(Discharge2Reg(g, e, reg).0, ys)
  {
    match DischargeVars(e).k
    case VNil => LoadNilWaits(g, reg, ys);
    case VFalse => EmitWaits(g, LoadBool(reg, false, false), ys);
    case VTrue => EmitWaits(g, LoadBool(reg, true, false), ys);
    case VK(k) => EmitWaits(g, LoadK(reg, k), ys);
    case VKNum(v) => EmitWaits(AddK(g, v).0, LoadK(reg, AddK(g, v).1), ys);
    case VReloc(_) =>
      forall p: nat | Pends(Discharge2Reg(g, e, reg).0.code, p) ensures Pends(g.code, p) {
      }
    case VNonReloc(r) =>
      if reg != r {
        EmitWaits(g, Move(reg, r), ys);
      }
    case _ =>
  }

  // ----- closing -----

  lemma {:induction false} ClosedWaits(c: seq<Instr>, f: seq<nat>, t: seq<nat>, reg: nat, pf: int, pt: int)
    requires Paired(c) && Pending(c, f) && Pending(c, t) && forall p :: p in t ==> p !in f
    requires forall p :: p in f && !(p > 0 && c[p - 1].TestSet?) ==> pf >= 0
    requires forall p :: p in t && !(p > 0 && c[p - 1].TestSet?) ==> pt >= 0
    ensures forall p: nat :: Pends(Closed(c, f, t, reg, pf, pt), p) ==> Pends(c, p) && p !in f && p !in t
  {
    forall p: nat | Pends(Closed(c, f, t, reg, pf, pt), p) ensures Pends(c, p) && p !in f && p !in t {
      ClosedAt(c, f, t, reg, pf, pt, p);
      assert p in f || p in t ==> Pends(c, p);
    }
  }

  lemma {:induction false} CloseWaits(g0: Gen, g: Gen, e: Exp, ys: set<nat>)
    requires Ready(g0, g, e) && Waits(g, ys + Lists(e))
    ensures Waits(CloseAt(g, e, g0.free), ys)
  {
    var reg := g0.free;
    TrueListOk(g0, g, e);
    CloseForms(g, e, reg);
    assert forall p :: p in Lists(e) <==> p in TrueList(e) || p in e.f;
    if TrueList(e) == [] && e.f == [] {
    } else if NeedValue(g.code, TrueList(e)) || NeedValue(g.code, e.f) {
      PaddedWaits(g0, g, e, ys);
    } else {
      WithoutLoads(g, e);
      ClosedWaits(g.code, e.f, TrueList(e), reg, PENDING, PENDING);
    }
  }

  lemma {:induction false} PaddedWaits(g0: Gen, g: Gen, e: Exp, ys: set<nat>)
    requires Ready(g0, g, e) && Waits(g, ys + Lists(e))
    ensures Waits(PaddedClosed(g, e, g0.free), ys)
  {
    hide Padded, Closed, State, Pending, WellFormed;
    var reg := g0.free;
    var c := Padded(g, e, reg);
    TrueListOk(g0, g, e);
    assert forall p :: p in Lists(e) <==> p in TrueList(e) || p in e.f;
    PaddedClosable(g0, g, e, reg);
    ClosedWaits(c, e.f, TrueList(e), reg, |c| - 2, |c| - 1);
    forall p: nat | Pends(c, p) && p !in e.f && p !in TrueList(e) ensures p in PaddedHere(g, e) || p in ys {
      PaddedWait(g, e, reg, p);
    }
  }

  lemma {:induction false} PaddedWait(g: Gen, e: Exp, reg: nat, p: nat)
    requires Pends(Padded(g, e, reg), p)
    ensures Pends(g.code, p) || (!e.k.VJmp? && p == |g.code|)
  {
    PaddedAt(g, e, reg, p);
  }

  // ----- registers and operands -----

  lemma {:induction false} LoadedWaits(g0: Gen, g: Gen, e: Exp, ys: set<nat>, w: World, regs: Regs)
    requires State(g0, g, e) && !e.k.VLocal? && !e.k.VJmp? && Waits(g, ys + Lists(e))
    ensures Waits(Exp2Reg(g.(free := g0.free + 1), e, g0.free).0, ys)
  {
    var h := g.(free := g0.free + 1);
    ToReg(g0, g, e, Lit(Nil), w, regs);
    ToRegWaits(h, e, g0.free, ys + Lists(e));
    var (g1, e1) := Discharge2Reg(h, e, g0.free);
    assert Lists(e1) == Lists(e);
    CloseWaits(g0, g1, e1, ys);
    ClosesLoaded(h, e, g0.free, g1, e1);
  }

  lemma {:induction false} RegWaits(g0: Gen, g: Gen, e: Exp, ys: set<nat>, w: World, regs: Regs)
    requires State(g0, g, e) && !e.k.VLocal? && Waits(g, ys + Lists(e))
    ensures Waits(Exp2Reg(g.(free := g0.free + 1), e, g0.free).0, ys)
  {
    if e.k.VJmp? {
      assert Exp2Reg(g.(free := g0.free + 1), e, g0.free).0 == CloseAt(g, e, g0.free);
      CloseWaits(g0, g, e, ys);
    } else {
      LoadedWaits(g0, g, e, ys, w, regs);
    }
  }

  lemma {:induction false} NextRegWaits(g0: Gen, g: Gen, e: Exp, ys: set<nat>, w: World, regs: Regs)
    requires State(g0, g, e) && Waits(g, ys + Lists(e))
    ensures Waits(Exp2NextReg(g, e).0, ys)
  {
    var e1 := DischargeVars(e);
    NextRegIs(g0, g, e);
    assert Lists(e1) == Lists(e);
    RegWaits(g0, g, e1, ys, w, regs);
  }

  lemma {:induction false} AnyRegWaits(g0: Gen, g: Gen, e: Exp, ys: set<nat>, w: World, regs: Regs)
    requires State(g0, g, e) && Waits(g, ys + Lists(e))
    ensures Waits(Exp2AnyReg(g, e).0, ys)
  {
    var e1 := DischargeVars(e);
    assert Lists(e1) == Lists(e);
    if e1.k.VNonReloc? && !HasJumps(e1) {
      assert Lists(e1) == {};
    } else if e1.k.VNonReloc? && e1.k.r >= g.nact {
      assert g == g.(free := g0.free + 1) && e1.k.r == g0.free;
      assert Exp2AnyReg(g, e).0 == Exp2Reg(g, e1, g0.free).0;
      RegWaits(g0, g, e1, ys, w, regs);
    } else {
      VarsState(g0, g, e, Lit(Nil), w, regs);
      assert Exp2AnyReg(g, e).0 == Exp2NextReg(g, e1).0;
      NextRegWaits(g0, g, e1, ys, w, regs);
    }
  }

  lemma {:induction false} RKWaits(g0: Gen, g: Gen, e: Exp, ys: set<nat>, w: World, regs: Regs)
    requires State(g0, g, e) && Waits(g, ys + Lists(e))
    ensures Waits(Exp2RK(g, e).0, ys)
  {
    var (g1, e1) := Exp2Val(g, e);
    ValState(g0, g, e, Lit(Nil), w, regs);
    if HasJumps(e) {
      AnyRegWaits(g0, g, e, ys, w, regs);
    }
    assert Waits(g1, ys + Lists(e1));
    if ConstantOf(e1.k).Some? {
      var v := ConstantOf(e1.k).value;
      var (h, k) := AddK(g1, v);
      ConstantState(g0, g1, e1, v, Lit(Nil), w, regs);
      assert Lists(e1.(k := VK(k))) == Lists(e1);
      AnyRegWaits(g0, h, e1.(k := VK(k)), ys, w, regs);
      assert Lists(e1) == {};
    } else {
      AnyRegWaits(g0, g1, e1, ys, w, regs);
      assert e1.k.VK? ==> Lists(e1) == {};
    }
  }

  // ----- conditions -----

  lemma {:induction false} JumpOnCondWaits(g: Gen, e: Exp, cond: bool, ys: set<nat>)
    requires Waits(g, ys) && (e.k.VReloc? ==> g.code != [])
    ensures var (h, _, j) := JumpOnCond(g, e, cond); Waits(h, ys + {j})
  {
    if e.k.VReloc? && e.k.pc < |g.code| && g.code[e.k.pc].NotOp? {
      var b := g.(code := g.code[..|g.code| - 1]);
      forall p: nat | Pends(b.code, p) ensures Pends(g.code, p) {
      }
      CondJumpWaits(b, Test(g.code[e.k.pc].b, !cond), ys);
    } else {
      ToRegWaits(Reserve(g), e, g.free, ys);
      var (g1, e1) := Discharge2AnyReg(g, e);
      CondJumpWaits(FreeExp(g1, e1), TestSet(NO_REG, if e1.k.VNonReloc? then e1.k.r else 0, cond), ys);
    }
  }

  lemma {:induction false} ToHereWaits(h: Gen, stay: seq<nat>, exits: seq<nat>, zs: set<nat>, ys: set<nat>)
    requires Waits(h, zs) && forall p :: p in zs ==> p in ys || p in stay || p in exits
    ensures Waits(PatchToHere(h, stay), ys + set p | p in exits)
  {
  }

  lemma {:induction false} NegateWaits(g: Gen, pc: nat, ys: set<nat>)
    requires Waits(g, ys)
    ensures Waits(g.(code := Negate(g.code, pc)), ys)
  {
    forall p: nat | Pends(Negate(g.code, pc), p) ensures Pends(g.code, p) {
    }
  }

  lemma {:induction false} MiddleWaits(g0: Gen, g: Gen, e: Exp, go: bool, ys: set<nat>)
    requires State(g0, g, e) && Waits(g, ys + Lists(e))
    ensures var (h, exits) := Middle(g, e, go); Waits(h, ys + set p | p in exits)
  {
    var e1 := DischargeVars(e);
    assert Lists(e1) == Lists(e);
    var (stay, leave) := if go then (e1.t, e1.f) else (e1.f, e1.t);
    var exits := Middle(g, e, go).1;
    if e1.k.VJmp? {
      NegateWaits(g, e1.k.pc, ys + Lists(e));
      var h := if go then g.(code := Negate(g.code, e1.k.pc)) else g;
      ToHereWaits(h, stay, exits, ys + Lists(e), ys);
    } else if if go then e1.k.VK? || e1.k.VKNum? || e1.k.VTrue? else e1.k.VNil? || e1.k.VFalse? {
      ToHereWaits(g, stay, exits, ys + Lists(e), ys);
    } else {
      JumpOnCondWaits(g, e1, !go, ys + Lists(e));
      var (h, _, j) := JumpOnCond(g, e1, !go);
      ToHereWaits(h, stay, exits, ys + Lists(e) + {j}, ys);
    }
  }

  lemma {:induction false} RemoveWaits(g: Gen, xs: seq<nat>, ys: set<nat>)
    requires Waits(g, ys)
    ensures Waits(Stripped(g, xs), ys)
  {
    forall p: nat | Pends(Stripped(g, xs).code, p) ensures Pends(g.code, p) {
      RemovedAt(g.code, xs, p);
    }
  }

  lemma {:induction false} NotWaits(g0: Gen, g: Gen, e: Exp, ys: set<nat>)
    requires State(g0, g, e) && Waits(g, ys + Lists(e))
    ensures var (g', e') := CodeNot(g, e); Waits(g', ys + Lists(e'))
  {
    var e1 := DischargeVars(e);
    var zs := ys + Lists(e);
    var (g', e') := CodeNot(g, e);
    assert Lists(e') == Lists(e);
    if e1.k.VJmp? {
      var h := g.(code := Negate(g.code, e1.k.pc));
      NegateWaits(g, e1.k.pc, zs);
      RemoveWaits(h, e1.t, zs);
      RemoveWaits(Stripped(h, e1.t), e1.f, zs);
    } else if e1.k.VReloc? || e1.k.VNonReloc? {
      ToRegWaits(Reserve(g), e1, g.free, zs);
      var (h, e2) := Discharge2AnyReg(g, e1);
      var k := FreeExp(h, e2);
      EmitWaits(k, NotOp(0, e2.k.r), zs);
      RemoveWaits(Emit(k, NotOp(0, e2.k.r)), e1.t, zs);
      RemoveWaits(Stripped(Emit(k, NotOp(0, e2.k.r)), e1.t), e1.f, zs);
    } else {
      RemoveWaits(g, e1.t, zs);
      RemoveWaits(Stripped(g, e1.t), e1.f, zs);
    }
  }

  lemma {:induction false} FreeWaits(g: Gen, e1: Exp, e2: Exp, ys: set<nat>)
    requires Waits(g, ys)
    ensures Waits(FreeExps(g, e1, e2), ys)
  {
  }

  lemma {:induction false} CompWaits(g2: Gen, e2: Exp, g3: Gen, e3: Exp, op: Op, ys: set<nat>, w: World, regs: Regs)
    requires State(g2, g3, e3) && Waits(g3, ys + Lists(e3)) && !HasJumps(e2)
    ensures var (g', e') := CodeComp(g3, op, e2, e3); Waits(g', ys + Lists(e'))
  {
    hide Exp2RK, CondJump, State, FreeExps, Pends;
    RKWaits(g2, g3, e3, ys, w, regs);
    var rk1 := if e2.k.VK? then Con(e2.k.k) else Reg(if e2.k.VNonReloc? then e2.k.r else 0);
    var (g4, e4, rk2) := Exp2RK(g3, e3);
    FreeWaits(g4, e2, e4, ys);
    CondJumpWaits(FreeExps(g4, e2, e4), Comparison(op, rk1, rk2), ys);
  }

  /** What waits after an expression has been compiled is in its lists, or waited before. */
  lemma {:induction false} CompileWaits(g: Gen, x: Expr, ys: set<nat>, w: World, regs: Regs)
    requires WellFormed(g) && LocalsBelow(x, g.nact) && Waits(g, ys)
    ensures var (g', e') := Compile(g, x); Waits(g', ys + Lists(e'))
    decreases x
  {
    match x
    case Local(_) =>
    case Lit(_) =>
    case Not(y) =>
      CompileOk(g, y, w, regs);
      CompileWaits(g, y, ys, w, regs);
      NotWaits(g, Compile(g, y).0, Compile(g, y).1, ys);
    case And(l, r) => LogicWaits(g, true, l, r, ys, w, regs);
    case Or(l, r) => LogicWaits(g, false, l, r, ys, w, regs);
    case Compare(op, l, r) =>
      var (g1, e1) := Compile(g, l);
      CompileOk(g, l, w, regs);
      CompileWaits(g, l, ys, w, regs);
      var (g2, e2, _) := Exp2RK(g1, e1);
      RKState(g, g1, e1, l, w, regs);
      RKWaits(g, g1, e1, ys, w, regs);
      CompileOk(g2, r, w, regs);
      CompileWaits(g2, r, ys, w, regs);
      CompWaits(g2, e2, Compile(g2, r).0, Compile(g2, r).1, op, ys, w, regs);
  }

  lemma {:induction false} LogicWaits(g: Gen, go: bool, l: Expr, r: Expr, ys: set<nat>, w: World, regs: Regs)
    requires WellFormed(g) && LocalsBelow(l, g.nact) && LocalsBelow(r, g.nact) && Waits(g, ys)
    ensures var (g', e') := Compile(g, Combined(go, l, r)); Waits(g', ys + Lists(e'))
    decreases Combined(go, l, r), 0
  {
    hide Compile, Compiled, Waits, Exec, Middle;
    var (g1, e1) := Compile(g, l);
    CompileOk(g, l, w, regs);
    CompileWaits(g, l, ys, w, regs);
    var (g2, exits) := Middle(g1, e1, go);
    MiddleState(g, g1, e1, go, l, w, regs);
    MiddleWaits(g, g1, e1, go, ys);
    var zs := ys + set p | p in exits;
    CompileWaits(g2, r, zs, w, regs);
    var (g3, e3) := Compile(g2, r);
    CompileLogic(g, go, l, r, g1, e1, g2, exits, g3, e3);
    JoinedWaits(g3, e3, exits, go, ys);
  }

  lemma {:induction false} JoinedWaits(g: Gen, e: Exp, exits: seq<nat>, go: bool, ys: set<nat>)
    requires Waits(g, ys + (set p | p in exits) + Lists(e))
    ensures Waits(g, ys + Lists(Joined(DischargeVars(e), exits, go)))
  {
    assert forall p :: p in Lists(Joined(DischargeVars(e), exits, go)) <==> p in Lists(e) || p in exits;
  }

  /** Once the value is in a register, the only jumps that wait, except for "here", are those that waited before. */
  lemma {:induction false} NothingLeftWaiting(g: Gen, x: Expr, ys: set<nat>, w: World, regs: Regs)
    requires WellFormed(g) && LocalsBelow(x, g.nact) && Waits(g, ys)
    ensures var (g1, e1) := Compile(g, x); Waits(Exp2NextReg(g1, e1).0, ys)
  {
    var (g1, e1) := Compile(g, x);
    CompileOk(g, x, w, regs);
    CompileWaits(g, x, ys, w, regs);
    NextRegWaits(g, g1, e1, ys, w, regs);
  }

  /** The code, run from its first instruction, leaves the value of the expression in register `n` and keeps the
      registers below, or raises the error the expression raises. */
  ghost predicate Computes(code: seq<Instr>, n: nat, x: Expr, w: World, regs: Regs) {
    match Eval(x, regs, w.cmp)
    case None => Exec(code, w, 0, regs) == Raise
    case Some(v) =>
      Exec(code, w, 0, regs).Fall? && var r := Exec(code, w, 0, regs).regs; Get(r, n) == v && Keeps(r, regs, n)
  }

  /** The generator after an expression over `n` locals has been put into the next register, its jumps settled. */
  function FunctionOf(x: Expr, n: nat, cache: map<Value, nat>): Gen {
    var (g1, e1) := Compile(Gen([], [], 0, n, n, [], cache), x);
    Discharge(Exp2NextReg(g1, e1).0)
  }

  /** A function whose body is one expression: no jump is left pending, and a run from the first instruction to the last
      computes the expression. */
  lemma {:induction false} FunctionOfExpression(x: Expr, n: nat, cache: map<Value, nat>, w: World, regs: Regs)
    requires LocalsBelow(x, n)
    ensures var g := FunctionOf(x, n, cache);
      && (forall p: nat :: !Pends(g.code, p))
      && (g.ks <= w.ks ==> Computes(g.code, n, x, w, regs))
  {
    var g := Gen([], [], 0, n, n, [], cache);
    var (g1, e1) := Compile(g, x);
    var g2 := Exp2NextReg(g1, e1).0;
    assert Out(g, w, regs) == Fall(regs);
    ExpressionValue(g, x, w, regs);
    NothingLeftWaiting(g, x, {}, w, regs);
    DischargeWaits(g2, {});
    if g2.ks <= w.ks {
      DischargedRuns(g2, w, regs);
    }
  }
}
