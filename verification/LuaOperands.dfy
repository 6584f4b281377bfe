/** Putting expressions into registers or operands keeps their meaning. */
module LuaOperands {
  import opened Basics
  import opened LuaMachine
  import opened LuaGen
  import opened LuaSteps
  import opened LuaSem
  import opened LuaClose

  lemma {:induction false} VarsState(g0: Gen, g: Gen, e: Exp, x: Expr, w: World, regs: Regs)
    requires State(g0, g, e)
    ensures State(g0, g, DischargeVars(e)) && !DischargeVars(e).k.VLocal?
    ensures Means(g0, g, e, x, w, regs) ==> Means(g0, g, DischargeVars(e), x, w, regs)
  {
    hide Exec, Eval;
  }

  /** `exp2reg` of a pending test into the first free register. */
  lemma {:induction false} TestRegState(g0: Gen, g: Gen, e: Exp, x: Expr, w: World, regs: Regs)
    requires State(g0, g, e) && e.k.VJmp?
    ensures var (g1, e1) := Exp2Reg(g.(free := g0.free + 1), e, g0.free);
      && State(g0, g1, e1) && e1 == Simple(VNonReloc(g0.free)) && g1.free == g0.free + 1 && g.ks <= g1.ks
      && (Means(g0, g, e, x, w, regs) ==> Means(g0, g1, e1, x, w, regs))
  {
    assert Exp2Reg(g.(free := g0.free + 1), e, g0.free).0 == CloseAt(g, e, g0.free);
    CloseKeepsConstants(g, e, g0.free);
    CloseState(g0, g, e);
    if Means(g0, g, e, x, w, regs) {
      CloseMeans(g0, g, e, x, w, regs);
    }
  }

  lemma {:induction false} ClosesLoaded(h: Gen, e: Exp, reg: nat, g1: Gen, e1: Exp)
    requires (g1, e1) == Discharge2Reg(h, e, reg) && g1.free == reg + 1
    ensures Exp2Reg(h, e, reg) == (CloseAt(g1, e1, reg), Simple(VNonReloc(reg)))
  {
    assert g1.(free := reg + 1) == g1;
  }

  /** `exp2reg` into the first free register. */
  lemma {:induction false} RegState(g0: Gen, g: Gen, e: Exp, x: Expr, w: World, regs: Regs)
    requires State(g0, g, e) && !e.k.VLocal?
    ensures var (g1, e1) := Exp2Reg(g.(free := g0.free + 1), e, g0.free);
      && State(g0, g1, e1) && e1 == Simple(VNonReloc(g0.free)) && g1.free == g0.free + 1 && g.ks <= g1.ks
      && (g1.ks <= w.ks && Means(g0, g, e, x, w, regs) ==> Means(g0, g1, e1, x, w, regs))
  {
    if e.k.VJmp? {
      TestRegState(g0, g, e, x, w, regs);
    } else {
      var h := g.(free := g0.free + 1);
      var (g1, e1) := Discharge2Reg(h, e, g0.free);
      ToReg(g0, g, e, x, w, regs);
      ClosesLoaded(h, e, g0.free, g1, e1);
      CloseState(g0, g1, e1);
      CloseKeepsConstants(g1, e1, g0.free);
      if g1.ks <= w.ks && Means(g0, g, e, x, w, regs) {
        CloseMeans(g0, g1, e1, x, w, regs);
      }
    }
  }

  lemma {:induction false} CloseKeepsConstants(g: Gen, e: Exp, reg: nat)
    ensures CloseAt(g, e, reg).ks == g.ks
  {
  }

  /** The register of an expression is freed and reserved again. */
  lemma {:induction false} NextRegIs(g0: Gen, g: Gen, e: Exp)
    requires KindOk(g, e, g0.free) && g.nact <= g0.free
    ensures Exp2NextReg(g, e) == Exp2Reg(g.(free := g0.free + 1), DischargeVars(e), g0.free)
  {
    FreesRegister(g, DischargeVars(e), g0.free);
  }

  lemma {:induction false} FreesRegister(g: Gen, e: Exp, base: nat)
    requires !e.k.VLocal? && KindOk(g, e, base) && g.nact <= base
    ensures Reserve(FreeExp(g, e)) == g.(free := base + 1)
  {
  }

  /** `luaK_exp2nextreg`. */
  lemma {:induction false} NextRegState(g0: Gen, g: Gen, e: Exp, x: Expr, w: World, regs: Regs)
    requires State(g0, g, e)
    ensures var (g1, e1) := Exp2NextReg(g, e);
      && State(g0, g1, e1) && e1 == Simple(VNonReloc(g0.free)) && g1.free == g0.free + 1 && g.ks <= g1.ks
      && (g1.ks <= w.ks && Means(g0, g, e, x, w, regs) ==> Means(g0, g1, e1, x, w, regs))
  {
    var e1 := DischargeVars(e);
    VarsState(g0, g, e, x, w, regs);
    NextRegIs(g0, g, e);
    RegState(g0, g, e1, x, w, regs);
  }

  /** `luaK_exp2anyreg`. */
  lemma {:induction false} AnyRegState(g0: Gen, g: Gen, e: Exp, x: Expr, w: World, regs: Regs)
    requires State(g0, g, e)
    ensures var (g1, e1) := Exp2AnyReg(g, e);
      && State(g0, g1, e1) && e1.k.VNonReloc? && !HasJumps(e1) && g.ks <= g1.ks
      && (g1.ks <= w.ks && Means(g0, g, e, x, w, regs) ==> Means(g0, g1, e1, x, w, regs))
  {
    var e1 := DischargeVars(e);
    VarsState(g0, g, e, x, w, regs);
    if e1.k.VNonReloc? && !HasJumps(e1) {
    } else if e1.k.VNonReloc? && e1.k.r >= g.nact {
      assert g == g.(free := g0.free + 1);
      RegState(g0, g, e1, x, w, regs);
    } else {
      NextRegState(g0, g, e1, x, w, regs);
      assert DischargeVars(e1) == e1;
    }
  }

  /** A constant moved to the table has the same value there. */
  lemma {:induction false} ConstantState(g0: Gen, g: Gen, e: Exp, v: Value, x: Expr, w: World, regs: Regs)
    requires State(g0, g, e) && ConstantOf(e.k) == Some(v)
    ensures var (h, k) := AddK(g, v);
      && State(g0, h, e.(k := VK(k))) && g.ks <= h.ks
      && (h.ks <= w.ks && Means(g0, g, e, x, w, regs) ==> Means(g0, h, e.(k := VK(k)), x, w, regs))
  {
    AddKState(g, v, w, regs);
    var (h, k) := AddK(g, v);
    GrownTrans(g0, g, h);
    if h.ks <= w.ks && Means(g0, g, e, x, w, regs) {
      ConstantMeans(g0, g, e, v, h, k, x, w, regs);
    }
  }

  lemma {:induction false} ConstantMeans(g0: Gen, g: Gen, e: Exp, v: Value, h: Gen, k: nat, x: Expr, w: World,
                                         regs: Regs)
    requires Means(g0, g, e, x, w, regs) && ConstantOf(e.k) == Some(v) && !e.k.VReloc? && h.code == g.code
    requires Out(h, w, regs) == Out(g, w, regs) && k < |h.ks| && h.ks[k] == v && h.ks <= w.ks
    ensures Means(g0, h, e.(k := VK(k)), x, w, regs)
  {
  }

  /** The operand has the value of the expression wherever control reaches the end. */
  ghost predicate OperandOf(e: Exp, o: RK, g: Gen) {
    !HasJumps(e) && match e.k
      case VK(k) => o == Con(k) && k < |g.ks|
      case VNonReloc(r) => o == Reg(r)
      case _ => false
  }

  /** `luaK_exp2val`, then the constant part of `luaK_exp2RK`. */
  lemma {:induction false} ValState(g0: Gen, g: Gen, e: Exp, x: Expr, w: World, regs: Regs)
    requires State(g0, g, e)
    ensures var (g1, e1) := Exp2Val(g, e);
      && State(g0, g1, e1) && !HasJumps(e1) && !e1.k.VLocal? && g.ks <= g1.ks
      && (g1.ks <= w.ks && Means(g0, g, e, x, w, regs) ==> Means(g0, g1, e1, x, w, regs))
  {
    if HasJumps(e) {
      AnyRegState(g0, g, e, x, w, regs);
    } else {
      VarsState(g0, g, e, x, w, regs);
    }
  }

  lemma {:induction false} PrefixTrans(a: seq<Value>, b: seq<Value>, c: seq<Value>)
    requires a <= b <= c
    ensures a <= c
  {
  }

  /** `luaK_exp2RK`. */
  lemma {:induction false} RKState(g0: Gen, g: Gen, e: Exp, x: Expr, w: World, regs: Regs)
    requires State(g0, g, e)
    ensures var (g1, e1, o) := Exp2RK(g, e);
      && State(g0, g1, e1) && OperandOf(e1, o, g1) && g.ks <= g1.ks
      && (g1.ks <= w.ks && Means(g0, g, e, x, w, regs) ==> Means(g0, g1, e1, x, w, regs))
  {
    hide Means, Exp2Val, Exp2AnyReg, WellFormed, Grown, ListsOk;
    var (g1, e1) := Exp2Val(g, e);
    ValState(g0, g, e, x, w, regs);
    var (g2, e2) := Tabled(g1, e1);
    assert g1.ks <= g2.ks;
    if ConstantOf(e1.k).Some? {
      ConstantState(g0, g1, e1, ConstantOf(e1.k).value, x, w, regs);
    }
    AnyRegState(g0, g2, e2, x, w, regs);
    PrefixTrans(g.ks, g1.ks, g2.ks);
    PrefixTrans(g.ks, g2.ks, Exp2RK(g, e).0.ks);
  }
}
