/** `codenot`: the two lists exchanged, with tests that no longer produce values, mean the negation. */
module LuaNot {
  import opened Basics
  import opened LuaMachine
  import opened LuaGen
  import opened LuaRuns
  import opened LuaSteps
  import opened LuaSem
  import opened LuaOperands
  import opened LuaConditions

  // ----- removing the values of tests -----

  lemma {:induction false} RemovedAt(c: seq<Instr>, xs: seq<nat>, j: nat)
    requires j < |c|
    ensures RemoveValues(c, xs)[j] == if j + 1 in xs && c[j].TestSet? then Test(c[j].b, c[j].c) else c[j]
  {
  }

  lemma {:induction false} RemoveBoth(c: seq<Instr>, xs: seq<nat>, ys: seq<nat>)
    ensures RemoveValues(RemoveValues(c, xs), ys) == RemoveValues(c, xs + ys)
  {
    forall j | 0 <= j < |c| ensures RemoveValues(RemoveValues(c, xs), ys)[j] == RemoveValues(c, xs + ys)[j] {
      RemovedAt(c, xs, j);
      RemovedAt(c, xs + ys, j);
      RemovedAt(RemoveValues(c, xs), ys, j);
    }
  }

  /** A test without destination does the same when it is turned into a plain test. */
  lemma {:induction false} RemovedNext(c: seq<Instr>, xs: seq<nat>, w: World, pc: nat, regs: Regs)
    requires Paired(c) && Pending(c, xs) && pc < |c|
    ensures Next(RemoveValues(c, xs), w, pc, regs) == Next(c, w, pc, regs)
  {
    var c' := RemoveValues(c, xs);
    if c'[pc] == c[pc] {
      NextSame(c, c', w, pc, regs);
    } else {
      assert Pends(c, pc + 1);
      JumpSame(c, c', pc + 1, regs);
      LandSame(c, c', pc + 2, regs);
    }
  }

  lemma {:induction false} RemovedRuns(c: seq<Instr>, xs: seq<nat>, w: World, pc: nat, regs: Regs)
    requires Paired(c) && Pending(c, xs) && pc <= |c|
    ensures Exec(RemoveValues(c, xs), w, pc, regs) == Exec(c, w, pc, regs)
    decreases |c| - pc
  {
    if pc < |c| {
      RemovedNext(c, xs, w, pc, regs);
      match Next(c, w, pc, regs)
      case Ends(_) =>
      case Goes(pc', regs') => RemovedRuns(c, xs, w, pc', regs');
    }
  }

  function Stripped(g: Gen, xs: seq<nat>): Gen {
    g.(code := RemoveValues(g.code, xs))
  }

  lemma {:induction false} StrippedState(g: Gen, xs: seq<nat>, w: World, regs: Regs)
    requires WellFormed(g) && Pending(g.code, xs)
    ensures WellFormed(Stripped(g, xs)) && Out(Stripped(g, xs), w, regs) == Out(g, w, regs)
    ensures forall p: nat :: Pends(g.code, p) && p !in xs && p !in g.here ==> Survives(g, Stripped(g, xs), p)
  {
    var c, c' := g.code, RemoveValues(g.code, xs);
    RemovedRuns(c, xs, w, 0, regs);
    forall j | 0 <= j < |c|
      ensures Reaches(c'[j], j, g.lastTarget) && (IsTest(c'[j]) <==> IsTest(c[j])) && (c'[j].Goto? <==> c[j].Goto?)
    {
      assert Reaches(c[j], j, g.lastTarget);
    }
  }

  /** The lists of an expression, stripped and exchanged. */
  lemma {:induction false} StripLists(g0: Gen, m: Gen, t: seq<nat>, f: seq<nat>, w: World, regs: Regs)
    requires WellFormed(m) && Grown(g0, m) && ListsOk(m, Exp(VNil, t, f), |g0.code|)
    ensures var m' := Stripped(m, t + f);
      && WellFormed(m') && Grown(g0, m') && ListsOk(m', Exp(VNil, f, t), |g0.code|)
      && Out(m', w, regs) == Out(m, w, regs)
    ensures forall p, r, b :: p in t || p in f ==> JumpValue(RemoveValues(m.code, t + f), p, r, b) == Bool(b)
  {
    var m' := Stripped(m, t + f);
    assert Pending(m.code, t + f);
    StrippedState(m, t + f, w, regs);
    forall p: nat | Pends(g0.code, p) && p !in g0.here ensures Survives(g0, m', p) {
      assert Survives(g0, m, p);
      assert Survives(m, m', p);
    }
    forall p | p in t || p in f ensures Pends(m'.code, p) && !(p > 0 && m'.code[p - 1].TestSet?) {
      assert Pends(m.code, p);
      if p > 0 {
        RemovedAt(m.code, t + f, p - 1);
      }
    }
  }

  // ----- the meaning of the negation -----

  function NotValue(v: Option<Value>): Option<Value> {
    match v case None => None case Some(x) => Some(Bool(!Truthy(x)))
  }

  /** How the end of a run changes: the main value is negated; a pending test exchanges its two ways. */
  ghost predicate Turned(o: Exit, o': Exit, g: Gen, e: Exp, g': Gen, k: Kind, w: World) {
    if e.k.VJmp? then k == e.k && o' == Exchanged(o, e.k.pc)
    else o' == o && (o.Fall? ==> MainValue(g', k, w, o.regs) == Bool(!Truthy(MainValue(g, e.k, w, o.regs)))) && !k.VJmp?
  }

  lemma {:induction false} TurnedGood(o: Exit, o': Exit, r1: Regs, g: Gen, e: Exp, g': Gen, k: Kind, w: World,
                                      v: Option<Value>, base: nat)
    requires Good(o, r1, g, e, w, v, base) && Turned(o, o', g, e, g', k, w)
    requires forall p :: p in e.t ==> p !in e.f
    requires e.k.VJmp? ==> e.k.pc !in e.t && e.k.pc !in e.f
    requires forall p, r, b :: p in e.t || p in e.f ==> JumpValue(g'.code, p, r, b) == Bool(b)
    ensures Good(o', r1, g', Exp(k, e.f, e.t), w, NotValue(v), base)
  {
  }

  /** Ends of runs that did not reach the expression are not turned. */
  lemma {:induction false} TurnedMeans(g0: Gen, g: Gen, e: Exp, g': Gen, k: Kind, x: Expr, w: World, regs: Regs)
    requires State(g0, g, e) && Means(g0, g, e, x, w, regs)
    requires Out(Base(g, e), w, regs) != Stuck ==>
      Turned(Out(Base(g, e), w, regs), Out(Base(g', Exp(k, e.f, e.t)), w, regs), g, e, g', k, w)
    requires forall p, r, b :: p in e.t || p in e.f ==> JumpValue(g'.code, p, r, b) == Bool(b)
    ensures Means(g0, g', Exp(k, e.f, e.t), Not(x), w, regs)
  {
    var o, o' := Out(Base(g, e), w, regs), Out(Base(g', Exp(k, e.f, e.t)), w, regs);
    match Out(g0, w, regs)
    case Stuck =>
    case Fall(r1) => TurnedGood(o, o', r1, g, e, g', k, w, Eval(x, r1, w.cmp), g0.free);
    case _ => LeavesThroughPending(g0.code, w, 0, regs);
  }

  // ----- the cases of codenot -----

  /** A constant becomes a constant. */
  lemma {:induction false} NotConstant(g0: Gen, g: Gen, e: Exp, k: Kind, x: Expr, w: World, regs: Regs)
    requires State(g0, g, e) && TrueConstants(g, e)
    requires (k == VTrue && (e.k.VNil? || e.k.VFalse?)) || (k == VFalse && (e.k.VK? || e.k.VKNum? || e.k.VTrue?))
    ensures var g', e' := Stripped(g, e.t + e.f), Exp(k, e.f, e.t);
      State(g0, g', e') && (g'.ks <= w.ks && Means(g0, g, e, x, w, regs) ==> Means(g0, g', e', Not(x), w, regs))
  {
    StripLists(g0, g, e.t, e.f, w, regs);
    if g.ks <= w.ks && Means(g0, g, e, x, w, regs) {
      TurnedMeans(g0, g, e, Stripped(g, e.t + e.f), k, x, w, regs);
    }
  }

  /** A pending test is negated in place. */
  lemma {:induction false} NotTest(g0: Gen, g: Gen, e: Exp, x: Expr, w: World, regs: Regs)
    requires State(g0, g, e) && e.k.VJmp?
    ensures var g', e' := Stripped(g.(code := Negate(g.code, e.k.pc)), e.t + e.f), Exp(e.k, e.f, e.t);
      State(g0, g', e') && (Means(g0, g, e, x, w, regs) ==> Means(g0, g', e', Not(x), w, regs))
  {
    var h := g.(code := Negate(g.code, e.k.pc));
    NegatedState(g0, g, e, x, w, regs);
    StripLists(g0, h, e.t, e.f, w, regs);
    var g' := Stripped(h, e.t + e.f);
    RemovedAt(h.code, e.t + e.f, e.k.pc);
    RemovedAt(h.code, e.t + e.f, e.k.pc - 1);
    if Means(g0, g, e, x, w, regs) {
      TurnedMeans(g0, g, e, g', e.k, x, w, regs);
    }
  }

  /** A NOT behind a value in a register. */
  lemma {:induction false} EmitsNot(g0: Gen, h: Gen, e: Exp, w: World, regs: Regs)
    requires State(g0, h, e) && e.k.VNonReloc?
    ensures var m := Discharge(h.(free := g0.free));
      && WellFormed(m) && Grown(g0, m) && m.here == [] && ListsOk(m, Exp(VNil, e.t, e.f), |g0.code|)
      && (Out(h, w, regs) != Stuck ==> Out(m, w, regs) == Out(h, w, regs))
  {
    var k := h.(free := g0.free);
    var m := Discharge(k);
    DischargeWellFormed(k);
    assert Grown(h, k);
    GrownTrans(h, k, m);
    GrownTrans(g0, h, m);
    ListsSurvive(h, m, e, Exp(VNil, e.t, e.f), |g0.code|);
    assert Out(k, w, regs) == Out(h, w, regs);
    if Out(h, w, regs) != Stuck {
      DischargedRuns(k, w, regs);
    }
  }

  /** Settling the jumps to "here" leaves the ends of runs as they are. */
  lemma {:induction false} DischargedRuns(g: Gen, w: World, regs: Regs)
    requires WellFormed(g) && Out(g, w, regs) != Stuck
    ensures Out(Discharge(g), w, regs) == Out(g, w, regs)
  {
    var c, n := g.code, |g.code|;
    assert Ahead(c, g.here, n, n);
    ExecPatched(c, g.here, n, NO_REG, n, w, 0, regs);
  }

  /** The emitted NOT, and the lists stripped around it. */
  lemma {:induction false} StripsAroundNot(m: Gen, t: seq<nat>, f: seq<nat>, r: nat)
    requires Pending(m.code, t) && Pending(m.code, f) && m.here == []
    ensures var g1, n := m.(code := m.code + [NotOp(0, r)]), |m.code|;
      var g' := Stripped(g1, t + f);
      && Base(g', Exp(VReloc(n), f, t)) == Stripped(m, t + f)
      && |g'.code| == n + 1 && g'.code[n] == NotOp(0, r)
      && (forall p, q, b :: p in t || p in f ==>
          JumpValue(g'.code, p, q, b) == JumpValue(RemoveValues(m.code, t + f), p, q, b))
      && (forall p :: p in t || p in f ==> Pends(m.code, p))
  {
    var n, xs := |m.code|, t + f;
    var c := m.code + [NotOp(0, r)];
    forall j | 0 <= j < n ensures RemoveValues(c, xs)[j] == RemoveValues(m.code, xs)[j] {
      RemovedAt(c, xs, j);
      RemovedAt(m.code, xs, j);
      assert c[j] == m.code[j];
    }
    RemovedAt(c, xs, n);
    assert RemoveValues(c, xs)[..n] == RemoveValues(m.code, xs);
    assert forall p :: p in t || p in f ==> Pends(m.code, p);
  }

  /** A value in a register is negated by a NOT. */
  lemma {:induction false} NotRegister(g0: Gen, h: Gen, e: Exp, x: Expr, w: World, regs: Regs)
    requires State(g0, h, e) && e.k.VNonReloc?
    ensures var h1 := h.(free := g0.free);
      var g', e' := Stripped(Emit(h1, NotOp(0, e.k.r)), e.t + e.f), Exp(VReloc(|h1.code|), e.f, e.t);
      State(g0, g', e') && (Means(g0, h, e, x, w, regs) ==> Means(g0, g', e', Not(x), w, regs))
  {
    var m, xs := Discharge(h.(free := g0.free)), e.t + e.f;
    EmitsNot(g0, h, e, w, regs);
    StripLists(g0, m, e.t, e.f, w, regs);
    StripsAroundNot(m, e.t, e.f, e.k.r);
    var g', e' := Stripped(Emit(h.(free := g0.free), NotOp(0, e.k.r)), xs), Exp(VReloc(|h.code|), e.f, e.t);
    assert g' == Stripped(m.(code := m.code + [NotOp(0, e.k.r)]), xs);
    StrippedNotState(g0, m, g', e', Exp(VNil, e.t, e.f));
    if Means(g0, h, e, x, w, regs) {
      TurnedMeans(g0, h, e, g', e'.k, x, w, regs);
    }
  }

  lemma {:induction false} StrippedNotState(g0: Gen, m: Gen, g': Gen, e': Exp, e: Exp)
    requires m.here == [] && m.free == g0.free && e'.k == VReloc(|m.code|) && e' == Exp(e'.k, e.f, e.t)
    requires Base(g', e') == Stripped(m, e.t + e.f) && |g'.code| == |m.code| + 1 && g'.code[|m.code|].NotOp?
    requires WellFormed(Base(g', e')) && Grown(g0, Base(g', e')) &&
             ListsOk(Base(g', e'), Exp(VNil, e.f, e.t), |g0.code|)
    requires g0.nact <= g0.free
    ensures State(g0, g', e')
  {
    var b := Base(g', e');
    assert forall j :: 0 <= j < |m.code| ==> g'.code[j] == b.code[j];
    forall p | p in e.t || p in e.f ensures Pends(g'.code, p) &&
      (p > 0 && g'.code[p - 1].TestSet? ==> g'.code[p - 1].dest == NO_REG) {
      assert Pends(b.code, p);
    }
  }

  /** `codenot`. */
  lemma {:induction false} NotState(g0: Gen, g: Gen, e: Exp, x: Expr, w: World, regs: Regs)
    requires State(g0, g, e) && TrueConstants(g, e)
    ensures var (g', e') := CodeNot(g, e);
      && State(g0, g', e') && TrueConstants(g', e') && g.ks <= g'.ks
      && (g'.ks <= w.ks && Means(g0, g, e, x, w, regs) ==> Means(g0, g', e', Not(x), w, regs))
  {
    hide Exec, Eval, Good, Out, State, Means, RemoveValues, Negate, Discharge2AnyReg;
    var e1 := DischargeVars(e);
    VarsState(g0, g, e, x, w, regs);
    if e1.k.VJmp? {
      NotTest(g0, g, e1, x, w, regs);
      RemoveBoth(Negate(g.code, e1.k.pc), e1.t, e1.f);
    } else if e1.k.VReloc? || e1.k.VNonReloc? {
      AnyRegMain(g0, g, e1, x, w, regs);
      var (h, e2) := Discharge2AnyReg(g, e1);
      NotRegister(g0, h, e2, x, w, regs);
      RemoveBoth(Emit(FreeExp(h, e2), NotOp(0, e2.k.r)).code, e1.t, e1.f);
    } else {
      NotConstant(g0, g, e1, if e1.k.VNil? || e1.k.VFalse? then VTrue else VFalse, x, w, regs);
      RemoveBoth(g.code, e1.t, e1.f);
    }
  }
}
