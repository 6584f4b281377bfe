/** The code of an expression computes its value, for every tree of not, and, or and comparisons over locals and
    constants. */
module LuaCompile {
  import opened Basics
  import opened LuaMachine
  import opened LuaGen
  import opened LuaRuns
  import opened LuaSteps
  import opened LuaSem
  import opened LuaOperands
  import opened LuaConditions
  import opened LuaNot

  /** An expression depends on its locals alone. */
  lemma {:induction false} EvalKept(e: Expr, n: nat, r: Regs, r1: Regs, cmp: Comparer)
    requires LocalsBelow(e, n) && Keeps(r, r1, n)
    ensures Eval(e, r, cmp) == Eval(e, r1, cmp)
  {
    match e
    case Local(_) =>
    case Lit(_) =>
    case Not(x) => EvalKept(x, n, r, r1, cmp);
    case And(x, y) => EvalKept(x, n, r, r1, cmp); EvalKept(y, n, r, r1, cmp);
    case Or(x, y) => EvalKept(x, n, r, r1, cmp); EvalKept(y, n, r, r1, cmp);
    case Compare(_, x, y) => EvalKept(x, n, r, r1, cmp); EvalKept(y, n, r, r1, cmp);
  }

  // ----- and, or -----

  /** The second operand's descriptor with the jumps out of the first. */
  function Joined(e: Exp, exits: seq<nat>, go: bool): Exp {
    if go then e.(f := e.f + exits) else e.(t := e.t + exits)
  }

  lemma {:induction false} ExitsSurvive(g0: Gen, g1: Gen, g: Gen, e: Exp, exits: seq<nat>)
    requires CondState(g0, g1, exits) && State(g1, g, e)
    ensures forall p :: p in exits ==>
            Survives(g1, Base(g, e), p) && Pends(g.code, p) && p !in g.here && |g0.code| <= p < |g1.code|
    ensures forall p, r, b :: p in exits ==> JumpValue(g.code, p, r, b) == JumpValue(g1.code, p, r, b)
    ensures Pending(g.code, exits)
  {
    forall p | p in exits ensures Survives(g1, Base(g, e), p) && Pends(g1.code, p) {
      assert Pends(g1.code, p) && p !in g1.here;
    }
  }

  lemma {:induction false} JoinedState(g0: Gen, g1: Gen, g: Gen, e: Exp, exits: seq<nat>, go: bool)
    requires CondState(g0, g1, exits) && State(g1, g, e)
    ensures State(g0, g, Joined(e, exits, go))
  {
    var e' := Joined(e, exits, go);
    ExitsSurvive(g0, g1, g, e, exits);
    assert Base(g, e') == Base(g, e);
    GrownTrans(g0, g1, Base(g, e));
  }

  function Combined(go: bool, l: Expr, r: Expr): Expr {
    if go then And(l, r) else Or(l, r)
  }

  /** How a run behind both operands ends, given how it ended behind the first. */
  lemma {:induction false} JoinedGood(o1: Exit, o: Exit, r1: Regs, g1: Gen, g: Gen, e: Exp, exits: seq<nat>, go: bool,
                                      l: Expr, r: Expr, w: World, base: nat)
    requires match Eval(l, r1, w.cmp)
             case None => o1 == Raise
             case Some(v) =>
               match o1
               case Fall(r2) => Keeps(r2, r1, base) && Truthy(v) == go
               case Leave(p, r2) => Keeps(r2, r1, base) && p in exits && Truthy(v) != go &&
                 JumpValue(g1.code, p, r2, !go) == v
               case _ => false
    requires match o1 case Fall(r2) => Good(o, r2, g, e, w, Eval(r, r1, w.cmp), base) case _ => o == o1
    requires forall p :: p in exits ==> p < |g1.code|
    requires forall p, r, b :: p in exits ==> JumpValue(g.code, p, r, b) == JumpValue(g1.code, p, r, b)
    requires ListsOk(g, e, |g1.code|)
    ensures Good(o, r1, g, Joined(e, exits, go), w, Eval(Combined(go, l, r), r1, w.cmp), base)
  {
  }

  lemma {:induction false} JoinedMeans(g0: Gen, g1: Gen, g: Gen, e: Exp, exits: seq<nat>, go: bool, l: Expr, r: Expr,
                                       w: World, regs: Regs)
    requires CondState(g0, g1, exits) && State(g1, g, e) && LocalsBelow(r, g0.nact) && g0.nact <= g0.free
    requires Decides(g0, g1, exits, go, l, w, regs) && Means(g1, g, e, r, w, regs)
    ensures Means(g0, g, Joined(e, exits, go), Combined(go, l, r), w, regs)
  {
    ExitsSurvive(g0, g1, g, e, exits);
    var o1, o := Out(g1, w, regs), Out(Base(g, e), w, regs);
    assert Base(g, Joined(e, exits, go)) == Base(g, e);
    match Out(g0, w, regs)
    case Stuck =>
    case Fall(r1) =>
      if o1.Fall? {
        EvalKept(r, g0.nact, o1.regs, r1, w.cmp);
      }
      JoinedGood(o1, o, r1, g1, g, e, exits, go, l, r, w, g0.free);
    case _ =>
  }

  // ----- comparisons -----

  lemma {:induction false} FreesBoth(g0: Gen, g2: Gen, g4: Gen, e2: Exp, o2: RK, e4: Exp, o4: RK)
    requires KindOk(g2, e2, g0.free) && KindOk(g4, e4, g2.free) && OperandOf(e2, o2, g2) && OperandOf(e4, o4, g4)
    requires g4.nact == g2.nact == g0.nact <= g0.free
    ensures FreeExps(g4, e2, e4) == g4.(free := g0.free) && g0.free <= g2.free
    ensures o2.Reg? ==> o2.r < g2.free
  {
  }

  lemma {:induction false} ComparisonRelates(op: Op, x: RK, y: RK, w: World, r: Regs)
    ensures Jumps(Comparison(op, x, y), w, r) == Relate(op, Operand(x, w, r), Operand(y, w, r), w.cmp)
  {
  }

  /** An expression without jumps is evaluated by a run that goes on, or raises an error. */
  lemma {:induction false} EvaluatesOnly(g0: Gen, g: Gen, e: Exp, o: RK, x: Expr, w: World, regs: Regs)
    requires State(g0, g, e) && OperandOf(e, o, g) && Means(g0, g, e, x, w, regs) && Out(g0, w, regs).Fall?
    ensures var r1 := Out(g0, w, regs).regs; Read(Out(g, w, regs), r1, Eval(x, r1, w.cmp), o, w, g0.free)
  {
  }

  /** A run that started with the registers `r1` has read an operand, registers below `base` kept, or raised its
      error. */
  ghost predicate Read(q: Exit, r1: Regs, value: Option<Value>, o: RK, w: World, base: nat) {
    match value
    case None => q == Raise
    case Some(v) => q.Fall? && Keeps(q.regs, r1, base) && Operand(o, w, q.regs) == v
  }

  /** How a run ends behind both operands: the second is read only where the first could be. */
  lemma {:induction false} BothRead(g0: Gen, g2: Gen, e2: Exp, o2: RK, g4: Gen, e4: Exp, o4: RK, l: Expr, r: Expr,
                                    w: World, regs: Regs)
    requires State(g0, g2, e2) && OperandOf(e2, o2, g2) && Means(g0, g2, e2, l, w, regs)
    requires State(g2, g4, e4) && OperandOf(e4, o4, g4) && Means(g2, g4, e4, r, w, regs)
    requires LocalsBelow(r, g0.nact) && Out(g0, w, regs).Fall?
    ensures var r1, q2, q4 := Out(g0, w, regs).regs, Out(g2, w, regs), Out(g4, w, regs);
            && Read(q2, r1, Eval(l, r1, w.cmp), o2, w, g0.free)
            && (if q2.Fall? then Read(q4, q2.regs, Eval(r, r1, w.cmp), o4, w, g2.free) else q4 == q2)
  {
    hide Eval, Exec, Good, LocalsBelow;
    EvaluatesOnly(g0, g2, e2, o2, l, w, regs);
    var q2 := Out(g2, w, regs);
    if q2.Fall? {
      EvaluatesOnly(g2, g4, e4, o4, r, w, regs);
      EvalKept(r, g0.nact, q2.regs, Out(g0, w, regs).regs, w.cmp);
    }
  }

  /** How a run ends behind the test. */
  lemma {:induction false} TestRun(g: Gen, op: Op, x: RK, y: RK, w: World, regs: Regs)
    requires WellFormed(g) && Out(g, w, regs) != Stuck
    ensures var (h, j) := CondJump(g, Comparison(op, x, y));
            var q, q' := Out(g, w, regs), Out(h, w, regs);
            if q.Fall? then
              match Relate(op, Operand(x, w, q.regs), Operand(y, w, q.regs), w.cmp)
              case None => q' == Raise
              case Some(b) => q' == if b then Leave(j, q.regs) else Fall(q.regs)
            else q' == q
  {
    hide Relate, Exec, CondJump;
    EmitTest(g, Comparison(op, x, y), w, regs);
    var q := Out(g, w, regs);
    if q.Fall? {
      ComparisonRelates(op, x, y, w, q.regs);
    }
  }

  /** The test behind both operands. */
  lemma {:induction false} CompareState(g0: Gen, g4: Gen, i: Instr, w: World, regs: Regs)
    requires WellFormed(g4) && Grown(g0, g4) && g0.nact <= g0.free && i.Cmp?
    ensures var (h, j) := CondJump(g4.(free := g0.free), i);
      && State(g0, h, Simple(VJmp(j))) && h.ks == g4.ks
  {
    var k := g4.(free := g0.free);
    assert Grown(g4, k);
    EmitTest(k, i, w, regs);
    GrownTrans(g4, k, CondJump(k, i).0);
    GrownTrans(g0, g4, CondJump(k, i).0);
  }

  /** How a run behind the test ends, given how it ended behind the operands. */
  lemma {:induction false} ComparedGood(q2: Exit, q4: Exit, q: Exit, r1: Regs, o2: RK, o4: RK, j: nat, h: Gen, op: Op,
                                        l: Expr, r: Expr, w: World, base: nat, base2: nat)
    requires Read(q2, r1, Eval(l, r1, w.cmp), o2, w, base)
    requires if q2.Fall? then Read(q4, q2.regs, Eval(r, r1, w.cmp), o4, w, base2) else q4 == q2
    requires if q4.Fall? then
               match Relate(op, Operand(o2, w, q4.regs), Operand(o4, w, q4.regs), w.cmp)
               case None => q == Raise
               case Some(b) => q == if b then Leave(j, q4.regs) else Fall(q4.regs)
             else q == q4
    requires base <= base2 && (o2.Reg? ==> o2.r < base2)
    ensures Good(q, r1, h, Simple(VJmp(j)), w, Eval(Compare(op, l, r), r1, w.cmp), base)
  {
  }

  lemma {:induction false} ReadNotStuck(q2: Exit, q4: Exit, r1: Regs, l: Expr, r: Expr, o2: RK, o4: RK, w: World,
                                        base: nat, base2: nat)
    requires Read(q2, r1, Eval(l, r1, w.cmp), o2, w, base)
    requires if q2.Fall? then Read(q4, q2.regs, Eval(r, r1, w.cmp), o4, w, base2) else q4 == q2
    ensures q4 != Stuck
  {
    hide Eval, Keeps;
  }

  lemma {:induction false} CompareMeans(g0: Gen, g2: Gen, e2: Exp, o2: RK, g4: Gen, e4: Exp, o4: RK, op: Op, l: Expr,
                                        r: Expr, h: Gen, j: nat, w: World, regs: Regs)
    requires State(g0, g2, e2) && OperandOf(e2, o2, g2) && Means(g0, g2, e2, l, w, regs)
    requires State(g2, g4, e4) && OperandOf(e4, o4, g4) && Means(g2, g4, e4, r, w, regs)
    requires LocalsBelow(r, g0.nact) && (h, j) == CondJump(g4.(free := g0.free), Comparison(op, o2, o4))
    ensures Means(g0, h, Simple(VJmp(j)), Compare(op, l, r), w, regs)
  {
    hide Eval, Relate, Exec, Good, LocalsBelow, Keeps, Read, CondJump, Comparison;
    FreesBoth(g0, g2, g4, e2, o2, e4, o4);
    var k := g4.(free := g0.free);
    assert Out(k, w, regs) == Out(g4, w, regs);
    var o := Out(g0, w, regs);
    if o.Fall? {
      BothRead(g0, g2, e2, o2, g4, e4, o4, l, r, w, regs);
      ReadNotStuck(Out(g2, w, regs), Out(g4, w, regs), o.regs, l, r, o2, o4, w, g0.free, g2.free);
      TestRun(k, op, o2, o4, w, regs);
      ComparedGood(Out(g2, w, regs), Out(g4, w, regs), Out(h, w, regs), o.regs, o2, o4, j, h, op, l, r, w, g0.free,
                   g2.free);
    } else if o != Stuck {
      TestRun(k, op, o2, o4, w, regs);
    }
  }

  lemma {:induction false} CompIs(g0: Gen, g2: Gen, e2: Exp, o2: RK, g3: Gen, e3: Exp, op: Op, g4: Gen, e4: Exp, o4: RK)
    requires KindOk(g2, e2, g0.free) && OperandOf(e2, o2, g2) && (g4, e4, o4) == Exp2RK(g3, e3)
    requires KindOk(g4, e4, g2.free) && OperandOf(e4, o4, g4) && g4.nact == g2.nact == g0.nact <= g0.free
    ensures var (h, j) := CondJump(g4.(free := g0.free), Comparison(op, o2, o4));
      CodeComp(g3, op, e2, e3) == (h, Simple(VJmp(j)))
  {
    FreesBoth(g0, g2, g4, e2, o2, e4, o4);
  }

  /** `codecomp`, the first operand already in place. */
  lemma {:induction false} CompState(g0: Gen, g2: Gen, e2: Exp, o2: RK, g3: Gen, e3: Exp, op: Op, l: Expr, r: Expr,
                                     g': Gen, e': Exp, w: World, regs: Regs)
    requires State(g0, g2, e2) && OperandOf(e2, o2, g2) && State(g2, g3, e3) && LocalsBelow(r, g0.nact)
    requires (g', e') == CodeComp(g3, op, e2, e3)
    ensures State(g0, g', e') && e'.k.VJmp? && g3.ks <= g'.ks
    ensures g'.ks <= w.ks && Means(g0, g2, e2, l, w, regs) && Means(g2, g3, e3, r, w, regs) ==>
      Means(g0, g', e', Compare(op, l, r), w, regs)
  {
    hide Exec, Eval, Means;
    var (g4, e4, o4) := Exp2RK(g3, e3);
    RKState(g2, g3, e3, r, w, regs);
    CompIs(g0, g2, e2, o2, g3, e3, op, g4, e4, o4);
    GrownTrans(g0, g2, g4);
    CompareState(g0, g4, Comparison(op, o2, o4), w, regs);
    assert g'.ks == g4.ks;
    if g'.ks <= w.ks && Means(g0, g2, e2, l, w, regs) && Means(g2, g3, e3, r, w, regs) {
      CompareMeans(g0, g2, e2, o2, g4, e4, o4, op, l, r, g', e'.k.pc, w, regs);
    }
  }

  // ----- every expression -----

  /** What is proved of the compilation of `x` behind `g0`. */
  ghost predicate Compiled(g0: Gen, g: Gen, e: Exp, x: Expr, w: World, regs: Regs) {
    && State(g0, g, e) && TrueConstants(g, e) && g0.ks <= g.ks
    && (g.ks <= w.ks ==> Means(g0, g, e, x, w, regs))
  }

  /** An operand without code: only the table of constants may grow. */
  lemma {:induction false} LeafState(g: Gen, g': Gen, k: Kind, w: World, regs: Regs)
    requires WellFormed(g) && g.ks <= g'.ks && g' == g.(ks := g'.ks, cache := g'.cache)
    requires k.VNil? || k.VTrue? || k.VFalse? || k.VKNum? || (k.VK? && k.k < |g'.ks|) || (k.VLocal? && k.r < g.nact)
    ensures State(g, g', Simple(k)) && Out(g', w, regs) == Out(g, w, regs)
  {
  }

  lemma {:induction false} LiteralCompiled(g: Gen, v: Value, g': Gen, e': Exp, w: World, regs: Regs)
    requires WellFormed(g) && (g', e') == Literal(g, v)
    ensures Compiled(g, g', e', Lit(v), w, regs)
  {
    if v.Str? {
      AddKState(g, v, w, regs);
    }
    LeafState(g, g', e'.k, w, regs);
  }

  lemma {:induction false} LocalCompiled(g: Gen, r: nat, w: World, regs: Regs)
    requires WellFormed(g) && r < g.nact
    ensures Compiled(g, g, Simple(VLocal(r)), Local(r), w, regs)
  {
    LeafState(g, g, VLocal(r), w, regs);
  }

  lemma {:induction false} NotCompiled(g: Gen, x: Expr, w: World, regs: Regs)
    requires var (g1, e1) := Compile(g, x); Compiled(g, g1, e1, x, w, regs)
    ensures var (g', e') := Compile(g, Not(x)); Compiled(g, g', e', Not(x), w, regs)
  {
    var (g1, e1) := Compile(g, x);
    NotState(g, g1, e1, x, w, regs);
  }

  /** The code between the operands of `and` and `or`. */
  function Middle(g: Gen, e: Exp, go: bool): (Gen, seq<nat>) {
    if go then (GoIfTrue(g, e).0, GoIfTrue(g, e).1.f) else (GoIfFalse(g, e).0, GoIfFalse(g, e).1.t)
  }

  lemma {:induction false} MiddleState(g0: Gen, g: Gen, e: Exp, go: bool, x: Expr, w: World, regs: Regs)
    requires Compiled(g0, g, e, x, w, regs)
    ensures var (h, exits) := Middle(g, e, go);
      && CondState(g0, h, exits) && g.ks <= h.ks && h.nact == g0.nact
      && (h.ks <= w.ks ==> Decides(g0, h, exits, go, x, w, regs))
  {
    if go {
      GoIfTrueState(g0, g, e, x, w, regs);
    } else {
      GoIfFalseState(g0, g, e, x, w, regs);
    }
  }

  lemma {:induction false} LogicCompiled(g: Gen, go: bool, l: Expr, r: Expr, g1: Gen, e1: Exp, g2: Gen, exits: seq<nat>,
                                         g3: Gen, e3: Exp, w: World, regs: Regs)
    requires LocalsBelow(r, g.nact) && g.nact <= g.free
    requires Compiled(g, g1, e1, l, w, regs) && (g2, exits) == Middle(g1, e1, go) && Compiled(g2, g3, e3, r, w, regs)
    ensures Compiled(g, g3, Joined(DischargeVars(e3), exits, go), Combined(go, l, r), w, regs)
  {
    MiddleState(g, g1, e1, go, l, w, regs);
    VarsState(g2, g3, e3, r, w, regs);
    JoinedState(g, g2, g3, DischargeVars(e3), exits, go);
    PrefixTrans(g.ks, g1.ks, g2.ks);
    PrefixTrans(g.ks, g2.ks, g3.ks);
    if g3.ks <= w.ks {
      JoinedMeans(g, g2, g3, DischargeVars(e3), exits, go, l, r, w, regs);
    }
  }

  lemma {:induction false} CompareCompiled(g: Gen, op: Op, l: Expr, r: Expr, g1: Gen, e1: Exp, g2: Gen, e2: Exp, o2: RK,
                                           g3: Gen, e3: Exp, g': Gen, e': Exp, w: World, regs: Regs)
    requires LocalsBelow(r, g.nact) && Compiled(g, g1, e1, l, w, regs) && (g2, e2, o2) == Exp2RK(g1, e1)
    requires Compiled(g2, g3, e3, r, w, regs) && (g', e') == CodeComp(g3, op, e2, e3)
    ensures Compiled(g, g', e', Compare(op, l, r), w, regs)
  {
    hide State, Means, Exp2RK, CodeComp, Exec;
    RKState(g, g1, e1, l, w, regs);
    CompState(g, g2, e2, o2, g3, e3, op, l, r, g', e', w, regs);
    PrefixTrans(g.ks, g1.ks, g2.ks);
    PrefixTrans(g.ks, g2.ks, g3.ks);
    PrefixTrans(g.ks, g3.ks, g'.ks);
  }

  /** The code of an expression evaluates it. */
  lemma {:induction false} CompileOk(g: Gen, x: Expr, w: World, regs: Regs)
    requires WellFormed(g) && LocalsBelow(x, g.nact)
    ensures var (g', e') := Compile(g, x); Compiled(g, g', e', x, w, regs)
    decreases x
  {
    match x
    case Local(r) => LocalCompiled(g, r, w, regs);
    case Lit(v) => LiteralCompiled(g, v, Literal(g, v).0, Literal(g, v).1, w, regs);
    case Not(y) =>
      CompileOk(g, y, w, regs);
      NotCompiled(g, y, w, regs);
    case And(l, r) => LogicOk(g, true, l, r, w, regs);
    case Or(l, r) => LogicOk(g, false, l, r, w, regs);
    case Compare(op, l, r) =>
      var (g1, e1) := Compile(g, l);
      CompileOk(g, l, w, regs);
      var (g2, e2, o2) := Exp2RK(g1, e1);
      RKState(g, g1, e1, l, w, regs);
      CompileOk(g2, r, w, regs);
      var (g3, e3) := Compile(g2, r);
      var (g', e') := CodeComp(g3, op, e2, e3);
      CompareCompiled(g, op, l, r, g1, e1, g2, e2, o2, g3, e3, g', e', w, regs);
  }

  lemma {:induction false} CompileLogic(g: Gen, go: bool, l: Expr, r: Expr, g1: Gen, e1: Exp, g2: Gen, exits: seq<nat>,
                                        g3: Gen, e3: Exp)
    requires (g1, e1) == Compile(g, l) && (g2, exits) == Middle(g1, e1, go) && (g3, e3) == Compile(g2, r)
    ensures Compile(g, Combined(go, l, r)) == (g3, Joined(DischargeVars(e3), exits, go))
  {
  }

  lemma {:induction false} LogicOk(g: Gen, go: bool, l: Expr, r: Expr, w: World, regs: Regs)
    requires WellFormed(g) && LocalsBelow(l, g.nact) && LocalsBelow(r, g.nact)
    ensures var (g', e') := Compile(g, Combined(go, l, r)); Compiled(g, g', e', Combined(go, l, r), w, regs)
    decreases Combined(go, l, r), 0
  {
    var (g1, e1) := Compile(g, l);
    CompileOk(g, l, w, regs);
    var (g2, exits) := Middle(g1, e1, go);
    MiddleState(g, g1, e1, go, l, w, regs);
    CompileOk(g2, r, w, regs);
    var (g3, e3) := Compile(g2, r);
    CompileLogic(g, go, l, r, g1, e1, g2, exits, g3, e3);
    LogicCompiled(g, go, l, r, g1, e1, g2, exits, g3, e3, w, regs);
  }

  /** Compiled and put into the next register: runs that reached the expression go on with its value there, or raise the
      error it raises; registers below are kept, and runs that did not reach it end as before. */
  lemma {:induction false} ExpressionValue(g: Gen, x: Expr, w: World, regs: Regs)
    requires WellFormed(g) && LocalsBelow(x, g.nact)
    ensures var (g1, e1) := Compile(g, x); var (g2, e2) := Exp2NextReg(g1, e1);
      && WellFormed(g2) && e2 == Simple(VNonReloc(g.free)) && g2.free == g.free + 1
      && (g2.ks <= w.ks && Out(g, w, regs) != Stuck ==>
           match Out(g, w, regs)
           case Fall(r) =>
             (match Eval(x, r, w.cmp)
              case None => Out(g2, w, regs) == Raise
              case Some(v) =>
                Out(g2, w, regs).Fall? && var r' := Out(g2, w, regs).regs; Get(r', g.free) == v && Keeps(r', r, g.free))
           case o => Out(g2, w, regs) == o)
  {
    hide Compile, Exp2NextReg, Eval, Keeps, LocalsBelow, Exec;
    var (g1, e1) := Compile(g, x);
    CompileOk(g, x, w, regs);
    NextRegState(g, g1, e1, x, w, regs);
  }
}
