/** The code generator of lcode.c: a `FuncState` whose code is patched in place, and expression descriptors that are
    overwritten. Each method does what its counterpart in LuaGen says, on the code the threaded lists stand for. */
module LuaFuncState {
  import opened LuaMachine
  import opened LuaGen
  import opened LuaThreads
  import opened LuaPending

  /** The binary operators modelled. */
  datatype BinOpr = OprAnd | OprOr | OprComp(op: Op)

  function Binary(op: BinOpr, l: Expr, r: Expr): Expr {
    match op
    case OprAnd => And(l, r)
    case OprOr => Or(l, r)
    case OprComp(c) => Compare(c, l, r)
  }

  /** What `luaK_infix` makes of the first operand. */
  function InfixOf(g: Gen, op: BinOpr, e: Exp): (Gen, Exp) {
    match op
    case OprAnd => GoIfTrue(g, e)
    case OprOr => GoIfFalse(g, e)
    case OprComp(_) => (Exp2RK(g, e).0, Exp2RK(g, e).1)
  }

  /** What `luaK_posfix` makes of both operands. */
  function PosfixOf(g: Gen, op: BinOpr, e1: Exp, e2: Exp): (Gen, Exp) {
    match op
    case OprAnd => (g, PosAnd(e1, e2))
    case OprOr => (g, PosOr(e1, e2))
    case OprComp(c) => CodeComp(g, c, e1, e2)
  }

  /** The parser's calls, by operator. */
  lemma {:induction false} CompileBinary(g: Gen, op: BinOpr, l: Expr, r: Expr)
    ensures var (g1, e1) := Compile(g, l);
      var (g2, e2) := InfixOf(g1, op, e1);
      var (g3, e3) := Compile(g2, r);
      Compile(g, Binary(op, l, r)) == PosfixOf(g3, op, e2, e3)
  {
    hide LuaGen.GoIfTrue, LuaGen.GoIfFalse, LuaGen.CodeComp, LuaGen.Exp2RK;
    match op
    case OprAnd =>
    case OprOr =>
    case OprComp(c) =>
  }

  lemma {:induction false} CompileBinaryGives(g: Gen, op: BinOpr, l: Expr, r: Expr, g2: Gen, e2: Exp, h: Gen, e: Exp)
    requires var (g1, e1) := Compile(g, l); (g2, e2) == InfixOf(g1, op, e1)
    requires var (g3, e3) := Compile(g2, r); (h, e) == PosfixOf(g3, op, e2, e3)
    ensures (h, e) == Compile(g, Binary(op, l, r))
  {
    CompileBinary(g, op, l, r);
  }

  /** `expdesc`: kind, and the heads of the lists of jumps taken when true and when false. */
  class Expdesc {
    var k: Kind
    var t: int
    var f: int
    ghost var ts: seq<nat>
    ghost var fs: seq<nat>

    constructor (kind: Kind)
      ensures E() == Simple(kind) && t == f == NO_JUMP
    {
      k, t, f := kind, NO_JUMP, NO_JUMP;
      ts, fs := [], [];
    }

    ghost function E(): Exp
      reads this
    {
      Exp(k, ts, fs)
    }

    /** `hasjumps`. */
    predicate HasJumpLists()
      reads this
    {
      t != f
    }
  }

  /** The loads `exp2reg` appends, and where the load of false is. */
  function Padding(g: Gen, reg: nat, around: bool): (Gen, nat) {
    var (g1, fj) := if around then LuaGen.Jump(g) else (g, []);
    var g2 := Emit(Label(Emit(Label(g1), LoadBool(reg, false, true))), LoadBool(reg, true, false));
    (LuaGen.PatchToHere(g2, fj), |g1.code|)
  }

  /** `exp2reg` once a pending test has joined the true list. */
  function Closing(g: Gen, t: seq<nat>, f: seq<nat>, reg: nat, test: bool): Gen {
    if t == [] && f == [] then g
    else if NeedValue(g.code, t) || NeedValue(g.code, f) then
      var (h, pf) := Padding(g, reg, !test);
      ClosePatch(h, Exp(VNil, t, f), reg, pf, pf + 1)
    else ClosePatch(g, Exp(VNil, t, f), reg, PENDING, PENDING)
  }

  lemma {:induction false} ClosingPadded(g: Gen, t: seq<nat>, f: seq<nat>, reg: nat, test: bool, h: Gen, pf: nat)
    requires NeedValue(g.code, t) || NeedValue(g.code, f)
    requires (h, pf) == Padding(g, reg, !test)
    ensures Closing(g, t, f, reg, test) == ClosePatch(h, Exp(VNil, t, f), reg, pf, pf + 1)
  {
  }

  /** The jumps of two lists. */
  function Both(t: seq<nat>, f: seq<nat>): set<nat> {
    (set p | p in t) + (set p | p in f)
  }

  /** What is left to others when the jumps of `stay` come here and those of `gs` and `js` are those of `e`. */
  lemma {:induction false} LeftToOthers(held: set<nat>, rest: set<nat>, t: seq<nat>, f: seq<nat>, js: seq<nat>, k: Kind)
    requires held == rest + Both(t, f) + (set p | p in js) && Both(t, f) !! rest
    requires Disjoint(t, f) && Disjoint(t, js) && Disjoint(f, js) && forall p :: p in js ==> p !in rest
    requires k.VJmp? ==> js == [k.pc]
    ensures held - (set p | p in t) - Lists(Exp(k, [], f + js)) == rest && Lists(Exp(k, [], f + js)) == Both([], f + js)
    ensures held - (set p | p in f) - Lists(Exp(k, t + js, [])) == rest && Lists(Exp(k, t + js, [])) == Both(t + js, [])
  {
  }

  /** What is left to others when the jumps of another expression join a list of `e`. */
  lemma {:induction false} LeftAfterJoining(held: set<nat>, e: Exp, ts: seq<nat>, fs: seq<nat>)
    ensures fs == [] ==> held - Lists(e.(t := e.t + ts)) == held - Lists(e) - Both(ts, fs)
    ensures ts == [] ==> held - Lists(e.(f := e.f + fs)) == held - Lists(e) - Both(ts, fs)
  {
  }

  lemma {:induction false} CodeCompGives(g: Gen, op: Op, e1: Exp, e2: Exp, rk1: RK, g1: Gen, e2': Exp, rk2: RK, h: Gen)
    requires rk1 == (if e1.k.VK? then Con(e1.k.k) else Reg(if e1.k.VNonReloc? then e1.k.r else 0))
    requires (g1, e2', rk2) == Exp2RK(g, e2) && h == CondJump(FreeExps(g1, e1, e2'), Comparison(op, rk1, rk2)).0
    ensures CodeComp(g, op, e1, e2) == (h, e1.(k := VJmp(|g1.code| + 1)))
  {
  }

  lemma {:induction false} GoIfTrueGives(g: Gen, e: Exp, g1: Gen, e1: Exp, js: seq<nat>)
    requires (g1, e1, js) == LeaveIfFalse(g, DischargeVars(e))
    ensures GoIfTrue(g, e) == (PatchToHere(g1, e1.t), e1.(t := [], f := e1.f + js))
  {
  }

  lemma {:induction false} GoIfFalseGives(g: Gen, e: Exp, g1: Gen, e1: Exp, js: seq<nat>)
    requires (g1, e1, js) == LeaveIfTrue(g, DischargeVars(e))
    ensures GoIfFalse(g, e) == (PatchToHere(g1, e1.f), e1.(f := [], t := e1.t + js))
  {
  }

  lemma {:induction false} ClosingIs(g: Gen, e: Exp, reg: nat)
    ensures CloseJumps(g, e, reg) == Closing(g, if e.k.VJmp? then e.t + [e.k.pc] else e.t, e.f, reg, e.k.VJmp?)
  {
  }

  class FuncState {
    var code: seq<Instr>
    var jpc: int
    var lasttarget: nat
    var freereg: nat
    var nactvar: nat
    var ks: seq<Value>
    var cache: map<Value, nat>
    ghost var waiting: set<nat>
    ghost var here: seq<nat>

    constructor (nact: nat, scanner: map<Value, nat>)
      ensures Valid() && G() == Gen([], [], 0, nact, nact, [], scanner) && waiting == {}
    {
      code, jpc, lasttarget, freereg, nactvar, ks, cache := [], NO_JUMP, 0, nact, nact, [], scanner;
      waiting, here := {}, [];
      new;
      assert Abs(code, waiting) == [];
    }

    /** The generator this state stands for. */
    ghost function G(): Gen
      reads this
    {
      Gen(Abs(code, waiting), here, lasttarget, freereg, nactvar, ks, cache)
    }

    ghost predicate Valid()
      reads this
    {
      && IsList(code, jpc, here) && (forall p :: p in here ==> p in waiting)
      && (forall p :: p in waiting ==> p < |code| && code[p].Jmp?)
      && (forall j :: 0 <= j < |code| ==> !code[j].Goto?)
    }

    /** The jumps that wait for something else than "here". */
    ghost function Held(): set<nat>
      reads this
    {
      waiting - set p | p in here
    }

    /** Jumps that waited for something else than "here" still do, and no other does. */
    twostate predicate Steady()
      reads this
    {
      Held() == old(Held()) && Untouched(old(Held()))
    }

    twostate predicate Untouched(ps: set<nat>)
      reads this
    {
      nactvar == old(nactvar) && forall p :: p in ps ==> p < |old(code)| && p < |code| && code[p] == old(code)[p]
    }

    // ----- jumps -----

    /** `fixjump`, its assertion as a precondition. */
    method FixJump(pc: nat, dest: int)
      requires pc < |code| && code[pc].Jmp? && dest != NO_JUMP
      modifies this`code
      ensures code == old(code)[pc := Jmp(Offset(pc, dest))]
    {
      code := code[pc := Jmp(Offset(pc, dest))];
    }

    /** `luaK_concat`. */
    method Concat(l1: int, l2: int, ghost xs: seq<nat>, ghost ys: seq<nat>) returns (l: int)
      requires IsList(code, l1, xs) && IsList(code, l2, ys) && Disjoint(xs, ys)
      modifies this`code
      ensures code == Relinked(old(code), xs, ys) && IsList(code, l, xs + ys)
      ensures l == if xs == [] then l2 else l1
    {
      RelinkedIsList(code, l1, xs, l2, ys);
      if l2 == NO_JUMP {
        return l1;
      } else if l1 == NO_JUMP {
        return l2;
      } else {
        var list: nat := l1;
        ghost var i := 0;
        ListFollowing(code, l1, xs, 0);
        var next := Following(code, list);
        while next != NO_JUMP
          invariant code == old(code) && 0 <= i < |xs| && list == xs[i] < |code| &&
                    next == if i + 1 < |xs| then xs[i + 1] else NO_JUMP
          decreases |xs| - i
        {
          list, i := next, i + 1;
          ListFollowing(code, l1, xs, i);
          next := Following(code, list);
        }
        FixJump(list, l2);
        return l1;
      }
    }

    /** `luaK_jump`. */
    method Jump() returns (j: nat)
      requires Valid()
      modifies this
      ensures Valid() && here == [] && j == |old(code)| == |code| - 1 && waiting == old(waiting) + {j}
      ensures G() == LuaGen.Jump(old(G())).0 && IsList(code, j, [j] + old(here))
      ensures forall p :: 0 <= p < j ==> code[p] == old(code)[p]
    {
      var pending := jpc;
      ghost var hs := here;
      JumpLinked(code, pending, hs, waiting);
      jpc, here := NO_JUMP, [];
      j := |code|;
      code := code + [Jmp(NO_JUMP)];
      waiting := waiting + {j};
      var l := Concat(j, pending, [j], hs);
    }

    /** `luaK_getlabel`. */
    method GetLabel()
      modifies this`lasttarget
      ensures lasttarget == |code|
    {
      lasttarget := |code|;
    }

    /** `patchtestreg`; `getjumpcontrol` looks at the instruction before the jump if it is a test. */
    method PatchTestReg(node: nat, reg: int) returns (ok: bool)
      requires node < |code| && code[node].Jmp?
      modifies this`code
      ensures ok == (node > 0 && old(code)[node - 1].TestSet?)
      ensures code == if ok then old(code)[node - 1 := TestFor(old(code)[node - 1], reg)] else old(code)
    {
      var i := if node >= 1 && IsTest(code[node - 1]) then node - 1 else node;
      if !code[i].TestSet? {
        return false;
      }
      if reg >= 0 && reg != code[i].b {
        code := code[i := code[i].(dest := reg)];
      } else {
        code := code[i := Test(code[i].b, code[i].c)];
      }
      return true;
    }

    /** `patchlistaux`. */
    method PatchListAux(head: int, vtarget: int, reg: int, dtarget: int, ghost xs: seq<nat>)
      requires IsList(code, head, xs) && vtarget != NO_JUMP
      requires dtarget != NO_JUMP || forall m :: 0 <= m < |xs| ==> xs[m] > 0 && code[xs[m] - 1].TestSet?
      modifies this`code
      ensures code == Fixed(old(code), xs, vtarget, reg, dtarget)
    {
      hide Fixed;
      ghost var c, i := code, 0;
      var list := head;
      FixedNone(c, vtarget, reg, dtarget);
      while list != NO_JUMP
        invariant 0 <= i <= |xs| && list == if i < |xs| then xs[i] else NO_JUMP
        invariant code == Fixed(c, xs[..i], vtarget, reg, dtarget)
        decreases |xs| - i
      {
        FixedListStep(c, head, xs, i, vtarget, reg, dtarget);
        var next := Following(code, list);
        var ok := PatchTestReg(list, reg);
        FixJump(list, if ok then vtarget else dtarget);
        list, i := next, i + 1;
      }
      assert xs[..i] == xs;
    }

    /** `removevalues`. */
    method RemoveValuesOf(head: int, ghost xs: seq<nat>)
      requires IsList(code, head, xs)
      modifies this`code
      ensures code == RemoveValues(old(code), xs)
    {
      ghost var c, i := code, 0;
      var list := head;
      assert RemoveValues(c, []) == c;
      while list != NO_JUMP
        invariant 0 <= i <= |xs| && list == if i < |xs| then xs[i] else NO_JUMP
        invariant code == RemoveValues(c, xs[..i])
        decreases |xs| - i
      {
        RemovedListStep(c, head, xs, i);
        var next := Following(code, list);
        var ok := PatchTestReg(list, NO_REG);
        list, i := next, i + 1;
      }
      assert xs[..i] == xs;
    }

    /** `dischargejpc`. */
    method DischargeJpc()
      requires Valid()
      modifies this
      ensures Valid() && here == [] && |code| == |old(code)|
      ensures G() == Discharge(old(G()))
      ensures waiting == Held() && Steady()
    {
      FixedAbs(code, here, |code|, NO_REG, |code|, waiting);
      FixedKeeps(code, here, |code|, NO_REG, |code|);
      PatchListAux(jpc, |code|, NO_REG, |code|, here);
      waiting := waiting - set p | p in here;
      jpc, here := NO_JUMP, [];
    }

    /** `luaK_code`, for instructions other than jumps. */
    method Code(i: Instr) returns (pc: nat)
      requires Valid() && !i.Jmp? && !i.Goto?
      modifies this
      ensures Valid() && here == [] && pc == |old(code)| == |code| - 1 && code[pc] == i
      ensures G() == Emit(old(G()), i) && Steady()
    {
      DischargeJpc();
      AbsAppends(code, i, waiting);
      pc := |code|;
      code := code + [i];
    }

    /** `condjump`. */
    method CondJump(i: Instr) returns (j: nat)
      requires Valid() && IsTest(i)
      modifies this
      ensures Valid() && here == [] && (G(), j) == LuaGen.CondJump(old(G()), i)
      ensures j == |old(code)| + 1 == |code| - 1 && code[j - 1] == i
      ensures Held() == old(Held()) + {j} && Untouched(old(Held())) && IsList(code, j, [j]) && j !in old(Held())
    {
      var pc := Code(i);
      j := Jump();
      assert [j] + [] == [j] && j - 1 == pc;
    }

    // ----- registers and constants -----

    /** `luaK_reserveregs` for one register. */
    method Reserve()
      modifies this`freereg
      ensures freereg == old(freereg) + 1
    {
      freereg := freereg + 1;
    }

    /** `freereg`, its assertion as a precondition. */
    method FreeReg(r: nat)
      requires r >= nactvar ==> r + 1 == freereg
      modifies this`freereg
      ensures G() == LuaGen.FreeReg(old(G()), r)
    {
      if r >= nactvar {
        freereg := freereg - 1;
      }
    }

    /** `addk`. */
    method AddK(v: Value) returns (i: nat)
      modifies this`ks, this`cache
      ensures (G(), i) == LuaGen.AddK(old(G()), v)
    {
      if v in cache && cache[v] < |ks| && ks[cache[v]] == v {
        return cache[v];
      }
      i := |ks|;
      cache := cache[v := i];
      ks := ks + [v];
    }

    /** `luaK_nil` for one register. */
    method LoadNilAt(reg: nat)
      requires Valid()
      modifies this
      ensures Valid() && Steady() && G() == LuaGen.LoadNilAt(old(G()), reg)
    {
      if |code| > lasttarget {
        var n := |code| - 1;
        var previous := code[n];
        if previous.LoadNil? {
          var from, l := reg, reg;
          var pfrom, pl := previous.a, previous.a + previous.n;
          if (pfrom <= from && from <= pl + 1) || (from <= pfrom && pfrom <= l + 1) {
            if pfrom < from {
              from := pfrom;
            }
            if pl > l {
              l := pl;
            }
            ghost var a := Abs(code, waiting);
            code := code[n := LoadNil(from, l - from)];
            assert Abs(code, waiting) == a[n := LoadNil(from, l - from)];
            return;
          }
        }
      }
      var pc := Code(LoadNil(reg, 0));
    }

    // ----- expressions in registers -----

    /** The lists of `e` are threaded through the code, apart from each other and from the jumps to "here". */
    ghost predicate HoldsLists(e: Expdesc)
      reads this, e
    {
      && IsList(code, e.t, e.ts) && IsList(code, e.f, e.fs) && Disjoint(e.ts, e.fs)
      && (forall p :: p in e.ts ==> p in Held()) && (forall p :: p in e.fs ==> p in Held())
    }

    /** `e` describes an expression of this code. */
    ghost predicate Owns(e: Expdesc)
      reads this, e
    {
      && HoldsLists(e) && nactvar <= freereg
      && (e.k.VLocal? ==> e.k.r < nactvar)
      && (e.k.VNonReloc? ==> e.k.r < nactvar || e.k.r + 1 == freereg)
      && (e.k.VJmp? ==>
            && e.k.pc in Held() && e.k.pc !in e.ts && e.k.pc !in e.fs
            && 0 < e.k.pc < |code| && code[e.k.pc] == Jmp(NO_JUMP) && code[e.k.pc - 1].Cmp?)
      && (e.k.VReloc? ==> e.k.pc == |code| - 1 && code[e.k.pc].NotOp?)
    }

    /** The jumps of other expressions. */
    ghost function Rest(e: Expdesc): set<nat>
      reads this, e
    {
      Held() - Lists(e.E())
    }

    /** The first free register once the register of `e` is freed. */
    function Bottom(e: Expdesc): int
      reads this, e
    {
      if e.k.VNonReloc? && e.k.r >= nactvar then freereg - 1 else freereg
    }

    /** An operation on `e` leaves the jumps of other expressions alone. */
    twostate predicate Local(e: Expdesc)
      reads this, e
    {
      Rest(e) == old(Rest(e)) && Untouched(old(Rest(e)))
    }

    /** A step that disturbs no waiting jump leaves the lists of an expression threaded. */
    twostate lemma {:induction false} StaysHeld(e: Expdesc)
      requires old(HoldsLists(e)) && Steady() && e.t == old(e.t) && e.f == old(e.f) && e.ts == old(e.ts) &&
               e.fs == old(e.fs)
      ensures HoldsLists(e)
    {
      ListKept(old(code), code, e.t, e.ts);
      ListKept(old(code), code, e.f, e.fs);
    }

    /** `luaK_dischargevars`. */
    method DischargeVars(e: Expdesc)
      requires Valid() && Owns(e)
      modifies e`k
      ensures Owns(e) && e.E() == LuaGen.DischargeVars(old(e.E())) && Bottom(e) == old(Bottom(e)) && !e.k.VLocal?
    {
      if e.k.VLocal? {
        e.k := VNonReloc(e.k.r);
      }
    }

    /** `freeexp`. */
    method FreeExp(e: Expdesc)
      requires Owns(e)
      modifies this`freereg
      ensures G() == LuaGen.FreeExp(old(G()), e.E()) && freereg == old(Bottom(e)) && nactvar <= freereg
    {
      if e.k.VNonReloc? {
        FreeReg(e.k.r);
      }
    }

    /** The instruction that `discharge2reg` emits or completes for a kind of value. */
    method Load(k: Kind, reg: nat)
      requires Valid() && !k.VJmp? && !k.VLocal? && (k.VReloc? ==> k.pc < |code| && code[k.pc].NotOp?)
      modifies this
      ensures Valid() && Steady() && freereg == old(freereg) && G() == LuaGen.Discharge2Reg(old(G()), Simple(k), reg).0
    {
      match k {
        case VNil => LoadNilAt(reg);
        case VFalse => var pc := Code(LoadBool(reg, false, false));
        case VTrue => var pc := Code(LoadBool(reg, true, false));
        case VK(i) => var pc := Code(LoadK(reg, i));
        case VKNum(v) =>
          var i := AddK(v);
          var pc := Code(LoadK(reg, i));
        case VReloc(pc) =>
          ghost var a := Abs(code, waiting);
          code := code[pc := NotOp(reg, code[pc].b)];
          assert Abs(code, waiting) == a[pc := NotOp(reg, a[pc].b)];
        case VNonReloc(r) =>
          if reg != r {
            var pc := Code(Move(reg, r));
          }
      }
    }

    /** `discharge2reg`. */
    method Discharge2Reg(e: Expdesc, reg: nat)
      requires Valid() && Owns(e) && (reg < nactvar || reg + 1 == freereg)
      modifies this, e`k
      ensures Valid() && Owns(e) && Steady() && freereg == old(freereg)
      ensures (G(), e.E()) == LuaGen.Discharge2Reg(old(G()), old(e.E()), reg)
      ensures e.k == if old(e.k).VJmp? then old(e.k) else VNonReloc(reg)
    {
      DischargeVars(e);
      if e.k.VJmp? {
        return;
      }
      Load(e.k, reg);
      e.k := VNonReloc(reg);
      StaysHeld(e);
    }

    /** `discharge2anyreg`. */
    method Discharge2AnyReg(e: Expdesc)
      requires Valid() && Owns(e) && !e.k.VJmp? && !e.k.VLocal?
      modifies this, e`k
      ensures Valid() && Owns(e) && Steady() && e.k.VNonReloc? && Bottom(e) == old(Bottom(e))
      ensures (G(), e.E()) == LuaGen.Discharge2AnyReg(old(G()), old(e.E()))
    {
      if !e.k.VNonReloc? {
        Reserve();
        Discharge2Reg(e, freereg - 1);
      }
    }

    // ----- exp2reg -----

    /** `code_loadbool`. */
    method CodeLoadBool(a: nat, b: bool, skip: bool) returns (pc: nat)
      requires Valid()
      modifies this
      ensures Valid() && Steady() && here == [] && pc == |old(code)| == |code| - 1 && freereg == old(freereg)
      ensures G() == Emit(Label(old(G())), LoadBool(a, b, skip))
    {
      GetLabel();
      pc := Code(LoadBool(a, b, skip));
    }

    /** `luaK_patchtohere`. */
    method PatchToHere(head: int, ghost xs: seq<nat>)
      requires Valid() && IsList(code, head, xs) && forall p :: p in xs ==> p in Held()
      modifies this
      ensures Valid() && G() == LuaGen.PatchToHere(old(G()), xs) && freereg == old(freereg) && |code| == |old(code)|
      ensures Held() == old(Held()) - (set p | p in xs) && Untouched(Held())
    {
      GetLabel();
      RelinkedKeeps(code, here, xs);
      RelinkedAbs(code, here, xs, waiting);
      jpc := Concat(jpc, head, here, xs);
      here := here + xs;
    }

    /** `need_value`. */
    method NeedValue(head: int, ghost xs: seq<nat>) returns (need: bool)
      requires IsList(code, head, xs)
      ensures need == LuaGen.NeedValue(Abs(code, waiting), xs)
    {
      ghost var i, a := 0, Abs(code, waiting);
      var list := head;
      while list != NO_JUMP
        invariant 0 <= i <= |xs| && list == if i < |xs| then xs[i] else NO_JUMP
        invariant forall m :: 0 <= m < i ==> 0 < xs[m] && a[xs[m] - 1].TestSet?
        decreases |xs| - i
      {
        ListFollowing(code, head, xs, i);
        var control := if list >= 1 && IsTest(code[list - 1]) then code[list - 1] else code[list];
        if !control.TestSet? {
          assert xs[i] in xs && (xs[i] > 0 ==> a[xs[i] - 1] == AbsAt(code, waiting, xs[i] - 1));
          return true;
        }
        list, i := Following(code, list), i + 1;
      }
      return false;
    }

    /** The two loads of `exp2reg`, behind a jump around them unless the expression is a test. */
    method PadLoads(reg: nat, around: bool) returns (pf: nat, pt: nat)
      requires Valid()
      modifies this
      ensures Valid() && Steady() && freereg == old(freereg) && |code| == pt + 1 && pt == pf + 1
      ensures (G(), pf) == Padding(old(G()), reg, around)
    {
      var fj := NO_JUMP;
      ghost var js: seq<nat> := [];
      if around {
        fj := Jump();
        js := [fj as nat] + old(here);
      }
      label Jumped:
      pf := CodeLoadBool(reg, false, true);
      ListJumps(old@Jumped(code), fj, js);
      ListKept(old@Jumped(code), code, fj, js);
      label First:
      pt := CodeLoadBool(reg, true, false);
      ListKept(old@First(code), code, fj, js);
      PatchToHere(fj, js);
    }

    /** The end of `exp2reg`: both lists are patched, to the final position or to the loads. */
    method PatchBoth(e: Expdesc, reg: nat, pf: int, pt: int)
      requires Valid() && HoldsLists(e)
      requires pf != NO_JUMP || !LuaGen.NeedValue(Abs(code, waiting), e.fs)
      requires pt != NO_JUMP || !LuaGen.NeedValue(Abs(code, waiting), e.ts)
      modifies this
      ensures Valid() && G() == LuaGen.ClosePatch(old(G()), Exp(VNil, e.ts, e.fs), reg, pf, pt) &&
              freereg == old(freereg)
      ensures Held() == old(Held()) - Both(e.ts, e.fs) && Untouched(Held())
    {
      GetLabel();
      var final := |code|;
      hide Patch, Fixed;
      ghost var c, w := code, waiting;
      Controlled(c, w, e.f, e.fs);
      Controlled(c, w, e.t, e.ts);
      PatchWaiting(e.f, final, reg, pf, e.fs, e.t, e.ts);
      PatchWaiting(e.t, final, reg, pt, e.ts, NO_JUMP, []);
    }

    /** `patchlistaux` on a list that waits, with what it means for another list. */
    method PatchWaiting(head: int, final: nat, reg: int, dtarget: int, ghost xs: seq<nat>, ghost other: int,
                        ghost ys: seq<nat>)
      requires Valid() && IsList(code, head, xs) && IsList(code, other, ys) && Disjoint(ys, xs)
      requires forall p :: p in xs ==> p in Held()
      requires dtarget != NO_JUMP || forall m :: 0 <= m < |xs| ==> xs[m] > 0 && code[xs[m] - 1].TestSet?
      modifies this`code, this`waiting
      ensures Valid() && code == Fixed(old(code), xs, final, reg, dtarget) && waiting == old(waiting) - set p | p in xs
      ensures G() == old(G()).(code := Patch(old(G()).code, xs, final, reg, dtarget))
      ensures Held() == old(Held()) - (set p | p in xs) && Untouched(Held())
      ensures IsList(code, other, ys)
      ensures forall m :: 0 <= m < |ys| && ys[m] > 0 && old(code)[ys[m] - 1].TestSet? ==> code[ys[m] - 1].TestSet?
    {
      ListJumps(code, head, xs);
      FixedAbs(code, xs, final, reg, dtarget, waiting);
      FixedKeeps(code, xs, final, reg, dtarget);
      FixedList(code, xs, head, final, reg, dtarget, other, ys);
      FixedList(code, xs, head, final, reg, dtarget, jpc, here);
      PatchListAux(head, final, reg, dtarget, xs);
      waiting := waiting - set p | p in xs;
    }

    /** `exp2reg` once the main value is in `reg` or `e` is a pending test. */
    method CloseJumps(e: Expdesc, reg: nat)
      requires Valid() && Owns(e) && !e.k.VReloc? && (e.k.VJmp? || e.k == VNonReloc(reg))
      modifies this, e
      ensures Valid() && e.E() == Simple(VNonReloc(reg)) && e.t == e.f == NO_JUMP && freereg == old(freereg)
      ensures G() == LuaGen.CloseJumps(old(G()), old(e.E()), reg)
      ensures Held() == old(Rest(e)) && Untouched(Held())
    {
      ClosingIs(G(), e.E(), reg);
      var test := e.k.VJmp?;
      if test {
        AddTest(e);
      }
      CloseLists(e, reg, test);
      e.k, e.t, e.f := VNonReloc(reg), NO_JUMP, NO_JUMP;
      e.ts, e.fs := [], [];
    }

    /** Some jump brings no value: two loads are appended for such jumps. */
    method CloseWithLoads(e: Expdesc, reg: nat, test: bool)
      requires Valid() && HoldsLists(e)
      requires LuaGen.NeedValue(Abs(code, waiting), e.ts) || LuaGen.NeedValue(Abs(code, waiting), e.fs)
      modifies this
      ensures Valid() && freereg == old(freereg) && G() == Closing(old(G()), e.ts, e.fs, reg, test)
      ensures Held() == old(Held()) - Both(e.ts, e.fs) && Untouched(Held())
    {
      var pf, pt := PadLoads(reg, !test);
      StaysHeld(e);
      ClosingPadded(old(G()), e.ts, e.fs, reg, test, G(), pf);
      PatchBoth(e, reg, pf, pt);
    }

    /** The part of `exp2reg` that patches the lists. */
    method CloseLists(e: Expdesc, reg: nat, test: bool)
      requires Valid() && HoldsLists(e)
      modifies this
      ensures Valid() && freereg == old(freereg) && G() == Closing(old(G()), e.ts, e.fs, reg, test)
      ensures Held() == old(Held()) - Both(e.ts, e.fs) && Untouched(Held())
    {
      assert e.ts != [] && e.fs != [] ==> e.ts[0] in e.ts && e.fs[0] in e.fs;
      assert e.HasJumpLists() <==> e.ts != [] || e.fs != [];
      if e.HasJumpLists() {
        var need := NeedValue(e.t, e.ts);
        if !need {
          need := NeedValue(e.f, e.fs);
        }
        if need {
          CloseWithLoads(e, reg, test);
        } else {
          PatchBoth(e, reg, NO_JUMP, NO_JUMP);
        }
      }
    }

    /** The pending test joins the true list. */
    method AddTest(e: Expdesc)
      requires Valid() && Owns(e) && e.k.VJmp?
      modifies this`code, e`t, e`ts
      ensures Valid() && HoldsLists(e) && e.ts == old(e.ts) + [e.k.pc]
      ensures G() == old(G()) && Held() == old(Held()) && Both(e.ts, e.fs) == old(Lists(e.E())) &&
              Untouched(old(Rest(e)))
    {
      assert IsList(code, e.k.pc, [e.k.pc]);
      ListJumps(code, e.t, e.ts);
      RelinkedKeeps(code, e.ts, [e.k.pc]);
      RelinkedAbs(code, e.ts, [e.k.pc], waiting);
      ListKept(code, Relinked(code, e.ts, [e.k.pc]), jpc, here);
      ListKept(code, Relinked(code, e.ts, [e.k.pc]), e.f, e.fs);
      e.t := Concat(e.t, e.k.pc, e.ts, [e.k.pc]);
      e.ts := e.ts + [e.k.pc];
    }

    /** `exp2reg`. */
    method Exp2Reg(e: Expdesc, reg: nat)
      requires Valid() && Owns(e) && (reg < nactvar || reg + 1 == freereg)
      modifies this, e
      ensures Valid() && Owns(e) && Local(e) && freereg == old(freereg) && e.E() == Simple(VNonReloc(reg))
      ensures (G(), e.E()) == LuaGen.Exp2Reg(old(G()), old(e.E()), reg)
    {
      Discharge2Reg(e, reg);
      CloseJumps(e, reg);
    }

    /** The register of `e` is freed, and the first free register reserved. */
    method NextReg(e: Expdesc)
      requires Valid() && Owns(e) && !e.k.VLocal?
      modifies this`freereg
      ensures Valid() && Owns(e) && Rest(e) == old(Rest(e)) && freereg == old(Bottom(e)) + 1 > nactvar
      ensures G() == LuaGen.Reserve(LuaGen.FreeExp(old(G()), e.E()))
    {
      FreeExp(e);
      Reserve();
      StaysHeld(e);
    }

    /** `luaK_exp2nextreg` once variables are discharged. */
    method ToNextReg(e: Expdesc)
      requires Valid() && Owns(e) && !e.k.VLocal?
      modifies this, e
      ensures Valid() && Owns(e) && Local(e) && Bottom(e) == old(Bottom(e)) && freereg > nactvar
      ensures e.E() == Simple(VNonReloc(freereg - 1))
      ensures var h := LuaGen.Reserve(LuaGen.FreeExp(old(G()), old(e.E())));
        (G(), e.E()) == LuaGen.Exp2Reg(h, old(e.E()), h.free - 1)
    {
      hide LuaGen.Exp2Reg;
      NextReg(e);
      Exp2Reg(e, freereg - 1);
    }

    /** `luaK_exp2nextreg`. */
    method Exp2NextReg(e: Expdesc)
      requires Valid() && Owns(e)
      modifies this, e
      ensures Valid() && Owns(e) && Local(e) && Bottom(e) == old(Bottom(e)) && freereg > nactvar
      ensures e.E() == Simple(VNonReloc(freereg - 1)) && (G(), e.E()) == LuaGen.Exp2NextReg(old(G()), old(e.E()))
    {
      hide LuaGen.Exp2Reg;
      DischargeVars(e);
      ToNextReg(e);
    }

    /** `luaK_exp2anyreg`. */
    method Exp2AnyReg(e: Expdesc) returns (r: nat)
      requires Valid() && Owns(e)
      modifies this, e
      ensures Valid() && Owns(e) && Local(e) && Bottom(e) == old(Bottom(e)) && e.E() == Simple(VNonReloc(r))
      ensures (G(), e.E()) == LuaGen.Exp2AnyReg(old(G()), old(e.E()))
    {
      DischargeVars(e);
      if e.k.VNonReloc? {
        NoJumps(e);
        if !e.HasJumpLists() {
          return e.k.r;
        }
        if e.k.r >= nactvar {
          r := e.k.r;
          Exp2Reg(e, r);
          return;
        }
      }
      Exp2NextReg(e);
      return e.k.r;
    }

    lemma {:induction false} NoJumps(e: Expdesc)
      requires HoldsLists(e)
      ensures e.HasJumpLists() <==> HasJumps(e.E())
    {
      assert e.ts != [] && e.fs != [] ==> e.ts[0] in e.ts && e.fs[0] in e.fs;
    }

    /** `luaK_exp2val`. */
    method Exp2Val(e: Expdesc)
      requires Valid() && Owns(e)
      modifies this, e
      ensures Valid() && Owns(e) && Local(e) && Bottom(e) == old(Bottom(e)) && !HasJumps(e.E()) && !e.k.VLocal?
      ensures (G(), e.E()) == LuaGen.Exp2Val(old(G()), old(e.E()))
    {
      NoJumps(e);
      if e.HasJumpLists() {
        var r := Exp2AnyReg(e);
      } else {
        DischargeVars(e);
      }
    }

    /** `luaK_exp2RK`. */
    method Exp2RK(e: Expdesc) returns (o: RK)
      requires Valid() && Owns(e)
      modifies this, e
      ensures Valid() && Owns(e) && Local(e) && Bottom(e) == old(Bottom(e)) && !HasJumps(e.E()) &&
              (e.k.VK? || e.k.VNonReloc?)
      ensures (G(), e.E(), o) == LuaGen.Exp2RK(old(G()), old(e.E()))
    {
      Exp2Val(e);
      ToTable(e);
      if e.k.VK? && e.k.k <= MAXINDEXRK {
        return Con(e.k.k);
      }
      var r := Exp2AnyReg(e);
      return Reg(r);
    }

    /** The switch of `luaK_exp2RK`: constants move to the table. */
    method ToTable(e: Expdesc)
      requires Valid() && Owns(e)
      modifies this`ks, this`cache, e`k
      ensures Valid() && Owns(e) && Bottom(e) == old(Bottom(e)) && Rest(e) == old(Rest(e))
      ensures ConstantOf(e.k).None? && (e.k.VLocal? ==> old(e.k.VLocal?))
      ensures (G(), e.E()) == Tabled(old(G()), old(e.E()))
    {
      var v: Value;
      match e.k {
        case VTrue => v := Bool(true);
        case VFalse => v := Bool(false);
        case VNil => v := Nil;
        case VKNum(n) => v := n;
        case _ => return;
      }
      var i := AddK(v);
      e.k := VK(i);
    }

    // ----- conditions -----

    /** `negatecondition`, its assertion as a precondition. */
    method NegateCondition(e: Expdesc)
      requires Valid() && Owns(e) && e.k.VJmp?
      modifies this`code
      ensures Valid() && Owns(e) && Steady() && G() == old(G()).(code := Negate(old(G()).code, e.k.pc))
    {
      ghost var c := code;
      var i := e.k.pc - 1;
      code := code[i := code[i].(want := !code[i].want)];
      NegatedAbs(c, waiting, e.k.pc);
      StaysHeld(e);
      ListKept(c, code, jpc, here);
    }

    /** `jumponcond`. */
    method JumpOnCond(e: Expdesc, cond: bool) returns (j: nat)
      requires Valid() && Owns(e) && !e.k.VJmp? && !e.k.VLocal?
      modifies this, e`k
      ensures Valid() && HoldsLists(e) && !e.k.VJmp? && freereg == old(Bottom(e)) && nactvar <= freereg
      ensures Held() == old(Held()) + {j} && j !in old(Held()) && Untouched(old(Held())) && IsList(code, j, [j])
      ensures (G(), e.E(), j) == LuaGen.JumpOnCond(old(G()), old(e.E()), cond)
    {
      hide LuaGen.Discharge2AnyReg, LuaGen.CondJump, LuaGen.FreeExp;
      if e.k.VReloc? && code[e.k.pc].NotOp? {
        j := JumpOnNot(e, cond);
      } else {
        Discharge2AnyReg(e);
        j := JumpOnReg(e, cond);
      }
    }

    /** The NOT of `e` is taken back, and what it negates is tested the other way. */
    method JumpOnNot(e: Expdesc, cond: bool) returns (j: nat)
      requires Valid() && Owns(e) && e.k.VReloc? && code[e.k.pc].NotOp?
      modifies this
      ensures Valid() && HoldsLists(e) && freereg == old(freereg) && nactvar <= freereg
      ensures Held() == old(Held()) + {j} && j !in old(Held()) && Untouched(old(Held())) && IsList(code, j, [j])
      ensures var g := old(G());
              (G(), j) == LuaGen.CondJump(g.(code := g.code[..|g.code| - 1]), Test(old(code[e.k.pc].b), !cond))
    {
      var b := code[e.k.pc].b;
      RemoveLast(e);
      j := CondJump(Test(b, !cond));
      ListKept(old(code), code, e.t, e.ts);
      ListKept(old(code), code, e.f, e.fs);
    }

    /** A register is tested. */
    method JumpOnReg(e: Expdesc, cond: bool) returns (j: nat)
      requires Valid() && Owns(e) && e.k.VNonReloc?
      modifies this
      ensures Valid() && HoldsLists(e) && freereg == old(Bottom(e)) && nactvar <= freereg
      ensures Held() == old(Held()) + {j} && j !in old(Held()) && Untouched(old(Held())) && IsList(code, j, [j])
      ensures (G(), j) == LuaGen.CondJump(LuaGen.FreeExp(old(G()), e.E()), TestSet(NO_REG, e.k.r, cond))
    {
      hide LuaGen.FreeExp;
      FreeExp(e);
      j := CondJump(TestSet(NO_REG, e.k.r, cond));
      ListKept(old(code), code, e.t, e.ts);
      ListKept(old(code), code, e.f, e.fs);
    }

    /** The NOT at the end of the code is taken back. */
    method RemoveLast(e: Expdesc)
      requires Valid() && Owns(e) && e.k.VReloc?
      modifies this`code
      ensures Valid() && Steady() && |code| == |old(code)| - 1
      ensures G() == old(G()).(code := old(G()).code[..|code|])
    {
      ghost var c := code;
      code := code[..|code| - 1];
      assert Abs(code, waiting) == Abs(c, waiting)[..|code|];
      ListJumps(c, jpc, here);
      ListKept(c, code, jpc, here);
    }

    /** `exits` leaves with the jumps of `go`; those of `stay` come here. */
    method LeaveAndStay(go: int, ghost gs: seq<nat>, pc: int, ghost js: seq<nat>, stay: int, ghost ss: seq<nat>)
      returns (exits: int)
      requires Valid() && IsList(code, go, gs) && IsList(code, pc, js) && IsList(code, stay, ss)
      requires Disjoint(gs, js) && Disjoint(ss, gs) && Disjoint(ss, js)
      requires forall p :: p in gs || p in js || p in ss ==> p in Held()
      modifies this
      ensures Valid() && IsList(code, exits, gs + js) && freereg == old(freereg)
      ensures G() == LuaGen.PatchToHere(old(G()), ss)
      ensures Held() == old(Held()) - (set p | p in ss) && Untouched(old(Held()) - Both(gs, ss))
    {
      ghost var c := code;
      ListJumps(c, go, gs);
      RelinkedKeeps(c, gs, js);
      RelinkedAbs(c, gs, js, waiting);
      ListKept(c, Relinked(c, gs, js), stay, ss);
      ListKept(c, Relinked(c, gs, js), jpc, here);
      exits := Concat(go, pc, gs, js);
      label Joined:
      PatchToHere(stay, ss);
      ListJumps(old@Joined(code), exits, gs + js);
      ListKept(old@Joined(code), code, exits, gs + js);
    }

    /** The jumps `js` head at `pc`, apart from the lists of `e`, and take nothing else. */
    ghost predicate Leaves(e: Expdesc, pc: int, js: seq<nat>, rest: set<nat>)
      reads this, e
    {
      && Valid() && HoldsLists(e) && nactvar <= freereg && IsList(code, pc, js)
      && Disjoint(e.fs, js) && Disjoint(e.ts, js) && (forall p :: p in js ==> p in Held() && p !in rest)
      && Held() == rest + Both(e.ts, e.fs) + (set p | p in js) && Both(e.ts, e.fs) !! rest &&
         (e.k.VJmp? ==> js == [e.k.pc])
    }

    lemma {:induction false} LeavesNone(e: Expdesc)
      requires Valid() && Owns(e) && !e.k.VJmp?
      ensures Leaves(e, NO_JUMP, [], Rest(e))
    {
    }

    lemma {:induction false} LeavesTest(e: Expdesc)
      requires Valid() && Owns(e) && e.k.VJmp?
      ensures Leaves(e, e.k.pc, [e.k.pc], Rest(e))
    {
    }

    lemma {:induction false} LeavesJump(e: Expdesc, j: nat, held: set<nat>)
      requires Valid() && HoldsLists(e) && nactvar <= freereg && IsList(code, j, [j]) && !e.k.VJmp?
      requires Held() == held + {j} && j !in held && Both(e.ts, e.fs) <= held
      ensures Leaves(e, j, [j], held - Both(e.ts, e.fs))
    {
    }

    /** The switch of `luaK_goiftrue`. */
    method LeaveIfFalse(e: Expdesc) returns (pc: int, ghost js: seq<nat>)
      requires Valid() && Owns(e) && !e.k.VLocal?
      modifies this, e`k
      ensures Leaves(e, pc, js, old(Rest(e))) && freereg == old(Bottom(e)) && Untouched(old(Rest(e)))
      ensures (G(), e.E(), js) == LuaGen.LeaveIfFalse(old(G()), old(e.E()))
    {
      hide LuaGen.JumpOnCond;
      if e.k.VJmp? {
        NegateCondition(e);
        pc, js := e.k.pc, [e.k.pc];
        LeavesTest(e);
      } else if e.k.VK? || e.k.VKNum? || e.k.VTrue? {
        pc, js := NO_JUMP, [];
        LeavesNone(e);
      } else {
        var j := JumpOnCond(e, false);
        pc, js := j, [j];
        LeavesJump(e, j, old(Held()));
      }
    }

    /** The switch of `luaK_goiffalse`. */
    method LeaveIfTrue(e: Expdesc) returns (pc: int, ghost js: seq<nat>)
      requires Valid() && Owns(e) && !e.k.VLocal?
      modifies this, e`k
      ensures Leaves(e, pc, js, old(Rest(e))) && freereg == old(Bottom(e)) && Untouched(old(Rest(e)))
      ensures (G(), e.E(), js) == LuaGen.LeaveIfTrue(old(G()), old(e.E()))
    {
      hide LuaGen.JumpOnCond;
      if e.k.VJmp? {
        pc, js := e.k.pc, [e.k.pc];
        LeavesTest(e);
      } else if e.k.VNil? || e.k.VFalse? {
        pc, js := NO_JUMP, [];
        LeavesNone(e);
      } else {
        var j := JumpOnCond(e, true);
        pc, js := j, [j];
        LeavesJump(e, j, old(Held()));
      }
    }

    /** The end of `luaK_goiftrue`: the new jumps join the false list, the true list comes here. */
    method GoOnIfTrue(e: Expdesc, pc: int, ghost js: seq<nat>, ghost rest: set<nat>)
      requires Leaves(e, pc, js, rest)
      modifies this, e
      ensures Valid() && HoldsLists(e) && freereg == old(freereg) && nactvar <= freereg && Rest(e) == rest &&
              Untouched(rest)
      ensures Lists(e.E()) == Both(e.ts, e.fs)
      ensures G() == LuaGen.PatchToHere(old(G()), old(e.ts)) && e.E() == old(e.E()).(t := [], f := old(e.fs) + js)
    {
      hide LuaGen.PatchToHere;
      LeftToOthers(Held(), rest, e.ts, e.fs, js, e.k);
      e.f := LeaveAndStay(e.f, e.fs, pc, js, e.t, e.ts);
      e.fs, e.t, e.ts := e.fs + js, NO_JUMP, [];
    }

    /** The end of `luaK_goiffalse`: the new jumps join the true list, the false list comes here. */
    method GoOnIfFalse(e: Expdesc, pc: int, ghost js: seq<nat>, ghost rest: set<nat>)
      requires Leaves(e, pc, js, rest)
      modifies this, e
      ensures Valid() && HoldsLists(e) && freereg == old(freereg) && nactvar <= freereg && Rest(e) == rest &&
              Untouched(rest)
      ensures Lists(e.E()) == Both(e.ts, e.fs)
      ensures G() == LuaGen.PatchToHere(old(G()), old(e.fs)) && e.E() == old(e.E()).(f := [], t := old(e.ts) + js)
    {
      hide LuaGen.PatchToHere;
      LeftToOthers(Held(), rest, e.ts, e.fs, js, e.k);
      e.t := LeaveAndStay(e.t, e.ts, pc, js, e.f, e.fs);
      e.ts, e.f, e.fs := e.ts + js, NO_JUMP, [];
    }

    /** `luaK_goiftrue`. */
    method GoIfTrue(e: Expdesc)
      requires Valid() && Owns(e)
      modifies this, e
      ensures Valid() && HoldsLists(e) && e.ts == [] && freereg == old(Bottom(e)) && nactvar <= freereg && Local(e)
      ensures Lists(e.E()) == Both(e.ts, e.fs)
      ensures (G(), e.E()) == LuaGen.GoIfTrue(old(G()), old(e.E()))
    {
      DischargeVars(e);
      ghost var js;
      var pc;
      pc, js := LeaveIfFalse(e);
      GoIfTrueGives(old(G()), old(e.E()), G(), e.E(), js);
      GoOnIfTrue(e, pc, js, old(Rest(e)));
    }

    /** `luaK_goiffalse`. */
    method GoIfFalse(e: Expdesc)
      requires Valid() && Owns(e)
      modifies this, e
      ensures Valid() && HoldsLists(e) && e.fs == [] && freereg == old(Bottom(e)) && nactvar <= freereg && Local(e)
      ensures Lists(e.E()) == Both(e.ts, e.fs)
      ensures (G(), e.E()) == LuaGen.GoIfFalse(old(G()), old(e.E()))
    {
      DischargeVars(e);
      ghost var js;
      var pc;
      pc, js := LeaveIfTrue(e);
      GoIfFalseGives(old(G()), old(e.E()), G(), e.E(), js);
      GoOnIfFalse(e, pc, js, old(Rest(e)));
    }

    /** `codenot`. */
    method CodeNot(e: Expdesc)
      requires Valid() && Owns(e)
      modifies this, e
      ensures Valid() && Owns(e) && Local(e) && Bottom(e) == old(Bottom(e))
      ensures (G(), e.E()) == LuaGen.CodeNot(old(G()), old(e.E()))
    {
      DischargeVars(e);
      NegateMain(e);
      SwapLists(e);
      StripValues(e);
    }

    /** The true and the false list exchanged. */
    method SwapLists(e: Expdesc)
      requires Owns(e)
      modifies e`t, e`f, e`ts, e`fs
      ensures Owns(e) && e.E() == Exp(old(e.k), old(e.fs), old(e.ts)) && Rest(e) == old(Rest(e)) &&
              Bottom(e) == old(Bottom(e))
    {
      e.f, e.t := e.t, e.f;
      e.fs, e.ts := e.ts, e.fs;
    }

    /** The switch of `codenot`. */
    method NegateMain(e: Expdesc)
      requires Valid() && Owns(e) && !e.k.VLocal?
      modifies this, e`k
      ensures Valid() && Owns(e) && Local(e) && Bottom(e) == old(Bottom(e))
      ensures (G(), e.k) == LuaGen.NegatedMain(old(G()), old(e.E()))
    {
      match e.k {
        case VNil => e.k := VTrue;
        case VFalse => e.k := VTrue;
        case VK(_) => e.k := VFalse;
        case VKNum(_) => e.k := VFalse;
        case VTrue => e.k := VFalse;
        case VJmp(_) => NegateCondition(e);
        case VReloc(_) => NegateValue(e);
        case VNonReloc(_) => NegateValue(e);
        case VLocal(_) => assert false;
      }
    }

    /** A value is negated by a NOT without destination. */
    method NegateValue(e: Expdesc)
      requires Valid() && Owns(e) && (e.k.VReloc? || e.k.VNonReloc?)
      modifies this, e`k
      ensures Valid() && Owns(e) && Steady() && e.k.VReloc? && Bottom(e) == old(Bottom(e))
      ensures (G(), e.k) == LuaGen.NegatedMain(old(G()), old(e.E()))
    {
      hide LuaGen.Discharge2AnyReg, LuaGen.FreeExp, Emit;
      Discharge2AnyReg(e);
      EmitNot(e);
    }

    /** The NOT of a register. */
    method EmitNot(e: Expdesc)
      requires Valid() && Owns(e) && e.k.VNonReloc?
      modifies this, e`k
      ensures Valid() && Owns(e) && Steady() && e.k.VReloc? && Bottom(e) == old(Bottom(e))
      ensures var g := LuaGen.FreeExp(old(G()), old(e.E()));
              G() == Emit(g, NotOp(0, old(e.k.r))) && e.k == VReloc(|g.code|)
    {
      FreeExp(e);
      hide Emit;
      var pc := Code(NotOp(0, e.k.r));
      e.k := VReloc(pc);
      StaysHeld(e);
    }

    /** The end of `codenot`: values are useless when negated. */
    method StripValues(e: Expdesc)
      requires Valid() && Owns(e)
      modifies this`code
      ensures Valid() && Owns(e) && Steady()
      ensures G() == old(G()).(code := RemoveValues(RemoveValues(old(G()).code, e.fs), e.ts))
    {
      RemoveAbs(code, e.fs, waiting);
      RemoveAbs(RemoveValues(code, e.fs), e.ts, waiting);
      RemovedKeeps(code, e.fs);
      RemovedKeeps(RemoveValues(code, e.fs), e.ts);
      ListKept(code, RemoveValues(code, e.fs), e.t, e.ts);
      RemoveValuesOf(e.f, e.fs);
      RemoveValuesOf(e.t, e.ts);
      ListKept(old(code), code, jpc, here);
      StaysHeld(e);
    }

    // ----- comparisons -----

    /** `freeexps`: the higher register first. */
    method FreeExps(e1: Expdesc, e2: Expdesc)
      requires Owns(e2) && (e1.k.VNonReloc? ==> e1.k.r < nactvar || e1.k.r + 1 == Bottom(e2))
      modifies this`freereg
      ensures G() == LuaGen.FreeExps(old(G()), e1.E(), e2.E())
      ensures freereg == if e1.k.VNonReloc? && e1.k.r >= nactvar then old(Bottom(e2)) - 1 else old(Bottom(e2))
    {
      var r1: int := if e1.k.VNonReloc? then e1.k.r else -1;
      var r2: int := if e2.k.VNonReloc? then e2.k.r else -1;
      if r1 > r2 {
        FreeReg(r1);
        if r2 >= 0 {
          FreeReg(r2);
        }
      } else {
        if r2 >= 0 {
          FreeReg(r2);
        }
        if r1 >= 0 {
          FreeReg(r1);
        }
      }
    }

    /** An operand that `luaK_infix` has put into a register or the table of constants, below the registers of `e2`. */
    ghost predicate Operand(e1: Expdesc, e2: Expdesc)
      reads this, e1, e2
    {
      && e1.E() == Simple(e1.k) && e1.t == e1.f == NO_JUMP && (e1.k.VK? || e1.k.VNonReloc?)
      && (e1.k.VNonReloc? ==> e1.k.r < nactvar || (e1.k.r >= nactvar && e1.k.r + 1 == Bottom(e2)))
    }

    /** The first free register once the registers of both operands are freed. */
    function Under(e1: Expdesc, e2: Expdesc): int
      reads this, e1, e2
    {
      if e1.k.VNonReloc? && e1.k.r >= nactvar then Bottom(e2) - 1 else Bottom(e2)
    }

    /** `codecomp`. */
    method CodeComp(op: Op, e1: Expdesc, e2: Expdesc)
      requires Valid() && Owns(e2) && e1 != e2 && Operand(e1, e2) && nactvar <= Bottom(e2)
      modifies this, e1`k, e2
      ensures Valid() && Owns(e1) && Rest(e1) == old(Rest(e2)) && Untouched(old(Rest(e2))) && e1.k.VJmp?
      ensures freereg == old(Under(e1, e2)) && (G(), e1.E()) == LuaGen.CodeComp(old(G()), op, old(e1.E()), old(e2.E()))
    {
      var rk2 := Exp2RK(e2);
      CodeTest(op, e1, e2, rk2, old(G()), old(e2.E()));
    }

    /** The test of `codecomp`, the second operand in place. */
    method CodeTest(op: Op, e1: Expdesc, e2: Expdesc, rk2: RK, ghost g: Gen, ghost second: Exp)
      requires Valid() && Owns(e2) && e1 != e2 && Operand(e1, e2) && nactvar <= Bottom(e2) && !HasJumps(e2.E()) &&
               !e2.k.VJmp?
      requires (G(), e2.E(), rk2) == LuaGen.Exp2RK(g, second)
      modifies this, e1`k
      ensures Valid() && Owns(e1) && Rest(e1) == old(Rest(e2)) && Untouched(old(Rest(e2))) && e1.k.VJmp?
      ensures freereg == old(Under(e1, e2)) && (G(), e1.E()) == LuaGen.CodeComp(g, op, old(e1.E()), second)
    {
      hide LuaGen.Exp2RK, LuaGen.CodeComp, LuaGen.CondJump, LuaGen.FreeExps;
      var rk1 := if e1.k.VK? then Con(e1.k.k) else Reg(e1.k.r);
      TestOperands(Comparison(op, rk1, rk2), e1, e2);
      CodeCompGives(g, op, old(e1.E()), second, rk1, old(G()), e2.E(), rk2, G());
    }

    /** The test of a comparison, its operands freed. */
    method TestOperands(i: Instr, e1: Expdesc, e2: Expdesc)
      requires Valid() && Owns(e2) && e1 != e2 && Operand(e1, e2) && nactvar <= Bottom(e2) && i.Cmp? &&
               !HasJumps(e2.E()) && !e2.k.VJmp?
      modifies this, e1`k
      ensures Valid() && Owns(e1) && Rest(e1) == old(Rest(e2)) && Untouched(old(Rest(e2))) && e1.k.VJmp?
      ensures freereg == old(Under(e1, e2))
      ensures G() == LuaGen.CondJump(LuaGen.FreeExps(old(G()), old(e1.E()), e2.E()), i).0
      ensures e1.E() == old(e1.E()).(k := VJmp(|old(code)| + 1))
    {
      assert Lists(e2.E()) == {};
      FreeExps(e1, e2);
      var j := CondJump(i);
      e1.k := VJmp(j);
      ListsOfNone(e1);
    }

    lemma {:induction false} ListsOfNone(e: Expdesc)
      requires e.k.VJmp? && e.ts == [] && e.fs == [] && e.t == e.f == NO_JUMP
      ensures HoldsLists(e) && Lists(e.E()) == {e.k.pc}
    {
    }

    // ----- operators and whole expressions -----

    /** `luaK_infix`. */
    method Infix(op: BinOpr, e: Expdesc)
      requires Valid() && Owns(e)
      modifies this, e
      ensures Valid() && HoldsLists(e) && Local(e) && nactvar <= freereg &&
              (G(), e.E()) == InfixOf(old(G()), op, old(e.E()))
      ensures Held() == old(Rest(e)) + Both(e.ts, e.fs) && Both(e.ts, e.fs) !! old(Rest(e))
      ensures op.OprAnd? ==> e.ts == [] && freereg == old(Bottom(e))
      ensures op.OprOr? ==> e.fs == [] && freereg == old(Bottom(e))
      ensures op.OprComp? ==> Owns(e) && Bottom(e) == old(Bottom(e)) && !HasJumps(e.E()) && (e.k.VK? || e.k.VNonReloc?)
    {
      match op
      case OprAnd => GoIfTrue(e);
      case OprOr => GoIfFalse(e);
      case OprComp(_) => var o := Exp2RK(e);
    }

    /** What holds of the first operand when both have been read. */
    ghost predicate Between(op: BinOpr, e1: Expdesc, e2: Expdesc)
      reads this, e1, e2
    {
      && HoldsLists(e1) && Owns(e2) && nactvar <= Bottom(e2) && Both(e1.ts, e1.fs) <= Rest(e2)
      && (op.OprAnd? ==> e1.ts == []) && (op.OprOr? ==> e1.fs == []) && (op.OprComp? ==> Operand(e1, e2))
    }

    /** `luaK_posfix`. */
    method Posfix(op: BinOpr, e1: Expdesc, e2: Expdesc)
      requires Valid() && Between(op, e1, e2) && e1 != e2
      modifies this, e1, e2
      ensures Valid() && Owns(e1) && Rest(e1) == old(Rest(e2) - Both(e1.ts, e1.fs)) &&
              Untouched(old(Rest(e2) - Both(e1.ts, e1.fs)))
      ensures Bottom(e1) == if op.OprComp? then old(Under(e1, e2)) else old(Bottom(e2))
      ensures (G(), e1.E()) == PosfixOf(old(G()), op, old(e1.E()), old(e2.E()))
    {
      match op {
        case OprAnd =>
          DischargeVars(e2);
          AppendFalse(e2, e1);
        case OprOr =>
          DischargeVars(e2);
          AppendTrue(e2, e1);
        case OprComp(c) => CodeComp(c, e1, e2);
      }
    }

    /** The jumps out of the first operand of `and` join the false list of the second. */
    method AppendFalse(e2: Expdesc, e1: Expdesc)
      requires Valid() && HoldsLists(e1) && Owns(e2) && !e2.k.VLocal? && Both(e1.ts, e1.fs) <= Rest(e2) && e1 != e2 &&
               e1.ts == []
      modifies this`code, e1, e2
      ensures Valid() && Owns(e1) && Rest(e1) == old(Rest(e2) - Both(e1.ts, e1.fs)) &&
              Untouched(old(Rest(e2) - Both(e1.ts, e1.fs)))
      ensures G() == old(G()) && Bottom(e1) == old(Bottom(e2)) && e1.E() == old(e2.E()).(f := old(e2.fs) + old(e1.fs))
    {
      JoinFalse(e2, e1);
      TakeOver(e1, e2);
    }

    /** The jumps of one false list are appended to those of another. */
    method JoinFalse(e2: Expdesc, e1: Expdesc)
      requires Valid() && HoldsLists(e1) && Owns(e2) && Both(e1.ts, e1.fs) <= Rest(e2) && e1 != e2 && e1.ts == []
      modifies this`code, e2`f, e2`fs
      ensures Valid() && Owns(e2) && Rest(e2) == old(Rest(e2) - Both(e1.ts, e1.fs)) &&
              Untouched(old(Rest(e2) - Both(e1.ts, e1.fs)))
      ensures G() == old(G()) && e2.E() == old(e2.E()).(f := old(e2.fs) + old(e1.fs))
    {
      Apart(e1, e2);
      LeftAfterJoining(Held(), e2.E(), e1.ts, e1.fs);
      Relinks(e2.fs, e1.fs, e2.t, e2.ts);
      e2.f := Concat(e2.f, e1.f, e2.fs, e1.fs);
      e2.fs := e2.fs + e1.fs;
    }

    /** The jumps of one true list are appended to those of another. */
    method JoinTrue(e2: Expdesc, e1: Expdesc)
      requires Valid() && HoldsLists(e1) && Owns(e2) && Both(e1.ts, e1.fs) <= Rest(e2) && e1 != e2 && e1.fs == []
      modifies this`code, e2`t, e2`ts
      ensures Valid() && Owns(e2) && Rest(e2) == old(Rest(e2) - Both(e1.ts, e1.fs)) &&
              Untouched(old(Rest(e2) - Both(e1.ts, e1.fs)))
      ensures G() == old(G()) && e2.E() == old(e2.E()).(t := old(e2.ts) + old(e1.ts))
    {
      Apart(e1, e2);
      LeftAfterJoining(Held(), e2.E(), e1.ts, e1.fs);
      Relinks(e2.ts, e1.ts, e2.f, e2.fs);
      e2.t := Concat(e2.t, e1.t, e2.ts, e1.ts);
      e2.ts := e2.ts + e1.ts;
    }

    /** `*e1 = *e2`. */
    method TakeOver(e1: Expdesc, e2: Expdesc)
      requires Owns(e2) && e1 != e2
      modifies e1
      ensures Owns(e1) && e1.E() == e2.E() && Rest(e1) == Rest(e2) && Bottom(e1) == Bottom(e2)
    {
      e1.k, e1.t, e1.f, e1.ts, e1.fs := e2.k, e2.t, e2.f, e2.ts, e2.fs;
    }

    /** The jumps out of the first operand of `or` join the true list of the second. */
    method AppendTrue(e2: Expdesc, e1: Expdesc)
      requires Valid() && HoldsLists(e1) && Owns(e2) && !e2.k.VLocal? && Both(e1.ts, e1.fs) <= Rest(e2) && e1 != e2 &&
               e1.fs == []
      modifies this`code, e1, e2
      ensures Valid() && Owns(e1) && Rest(e1) == old(Rest(e2) - Both(e1.ts, e1.fs)) &&
              Untouched(old(Rest(e2) - Both(e1.ts, e1.fs)))
      ensures G() == old(G()) && Bottom(e1) == old(Bottom(e2)) && e1.E() == old(e2.E()).(t := old(e2.ts) + old(e1.ts))
    {
      JoinTrue(e2, e1);
      TakeOver(e1, e2);
    }

    lemma {:induction false} Apart(e1: Expdesc, e2: Expdesc)
      requires HoldsLists(e2) && Both(e1.ts, e1.fs) <= Rest(e2)
      ensures forall p :: p in e1.ts || p in e1.fs ==>
        p in Held() && p !in e2.ts && p !in e2.fs && (e2.k.VJmp? ==> p != e2.k.pc)
    {
      forall p | p in e1.ts || p in e1.fs
        ensures p in Held() && p !in e2.ts && p !in e2.fs && (e2.k.VJmp? ==> p != e2.k.pc)
      {
        assert p in Both(e1.ts, e1.fs);
      }
    }

    /** Relinking a list that waits disturbs nothing else. */
    lemma {:induction false} Relinks(xs: seq<nat>, ys: seq<nat>, other: int, os: seq<nat>)
      requires Valid() && (forall p :: p in xs ==> p in Held()) && IsList(code, other, os) && Disjoint(xs, os)
      ensures Abs(Relinked(code, xs, ys), waiting) == Abs(code, waiting)
      ensures forall p :: 0 <= p < |code| && p !in xs ==> Relinked(code, xs, ys)[p] == code[p]
      ensures forall p :: 0 <= p < |code| ==>
        (Relinked(code, xs, ys)[p].Jmp? <==> code[p].Jmp?) && (Relinked(code, xs, ys)[p].Goto? <==> code[p].Goto?)
      ensures IsList(Relinked(code, xs, ys), jpc, here) && IsList(Relinked(code, xs, ys), other, os)
    {
      RelinkedKeeps(code, xs, ys);
      RelinkedAbs(code, xs, ys, waiting);
      ListJumps(code, jpc, here);
      ListJumps(code, other, os);
      ListKept(code, Relinked(code, xs, ys), jpc, here);
      ListKept(code, Relinked(code, xs, ys), other, os);
    }

    /** An operand, as the parser initializes it. */
    method Operand0(e: Expdesc, kind: Kind)
      requires Valid() && nactvar <= freereg &&
               (kind.VNil? || kind.VTrue? || kind.VFalse? || kind.VK? || kind.VKNum? ||
                (kind.VLocal? && kind.r < nactvar))
      modifies e
      ensures Owns(e) && e.E() == Simple(kind) && Bottom(e) == freereg && Rest(e) == Held()
    {
      e.k, e.t, e.f := kind, NO_JUMP, NO_JUMP;
      e.ts, e.fs := [], [];
    }

    /** A literal. */
    method Literal(v: Value, e: Expdesc)
      requires Valid() && nactvar <= freereg
      modifies this`ks, this`cache, e
      ensures Valid() && Owns(e) && Bottom(e) == freereg && Rest(e) == Held() == old(Held())
      ensures (G(), e.E()) == LuaGen.Literal(old(G()), v)
    {
      match v
      case Nil => Operand0(e, VNil);
      case Bool(b) => Operand0(e, if b then VTrue else VFalse);
      case Int(_) => Operand0(e, VKNum(v));
      case Flt(_) => Operand0(e, VKNum(v));
      case Str(_) =>
        var i := AddK(v);
        Operand0(e, VK(i));
    }

    /** The calls a parser makes for an expression. */
    method Expression(x: Expr, e: Expdesc)
      requires Valid() && LocalsBelow(x, nactvar) && nactvar <= freereg
      modifies this, e
      ensures Valid() && Owns(e) && Bottom(e) == old(freereg) && Rest(e) == old(Held()) && Untouched(old(Held()))
      ensures (G(), e.E()) == Compile(old(G()), x)
      decreases x, 1
    {
      match x
      case Local(r) => Operand0(e, VLocal(r));
      case Lit(v) => Literal(v, e);
      case Not(y) =>
        Expression(y, e);
        CodeNot(e);
      case And(l, r) => BinaryExpression(OprAnd, l, r, e);
      case Or(l, r) => BinaryExpression(OprOr, l, r, e);
      case Compare(c, l, r) => BinaryExpression(OprComp(c), l, r, e);
    }

    method BinaryExpression(op: BinOpr, l: Expr, r: Expr, e: Expdesc)
      requires Valid() && LocalsBelow(l, nactvar) && LocalsBelow(r, nactvar) && nactvar <= freereg
      modifies this, e
      ensures Valid() && Owns(e) && Bottom(e) == old(freereg) && Rest(e) == old(Held()) && Untouched(old(Held()))
      ensures (G(), e.E()) == Compile(old(G()), Binary(op, l, r))
      decreases Binary(op, l, r), 0
    {
      hide InfixOf, PosfixOf, Compile, HasJumps, LocalsBelow, Valid, Owns, HoldsLists, Bottom, G;
      ghost var g, rest := G(), Held();
      FirstOperand(op, l, e);
      ghost var g2, e2 := G(), e.E();
      SecondOperand(op, r, e, rest);
      assert Untouched(rest);
      CompileBinaryGives(g, op, l, r, g2, e2, G(), e.E());
    }

    /** The first operand is read. */
    method FirstOperand(op: BinOpr, l: Expr, e: Expdesc)
      requires Valid() && LocalsBelow(l, nactvar) && nactvar <= freereg
      modifies this, e
      ensures Valid() && HoldsLists(e) && nactvar <= freereg && Untouched(old(Held()))
      ensures Held() == old(Held()) + Both(e.ts, e.fs) && Both(e.ts, e.fs) !! old(Held())
      ensures op.OprAnd? ==> e.ts == [] && freereg == old(freereg)
      ensures op.OprOr? ==> e.fs == [] && freereg == old(freereg)
      ensures op.OprComp? ==> Owns(e) && Bottom(e) == old(freereg) && !HasJumps(e.E()) && (e.k.VK? || e.k.VNonReloc?)
      ensures var (g1, e1) := Compile(old(G()), l); (G(), e.E()) == InfixOf(g1, op, e1)
      decreases l, 2
    {
      Expression(l, e);
      Infix(op, e);
    }

    /** The second operand is read and joined with the first. */
    method SecondOperand(op: BinOpr, r: Expr, e: Expdesc, ghost rest: set<nat>)
      requires Valid() && HoldsLists(e) && LocalsBelow(r, nactvar) && nactvar <= freereg
      requires Held() == rest + Both(e.ts, e.fs) && Both(e.ts, e.fs) !! rest
      requires (op.OprAnd? ==> e.ts == []) && (op.OprOr? ==> e.fs == [])
      requires op.OprComp? ==> Owns(e) && !HasJumps(e.E()) && (e.k.VK? || e.k.VNonReloc?)
      modifies this, e
      ensures Valid() && Owns(e) && Bottom(e) == (if op.OprComp? then old(Bottom(e)) else old(freereg))
      ensures Rest(e) == rest && Untouched(rest)
      ensures var (g3, e3) := Compile(old(G()), r); (G(), e.E()) == PosfixOf(g3, op, old(e.E()), e3)
      decreases r, 2
    {
      var second := new Expdesc(VNil);
      label Read:
      Expression(r, second);
      ListsKept@Read(e);
      Posfix(op, e, second);
    }

    twostate lemma {:induction false} ListsKept(e: Expdesc)
      requires old(HoldsLists(e)) && Untouched(old(Held())) && old(Held()) <= Held()
      requires e.t == old(e.t) && e.f == old(e.f) && e.ts == old(e.ts) && e.fs == old(e.fs)
      ensures HoldsLists(e)
    {
      ListKept(old(code), code, e.t, e.ts);
      ListKept(old(code), code, e.f, e.fs);
    }
  }

  /** The function that evaluates an expression over `nact` locals; `scanner` is what other functions have left in the
      scanner's table of constants. Its stored code, run from the first instruction to the last, computes the
      expression. */
  method CompileExpression(x: Expr, nact: nat, scanner: map<Value, nat>) returns (code: seq<Instr>, ks: seq<Value>)
    requires LocalsBelow(x, nact)
    ensures forall w: World, regs: Regs :: ks <= w.ks ==> Computes(code, nact, x, w, regs)
  {
    var fs := new FuncState(nact, scanner);
    var e := new Expdesc(VNil);
    fs.Expression(x, e);
    fs.Exp2NextReg(e);
    fs.DischargeJpc();
    code, ks := fs.code, fs.ks;
    assert fs.G() == FunctionOf(x, nact, scanner);
    forall w: World, regs: Regs | ks <= w.ks ensures Computes(code, nact, x, w, regs) {
      FunctionOfExpression(x, nact, scanner, w, regs);
      NothingWaits(code, fs.waiting);
      AbsRuns(code, w, 0, regs);
    }
  }
}
