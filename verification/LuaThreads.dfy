/** Jump lists threaded through the code, and the code they stand for. */
module LuaThreads {
  import opened Basics
  import opened LuaMachine
  import opened LuaGen
  import opened LuaRuns

  const NO_JUMP: int := -1

  /** Jump offsets are relative to the next instruction. */
  function Offset(pc: nat, dest: int): int {
    dest - (pc + 1)
  }

  /** The offset in the `i`-th jump of a list: to the next jump, or to the jump itself at the end. */
  function Link(xs: seq<nat>, i: nat): int
    requires i < |xs|
  {
    if i + 1 < |xs| then Offset(xs[i], xs[i + 1]) else NO_JUMP
  }

  /** The jumps `xs`, each holding the offset of the next, start at `head`. */
  ghost predicate IsList(c: seq<Instr>, head: int, xs: seq<nat>) {
    && Distinct(xs)
    && head == (if xs == [] then NO_JUMP else xs[0])
    && (forall i :: 0 <= i < |xs| ==> xs[i] < |c|)
    && (forall i {:trigger c[xs[i]]} :: 0 <= i < |xs| ==> c[xs[i]] == Jmp(Link(xs, i)))
  }

  ghost predicate Disjoint(xs: seq<nat>, ys: seq<nat>) {
    forall p :: p in xs ==> p !in ys
  }

  lemma {:induction false} ListJumps(c: seq<Instr>, head: int, xs: seq<nat>)
    requires IsList(c, head, xs)
    ensures forall p :: p in xs ==> p < |c| && c[p].Jmp?
  {
    forall p | p in xs ensures p < |c| && c[p].Jmp? {
      var i :| 0 <= i < |xs| && xs[i] == p;
      assert c[xs[i]].Jmp?;
    }
  }

  /** A list depends on its jumps alone. */
  lemma {:induction false} ListKept(c: seq<Instr>, c': seq<Instr>, head: int, xs: seq<nat>)
    requires IsList(c, head, xs) && forall p :: p in xs ==> p < |c| && p < |c'| && c'[p] == c[p]
    ensures IsList(c', head, xs)
  {
    forall i | 0 <= i < |xs| ensures xs[i] < |c'| && c'[xs[i]] == Jmp(Link(xs, i)) {
      assert xs[i] in xs && c[xs[i]] == Jmp(Link(xs, i));
    }
  }

  /** `getjump`: the next jump of a list. */
  function Following(c: seq<Instr>, pc: nat): (next: int)
    requires pc < |c| && c[pc].Jmp?
  {
    if c[pc].sbx == NO_JUMP then NO_JUMP else pc + 1 + c[pc].sbx
  }

  lemma {:induction false} ListFollowing(c: seq<Instr>, head: int, xs: seq<nat>, i: nat)
    requires IsList(c, head, xs) && i < |xs|
    ensures xs[i] < |c| && c[xs[i]].Jmp?
    ensures Following(c, xs[i]) == if i + 1 < |xs| then xs[i + 1] else NO_JUMP
  {
    assert c[xs[i]] == Jmp(Link(xs, i));
    assert i + 1 < |xs| ==> xs[i] != xs[i + 1];
  }

  // ----- concatenating lists -----

  /** The code after the last jump of `xs` has been made to hold the offset of `ys[0]`. */
  function Relinked(c: seq<Instr>, xs: seq<nat>, ys: seq<nat>): (c': seq<Instr>)
    ensures |c'| == |c|
  {
    if xs == [] || ys == [] || xs[|xs| - 1] >= |c| then c
    else c[xs[|xs| - 1] := Jmp(Offset(xs[|xs| - 1], ys[0]))]
  }

  lemma {:induction false} RelinkedIsList(c: seq<Instr>, l1: int, xs: seq<nat>, l2: int, ys: seq<nat>)
    requires IsList(c, l1, xs) && IsList(c, l2, ys) && Disjoint(xs, ys)
    ensures IsList(Relinked(c, xs, ys), if xs == [] then l2 else l1, xs + ys)
  {
    var c', zs := Relinked(c, xs, ys), xs + ys;
    ListJumps(c, l1, xs);
    ListJumps(c, l2, ys);
    if xs == [] {
      assert zs == ys;
    } else if ys == [] {
      assert zs == xs;
    } else {
      forall i, j | 0 <= i < j < |zs| ensures zs[i] != zs[j] {
        if i < |xs| <= j {
          assert xs[i] in xs && ys[j - |xs|] in ys;
        }
      }
      forall i | 0 <= i < |zs| ensures zs[i] < |c'| && c'[zs[i]] == Jmp(Link(zs, i)) {
        if i < |xs| {
          assert zs[i] == xs[i];
        } else {
          assert zs[i] == ys[i - |xs|] && ys[i - |xs|] in ys && xs[|xs| - 1] in xs;
        }
      }
    }
  }

  lemma {:induction false} RelinkedKeeps(c: seq<Instr>, xs: seq<nat>, ys: seq<nat>)
    requires forall p :: p in xs ==> p < |c| && c[p].Jmp?
    ensures forall p :: 0 <= p < |c| && p !in xs ==> Relinked(c, xs, ys)[p] == c[p]
    ensures forall p :: 0 <= p < |c| ==>
            (Relinked(c, xs, ys)[p].Jmp? <==> c[p].Jmp?) && (Relinked(c, xs, ys)[p].Goto? <==> c[p].Goto?)
  {
    if xs != [] && ys != [] {
      assert xs[|xs| - 1] in xs;
    }
  }

  // ----- the code the lists stand for -----

  function AbsAt(c: seq<Instr>, waiting: set<nat>, j: nat): Instr
    requires j < |c|
  {
    if c[j].Jmp? then Goto(if j in waiting then PENDING else j + 1 + c[j].sbx) else c[j]
  }

  /** The code with the destinations of its jumps worked out, and the jumps of `waiting` still pending. */
  function Abs(c: seq<Instr>, waiting: set<nat>): (a: seq<Instr>)
    ensures |a| == |c|
  {
    seq(|c|, j requires 0 <= j < |c| => AbsAt(c, waiting, j))
  }

  lemma {:induction false} RelinkedAbs(c: seq<Instr>, xs: seq<nat>, ys: seq<nat>, waiting: set<nat>)
    requires forall p :: p in xs ==> p < |c| && c[p].Jmp? && p in waiting
    ensures Abs(Relinked(c, xs, ys), waiting) == Abs(c, waiting)
  {
    var c' := Relinked(c, xs, ys);
    forall j | 0 <= j < |c| ensures Abs(c', waiting)[j] == Abs(c, waiting)[j] {
      if xs != [] && j == xs[|xs| - 1] {
        assert j in xs;
      }
    }
  }

  lemma {:induction false} AbsAppends(c: seq<Instr>, i: Instr, waiting: set<nat>)
    ensures |c| !in waiting ==> !i.Jmp? ==> Abs(c + [i], waiting) == Abs(c, waiting) + [i]
    ensures i.Jmp? ==> Abs(c + [i], waiting + {|c|}) == Abs(c, waiting) + [Goto(PENDING)]
  {
    var n := |c|;
    forall j | 0 <= j < n
      ensures Abs(c + [i], waiting)[j] == Abs(c, waiting)[j] && Abs(c + [i], waiting + {n})[j] == Abs(c, waiting)[j]
    {
      assert (c + [i])[j] == c[j];
    }
    assert (c + [i])[n] == i;
    if !i.Jmp? {
      assert Abs(c + [i], waiting) == Abs(c, waiting) + [i];
    } else {
      assert Abs(c + [i], waiting + {n}) == Abs(c, waiting) + [Goto(PENDING)];
    }
  }

  /** A new jump at the end of the code, heading the list of those that were to come here. */
  lemma {:induction false} JumpLinked(c: seq<Instr>, head: int, hs: seq<nat>, waiting: set<nat>)
    requires IsList(c, head, hs) && forall p :: p in waiting ==> p < |c|
    ensures var c1, n := c + [Jmp(NO_JUMP)], |c|;
      && IsList(c1, head, hs) && IsList(c1, n, [n]) && Disjoint([n], hs)
      && Abs(Relinked(c1, [n], hs), waiting + {n}) == Abs(c, waiting) + [Goto(PENDING)]
      && (forall p :: 0 <= p < n ==> Relinked(c1, [n], hs)[p] == c[p]) && Relinked(c1, [n], hs)[n].Jmp?
  {
    var c1, n := c + [Jmp(NO_JUMP)], |c|;
    ListJumps(c, head, hs);
    ListKept(c, c1, head, hs);
    AbsAppends(c, Jmp(NO_JUMP), waiting);
    RelinkedAbs(c1, [n], hs, waiting + {n});
  }

  // ----- patching a list -----

  /** What `patchtestreg` makes of the instruction before a jump. */
  function TestFor(i: Instr, reg: int): Instr {
    if !i.TestSet? then i
    else if reg >= 0 && reg != i.b then i.(dest := reg)
    else Test(i.b, i.c)
  }

  function FixedAt(c: seq<Instr>, xs: seq<nat>, vtarget: int, reg: int, dtarget: int, j: nat): Instr
    requires j < |c|
  {
    if j in xs then Jmp(Offset(j, if j > 0 && c[j - 1].TestSet? then vtarget else dtarget))
    else if j + 1 in xs then TestFor(c[j], reg)
    else c[j]
  }

  /** The code after `patchlistaux`. */
  function Fixed(c: seq<Instr>, xs: seq<nat>, vtarget: int, reg: int, dtarget: int): (c': seq<Instr>)
    ensures |c'| == |c|
  {
    seq(|c|, j requires 0 <= j < |c| => FixedAt(c, xs, vtarget, reg, dtarget, j))
  }

  lemma {:induction false} FixedNone(c: seq<Instr>, vtarget: int, reg: int, dtarget: int)
    ensures Fixed(c, [], vtarget, reg, dtarget) == c
  {
  }

  /** One more jump patched. */
  lemma {:induction false} FixedStep(c: seq<Instr>, xs: seq<nat>, p: nat, vtarget: int, reg: int, dtarget: int)
    requires p < |c| && c[p].Jmp? && p !in xs && forall q :: q in xs ==> q < |c| && c[q].Jmp?
    ensures var d := Fixed(c, xs, vtarget, reg, dtarget);
      var ok := p > 0 && d[p - 1].TestSet?;
      && d[p] == c[p] && (p > 0 ==> (d[p - 1].TestSet? <==> c[p - 1].TestSet?))
      && Fixed(c, xs + [p], vtarget, reg, dtarget) ==
           (if ok then d[p - 1 := TestFor(d[p - 1], reg)] else d)[p := Jmp(Offset(p, if ok then vtarget else dtarget))]
  {
    var d := Fixed(c, xs, vtarget, reg, dtarget);
    assert d[p] == FixedAt(c, xs, vtarget, reg, dtarget, p);
    if p > 0 {
      assert d[p - 1] == FixedAt(c, xs, vtarget, reg, dtarget, p - 1);
    }
    var ok := p > 0 && d[p - 1].TestSet?;
    var d' := (if ok then d[p - 1 := TestFor(d[p - 1], reg)]
               else d)[p := Jmp(Offset(p, if ok then vtarget else dtarget))];
    forall j | 0 <= j < |c| ensures Fixed(c, xs + [p], vtarget, reg, dtarget)[j] == d'[j] {
      assert d[j] == FixedAt(c, xs, vtarget, reg, dtarget, j);
    }
  }

  /** One more jump of a list patched. */
  lemma {:induction false} FixedListStep(c: seq<Instr>, head: int, xs: seq<nat>, i: nat, vtarget: int, reg: int,
                                         dtarget: int)
    requires IsList(c, head, xs) && i < |xs|
    ensures var d, p := Fixed(c, xs[..i], vtarget, reg, dtarget), xs[i];
      && p < |d| && d[p].Jmp? && Following(d, p) == (if i + 1 < |xs| then xs[i + 1] else NO_JUMP)
      && (p > 0 ==> (d[p - 1].TestSet? <==> c[p - 1].TestSet?))
      && Fixed(c, xs[..i + 1], vtarget, reg, dtarget) ==
           var ok := p > 0 && d[p - 1].TestSet?;
           (if ok then d[p - 1 := TestFor(d[p - 1], reg)] else d)[p := Jmp(Offset(p, if ok then vtarget else dtarget))]
  {
    ListFollowing(c, head, xs, i);
    ListJumps(c, head, xs);
    assert xs[..i + 1] == xs[..i] + [xs[i]];
    FixedStep(c, xs[..i], xs[i], vtarget, reg, dtarget);
  }

  /** One more test stripped of its value. */
  lemma {:induction false} RemovedStep(c: seq<Instr>, xs: seq<nat>, p: nat)
    requires p < |c| && p !in xs && !c[p].TestSet?
    ensures var d := RemoveValues(c, xs);
      && d[p] == c[p]
      && RemoveValues(c, xs + [p]) == if p > 0 && d[p - 1].TestSet? then d[p - 1 := TestFor(d[p - 1], NO_REG)] else d
  {
    var d := RemoveValues(c, xs);
    var d' := if p > 0 && d[p - 1].TestSet? then d[p - 1 := TestFor(d[p - 1], NO_REG)] else d;
    forall j | 0 <= j < |c| ensures RemoveValues(c, xs + [p])[j] == d'[j] {
    }
  }

  /** One more test of a list stripped of its value. */
  lemma {:induction false} RemovedListStep(c: seq<Instr>, head: int, xs: seq<nat>, i: nat)
    requires IsList(c, head, xs) && i < |xs|
    ensures var d, p := RemoveValues(c, xs[..i]), xs[i];
      && p < |d| && d[p].Jmp? && Following(d, p) == (if i + 1 < |xs| then xs[i + 1] else NO_JUMP)
      && RemoveValues(c, xs[..i + 1]) ==
           if p > 0 && d[p - 1].TestSet? then d[p - 1 := TestFor(d[p - 1], NO_REG)] else d
  {
    hide RemoveValues;
    ListFollowing(c, head, xs, i);
    assert xs[..i + 1] == xs[..i] + [xs[i]];
    RemovedStep(c, xs[..i], xs[i]);
  }

  /** Patching the stored code patches what it stands for. */
  lemma {:induction false} FixedAbs(c: seq<Instr>, xs: seq<nat>, vtarget: int, reg: int, dtarget: int,
                                    waiting: set<nat>)
    requires forall p :: p in xs ==> p < |c| && c[p].Jmp? && p in waiting
    ensures Abs(Fixed(c, xs, vtarget, reg, dtarget), waiting - set p | p in xs) ==
            Patch(Abs(c, waiting), xs, vtarget, reg, dtarget)
  {
    var c', a := Fixed(c, xs, vtarget, reg, dtarget), Abs(c, waiting);
    forall j | 0 <= j < |c|
      ensures Abs(c', waiting - set p | p in xs)[j] == Patch(a, xs, vtarget, reg, dtarget)[j]
    {
      assert c'[j] == FixedAt(c, xs, vtarget, reg, dtarget, j);
      assert Patch(a, xs, vtarget, reg, dtarget)[j] == PatchedAt(a, xs, vtarget, reg, dtarget, j);
    }
  }

  /** Jumps that are not patched stay. */
  lemma {:induction false} FixedKeeps(c: seq<Instr>, xs: seq<nat>, vtarget: int, reg: int, dtarget: int)
    ensures forall p :: 0 <= p < |c| && p !in xs && c[p].Jmp? ==> Fixed(c, xs, vtarget, reg, dtarget)[p] == c[p]
    ensures forall p :: 0 <= p < |c| ==> (Fixed(c, xs, vtarget, reg, dtarget)[p].Goto? ==> c[p].Goto?)
  {
    forall p | 0 <= p < |c|
      ensures p !in xs && c[p].Jmp? ==> Fixed(c, xs, vtarget, reg, dtarget)[p] == c[p]
      ensures Fixed(c, xs, vtarget, reg, dtarget)[p].Goto? ==> c[p].Goto?
    {
      assert Fixed(c, xs, vtarget, reg, dtarget)[p] == FixedAt(c, xs, vtarget, reg, dtarget, p);
    }
  }

  /** Patching a list leaves other lists threaded, with the tests that control them. */
  lemma {:induction false} FixedList(c: seq<Instr>, xs: seq<nat>, l: int, vtarget: int, reg: int, dtarget: int,
                                     head: int, ys: seq<nat>)
    requires IsList(c, l, xs) && IsList(c, head, ys) && Disjoint(ys, xs)
    ensures IsList(Fixed(c, xs, vtarget, reg, dtarget), head, ys)
    ensures forall m :: 0 <= m < |ys| && ys[m] > 0 && c[ys[m] - 1].TestSet? ==>
      Fixed(c, xs, vtarget, reg, dtarget)[ys[m] - 1].TestSet?
  {
    var c' := Fixed(c, xs, vtarget, reg, dtarget);
    ListJumps(c, l, xs);
    ListJumps(c, head, ys);
    FixedKeeps(c, xs, vtarget, reg, dtarget);
    ListKept(c, c', head, ys);
    forall m | 0 <= m < |ys| && ys[m] > 0 && c[ys[m] - 1].TestSet? ensures c'[ys[m] - 1].TestSet? {
      assert ys[m] in ys;
      assert c'[ys[m] - 1] == FixedAt(c, xs, vtarget, reg, dtarget, ys[m] - 1);
    }
  }

  lemma {:induction false} NegatedAbs(c: seq<Instr>, waiting: set<nat>, pc: nat)
    requires 0 < pc <= |c| && c[pc - 1].Cmp?
    ensures Abs(c[pc - 1 := c[pc - 1].(want := !c[pc - 1].want)], waiting) == Negate(Abs(c, waiting), pc)
  {
    var c' := c[pc - 1 := c[pc - 1].(want := !c[pc - 1].want)];
    forall j | 0 <= j < |c| ensures Abs(c', waiting)[j] == Negate(Abs(c, waiting), pc)[j] {
      assert Abs(c, waiting)[j] == AbsAt(c, waiting, j);
    }
  }

  /** Stripping tests of their values changes no other instruction. */
  lemma {:induction false} RemovedKeeps(c: seq<Instr>, xs: seq<nat>)
    ensures forall p :: 0 <= p < |c| && !c[p].TestSet? ==> RemoveValues(c, xs)[p] == c[p]
    ensures forall p :: 0 <= p < |c| && c[p].TestSet? ==>
            RemoveValues(c, xs)[p].TestSet? || RemoveValues(c, xs)[p].Test?
  {
  }

  /** A list whose jumps all bring values. */
  lemma {:induction false} Controlled(c: seq<Instr>, waiting: set<nat>, head: int, xs: seq<nat>)
    requires IsList(c, head, xs)
    ensures !NeedValue(Abs(c, waiting), xs) ==> forall m :: 0 <= m < |xs| ==> xs[m] > 0 && c[xs[m] - 1].TestSet?
  {
    if !NeedValue(Abs(c, waiting), xs) {
      forall m | 0 <= m < |xs| ensures xs[m] > 0 && c[xs[m] - 1].TestSet? {
        assert xs[m] in xs;
        assert Abs(c, waiting)[xs[m] - 1] == AbsAt(c, waiting, xs[m] - 1);
      }
    }
  }

  lemma {:induction false} RemoveAbs(c: seq<Instr>, xs: seq<nat>, waiting: set<nat>)
    ensures Abs(RemoveValues(c, xs), waiting) == RemoveValues(Abs(c, waiting), xs)
  {
    forall j | 0 <= j < |c| ensures Abs(RemoveValues(c, xs), waiting)[j] == RemoveValues(Abs(c, waiting), xs)[j] {
    }
  }

  // ----- running the stored code -----

  lemma {:induction false} NothingWaits(c: seq<Instr>, waiting: set<nat>)
    requires forall p :: p in waiting ==> p < |c| && c[p].Jmp?
    requires forall p: nat :: !Pends(Abs(c, waiting), p)
    ensures waiting == {} && forall j :: 0 <= j < |c| && c[j].Jmp? ==> j + 1 + c[j].sbx != PENDING
  {
    forall j | 0 <= j < |c| && c[j].Jmp? ensures j !in waiting && j + 1 + c[j].sbx != PENDING {
      assert !Pends(Abs(c, waiting), j);
    }
  }

  /** Code without pending jumps runs as what it stands for. */
  lemma {:induction false} AbsRuns(c: seq<Instr>, w: World, pc: nat, regs: Regs)
    requires pc <= |c| && forall j :: 0 <= j < |c| ==> !c[j].Goto? && (c[j].Jmp? ==> j + 1 + c[j].sbx != PENDING)
    ensures Exec(c, w, pc, regs) == Exec(Abs(c, {}), w, pc, regs)
    decreases |c| - pc
  {
    if pc < |c| {
      AbsNext(c, w, pc, regs);
      match Next(c, w, pc, regs)
      case Ends(_) =>
      case Goes(pc', regs') => AbsRuns(c, w, pc', regs');
    }
  }

  lemma {:induction false} AbsJump(c: seq<Instr>, j: nat, regs: Regs)
    requires forall i :: 0 <= i < |c| ==> !c[i].Goto? && (c[i].Jmp? ==> i + 1 + c[i].sbx != PENDING)
    ensures TakeJump(Abs(c, {}), j, regs) == TakeJump(c, j, regs)
    ensures forall pc: int :: Land(Abs(c, {}), pc, regs) == Land(c, pc, regs)
  {
    var a := Abs(c, {});
    assert forall i :: 0 <= i < |c| ==> IsTest(a[i]) == IsTest(c[i]);
    if j < |c| {
      assert a[j] == AbsAt(c, {}, j);
    }
  }

  lemma {:induction false} AbsNext(c: seq<Instr>, w: World, pc: nat, regs: Regs)
    requires pc < |c| && forall j :: 0 <= j < |c| ==> !c[j].Goto? && (c[j].Jmp? ==> j + 1 + c[j].sbx != PENDING)
    ensures Next(Abs(c, {}), w, pc, regs) == Next(c, w, pc, regs)
  {
    var a := Abs(c, {});
    assert a[pc] == AbsAt(c, {}, pc);
    AbsJump(c, pc, regs);
    AbsJump(c, pc + 1, regs);
    match c[pc] {
      case TestSet(dest, b, _) => AbsJump(c, pc + 1, if dest < 0 then regs else regs[dest := Get(regs, b)]);
      case LoadBool(a, b, _) => AbsJump(c, pc, regs[a := Bool(b)]);
      case _ =>
    }
  }
}
