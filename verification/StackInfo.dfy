// The chain of runlevels: PUSHSTACKi, POPSTACK and POPSTACK_TO.
module StackInfo {
  import opened Common

  // A runlevel.  The node stands for its stack too; fill is AvFILLp of that stack,
  // saved while another runlevel is current.
  class PerlSi {
    var fill: int
    var cxix: int
    var kind: int
    var prev: PerlSi?
    var next: PerlSi?
    ghost var place: nat  // how many runlevels are below it

    // new_stackinfo
    constructor (ghost at: nat)
      ensures fill == 0 && cxix == -1 && kind == UNDEF && prev == null && next == null && place == at
    {
      fill, cxix, kind, prev, next, place := 0, -1, UNDEF, null, null, at;
    }

    // A runlevel starts with no context and an empty stack.
    method Reset(kind: int)
      modifies `kind, `cxix, `fill
      ensures this.kind == kind && cxix == -1 && fill == 0
    {
      this.kind := kind;
      cxix := -1;
      fill := 0;
    }
  }

  const UNDEF := 0
  const MAIN := 1

  // A runlevel as a program sees it: its type, its context index and its stack
  // pointer, counted from the base of its stack.
  datatype Level = Level(kind: int, cxix: int, sp: int)

  class Interp {
    var cur: PerlSi  // PL_curstackinfo; its stack is PL_curstack
    var sp: int      // PL_stack_sp - PL_stack_base
    ghost var chain: seq<PerlSi>
    ghost var depth: nat
    ghost var deepest: nat

    ghost predicate Valid()
      reads this, chain
    {
      && depth <= deepest && |chain| == deepest + 1 && cur == chain[depth]
      && (forall i :: 0 <= i < |chain| ==> chain[i].place == i)
      && (forall i {:trigger chain[i].prev} :: 0 <= i < |chain| ==>
            chain[i].prev == if i > 0 then chain[i - 1] else null)
      && (forall i {:trigger chain[i].next} :: 0 <= i < |chain| ==>
            chain[i].next == if i + 1 < |chain| then chain[i + 1] else null)
    }

    // Nodes that have joined the chain are new ones.
    twostate predicate OnlyNew()
      reads this
    {
      forall i :: 0 <= i < |chain| ==> chain[i] in old(chain) || fresh(chain[i])
    }

    ghost function LevelAt(i: nat): Level
      requires i < |chain|
      reads this, chain
    {
      Level(chain[i].kind, chain[i].cxix, if i == depth then sp else chain[i].fill)
    }

    // The runlevels that have not been left, the current one last.
    ghost function Levels(): (ls: seq<Level>)
      requires Valid()
      reads this, chain
      ensures |ls| == depth + 1
      ensures forall i :: 0 <= i <= depth ==> ls[i] == LevelAt(i)
    {
      seq(depth + 1, i requires 0 <= i < |chain| reads this, chain => LevelAt(i))
    }

    // init_stacks
    constructor ()
      ensures Valid() && Levels() == [Level(MAIN, -1, 0)] && deepest == 0
      ensures fresh(chain)
    {
      var si := new PerlSi(0);
      cur, sp := si, 0;
      chain, depth, deepest := [si], 0, 0;
      new;
      si.kind := MAIN;
    }

    // SWITCHSTACK
    method SwitchStack(t: PerlSi)
      requires t != cur
      modifies `sp, cur`fill
      ensures cur.fill == old(sp) && sp == t.fill
    {
      cur.fill := sp;
      sp := t.fill;
    }

    // The node PUSHSTACKi goes to: the one left behind by an earlier runlevel, or a
    // new one linked in behind the current one.
    method NextInfo() returns (next: PerlSi)
      requires Valid()
      modifies `chain, `deepest, cur`next
      ensures Valid() && depth + 1 < |chain| && next == chain[depth + 1]
      ensures deepest == if old(deepest) == depth then depth + 1 else old(deepest)
      ensures old(chain) <= chain && OnlyNew()
      ensures Levels() == old(Levels()) && depth == old(depth)
    {
      if cur.next != null {
        next := cur.next;
      } else {
        next := new PerlSi(depth + 1);
        next.prev := cur;
        cur.next := next;
        chain := chain + [next];
        deepest := depth + 1;
      }
    }

    // Making the node after the current one the current one.
    method Enter(next: PerlSi, kind: int)
      requires Valid() && depth + 1 < |chain| && next == chain[depth + 1]
      modifies `cur, `sp, `depth, cur`fill, next`kind, next`cxix, next`fill
      ensures Valid() && depth == old(depth) + 1
      ensures Levels() == old(Levels()) + [Level(kind, -1, 0)]
    {
      next.Reset(kind);
      SwitchStack(next);
      cur, depth := next, depth + 1;
      assert forall i :: 0 <= i < depth ==> LevelAt(i) == old(LevelAt(i));
    }

    // PUSHSTACKi
    method Push(kind: int)
      requires Valid()
      modifies this, chain
      ensures Valid() && depth == old(depth) + 1
      ensures deepest == if old(deepest) == old(depth) then old(deepest) + 1 else old(deepest)
      ensures Levels() == old(Levels()) + [Level(kind, -1, 0)]
      ensures old(chain) <= chain && OnlyNew()
    {
      var next := NextInfo();
      Enter(next, kind);
    }

    // POPSTACK.  With no runlevel below, Perl exits.
    method Pop() returns (exits: bool)
      requires Valid()
      modifies `cur, `sp, `depth, cur`fill
      ensures Valid() && exits == (old(depth) == 0)
      ensures exits ==> depth == old(depth) && Levels() == old(Levels())
      ensures !exits ==> depth == old(depth) - 1 && Levels() == old(Levels())[..old(depth)]
    {
      var prev := cur.prev;
      if prev == null {
        return true;
      }
      SwitchStack(prev);
      cur, depth := prev, depth - 1;
      return false;
    }

    // dounwind(-1), as far as the context index goes.
    method Unwind()
      requires Valid()
      modifies cur`cxix
      ensures Valid() && cur.cxix <= -1
      ensures Levels()[..depth] == old(Levels()[..depth])
    {
      if cur.cxix > -1 {
        cur.cxix := -1;
      }
      assert forall i :: 0 <= i < depth ==> LevelAt(i) == old(LevelAt(i));
    }

    // cxstack_ix is moved by entering and leaving blocks.
    method SetContext(cxix: int)
      requires Valid()
      modifies cur`cxix
      ensures Valid()
      ensures Levels() == old(Levels())[depth := old(Levels())[depth].(cxix := cxix)]
    {
      cur.cxix := cxix;
      assert forall i :: 0 <= i < depth ==> LevelAt(i) == old(LevelAt(i));
    }

    // The node below as many others, if there is one.
    method NodeBelow(n: nat) returns (si: PerlSi?)
      requires Valid()
      ensures if n <= depth then si == chain[depth - n] else si == null
    {
      si := cur;
      var i := 0;
      while i < n && si != null
        invariant 0 <= i <= n && i <= depth + 1
        invariant if i <= depth then si == chain[depth - i] else si == null
      {
        si := si.prev;
        i := i + 1;
      }
    }

    // One round of POPSTACK_TO.
    method Abandon() returns (exits: bool)
      requires Valid()
      modifies `cur, `sp, `depth, cur`fill, cur`cxix
      ensures Valid() && exits == (old(depth) == 0)
      ensures forall i :: 0 <= i < |chain| ==>
        if i == old(depth) then chain[i].cxix <= -1 else chain[i].cxix == old(chain[i].cxix)
      ensures exits ==> depth == 0
      ensures !exits ==> depth == old(depth) - 1 && Levels() == old(Levels())[..old(depth)]
    {
      Unwind();
      exits := Pop();
    }

    // POPSTACK_TO: ends at the target if that is the current runlevel or one below
    // it, and otherwise exits at the bottom.
    method PopTo(target: PerlSi) returns (exits: bool)
      requires Valid()
      modifies this, chain
      ensures Valid() && chain == old(chain) && deepest == old(deepest) && depth <= old(depth)
      ensures exits <==> target !in old(chain[..depth + 1])
      ensures !exits ==> cur == target && Levels() == old(Levels())[..depth + 1]
      ensures exits ==> depth == 0
      ensures forall i :: depth < i <= old(depth) ==> chain[i].cxix <= -1
    {
      exits := false;
      ghost var top, was := depth, Levels();
      while cur != target
        invariant Valid() && chain == old(chain) && deepest == old(deepest) && depth <= top
        invariant Levels() == was[..depth + 1]
        invariant forall i :: depth < i <= top ==> chain[i] != target
        invariant forall i :: depth < i <= top ==> chain[i].cxix <= -1
        decreases depth
      {
        ghost var d := depth;
        exits := Abandon();
        if exits {
          return;
        }
        assert was[..d + 1][..d] == was[..d];
      }
    }
  }

  // ---- runs ----

  // LeaveTo is POPSTACK_TO the stack that is below as many others; there may be none.
  datatype Op = Enter(kind: int) | Leave | LeaveTo(below: nat) | Contexts(cxix: int) | Move(sp: int)

  // One step on the runlevels as a plain stack.  None: there was nothing to leave.
  function Step(ls: seq<Level>, op: Op): Option<seq<Level>>
    requires |ls| > 0
  {
    var top := ls[|ls| - 1];
    match op
    case Enter(kind) => Some(ls + [Level(kind, -1, 0)])
    case Leave => if |ls| == 1 then None else Some(ls[..|ls| - 1])
    case LeaveTo(below) => if below < |ls| then Some(ls[..|ls| - below]) else None
    case Contexts(cxix) => Some(ls[|ls| - 1 := top.(cxix := cxix)])
    case Move(sp) => Some(ls[|ls| - 1 := top.(sp := sp)])
  }

  // The runlevels after the first n steps.
  function After(ls: seq<Level>, ops: seq<Op>, n: nat): (r: Option<seq<Level>>)
    requires |ls| > 0 && n <= |ops|
    ensures r.Some? ==> |r.value| > 0
  {
    if n == 0 then Some(ls)
    else
      match After(ls, ops, n - 1)
      case None => None
      case Some(was) => Step(was, ops[n - 1])
  }

  function Max(a: nat, b: nat): nat {
    if a > b then a else b
  }

  // The most runlevels there have been.
  function Peak(ls: seq<Level>, ops: seq<Op>, n: nat): nat
    requires |ls| > 0 && n <= |ops|
  {
    if n == 0 then |ls|
    else
      var before, now := Peak(ls, ops, n - 1), After(ls, ops, n);
      if now.Some? then Max(before, |now.value|) else before
  }

  method PerformLeaveTo(t: Interp, below: nat) returns (exits: bool)
    requires t.Valid()
    modifies t, t.chain
    ensures t.Valid() && t.chain == old(t.chain) && t.deepest == old(t.deepest)
    ensures exits == Step(old(t.Levels()), LeaveTo(below)).None?
    ensures !exits ==> Some(t.Levels()) == Step(old(t.Levels()), LeaveTo(below))
    ensures exits ==> t.depth == 0
  {
    var target := t.NodeBelow(below);
    if target == null {
      target := new PerlSi(0);
    }
    exits := t.PopTo(target);
  }

  // One step of the program.
  method Perform(t: Interp, op: Op) returns (exits: bool)
    requires t.Valid()
    modifies t, t.chain
    ensures t.Valid() && t.OnlyNew() && old(t.chain) <= t.chain
    ensures exits == Step(old(t.Levels()), op).None?
    ensures !exits ==> Some(t.Levels()) == Step(old(t.Levels()), op)
    ensures t.deepest == Max(t.depth, old(t.deepest))
    ensures exits ==> t.depth == 0 && (op.Leave? ==> t.Levels() == old(t.Levels()))
  {
    exits := false;
    match op
    case Enter(kind) => t.Push(kind);
    case Leave => exits := t.Pop();
    case LeaveTo(below) => exits := PerformLeaveTo(t, below);
    case Contexts(cxix) => t.SetContext(cxix);
    case Move(sp) => t.sp := sp; assert t.Levels() == Step(old(t.Levels()), op).value;
  }

  // A whole run: the chain holds the runlevels a plain stack would, and as many
  // nodes as there have been runlevels at once.  Nodes stay where they are, so a run
  // that is back at its height is back at its node.
  method Run(t: Interp, ops: seq<Op>) returns (exits: bool)
    requires t.Valid()
    modifies t, t.chain
    ensures t.Valid() && old(t.chain) <= t.chain
    ensures exits == After(old(t.Levels()), ops, |ops|).None?
    ensures !exits ==> Some(t.Levels()) == After(old(t.Levels()), ops, |ops|)
    ensures |t.chain| == Max(Peak(old(t.Levels()), ops, |ops|), old(|t.chain|))
    ensures !exits && |t.Levels()| == |old(t.Levels())| ==> t.cur == old(t.cur)
  {
    ghost var ls, nodes := t.Levels(), |t.chain|;
    var n := 0;
    exits := false;
    while n < |ops|
      invariant n <= |ops| && t.Valid() && t.OnlyNew() && old(t.chain) <= t.chain
      invariant Some(t.Levels()) == After(ls, ops, n)
      invariant |t.chain| == Max(Peak(ls, ops, n), nodes)
    {
      exits := Perform(t, ops[n]);
      n := n + 1;
      if exits {
        NoneStays(ls, ops, n, |ops|);
        return;
      }
    }
  }

  lemma {:induction false} NoneStays(ls: seq<Level>, ops: seq<Op>, m: nat, n: nat)
    requires |ls| > 0 && m <= n <= |ops| && After(ls, ops, m) == None
    ensures After(ls, ops, n) == None && Peak(ls, ops, n) == Peak(ls, ops, m)
  {
    if m < n {
      NoneStays(ls, ops, m, n - 1);
    }
  }

  // Steps that never leave what is above ls do not touch ls.
  lemma {:induction false} LowerLevelsStay(ls: seq<Level>, more: seq<Level>, ops: seq<Op>, n: nat)
    requires |more| > 0 && n <= |ops| && After(more, ops, n).Some?
    ensures After(ls + more, ops, n) == Some(ls + After(more, ops, n).value)
  {
    if n == 0 {
    } else {
      LowerLevelsStay(ls, more, ops, n - 1);
      StepAbove(ls, After(more, ops, n - 1).value, ops[n - 1]);
    }
  }

  lemma StepAbove(ls: seq<Level>, more: seq<Level>, op: Op)
    requires |more| > 0 && Step(more, op).Some?
    ensures Step(ls + more, op) == Some(ls + Step(more, op).value)
  {
    var now := Step(ls + more, op).value;
    assert now == ls + Step(more, op).value;
  }

  // A balanced piece of a run, from entering a runlevel to leaving it, whatever it
  // does and however deeply it nests: afterwards everything is as it was, the
  // context index and the stack pointer included.
  lemma BalancedRestores(ls: seq<Level>, kind: int, body: seq<Op>)
    requires |ls| > 0
    requires After([Level(kind, -1, 0)], body, |body|).Some?
    requires |After([Level(kind, -1, 0)], body, |body|).value| == 1
    ensures After(ls, [Enter(kind)] + body + [Leave], |body| + 2) == Some(ls)
  {
    var ops := [Enter(kind)] + body + [Leave];
    BodyStaysAbove(ls, ops, kind, body);
    LeaveUndoes(ls, After([Level(kind, -1, 0)], body, |body|).value);
    LastStep(ls, ops, |body| + 1);
  }

  lemma BodyStaysAbove(ls: seq<Level>, ops: seq<Op>, kind: int, body: seq<Op>)
    requires |ls| > 0 && Wraps(ops, body) && ops[0] == Enter(kind)
    requires After([Level(kind, -1, 0)], body, |body|).Some?
    ensures After(ls, ops, |body| + 1) == Some(ls + After([Level(kind, -1, 0)], body, |body|).value)
  {
    StartsWithEnter(ls, ops, kind);
    Later(ls, ops, body, |body|);
    LowerLevelsStay(ls, [Level(kind, -1, 0)], body, |body|);
  }

  lemma LastStep(ls: seq<Level>, ops: seq<Op>, n: nat)
    requires |ls| > 0 && n < |ops| && After(ls, ops, n).Some?
    ensures After(ls, ops, n + 1) == Step(After(ls, ops, n).value, ops[n])
  {
  }

  // body lies in ops behind the first step.
  predicate Wraps(ops: seq<Op>, body: seq<Op>) {
    |ops| > |body| && forall i :: 0 < i <= |body| ==> ops[i] == body[i - 1]
  }

  lemma StartsWithEnter(ls: seq<Level>, ops: seq<Op>, kind: int)
    requires |ls| > 0 && |ops| > 0 && ops[0] == Enter(kind)
    ensures After(ls, ops, 1) == Some(ls + [Level(kind, -1, 0)])
  {
    assert After(ls, ops, 0) == Some(ls);
  }

  lemma LeaveUndoes(ls: seq<Level>, top: seq<Level>)
    requires |ls| > 0 && |top| == 1
    ensures Step(ls + top, Leave) == Some(ls)
  {
    assert (ls + top)[..|ls|] == ls;
  }

  lemma {:induction false} Later(ls: seq<Level>, ops: seq<Op>, body: seq<Op>, n: nat)
    requires |ls| > 0 && n <= |body| && Wraps(ops, body) && After(ls, ops, 1).Some?
    ensures After(ls, ops, n + 1) == After(After(ls, ops, 1).value, body, n)
  {
    if n > 0 {
      Later(ls, ops, body, n - 1);
    }
  }
}
