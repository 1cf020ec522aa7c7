/** The abstract intermediate representation the taint pass walks over:
    values, instructions, basic blocks with successor edges, functions and
    the module that holds them. It stands in for the host compiler's IR. */
module Ir {

  datatype Option<+T> = None | Some(value: T)

  /** A program value (instruction result, formal parameter or constant),
      identified by an opaque id: taint membership is by identity. */
  type Value = nat

  /** The identity of an instruction, as recorded in a backtrace. */
  type InstrId = nat

  /** The opcodes the pass distinguishes. An instruction that produces a
      value is identified by that value (`res`). Operand 0 of Load, Gep
      and BitCast is the pointer, the base and the source respectively.
      A call names its statically resolved callee, or None when the call
      is indirect. */
  datatype Instr =
    | Store(v: Value, ptr: Value)
    | Load(res: Value, ptr: Value)
    | Gep(res: Value, base: Value)
    | BitCast(res: Value, src: Value)
    | Phi(res: Value, incoming: seq<Value>)
    | Call(id: InstrId, callee: Option<string>, args: seq<Value>)
    | Other

  /** A basic block: its instructions in program order and the indices of
      its successor blocks in the enclosing function. */
  datatype Block = Block(instrs: seq<Instr>, succs: seq<nat>)

  /** A function: its name, its formal parameters and its blocks; the entry
      block is block 0, and a declaration has no blocks. */
  datatype Function = Function(name: string, formals: seq<Value>, blocks: seq<Block>)

  /** A module is its functions in declaration order. */
  type Module = seq<Function>

  /** Name resolution: the first function of the module with that name. */
  function Lookup(m: Module, name: string): (r: Option<Function>)
    ensures r.Some? ==> r.value in m && r.value.name == name
    ensures r.None? <==> forall f :: f in m ==> f.name != name
  {
    if m == [] then None
    else if m[0].name == name then Some(m[0])
    else Lookup(m[1..], name)
  }

  /** Name resolution finds the first function of the module with that name. */
  lemma {:induction false} LookupFindsFirst(m: Module, name: string)
    ensures Lookup(m, name).Some? ==>
              exists j :: 0 <= j < |m| && m[j] == Lookup(m, name).value && forall i :: 0 <= i < j ==> m[i].name != name
  {
    if m != [] && m[0].name != name {
      LookupFindsFirst(m[1..], name);
      assert forall j :: 1 <= j < |m| ==> m[j] == m[1..][j - 1];
      if Lookup(m, name).Some? {
        var j :| 0 <= j < |m[1..]| && m[1..][j] == Lookup(m, name).value && forall i :: 0 <= i < j ==> m[1..][i].name != name;
        assert m[j + 1] == Lookup(m, name).value;
        assert forall i :: 0 <= i < j + 1 ==> m[i].name != name;
      }
    }
  }

  /** Every successor edge of `f` leads to one of its own blocks. */
  ghost predicate WellFormedCfg(f: Function)
  {
    forall b, s :: b in f.blocks && s in b.succs ==> s < |f.blocks|
  }

  /** The descent from a function named `caller` into the callee named
      `callee` goes down in `rank`, unless the callee has no body (and so is
      never descended into). */
  ghost predicate Descends(m: Module, rank: map<string, nat>, caller: string, callee: string)
  {
    match Lookup(m, callee)
    case None => true
    case Some(g) => |g.blocks| == 0 || (caller in rank && callee in rank && rank[callee] < rank[caller])
  }

  /** Every resolved call among `instrs`, made from the function `caller`,
      descends in `rank`. */
  ghost predicate CallsDescend(m: Module, rank: map<string, nat>, caller: string, instrs: seq<Instr>)
  {
    forall i :: i in instrs && i.Call? && i.callee.Some? ==> Descends(m, rank, caller, i.callee.value)
  }

  /** The module's control-flow graphs are well formed, and `rank` orders its
      call graph so that every descent into a defined callee goes down: the
      call graph restricted to callees with a body is acyclic. */
  ghost predicate Ranked(m: Module, rank: map<string, nat>)
  {
    forall f :: f in m ==>
      f.name in rank && WellFormedCfg(f) &&
      forall b :: b in f.blocks ==> CallsDescend(m, rank, f.name, b.instrs)
  }

  /** `p` is a walk along control-flow edges of `f`. */
  ghost predicate IsPath(f: Function, p: seq<nat>)
  {
    forall k :: 0 <= k < |p| ==> p[k] < |f.blocks| && (k + 1 < |p| ==> p[k + 1] in f.blocks[p[k]].succs)
  }

  /** Block `b` of `f` can be reached from the entry block. */
  ghost predicate Reachable(f: Function, b: nat)
  {
    exists p :: IsPath(f, p) && |p| > 0 && p[0] == 0 && p[|p| - 1] == b
  }
}
