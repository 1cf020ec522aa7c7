/** The pieces of the pass that act on one instruction: the sink table, the
    per-opcode taint transfer rules, the tainted argument positions of a
    call, the mapping of those positions onto a callee's formals, and the
    shape of a vulnerability report. */
module Rules {
  import opened Ir

  /** A sink: a function name and the position (not the count) of the
      argument whose taint makes a call to it a vulnerability. */
  datatype Sink = Sink(name: string, argc: int)

  /** The one sink the pass registers: `strcpy`, second argument (index 1). */
  const StrcpySink := Sink("strcpy", 1)

  /** A report: the triggering call first, then the enclosing calls of the
      backtrace, innermost first. */
  type Report = seq<InstrId>

  /** The argument index of the first sink named `name`, if any. */
  function SinkIndex(sinks: seq<Sink>, name: string): (r: Option<int>)
    ensures r.None? <==> forall j :: 0 <= j < |sinks| ==> sinks[j].name != name
    ensures r.Some? ==> exists j :: 0 <= j < |sinks| && sinks[j].name == name && sinks[j].argc == r.value &&
                                    forall i :: 0 <= i < j ==> sinks[i].name != name
  {
    if sinks == [] then None
    else if sinks[0].name == name then Some(sinks[0].argc)
    else
      var r := SinkIndex(sinks[1..], name);
      assert forall j :: 1 <= j < |sinks| ==> sinks[j] == sinks[1..][j - 1];
      r
  }

  /** The positions of a call's arguments that are tainted. Every position
      is that of an argument, so a sink position at or past the argument
      count is never among them; there are none exactly when no argument is
      tainted. */
  function Slots(args: seq<Value>, t: set<Value>): (r: set<int>)
    ensures forall i :: i in r ==> 0 <= i < |args|
    ensures r == {} <==> forall i :: 0 <= i < |args| ==> args[i] !in t
  {
    var r := set i | 0 <= i < |args| && args[i] in t;
    assert forall i :: 0 <= i < |args| && args[i] in t ==> i in r;
    r
  }

  /** The callee's initial taint set: the formals at the tainted positions.
      It holds formals only, and is empty exactly when no formal's position
      is tainted (tainted positions past the last formal are dropped). */
  function MapFormals(formals: seq<Value>, slots: set<int>): (r: set<Value>)
    ensures forall v :: v in r ==> v in formals
    ensures r == {} <==> forall i :: 0 <= i < |formals| ==> i !in slots
  {
    var r := set i | 0 <= i < |formals| && i in slots :: formals[i];
    assert forall i :: 0 <= i < |formals| && i in slots ==> formals[i] in r;
    r
  }

  /** Some incoming value of a phi node is tainted: some value listed in
      `vs` is in `t`. */
  predicate AnyTainted(vs: seq<Value>, t: set<Value>): (r: bool)
    ensures r <==> exists v :: v in vs && v in t
  {
    exists k :: 0 <= k < |vs| && vs[k] in t
  }

  /** The transfer rule of every opcode other than Call: an instruction
      taints at most one value (the stored-to pointer, or its own result),
      and only when its source operand is tainted; nothing is removed. */
  function Transfer(i: Instr, t: set<Value>): (r: set<Value>)
    requires !i.Call?
    ensures t <= r
    ensures i.Store? ==> (i.v in t ==> i.ptr in r) && (i.v !in t ==> r == t) && r <= t + {i.ptr}
    ensures i.Load? ==> (i.ptr in t ==> i.res in r) && (i.ptr !in t ==> r == t) && r <= t + {i.res}
    ensures i.Gep? ==> (i.base in t ==> i.res in r) && (i.base !in t ==> r == t) && r <= t + {i.res}
    ensures i.BitCast? ==> (i.src in t ==> i.res in r) && (i.src !in t ==> r == t) && r <= t + {i.res}
    ensures i.Phi? ==> (AnyTainted(i.incoming, t) ==> i.res in r) &&
                       (!AnyTainted(i.incoming, t) ==> r == t) && r <= t + {i.res}
    ensures i.Other? ==> r == t
  {
    match i
    case Store(v, p) => if v in t then t + {p} else t
    case Load(res, p) => if p in t then t + {res} else t
    case Gep(res, b) => if b in t then t + {res} else t
    case BitCast(res, s) => if s in t then t + {res} else t
    case Phi(res, incoming) => if AnyTainted(incoming, t) then t + {res} else t
    case Other => t
  }

  /** `s` read from its last element to its first. */
  function Reversed(s: seq<InstrId>): seq<InstrId>
  {
    if s == [] then [] else [s[|s| - 1]] + Reversed(s[..|s| - 1])
  }

  lemma {:induction false} ReversedAt(s: seq<InstrId>, k: nat)
    requires k < |s|
    ensures |Reversed(s)| == |s| && Reversed(s)[k] == s[|s| - 1 - k]
  {
    if k > 0 {
      ReversedAt(s[..|s| - 1], k - 1);
    } else if |s| > 1 {
      ReversedAt(s[..|s| - 1], 0);
    } else {
      assert s[..0] == [];
    }
  }

  /** `s` read backwards has the length of `s`, and its entry k is the k-th
      entry of `s` from the end. */
  lemma ReversedIndexes(s: seq<InstrId>)
    ensures |Reversed(s)| == |s|
    ensures forall k :: 0 <= k < |s| ==> Reversed(s)[k] == s[|s| - 1 - k]
  {
    ReversedLength(s);
    forall k | 0 <= k < |s|
      ensures Reversed(s)[k] == s[|s| - 1 - k]
    {
      ReversedAt(s, k);
    }
  }

  lemma {:induction false} ReversedLength(s: seq<InstrId>)
    ensures |Reversed(s)| == |s|
  {
    if s != [] {
      ReversedLength(s[..|s| - 1]);
    }
  }

  /** Reading `[x] + s` backwards ends with `x`. */
  lemma {:induction false} ReversedCons(x: InstrId, s: seq<InstrId>)
    ensures Reversed([x] + s) == Reversed(s) + [x]
  {
    if s != [] {
      assert ([x] + s)[..|s|] == [x] + s[..|s| - 1];
      ReversedCons(x, s[..|s| - 1]);
    }
  }

  /** Pushing a call onto the stack puts it at the front of the reversed stack. */
  lemma ReversedPush(s: seq<InstrId>, x: InstrId)
    ensures Reversed(s + [x]) == [x] + Reversed(s)
  {
    assert (s + [x])[..|s|] == s;
  }

  /** The report for a violation at `call` under the backtrace `stack`: it
      names the triggering call first and then every call of the backtrace,
      from the innermost (last pushed) to the outermost. */
  function Trace(call: InstrId, stack: seq<InstrId>): (r: Report)
    ensures |r| == |stack| + 1 && r[0] == call
    ensures forall k :: 1 <= k <= |stack| ==> r[k] == stack[|stack| - k]
  {
    ReversedIndexes(stack);
    [call] + Reversed(stack)
  }
}
