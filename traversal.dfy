/** The meaning of one traversal of a function, as functions: the
    breadth-first walk over its blocks, the transfer of taint through each
    instruction in order, and the handling of calls (sink matching, or
    descent into a defined callee with the mapped taint set and the call
    pushed onto the backtrace). The pass's methods are proved to compute
    exactly these. */
module Traversal {
  import opened Ir
  import opened Rules

  /** What a traversal yields: the final taint set of the traversed function,
      and the reports it produced, in the order it produced them. */
  datatype Outcome = Outcome(taint: set<Value>, reports: seq<Report>)

  /** The outcome of a walk that has already emitted `emitted` and then goes on as `rest`. */
  function Resume(emitted: seq<Report>, rest: Outcome): Outcome
  {
    Outcome(rest.taint, emitted + rest.reports)
  }

  lemma ResumeTwice(e1: seq<Report>, e2: seq<Report>, rest: Outcome)
    ensures Resume(e1, Resume(e2, rest)) == Resume(e1 + e2, rest)
  {
    assert e1 + (e2 + rest.reports) == (e1 + e2) + rest.reports;
  }

  /** The blocks of a function with `n` blocks that are not yet visited. */
  function Unvisited(n: nat, visited: set<nat>): set<nat>
  {
    set b | 0 <= b < n && b !in visited
  }

  /** Visiting a block not yet visited leaves strictly fewer unvisited ones. */
  lemma VisitShrinks(n: nat, visited: set<nat>, b: nat)
    requires b < n && b !in visited
    ensures Unvisited(n, visited + {b}) < Unvisited(n, visited)
  {
    assert b in Unvisited(n, visited);
  }

  /** The successors that get enqueued after a block: those not yet visited,
      in successor order (a successor listed twice is enqueued twice). */
  function Unseen(succs: seq<nat>, visited: set<nat>): (r: seq<nat>)
    ensures forall k :: 0 <= k < |r| ==> r[k] in succs && r[k] !in visited
    ensures forall x :: x in succs && x !in visited ==> x in r
  {
    if succs == [] then []
    else
      var last := succs[|succs| - 1];
      var front := Unseen(succs[..|succs| - 1], visited);
      assert succs == succs[..|succs| - 1] + [last];
      front + (if last in visited then [] else [last])
  }

  /** The unvisited successors of a concatenation are those of each part,
      in order: enqueuing keeps the successors' order and their repeats. */
  lemma {:induction false} UnseenAppend(a: seq<nat>, b: seq<nat>, visited: set<nat>)
    ensures Unseen(a + b, visited) == Unseen(a, visited) + Unseen(b, visited)
    decreases |b|
  {
    if b == [] {
      assert a + b == a;
    } else {
      assert (a + b)[..|a + b| - 1] == a + b[..|b| - 1];
      assert (a + b)[|a + b| - 1] == b[|b| - 1];
      UnseenAppend(a, b[..|b| - 1], visited);
    }
  }

  /** A single successor is enqueued exactly when it is not yet visited. */
  lemma UnseenOne(x: nat, visited: set<nat>)
    ensures Unseen([x], visited) == if x in visited then [] else [x]
  {
    assert [x][..0] == [];
  }

  /** Every entry of `q` is a block of `f`. */
  ghost predicate InBlocks(f: Function, q: seq<nat>)
  {
    forall k :: 0 <= k < |q| ==> q[k] < |f.blocks|
  }

  /** A report produced under the backtrace `stack` ends with that stack,
      innermost call first. */
  ghost predicate EndsWith(rep: Report, stack: seq<InstrId>)
  {
    |rep| > |stack| && rep[|rep| - |stack|..] == Reversed(stack)
  }

  lemma TraceEndsWith(call: InstrId, stack: seq<InstrId>)
    ensures EndsWith(Trace(call, stack), stack)
  {
    ReversedLength(stack);
    assert Trace(call, stack)[1..] == Reversed(stack);
  }

  /** A report produced under a stack with one more call on top also ends
      with the shorter stack. */
  lemma EndsWithPop(stack: seq<InstrId>, id: InstrId)
    ensures forall rep :: EndsWith(rep, stack + [id]) ==> EndsWith(rep, stack)
  {
    ReversedPush(stack, id);
    forall rep | EndsWith(rep, stack + [id])
      ensures EndsWith(rep, stack)
    {
      var n := |rep| - |stack| - 1;
      assert rep[n..] == [id] + Reversed(stack);
      assert rep[n + 1..] == rep[n..][1..];
    }
  }

  /** `traverseFunc` on `f` with initial taint set `t` and backtrace `stack`:
      a function without blocks is a no-op; otherwise a breadth-first walk
      from the entry block. The taint set only grows, and every report it
      produces ends with the backtrace it started under. */
  function Traverse(m: Module, sinks: seq<Sink>, rank: map<string, nat>, stack: seq<InstrId>,
                    f: Function, t: set<Value>): (r: Outcome)
    requires Ranked(m, rank) && f in m
    ensures t <= r.taint
    decreases rank[f.name], 4
  {
    if |f.blocks| == 0 then Outcome(t, [])
    else Bfs(m, sinks, rank, stack, f, [0], {}, t)
  }

  /** The walk's loop from the current queue and visited set: the front block
      is dropped if already visited; otherwise its instructions are processed
      in order, it is marked visited, and its unvisited successors are
      enqueued at the back. */
  function Bfs(m: Module, sinks: seq<Sink>, rank: map<string, nat>, stack: seq<InstrId>,
               f: Function, queue: seq<nat>, visited: set<nat>, t: set<Value>): (r: Outcome)
    requires Ranked(m, rank) && f in m
    requires InBlocks(f, queue)
    ensures t <= r.taint
    decreases rank[f.name], 3, Unvisited(|f.blocks|, visited), |queue|
  {
    if queue == [] then Outcome(t, [])
    else
      var b := queue[0];
      if b in visited then Bfs(m, sinks, rank, stack, f, queue[1..], visited, t)
      else
        assert f.blocks[b] in f.blocks;
        VisitShrinks(|f.blocks|, visited, b);
        var here := Instrs(m, sinks, rank, stack, f, f.blocks[b].instrs, 0, t);
        var next := queue[1..] + Unseen(f.blocks[b].succs, visited + {b});
        var rest := Bfs(m, sinks, rank, stack, f, next, visited + {b}, here.taint);
        Outcome(rest.taint, here.reports + rest.reports)
  }

  /** One turn of the walk's loop. */
  lemma BfsUnfold(m: Module, sinks: seq<Sink>, rank: map<string, nat>, stack: seq<InstrId>,
                  f: Function, queue: seq<nat>, visited: set<nat>, t: set<Value>)
    requires Ranked(m, rank) && f in m && InBlocks(f, queue) && queue != []
    ensures queue[0] < |f.blocks| && f.blocks[queue[0]] in f.blocks
    ensures InBlocks(f, queue[1..]) && InBlocks(f, queue[1..] + Unseen(f.blocks[queue[0]].succs, visited + {queue[0]}))
    ensures queue[0] in visited ==>
              Bfs(m, sinks, rank, stack, f, queue, visited, t) == Bfs(m, sinks, rank, stack, f, queue[1..], visited, t)
    ensures queue[0] !in visited ==>
              var b := queue[0];
              var here := Instrs(m, sinks, rank, stack, f, f.blocks[b].instrs, 0, t);
              var rest := Bfs(m, sinks, rank, stack, f, queue[1..] + Unseen(f.blocks[b].succs, visited + {b}),
                              visited + {b}, here.taint);
              Bfs(m, sinks, rank, stack, f, queue, visited, t) == Outcome(rest.taint, here.reports + rest.reports)
  {
    assert f.blocks[queue[0]] in f.blocks;
  }

  /** The instructions of one block from position `k` on, in program order. */
  function Instrs(m: Module, sinks: seq<Sink>, rank: map<string, nat>, stack: seq<InstrId>,
                  f: Function, instrs: seq<Instr>, k: nat, t: set<Value>): (r: Outcome)
    requires Ranked(m, rank) && f in m && CallsDescend(m, rank, f.name, instrs) && k <= |instrs|
    ensures t <= r.taint
    decreases rank[f.name], 2, |instrs| - k
  {
    if k == |instrs| then Outcome(t, [])
    else
      assert instrs[k] in instrs;
      var here := Step(m, sinks, rank, stack, f, instrs[k], t);
      Resume(here.reports, Instrs(m, sinks, rank, stack, f, instrs, k + 1, here.taint))
  }

  /** One instruction: a call leaves the caller's taint set as it is and
      may produce reports; every other opcode follows its transfer rule. */
  function Step(m: Module, sinks: seq<Sink>, rank: map<string, nat>, stack: seq<InstrId>,
                f: Function, i: Instr, t: set<Value>): (r: Outcome)
    requires Ranked(m, rank) && f in m
    requires i.Call? && i.callee.Some? ==> Descends(m, rank, f.name, i.callee.value)
    ensures t <= r.taint
    ensures i.Call? || i.Other? ==> r.taint == t
    ensures !i.Call? ==> r.reports == []
    decreases rank[f.name], 1
  {
    match i
    case Call(id, callee, args) => Outcome(t, CallReports(m, sinks, rank, stack, f, id, callee, args, t))
    case _ => Outcome(Transfer(i, t), [])
  }

  /** The reports of a call `id` to `callee` with arguments `args` made from
      `f` under taint set `t`. An unresolved callee is a no-op. A sink
      reports once when its argument position is tainted, and is never
      descended into. Any other callee with a body is traversed under the
      backtrace with `id` pushed, starting from the formals at the tainted
      positions, provided there is at least one. */
  function CallReports(m: Module, sinks: seq<Sink>, rank: map<string, nat>, stack: seq<InstrId>,
                       f: Function, id: InstrId, callee: Option<string>, args: seq<Value>,
                       t: set<Value>): (r: seq<Report>)
    requires Ranked(m, rank) && f in m
    requires callee.Some? ==> Descends(m, rank, f.name, callee.value)
    ensures callee.None? ==> r == []
    ensures callee.Some? && SinkIndex(sinks, callee.value).Some? ==> r == [] || r == [Trace(id, stack)]
    decreases rank[f.name], 0
  {
    match callee
    case None => []
    case Some(name) =>
      var slots := Slots(args, t);
      match SinkIndex(sinks, name)
      case Some(k) =>
        if k in slots then [Trace(id, stack)] else []
      case None =>
        match Lookup(m, name)
        case None => []
        case Some(g) =>
          if |g.blocks| == 0 then []
          else
            var entry := MapFormals(g.formals, slots);
            if entry == {} then []
            else
              Traverse(m, sinks, rank, stack + [id], g, entry).reports
  }

  /** The reports of the whole analysis: one traversal of `main` whose only
      tainted value at the start is its second formal. */
  function Analysis(m: Module, sinks: seq<Sink>, rank: map<string, nat>, stack: seq<InstrId>,
                    mainF: Function): (r: seq<Report>)
    requires Ranked(m, rank) && mainF in m && |mainF.formals| >= 2
    ensures forall rep :: rep in r ==> EndsWith(rep, stack)
  {
    TraverseReportsEndWith(m, sinks, rank, stack, mainF, {mainF.formals[1]});
    Traverse(m, sinks, rank, stack, mainF, {mainF.formals[1]}).reports
  }

  /** A function without blocks is a no-op: the taint set is returned as it
      came and nothing is reported. */
  lemma DeclarationIsNoOp(m: Module, sinks: seq<Sink>, rank: map<string, nat>, stack: seq<InstrId>,
                          f: Function, t: set<Value>)
    requires Ranked(m, rank) && f in m && |f.blocks| == 0
    ensures Traverse(m, sinks, rank, stack, f, t) == Outcome(t, [])
  {
  }

  /** A call to a sink reports once, with the current backtrace, exactly when
      the sink's argument position holds a tainted argument; a position at or
      past the number of arguments never matches. A sink is never descended
      into, so nothing else is reported. */
  lemma SinkCallReports(m: Module, sinks: seq<Sink>, rank: map<string, nat>, stack: seq<InstrId>,
                        f: Function, id: InstrId, name: string, args: seq<Value>, t: set<Value>)
    requires Ranked(m, rank) && f in m && Descends(m, rank, f.name, name)
    requires SinkIndex(sinks, name).Some?
    ensures var k := SinkIndex(sinks, name).value;
            CallReports(m, sinks, rank, stack, f, id, Some(name), args, t) ==
            if 0 <= k < |args| && args[k] in t then [Trace(id, stack)] else []
    ensures SinkIndex(sinks, name).value >= |args| ==> CallReports(m, sinks, rank, stack, f, id, Some(name), args, t) == []
  {
  }

  /** A callee's initial taint set holds exactly its formals whose position
      carries a tainted argument. */
  lemma EntryTaint(formals: seq<Value>, args: seq<Value>, t: set<Value>)
    ensures forall v :: v in MapFormals(formals, Slots(args, t)) <==>
                        exists i :: 0 <= i < |formals| && i < |args| && args[i] in t && formals[i] == v
  {
    forall v | v in MapFormals(formals, Slots(args, t))
      ensures exists i :: 0 <= i < |formals| && i < |args| && args[i] in t && formals[i] == v
    {
      var i :| 0 <= i < |formals| && i in Slots(args, t) && formals[i] == v;
      assert i < |args| && args[i] in t;
    }
    forall v | exists i :: 0 <= i < |formals| && i < |args| && args[i] in t && formals[i] == v
      ensures v in MapFormals(formals, Slots(args, t))
    {
      var i :| 0 <= i < |formals| && i < |args| && args[i] in t && formals[i] == v;
      assert i in Slots(args, t);
    }
  }

  /** A call none of whose arguments is tainted reports nothing: it matches
      no sink position and starts no descent. */
  lemma UntaintedCallIsSilent(m: Module, sinks: seq<Sink>, rank: map<string, nat>, stack: seq<InstrId>,
                              f: Function, id: InstrId, callee: Option<string>, args: seq<Value>, t: set<Value>)
    requires Ranked(m, rank) && f in m
    requires callee.Some? ==> Descends(m, rank, f.name, callee.value)
    requires forall i :: 0 <= i < |args| ==> args[i] !in t
    ensures CallReports(m, sinks, rank, stack, f, id, callee, args, t) == []
  {
    assert Slots(args, t) == {};
    if callee.Some? && SinkIndex(sinks, callee.value).None? && Lookup(m, callee.value).Some? {
      var g := Lookup(m, callee.value).value;
      assert MapFormals(g.formals, {}) == {};
    }
  }

  /** A call to a non-sink callee without a body (an external declaration,
      or a name the module does not define) reports nothing. */
  lemma ExternalCallIsSilent(m: Module, sinks: seq<Sink>, rank: map<string, nat>, stack: seq<InstrId>,
                             f: Function, id: InstrId, name: string, args: seq<Value>, t: set<Value>)
    requires Ranked(m, rank) && f in m && Descends(m, rank, f.name, name)
    requires SinkIndex(sinks, name).None?
    requires Lookup(m, name).None? || |Lookup(m, name).value.blocks| == 0
    ensures CallReports(m, sinks, rank, stack, f, id, Some(name), args, t) == []
  {
  }

  /** A call to a non-sink callee with a body none of whose formals receives
      a tainted argument (tainted arguments past the last formal are
      dropped) starts no descent and reports nothing. */
  lemma UnmappedCallIsSilent(m: Module, sinks: seq<Sink>, rank: map<string, nat>, stack: seq<InstrId>,
                             f: Function, id: InstrId, name: string, args: seq<Value>, t: set<Value>)
    requires Ranked(m, rank) && f in m && Descends(m, rank, f.name, name)
    requires SinkIndex(sinks, name).None? && Lookup(m, name).Some?
    requires !exists i :: 0 <= i < |Lookup(m, name).value.formals| && i < |args| && args[i] in t
    ensures CallReports(m, sinks, rank, stack, f, id, Some(name), args, t) == []
  {
    var g := Lookup(m, name).value;
    EntryTaint(g.formals, args, t);
    assert MapFormals(g.formals, Slots(args, t)) == {};
  }

  /** A call to a non-sink callee with a body, at least one of whose formals
      receives a tainted argument, reports exactly what the traversal of the
      callee reports from those formals, with the call pushed on the
      backtrace; each of those reports therefore ends with the call and then
      the caller's backtrace. */
  lemma DescentReports(m: Module, sinks: seq<Sink>, rank: map<string, nat>, stack: seq<InstrId>,
                       f: Function, id: InstrId, name: string, args: seq<Value>, t: set<Value>)
    requires Ranked(m, rank) && f in m && Descends(m, rank, f.name, name)
    requires SinkIndex(sinks, name).None? && Lookup(m, name).Some?
    requires |Lookup(m, name).value.blocks| > 0
    requires exists i :: 0 <= i < |Lookup(m, name).value.formals| && i < |args| && args[i] in t
    ensures var g := Lookup(m, name).value;
            g in m &&
            CallReports(m, sinks, rank, stack, f, id, Some(name), args, t) ==
            Traverse(m, sinks, rank, stack + [id], g, MapFormals(g.formals, Slots(args, t))).reports
    ensures forall rep :: rep in CallReports(m, sinks, rank, stack, f, id, Some(name), args, t) ==>
                          EndsWith(rep, stack + [id])
  {
    var g := Lookup(m, name).value;
    var i :| 0 <= i < |g.formals| && i < |args| && args[i] in t;
    EntryTaint(g.formals, args, t);
    assert g.formals[i] in MapFormals(g.formals, Slots(args, t));
    TraverseReportsEndWith(m, sinks, rank, stack + [id], g, MapFormals(g.formals, Slots(args, t)));
  }

  // ---------------------------------------------------------------------
  // Every report ends with the backtrace it was produced under

  lemma {:induction false} TraverseReportsEndWith(m: Module, sinks: seq<Sink>, rank: map<string, nat>,
                                                  stack: seq<InstrId>, f: Function, t: set<Value>)
    requires Ranked(m, rank) && f in m
    ensures forall rep :: rep in Traverse(m, sinks, rank, stack, f, t).reports ==> EndsWith(rep, stack)
    decreases rank[f.name], 4
  {
    if |f.blocks| > 0 {
      BfsReportsEndWith(m, sinks, rank, stack, f, [0], {}, t);
    }
  }

  lemma {:induction false} BfsReportsEndWith(m: Module, sinks: seq<Sink>, rank: map<string, nat>, stack: seq<InstrId>,
                                             f: Function, queue: seq<nat>, visited: set<nat>, t: set<Value>)
    requires Ranked(m, rank) && f in m && InBlocks(f, queue)
    ensures forall rep :: rep in Bfs(m, sinks, rank, stack, f, queue, visited, t).reports ==> EndsWith(rep, stack)
    decreases rank[f.name], 3, Unvisited(|f.blocks|, visited), |queue|
  {
    if queue != [] {
      BfsUnfold(m, sinks, rank, stack, f, queue, visited, t);
      var b := queue[0];
      if b in visited {
        BfsReportsEndWith(m, sinks, rank, stack, f, queue[1..], visited, t);
      } else {
        VisitShrinks(|f.blocks|, visited, b);
        var here := Instrs(m, sinks, rank, stack, f, f.blocks[b].instrs, 0, t);
        InstrsReportsEndWith(m, sinks, rank, stack, f, f.blocks[b].instrs, 0, t);
        BfsReportsEndWith(m, sinks, rank, stack, f, queue[1..] + Unseen(f.blocks[b].succs, visited + {b}),
                          visited + {b}, here.taint);
      }
    }
  }

  lemma {:induction false} InstrsReportsEndWith(m: Module, sinks: seq<Sink>, rank: map<string, nat>, stack: seq<InstrId>,
                                                f: Function, instrs: seq<Instr>, k: nat, t: set<Value>)
    requires Ranked(m, rank) && f in m && CallsDescend(m, rank, f.name, instrs) && k <= |instrs|
    ensures forall rep :: rep in Instrs(m, sinks, rank, stack, f, instrs, k, t).reports ==> EndsWith(rep, stack)
    decreases rank[f.name], 2, |instrs| - k
  {
    if k < |instrs| {
      assert instrs[k] in instrs;
      var here := Step(m, sinks, rank, stack, f, instrs[k], t);
      if instrs[k].Call? {
        CallReportsEndWith(m, sinks, rank, stack, f, instrs[k].id, instrs[k].callee, instrs[k].args, t);
      }
      InstrsReportsEndWith(m, sinks, rank, stack, f, instrs, k + 1, here.taint);
    }
  }

  lemma {:induction false} CallReportsEndWith(m: Module, sinks: seq<Sink>, rank: map<string, nat>, stack: seq<InstrId>,
                                              f: Function, id: InstrId, callee: Option<string>, args: seq<Value>,
                                              t: set<Value>)
    requires Ranked(m, rank) && f in m
    requires callee.Some? ==> Descends(m, rank, f.name, callee.value)
    ensures forall rep :: rep in CallReports(m, sinks, rank, stack, f, id, callee, args, t) ==> EndsWith(rep, stack)
    decreases rank[f.name], 1
  {
    if callee.Some? {
      var name := callee.value;
      var slots := Slots(args, t);
      if SinkIndex(sinks, name).Some? {
        TraceEndsWith(id, stack);
      } else if Lookup(m, name).Some? {
        var g := Lookup(m, name).value;
        var entry := MapFormals(g.formals, slots);
        if |g.blocks| > 0 && entry != {} {
          TraverseReportsEndWith(m, sinks, rank, stack + [id], g, entry);
          EndsWithPop(stack, id);
        }
      }
    }
  }

  // ---------------------------------------------------------------------
  // The order in which blocks are processed

  /** The blocks the walk processes, in order, from a queue and visited set.
      It depends on the control-flow graph only, never on taint. Each block
      occurs at most once, and never one that was already visited. */
  function BfsOrder(f: Function, queue: seq<nat>, visited: set<nat>): (r: seq<nat>)
    requires WellFormedCfg(f)
    requires InBlocks(f, queue)
    ensures forall k :: 0 <= k < |r| ==> r[k] < |f.blocks| && r[k] !in visited
    ensures forall j, k :: 0 <= j < k < |r| ==> r[j] != r[k]
    decreases Unvisited(|f.blocks|, visited), |queue|
  {
    if queue == [] then []
    else
      var b := queue[0];
      if b in visited then BfsOrder(f, queue[1..], visited)
      else
        assert f.blocks[b] in f.blocks;
        VisitShrinks(|f.blocks|, visited, b);
        [b] + BfsOrder(f, queue[1..] + Unseen(f.blocks[b].succs, visited + {b}), visited + {b})
  }

  /** The blocks one traversal of `f` processes, in order. */
  function Order(f: Function): (r: seq<nat>)
    requires WellFormedCfg(f)
  {
    if |f.blocks| == 0 then [] else BfsOrder(f, [0], {})
  }

  /** Processing the listed blocks of `f` one after the other. */
  function RunBlocks(m: Module, sinks: seq<Sink>, rank: map<string, nat>, stack: seq<InstrId>,
                     f: Function, order: seq<nat>, t: set<Value>): (r: Outcome)
    requires Ranked(m, rank) && f in m
    requires InBlocks(f, order)
    ensures t <= r.taint
  {
    if order == [] then Outcome(t, [])
    else
      assert f.blocks[order[0]] in f.blocks;
      var here := Instrs(m, sinks, rank, stack, f, f.blocks[order[0]].instrs, 0, t);
      var rest := RunBlocks(m, sinks, rank, stack, f, order[1..], here.taint);
      Outcome(rest.taint, here.reports + rest.reports)
  }

  /** The walk from a queue and visited set processes exactly the blocks
      of BfsOrder, in that order. */
  lemma {:induction false} BfsRunsOrder(m: Module, sinks: seq<Sink>, rank: map<string, nat>, stack: seq<InstrId>,
                                        f: Function, queue: seq<nat>, visited: set<nat>, t: set<Value>)
    requires Ranked(m, rank) && f in m
    requires InBlocks(f, queue)
    ensures Bfs(m, sinks, rank, stack, f, queue, visited, t) ==
            RunBlocks(m, sinks, rank, stack, f, BfsOrder(f, queue, visited), t)
    decreases Unvisited(|f.blocks|, visited), |queue|
  {
    if queue != [] {
      var b := queue[0];
      if b in visited {
        BfsRunsOrder(m, sinks, rank, stack, f, queue[1..], visited, t);
      } else {
        assert f.blocks[b] in f.blocks;
        VisitShrinks(|f.blocks|, visited, b);
        var here := Instrs(m, sinks, rank, stack, f, f.blocks[b].instrs, 0, t);
        var next := queue[1..] + Unseen(f.blocks[b].succs, visited + {b});
        BfsRunsOrder(m, sinks, rank, stack, f, next, visited + {b}, here.taint);
        var order := BfsOrder(f, next, visited + {b});
        assert ([b] + order)[1..] == order;
      }
    }
  }

  /** The extension of a walk to a successor block. */
  lemma SuccessorReachable(f: Function, b: nat, s: nat)
    requires WellFormedCfg(f) && b < |f.blocks| && Reachable(f, b)
    requires s in f.blocks[b].succs
    ensures Reachable(f, s)
  {
    assert f.blocks[b] in f.blocks;
    var p :| IsPath(f, p) && |p| > 0 && p[0] == 0 && p[|p| - 1] == b;
    var q := p + [s];
    assert IsPath(f, q);
  }

  /** Every block the walk processes is reachable, when every queued block is. */
  lemma {:induction false} BfsOrderReachable(f: Function, queue: seq<nat>, visited: set<nat>)
    requires WellFormedCfg(f)
    requires forall k :: 0 <= k < |queue| ==> queue[k] < |f.blocks| && Reachable(f, queue[k])
    ensures forall k :: 0 <= k < |BfsOrder(f, queue, visited)| ==> Reachable(f, BfsOrder(f, queue, visited)[k])
    decreases Unvisited(|f.blocks|, visited), |queue|
  {
    if queue != [] {
      var b := queue[0];
      if b in visited {
        BfsOrderReachable(f, queue[1..], visited);
      } else {
        assert f.blocks[b] in f.blocks;
        VisitShrinks(|f.blocks|, visited, b);
        var added := Unseen(f.blocks[b].succs, visited + {b});
        forall k | 0 <= k < |added|
          ensures added[k] < |f.blocks| && Reachable(f, added[k])
        {
          SuccessorReachable(f, b, added[k]);
        }
        BfsOrderReachable(f, queue[1..] + added, visited + {b});
      }
    }
  }

  /** Every successor of a visited block is visited or still queued. */
  ghost predicate Closed(f: Function, visited: set<nat>, queue: seq<nat>)
  {
    forall v, s :: v in visited && v < |f.blocks| && s in f.blocks[v].succs ==> s in visited || s in queue
  }

  /** When every successor of a visited block is visited or queued, the walk
      processes every queued block not yet visited, and afterwards every
      successor of a visited or processed block is itself visited or
      processed. */
  lemma {:induction false} BfsOrderCloses(f: Function, queue: seq<nat>, visited: set<nat>)
    requires WellFormedCfg(f) && InBlocks(f, queue) && Closed(f, visited, queue)
    ensures forall x :: x in queue ==> x in visited || x in BfsOrder(f, queue, visited)
    ensures forall v, s :: (v in visited || v in BfsOrder(f, queue, visited)) && v < |f.blocks| && s in f.blocks[v].succs ==>
                           s in visited || s in BfsOrder(f, queue, visited)
    decreases Unvisited(|f.blocks|, visited), |queue|
  {
    if queue != [] {
      var b := queue[0];
      assert forall x :: x in queue ==> x == b || x in queue[1..];
      if b in visited {
        BfsOrderCloses(f, queue[1..], visited);
      } else {
        assert f.blocks[b] in f.blocks;
        VisitShrinks(|f.blocks|, visited, b);
        var next := queue[1..] + Unseen(f.blocks[b].succs, visited + {b});
        assert Closed(f, visited + {b}, next);
        BfsOrderCloses(f, next, visited + {b});
        assert BfsOrder(f, queue, visited) == [b] + BfsOrder(f, next, visited + {b});
      }
    }
  }

  /** A walk from a block of `order` stays in `order` when `order` holds
      every successor of its blocks. */
  lemma {:induction false} ClosedHoldsPath(f: Function, order: seq<nat>, p: seq<nat>)
    requires IsPath(f, p) && |p| > 0 && p[0] in order
    requires forall v, s :: v in order && v < |f.blocks| && s in f.blocks[v].succs ==> s in order
    ensures p[|p| - 1] in order
    decreases |p|
  {
    if |p| > 1 {
      var q := p[..|p| - 1];
      assert IsPath(f, q);
      ClosedHoldsPath(f, order, q);
      assert p[|p| - 1] in f.blocks[q[|q| - 1]].succs;
    }
  }

  /** One traversal of `f` processes the instructions of exactly the blocks of
      Order(f), one block after the other: each of them at most once, each
      reachable from the entry block, and every block reachable from the
      entry block among them. */
  lemma TraverseProcessesReachableOnce(m: Module, sinks: seq<Sink>, rank: map<string, nat>, stack: seq<InstrId>,
                                       f: Function, t: set<Value>)
    requires Ranked(m, rank) && f in m
    ensures Traverse(m, sinks, rank, stack, f, t) == RunBlocks(m, sinks, rank, stack, f, Order(f), t)
    ensures forall j, k :: 0 <= j < k < |Order(f)| ==> Order(f)[j] != Order(f)[k]
    ensures forall k :: 0 <= k < |Order(f)| ==> Reachable(f, Order(f)[k])
    ensures forall b :: Reachable(f, b) ==> b in Order(f)
  {
    if |f.blocks| > 0 {
      BfsRunsOrder(m, sinks, rank, stack, f, [0], {}, t);
      assert IsPath(f, [0]);
      BfsOrderReachable(f, [0], {});
      BfsOrderCloses(f, [0], {});
      forall b | Reachable(f, b)
        ensures b in Order(f)
      {
        var p :| IsPath(f, p) && |p| > 0 && p[0] == 0 && p[|p| - 1] == b;
        ClosedHoldsPath(f, Order(f), p);
      }
    }
  }
}
