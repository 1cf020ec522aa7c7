/** The pass itself: the TaintPass object with its sink list, its backtrace
    stack and the log of reports it emits, and the scans it runs over a
    call's arguments, a callee's formals, the sink list, a phi node's
    incoming values and the module's functions. Each method is proved to
    compute what the Traversal and Rules modules specify. */
module TaintPassModel {
  import opened Ir
  import opened Rules
  import opened Traversal

  /** The positions of a call's arguments that are tainted, collected by
      walking the arguments in order. */
  method TaintedSlots(args: seq<Value>, t: set<Value>) returns (slots: set<int>)
    ensures slots == Slots(args, t)
  {
    slots := {};
    var i := 0;
    while i < |args|
      invariant 0 <= i <= |args|
      invariant slots == set j | 0 <= j < i && args[j] in t
    {
      if args[i] in t {
        slots := slots + {i};
      }
      i := i + 1;
    }
  }

  /** The callee's initial taint set: its formals at the tainted positions,
      collected by walking the formals in order. */
  method MapToFormals(formals: seq<Value>, slots: set<int>) returns (entry: set<Value>)
    ensures entry == MapFormals(formals, slots)
  {
    entry := {};
    var i := 0;
    while i < |formals|
      invariant 0 <= i <= |formals|
      invariant entry == set j | 0 <= j < i && j in slots :: formals[j]
    {
      if i in slots {
        entry := entry + {formals[i]};
      }
      i := i + 1;
    }
  }

  /** The argument index of the first sink whose name is `name`. */
  method FindSink(sinks: seq<Sink>, name: string) returns (index: Option<int>)
    ensures index == SinkIndex(sinks, name)
  {
    index := None;
    var i := 0;
    while i < |sinks|
      invariant 0 <= i <= |sinks|
      invariant forall j :: 0 <= j < i ==> sinks[j].name != name
    {
      if sinks[i].name == name {
        index := Some(sinks[i].argc);
        break;
      }
      i := i + 1;
    }
  }

  /** Whether a phi node has a tainted incoming value; the scan stops at
      the first one. */
  method PhiTainted(incoming: seq<Value>, t: set<Value>) returns (hit: bool)
    ensures hit == AnyTainted(incoming, t)
  {
    hit := false;
    var i := 0;
    while i < |incoming|
      invariant 0 <= i <= |incoming|
      invariant forall j :: 0 <= j < i ==> incoming[j] !in t
    {
      if incoming[i] in t {
        hit := true;
        break;
      }
      i := i + 1;
    }
  }

  /** The first function of the module named `main`, found by walking the
      module's functions in order. */
  method FindMain(m: Module) returns (r: Option<Function>)
    ensures r == Lookup(m, "main")
  {
    r := None;
    var i := 0;
    while i < |m|
      invariant 0 <= i <= |m|
      invariant Lookup(m, "main") == Lookup(m[i..], "main")
    {
      if m[i].name == "main" {
        r := Some(m[i]);
        break;
      }
      assert m[i..][1..] == m[i + 1..];
      i := i + 1;
    }
  }

  /** The queue after a block: its unvisited successors appended at the
      back, in successor order. */
  method EnqueueSuccessors(queue: seq<nat>, succs: seq<nat>, visited: set<nat>) returns (q: seq<nat>)
    ensures q == queue + Unseen(succs, visited)
  {
    q := queue;
    var j := 0;
    while j < |succs|
      invariant 0 <= j <= |succs|
      invariant q == queue + Unseen(succs[..j], visited)
    {
      assert succs[..j + 1][..j] == succs[..j];
      if succs[j] !in visited {
        q := q + [succs[j]];
      }
      j := j + 1;
    }
    assert succs[..j] == succs;
  }

  class TaintPass {
    /** The registered sinks, in registration order. */
    var sinks: seq<Sink>
    /** The calls descended through to reach the function being traversed,
        outermost first. */
    var backtrace: seq<InstrId>
    /** The reports emitted so far, in emission order. */
    var reports: seq<Report>

    constructor ()
      ensures sinks == [] && backtrace == [] && reports == []
    {
      sinks := [];
      backtrace := [];
      reports := [];
    }

    /** Registers `strcpy` with argument position 1 as a sink. */
    method InitializeSinks()
      modifies this`sinks
      ensures sinks == old(sinks) + [StrcpySink]
    {
      sinks := sinks + [StrcpySink];
    }

    /** Emits the report for a violation at `call`: the call, then the
        backtrace walked from its top down to its bottom. */
    method PrintBackTrace(call: InstrId)
      modifies this`reports
      ensures reports == old(reports) + [Trace(call, backtrace)]
    {
      var rep := [call];
      var i := |backtrace| - 1;
      while i >= 0
        invariant -1 <= i < |backtrace|
        invariant reports == old(reports)
        invariant rep == [call] + Reversed(backtrace[i + 1..])
      {
        ReversedCons(backtrace[i], backtrace[i + 1..]);
        assert backtrace[i..] == [backtrace[i]] + backtrace[i + 1..];
        rep := rep + [backtrace[i]];
        i := i - 1;
      }
      assert backtrace[0..] == backtrace;
      assert rep == Trace(call, backtrace);
      reports := reports + [rep];
    }

    /** The taint traversal of `f` from the taint set `tainted`: a
        breadth-first walk of its blocks from the entry block, with a FIFO
        queue and a visited set, each block processed at most once. It
        returns the final taint set, leaves the backtrace as it found it,
        and appends the reports of the traversal. */
    method TraverseFunc(m: Module, ghost rank: map<string, nat>, f: Function, tainted: set<Value>)
      returns (out: set<Value>)
      requires Ranked(m, rank) && f in m
      modifies this`backtrace, this`reports
      ensures backtrace == old(backtrace)
      ensures out == Traverse(m, sinks, rank, old(backtrace), f, tainted).taint
      ensures reports == old(reports) + Traverse(m, sinks, rank, old(backtrace), f, tainted).reports
      decreases rank[f.name], 4
    {
      out := tainted;
      if |f.blocks| == 0 {
        return;
      }
      ghost var sk, st := sinks, backtrace;
      ghost var goal := Traverse(m, sk, rank, st, f, tainted);
      assert goal == Bfs(m, sk, rank, st, f, [0], {}, tainted);
      ghost var emitted: seq<Report> := [];
      var queue: seq<nat> := [0];
      var visited: set<nat> := {};
      while queue != []
        invariant InBlocks(f, queue)
        invariant backtrace == st
        invariant reports == old(reports) + emitted
        invariant goal == Resume(emitted, Bfs(m, sk, rank, st, f, queue, visited, out))
        decreases Unvisited(|f.blocks|, visited), |queue|
      {
        ghost var added;
        queue, visited, out, added := VisitFront(m, sk, rank, st, f, queue, visited, out);
        ResumeTwice(emitted, added, Bfs(m, sk, rank, st, f, queue, visited, out));
        emitted := emitted + added;
      }
      assert Bfs(m, sk, rank, st, f, queue, visited, out) == Outcome(out, []);
    }

    /** One turn of the walk: pops the front block; unless it was visited,
        marks it visited, processes its instructions and enqueues its
        unvisited successors. */
    method VisitFront(m: Module, ghost sk: seq<Sink>, ghost rank: map<string, nat>, ghost st: seq<InstrId>,
                      f: Function, queue: seq<nat>, visited: set<nat>,
                      tainted: set<Value>) returns (queue': seq<nat>, visited': set<nat>, out: set<Value>, ghost added: seq<Report>)
      requires Ranked(m, rank) && f in m && InBlocks(f, queue) && queue != []
      requires sinks == sk && backtrace == st
      modifies this`backtrace, this`reports
      ensures backtrace == st
      ensures InBlocks(f, queue')
      ensures Unvisited(|f.blocks|, visited') < Unvisited(|f.blocks|, visited) ||
              (visited' == visited && |queue'| < |queue|)
      ensures reports == old(reports) + added
      ensures Bfs(m, sk, rank, st, f, queue, visited, tainted) ==
              Resume(added, Bfs(m, sk, rank, st, f, queue', visited', out))
      decreases rank[f.name], 3
    {
      BfsUnfold(m, sinks, rank, backtrace, f, queue, visited, tainted);
      var b := queue[0];
      queue' := queue[1..];
      visited' := visited;
      out := tainted;
      added := [];
      if b in visited {
        return;
      }
      VisitShrinks(|f.blocks|, visited, b);
      visited' := visited + {b};
      var block := f.blocks[b];
      added := Instrs(m, sinks, rank, backtrace, f, block.instrs, 0, out).reports;
      out := ProcessBlock(m, rank, f, block.instrs, out);
      queue' := EnqueueSuccessors(queue', block.succs, visited');
    }

    /** The instructions of one block of `f`, in program order, each by its
        opcode's rule; calls go to HandleCall. */
    method ProcessBlock(m: Module, ghost rank: map<string, nat>, f: Function, instrs: seq<Instr>,
                        tainted: set<Value>) returns (out: set<Value>)
      requires Ranked(m, rank) && f in m && CallsDescend(m, rank, f.name, instrs)
      modifies this`backtrace, this`reports
      ensures backtrace == old(backtrace)
      ensures out == Instrs(m, sinks, rank, old(backtrace), f, instrs, 0, tainted).taint
      ensures reports == old(reports) + Instrs(m, sinks, rank, old(backtrace), f, instrs, 0, tainted).reports
      decreases rank[f.name], 2
    {
      out := tainted;
      ghost var sk, st := sinks, backtrace;
      ghost var goal := Instrs(m, sk, rank, st, f, instrs, 0, tainted);
      ghost var emitted: seq<Report> := [];
      var k := 0;
      while k < |instrs|
        invariant 0 <= k <= |instrs|
        invariant backtrace == st && sinks == sk
        invariant reports == old(reports) + emitted
        invariant goal == Resume(emitted, Instrs(m, sk, rank, st, f, instrs, k, out))
      {
        assert instrs[k] in instrs;
        ghost var here := Step(m, sk, rank, st, f, instrs[k], out);
        out := ProcessInstr(m, rank, f, instrs[k], out);
        ResumeTwice(emitted, here.reports, Instrs(m, sk, rank, st, f, instrs, k + 1, out));
        emitted := emitted + here.reports;
        k := k + 1;
      }
    }

    /** One instruction of `f`: the switch over its opcode. */
    method ProcessInstr(m: Module, ghost rank: map<string, nat>, f: Function, i: Instr,
                        tainted: set<Value>) returns (out: set<Value>)
      requires Ranked(m, rank) && f in m
      requires i.Call? && i.callee.Some? ==> Descends(m, rank, f.name, i.callee.value)
      modifies this`backtrace, this`reports
      ensures backtrace == old(backtrace)
      ensures out == Step(m, sinks, rank, backtrace, f, i, tainted).taint
      ensures reports == old(reports) + Step(m, sinks, rank, backtrace, f, i, tainted).reports
      decreases rank[f.name], 1
    {
      out := tainted;
      match i {
        case Store(v, p) =>
          if v in out {
            out := out + {p};
          }
        case Load(res, p) =>
          if p in out {
            out := out + {res};
          }
        case Gep(res, base) =>
          if base in out {
            out := out + {res};
          }
        case BitCast(res, src) =>
          if src in out {
            out := out + {res};
          }
        case Phi(res, incoming) =>
          var hit := PhiTainted(incoming, out);
          if hit {
            out := out + {res};
          }
        case Call(id, callee, args) =>
          HandleCall(m, rank, f, id, callee, args, out);
        case Other =>
      }
    }

    /** A call instruction `id` in `caller` to `callee` with arguments `args`,
        under the caller's taint set `tainted`: looks the callee up in the
        sink list and collects the tainted argument positions; a sink is
        reported when its position is tainted, any other callee with a body
        is traversed from the mapped formals with `id` pushed on the
        backtrace for the duration. An unresolved callee is a no-op. The
        caller's taint set is never changed. */
    method HandleCall(m: Module, ghost rank: map<string, nat>, caller: Function, id: InstrId,
                      callee: Option<string>, args: seq<Value>, tainted: set<Value>)
      requires Ranked(m, rank) && caller in m
      requires callee.Some? ==> Descends(m, rank, caller.name, callee.value)
      modifies this`backtrace, this`reports
      ensures backtrace == old(backtrace)
      ensures reports == old(reports) + CallReports(m, sinks, rank, old(backtrace), caller, id, callee, args, tainted)
      decreases rank[caller.name], 0
    {
      if callee.None? {
        return;
      }
      var name := callee.value;
      var sinkIndex := FindSink(sinks, name);
      var slots := TaintedSlots(args, tainted);
      match sinkIndex {
        case Some(k) =>
          if k in slots {
            PrintBackTrace(id);
          }
        case None =>
          var called := Lookup(m, name);
          if called.Some? && |called.value.blocks| > 0 {
            var g := called.value;
            backtrace := backtrace + [id];
            var entry := MapToFormals(g.formals, slots);
            if entry != {} {
              var _ := TraverseFunc(m, rank, g, entry);
            }
            backtrace := backtrace[..|backtrace| - 1];
          }
      }
    }

    /** Seeds the taint set with the second formal of `mainF` and traverses it. */
    method TaintAnalysis(m: Module, ghost rank: map<string, nat>, mainF: Function)
      requires Ranked(m, rank) && mainF in m
      requires |mainF.formals| >= 2
      modifies this`backtrace, this`reports
      ensures backtrace == old(backtrace)
      ensures reports == old(reports) + Traverse(m, sinks, rank, old(backtrace), mainF, {mainF.formals[1]}).reports
    {
      var tainted := {mainF.formals[1]};
      var _ := TraverseFunc(m, rank, mainF, tainted);
    }

    /** The pass over a module: without a function named `main` nothing
        happens but the message that `main` is missing, which `missingMain`
        stands for; otherwise the sinks are registered and `main` is
        analysed. The module is never changed, so the result is always false. */
    method RunOnModule(m: Module, ghost rank: map<string, nat>) returns (changed: bool, missingMain: bool)
      requires Ranked(m, rank)
      requires Lookup(m, "main").Some? ==> |Lookup(m, "main").value.formals| >= 2
      modifies this
      ensures !changed
      ensures missingMain <==> Lookup(m, "main").None?
      ensures backtrace == old(backtrace)
      ensures Lookup(m, "main").None? ==> sinks == old(sinks) && reports == old(reports)
      ensures Lookup(m, "main").Some? ==>
                sinks == old(sinks) + [StrcpySink] &&
                reports == old(reports) + Analysis(m, sinks, rank, old(backtrace), Lookup(m, "main").value)
    {
      var mainF := FindMain(m);
      if mainF.None? {
        return false, true;
      }
      InitializeSinks();
      TaintAnalysis(m, rank, mainF.value);
      return false, false;
    }
  }
}
