/** The outcome of the analysis, proved on two small modules: a tainted
    value reaching `strcpy` directly in `main`, and the same value reaching
    it through a helper function called by name. */
module Scenarios {
  import opened Ir
  import opened Rules
  import opened Traversal

  /** `main(argc, argv)` with argc = 0 and argv = 1:
        store argv, p        (p = 2)
        v = load p           (v = 3)
        call strcpy(dst, v)  (dst = 4, call id 10) */
  const DirectMain := Function("main", [0, 1],
                               [Block([Store(1, 2), Load(3, 2), Call(10, Some("strcpy"), [4, 3])], [])])

  /** `helper(p0)` with p0 = 20: call strcpy(local, p0), local = 21, call id 11. */
  const Helper := Function("helper", [20], [Block([Call(11, Some("strcpy"), [21, 20])], [])])

  /** `main` as in DirectMain, but the third instruction is call helper(v), call id 12. */
  const HelperMain := Function("main", [0, 1],
                                 [Block([Store(1, 2), Load(3, 2), Call(12, Some("helper"), [3])], [])])

  const Sinks: seq<Sink> := [StrcpySink]
  const DirectModule: Module := [DirectMain]
  const DirectRank: map<string, nat> := map["main" := 0]
  const HelperModule: Module := [HelperMain, Helper]
  const HelperRank: map<string, nat> := map["main" := 1, "helper" := 0]

  /** In both versions of `main`, the store taints `p` and the load taints `v`. */
  lemma StoreThenLoad()
    ensures Transfer(Store(1, 2), {1}) == {1, 2}
    ensures Transfer(Load(3, 2), {1, 2}) == {1, 2, 3}
  {
  }

  lemma DirectModuleRanked()
    ensures Ranked(DirectModule, DirectRank)
  {
    assert Lookup(DirectModule, "strcpy") == None;
  }

  lemma HelperModuleRanked()
    ensures Ranked(HelperModule, HelperRank)
  {
    assert Lookup(HelperModule, "strcpy") == None;
    assert Lookup(HelperModule, "helper") == Some(Helper);
    assert Descends(HelperModule, HelperRank, "main", "helper");
    assert Descends(HelperModule, HelperRank, "helper", "strcpy");
  }

  /** In `main`, after the store and the load, the call to `strcpy` has its
      second argument tainted and is reported with an empty backtrace. */
  lemma DirectCallReported()
    ensures Ranked(DirectModule, DirectRank)
    ensures Step(DirectModule, Sinks, DirectRank, [], DirectMain, DirectMain.blocks[0].instrs[2], {1, 2, 3}) ==
            Outcome({1, 2, 3}, [[10]])
  {
    DirectModuleRanked();
    SinkCallReports(DirectModule, Sinks, DirectRank, [], DirectMain, 10, "strcpy", [4, 3], {1, 2, 3});
    assert Trace(10, []) == [10];
  }

  /** The tainted argument of the `strcpy` call in `main` is reported once,
      at that call, with an empty backtrace. */
  lemma DirectSinkReported()
    ensures Ranked(DirectModule, DirectRank)
    ensures Analysis(DirectModule, Sinks, DirectRank, [], DirectMain) == [[10]]
  {
    DirectCallReported();
    var instrs := DirectMain.blocks[0].instrs;
    var t2 := {1, 2, 3};
    StoreThenLoad();
    assert Instrs(DirectModule, Sinks, DirectRank, [], DirectMain, instrs, 2, t2) == Outcome(t2, [[10]]);
    assert Instrs(DirectModule, Sinks, DirectRank, [], DirectMain, instrs, 1, {1, 2}) == Outcome(t2, [[10]]);
    assert Instrs(DirectModule, Sinks, DirectRank, [], DirectMain, instrs, 0, {1}) == Outcome(t2, [[10]]);
    assert Bfs(DirectModule, Sinks, DirectRank, [], DirectMain, [], {0}, t2) == Outcome(t2, []);
  }

  /** Inside `helper`, entered through the call in `main` with its formal
      tainted, the `strcpy` call is reported with that call as backtrace. */
  lemma HelperReportsUnderCall()
    ensures Ranked(HelperModule, HelperRank)
    ensures Traverse(HelperModule, Sinks, HelperRank, [12], Helper, {20}) == Outcome({20}, [[11, 12]])
  {
    HelperModuleRanked();
    SinkCallReports(HelperModule, Sinks, HelperRank, [12], Helper, 11, "strcpy", [21, 20], {20});
    assert Trace(11, [12]) == [11, 12] by {
      assert [12][..0] == [];
    }
    var hi := Helper.blocks[0].instrs;
    assert Instrs(HelperModule, Sinks, HelperRank, [12], Helper, hi, 0, {20}) == Outcome({20}, [[11, 12]]);
    assert Bfs(HelperModule, Sinks, HelperRank, [12], Helper, [], {0}, {20}) == Outcome({20}, []);
  }

  /** In `main`, the call to `helper` with `v` tainted starts `helper` from
      its formal alone. */
  lemma HelperEntry()
    ensures MapFormals(Helper.formals, Slots([3], {1, 2, 3})) == {20}
  {
    assert 0 in Slots([3], {1, 2, 3});
    assert 20 in MapFormals([20], Slots([3], {1, 2, 3}));
  }

  /** In `main`, the call to `helper` with a tainted argument descends into
      `helper` from its formal and yields the report made there. */
  lemma HelperCallDescends()
    ensures Ranked(HelperModule, HelperRank)
    ensures CallReports(HelperModule, Sinks, HelperRank, [], HelperMain, 12, Some("helper"), [3], {1, 2, 3}) == [[11, 12]]
  {
    HelperReportsUnderCall();
    HelperEntry();
    assert Lookup(HelperModule, "helper") == Some(Helper);
    assert SinkIndex(Sinks, "helper") == None;
    DescentReports(HelperModule, Sinks, HelperRank, [], HelperMain, 12, "helper", [3], {1, 2, 3});
    assert [] + [12] == [12];
  }

  /** The tainted value passed to `helper` reaches `strcpy` through the
      helper's formal: one report, at the `strcpy` call in `helper`, whose
      backtrace is the call to `helper` in `main`. */
  lemma SinkReportedThroughHelper()
    ensures Ranked(HelperModule, HelperRank)
    ensures Analysis(HelperModule, Sinks, HelperRank, [], HelperMain) == [[11, 12]]
  {
    HelperCallDescends();
    var mi := HelperMain.blocks[0].instrs;
    assert Step(HelperModule, Sinks, HelperRank, [], HelperMain, mi[2], {1, 2, 3}) == Outcome({1, 2, 3}, [[11, 12]]);
    var t2 := {1, 2, 3};
    StoreThenLoad();
    assert Instrs(HelperModule, Sinks, HelperRank, [], HelperMain, mi, 2, t2) == Outcome(t2, [[11, 12]]);
    assert Instrs(HelperModule, Sinks, HelperRank, [], HelperMain, mi, 1, {1, 2}) == Outcome(t2, [[11, 12]]);
    assert Instrs(HelperModule, Sinks, HelperRank, [], HelperMain, mi, 0, {1}) == Outcome(t2, [[11, 12]]);
    assert Bfs(HelperModule, Sinks, HelperRank, [], HelperMain, [], {0}, t2) == Outcome(t2, []);
  }
}
