/** Two places where the pass, as written, does not do what it evidently
    means to do: the sink lookup keeps a pointer into a loop variable that
    is gone when it is read, and an indirect call dereferences a null
    callee. Each is modelled as written, next to the corrected behaviour,
    which is what the call handling of the model (Traversal.CallReports)
    does. */
module Findings {
  import opened Ir
  import opened Rules
  import opened Traversal

  /** The outcome of a computation that may have undefined behaviour. */
  datatype Behaviour<T> = Defined(value: T) | Undefined

  /** The sink lookup of a call as written. The loop over the sinks binds
      each sink by value and keeps the address of that copy; the copy's
      lifetime ends with the loop, so reading the argument position through
      the pointer afterwards is undefined whenever some sink matched. An
      indirect call has a null callee, whose name is read in that loop and,
      when no sink is registered, whose size is read after it. */
  function SinkLookupAsWritten(sinks: seq<Sink>, callee: Option<string>): (r: Behaviour<Option<int>>)
    ensures callee.None? ==> r.Undefined?
    ensures callee.Some? ==> (r.Undefined? <==> exists j :: 0 <= j < |sinks| && sinks[j].name == callee.value)
    ensures r.Defined? ==> r.value.None?
  {
    match callee
    case None => Undefined
    case Some(name) => if SinkIndex(sinks, name).Some? then Undefined else Defined(None)
  }

  /** The corrected lookup, as the call handling of the model performs it: an
      indirect call matches no sink, and a named callee yields the position
      of the first sink of that name. */
  function SinkLookup(sinks: seq<Sink>, callee: Option<string>): (r: Option<int>)
    ensures r.None? <==> callee.None? || forall j :: 0 <= j < |sinks| ==> sinks[j].name != callee.value
    ensures r.Some? ==> exists j :: 0 <= j < |sinks| && sinks[j].name == callee.value && sinks[j].argc == r.value &&
                                    forall i :: 0 <= i < j ==> sinks[i].name != callee.value
  {
    match callee
    case None => None
    case Some(name) => SinkIndex(sinks, name)
  }

  /** Wherever the code as written is defined it agrees with the corrected
      lookup, and it is undefined exactly on the calls that matter: indirect
      calls and calls to a sink. */
  lemma AsWrittenAgreesWhereDefined(sinks: seq<Sink>, callee: Option<string>)
    ensures SinkLookupAsWritten(sinks, callee).Defined? ==>
              SinkLookupAsWritten(sinks, callee).value == SinkLookup(sinks, callee)
    ensures SinkLookupAsWritten(sinks, callee).Undefined? <==> (callee.None? || SinkLookup(sinks, callee).Some?)
  {
  }

  /** Every call to `strcpy` the pass meets reads the dangling pointer. */
  lemma StrcpyCallReadsDanglingSink()
    ensures SinkLookupAsWritten([StrcpySink], Some("strcpy")).Undefined?
    ensures SinkLookup([StrcpySink], Some("strcpy")) == Some(1)
  {
  }

  /** Every indirect call dereferences a null callee, whatever sinks are
      registered. */
  lemma IndirectCallDereferencesNull()
    ensures SinkLookupAsWritten([StrcpySink], None).Undefined?
    ensures SinkLookupAsWritten([], None).Undefined?
  {
  }

  /** In the corrected model an indirect call is transparent: it leaves the
      taint set as it is and produces no report. */
  lemma IndirectCallIsNoOp(m: Module, sinks: seq<Sink>, rank: map<string, nat>, stack: seq<InstrId>,
                           f: Function, id: InstrId, args: seq<Value>, t: set<Value>)
    requires Ranked(m, rank) && f in m
    ensures Step(m, sinks, rank, stack, f, Call(id, None, args), t) == Outcome(t, [])
  {
  }
}
