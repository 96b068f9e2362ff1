/** `extractInitializer`: the reference-type guard, the choice of the field
    write to start from, the worklist slice, and the returned list. */
module Initializer {
  import opened Opcodes
  import opened Results
  import opened Insns
  import opened StackEffect
  import opened Slicer
  import opened Assembly

  /** `Type.getSort` values of the two reference sorts. */
  const ARRAY_SORT := 9
  const OBJECT_SORT := 10

  /** The field whose initializer is sought, as the class model describes it:
      owner class name, name, descriptor and the sort of its type. */
  datatype Field = Field(owner: string, name: string, desc: string, sort: int)

  /** The class model's answer to "does class `owner` resolve the field
      (`name`, `desc`) to the field being sliced?". */
  type Resolver = (string, string, string) -> bool

  /** `Type.isPrimitive` as written: `sort != OBJECT || sort != ARRAY`, which
      holds for every sort, since no sort equals both. */
  function IsPrimitive(sort: int): (r: bool)
    ensures r
  {
    sort != OBJECT_SORT || sort != ARRAY_SORT
  }

  /** What the getter evidently means: the sort is neither of the two
      reference sorts. */
  function IsPrimitiveIntended(sort: int): (r: bool)
    ensures r <==> sort !in {OBJECT_SORT, ARRAY_SORT}
    ensures r ==> IsPrimitive(sort)
  {
    sort != OBJECT_SORT && sort != ARRAY_SORT
  }

  /** Every sort passes the guard as written, the object and array sorts
      included; the intended guard stops exactly those two. */
  lemma GuardPassesReferenceSorts()
    ensures IsPrimitive(OBJECT_SORT) && IsPrimitive(ARRAY_SORT)
    ensures !IsPrimitiveIntended(OBJECT_SORT) && !IsPrimitiveIntended(ARRAY_SORT)
  {
  }

  /** `insn` stores to the field: a PUTFIELD or PUTSTATIC with the field's
      name and descriptor whose owner is the field's owner or resolves to it. */
  predicate WritesField(insn: Insn, field: Field, resolves: Resolver) {
    && insn.FieldInsn?
    && (insn.op == PUTFIELD || insn.op == PUTSTATIC)
    && insn.name == field.name
    && insn.desc == field.desc
    && (insn.owner == field.owner || resolves(insn.owner, insn.name, insn.desc))
  }

  /** `insn` reports PUTFIELD or PUTSTATIC without being a field node, so the
      cast to a field node fails. */
  predicate FailsFieldCast(insn: Insn) {
    (insn.Opcode() == PUTFIELD || insn.Opcode() == PUTSTATIC) && !insn.FieldInsn?
  }

  /** The position of the first write of the field in program order. */
  function FindTarget(insns: seq<Insn>, field: Field, resolves: Resolver): (r: Result<Option<nat>>)
    ensures r.Ok? && r.value.Some? ==>
              && r.value.value < |insns|
              && WritesField(insns[r.value.value], field, resolves)
              && forall k :: 0 <= k < r.value.value ==> !WritesField(insns[k], field, resolves) && !FailsFieldCast(insns[k])
    ensures r == Ok(None) ==>
              forall k :: 0 <= k < |insns| ==> !WritesField(insns[k], field, resolves) && !FailsFieldCast(insns[k])
    ensures r.Err? ==>
              && r.error == BadCast
              && exists q :: 0 <= q < |insns| && FailsFieldCast(insns[q])
                   && forall k :: 0 <= k < q ==> !WritesField(insns[k], field, resolves)
  {
    FirstMatch(insns, 0, insn => WritesField(insn, field, resolves), FailsFieldCast)
  }

  /** Target selection followed by the worklist, with pop counts from `pop`:
      the marked positions, or `None` when the method never writes the field. */
  method SliceField(field: Field, m: Analyzed, resolves: Resolver, pop: PopCount) returns (r: Result<Option<Trace>>)
    ensures var found := FindTarget(m.insns, field, resolves);
            && (found.Err? ==> r == Err(BadCast))
            && (found == Ok(None) ==> r == Ok(None))
            && (found.Ok? && found.value.Some? ==>
                  var t := found.value.value;
                  && t < |m.insns| && WritesField(m.insns[t], field, resolves)
                  && (r.Ok? ==> r.value.Some? && LeastClosed(m, pop, t, r.value.value.visited))
                  && (r.Ok? ==> forall b :: b in r.value.value.visited ==> b < |m.insns|)
                  && (r.Err? ==> forall s: set<nat> :: t in s ==> !Closed(m, pop, s)))
  {
    var found :- FindTarget(m.insns, field, resolves);
    if found.None? {
      return Ok(None);
    }
    var trace :- Slice(m, pop, found.value);
    r := Ok(Some(trace));
  }

  /** `extractInitializer` after its guard, as written: the first write of the
      field is sliced with the table of `Interpreter.simulate`, and the list returned runs from
      the method's first instruction to the last marked one. */
  method InitializerBody(field: Field, m: Analyzed, resolves: Resolver) returns (r: Result<seq<Insn>>, ghost visited: set<nat>)
    ensures FindTarget(m.insns, field, resolves).Err? ==> r == Err(BadCast)
    ensures FindTarget(m.insns, field, resolves) == Ok(None) ==> r == Ok([])
    ensures r.Ok? ==> |r.value| <= |m.insns| && r.value == m.insns[..|r.value|]
    ensures var found := FindTarget(m.insns, field, resolves);
            found.Ok? && found.value.Some? ==>
              var t := found.value.value;
              && (r.Ok? ==>
                    && LeastClosed(m, Simulate, t, visited)
                    && r.value == AssembleAsWritten(m.insns, visited))
              && (r.Err? ==> forall s: set<nat> :: t in s ==> !Closed(m, Simulate, s))
  {
    visited := {};
    ghost var found := FindTarget(m.insns, field, resolves);
    var sliced := SliceField(field, m, resolves, Simulate);
    if sliced.Err? {
      return Err(sliced.error), {};
    }
    if sliced.value.None? {
      assert found == Ok(None);
      return Ok([]), {};
    }
    assert found.Ok? && found.value.Some?;
    var trace := sliced.value.value;
    visited := trace.visited;
    r := Ok(AssembleAsWritten(m.insns, trace.visited));
  }

  /** `extractInitializer` as written. The guard `isPrimitive` holds for every
      field, so the result is always the empty list. */
  method ExtractInitializer(field: Field, m: Analyzed, resolves: Resolver) returns (r: Result<seq<Insn>>)
    ensures r == Ok([])
  {
    if IsPrimitive(field.sort) {
      return Ok([]);
    }
    ghost var visited;
    r, visited := InitializerBody(field, m, resolves);
  }

  /** `extractInitializer` as evidently intended: primitive fields are
      skipped, reference fields are sliced with the repaired table, and the
      list holds exactly the marked instructions in program order. */
  method ExtractInitializerIntended(field: Field, m: Analyzed, resolves: Resolver)
    returns (r: Result<seq<Insn>>, ghost visited: set<nat>)
    ensures IsPrimitiveIntended(field.sort) ==> r == Ok([])
    ensures !IsPrimitiveIntended(field.sort) ==>
              var found := FindTarget(m.insns, field, resolves);
              && (found.Err? ==> r == Err(BadCast))
              && (found == Ok(None) ==> r == Ok([]))
              && (found.Ok? && found.value.Some? ==>
                    var t := found.value.value;
                    && (r.Ok? ==>
                          && LeastClosed(m, SimulateFixed, t, visited)
                          && |r.value| == |visited|
                          && var ps := MarkedFrom(visited, 0, |m.insns|);
                             |ps| == |r.value| && forall k :: 0 <= k < |ps| ==> r.value[k] == m.insns[ps[k]])
                    && (r.Err? ==> forall s: set<nat> :: t in s ==> !Closed(m, SimulateFixed, s)))
  {
    visited := {};
    if IsPrimitiveIntended(field.sort) {
      return Ok([]), {};
    }
    var sliced := SliceField(field, m, resolves, SimulateFixed);
    if sliced.Err? {
      return Err(sliced.error), {};
    }
    if sliced.value.None? {
      return Ok([]), {};
    }
    var trace := sliced.value.value;
    visited := trace.visited;
    r := Ok(AssembleMarked(m.insns, trace.visited));
  }
}
