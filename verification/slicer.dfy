/** The backward worklist slice: starting from the field write, follow every
    instruction back to the producers of the stack cells it consumes, the
    writers of the local it loads, and (for an allocation) the constructor
    call that initialises the new object. */
module Slicer {
  import opened Opcodes
  import opened Results
  import opened Insns
  import opened StackEffect

  // ---- the three kinds of edge ------------------------------------------------

  /** The union of the origins of the top `n` stack cells, read from the top
      down as `frame.getStack(frame.stackSize - i - 1)` for i below n. */
  function StackOrigins(frame: Option<Frame>, n: nat): (r: Result<set<nat>>)
    ensures r.Ok? <==> n == 0 || (frame.Some? && n <= |frame.value.stack|)
    ensures r.Ok? && n == 0 ==> r.value == {}
    ensures r.Ok? && n > 0 ==>
              forall o :: o in r.value <==>
                exists j :: |frame.value.stack| - n <= j < |frame.value.stack| && o in frame.value.stack[j].origins
    ensures r.Err? ==> r.error == if frame.None? then NullFrame else StackUnderflow(-1)
  {
    if n == 0 then Ok({})
    else
      var below :- StackOrigins(frame, n - 1);
      var cell :- CellFromTop(frame, n);
      Ok(below + cell.origins)
  }

  /** The origins of local slot `slot`, as read by `frame.getLocal(slot)`. */
  function LocalOrigins(frame: Option<Frame>, slot: nat): (r: Result<set<nat>>)
    ensures r.Ok? <==> frame.Some? && slot < |frame.value.locals|
    ensures r.Ok? ==> r.value == frame.value.locals[slot]
    ensures r.Err? ==> r.error == if frame.None? then NullFrame else NoSuchLocal(slot)
  {
    match frame
    case None => Err(NullFrame)
    case Some(f) => if slot < |f.locals| then Ok(f.locals[slot]) else Err(NoSuchLocal(slot))
  }

  /** The first position at or after `from` whose instruction `hit` accepts.
      Both forward scans of `Interpreter.extractInitializer` cast a node
      before inspecting it: a node `bad` picks out, met before any hit, makes
      the scan fail. */
  function FirstMatch(insns: seq<Insn>, from: nat, hit: Insn -> bool, bad: Insn -> bool): (r: Result<Option<nat>>)
    decreases |insns| - from
    ensures r.Ok? && r.value.Some? ==>
              && from <= r.value.value < |insns|
              && hit(insns[r.value.value]) && !bad(insns[r.value.value])
              && forall k :: from <= k < r.value.value ==> !hit(insns[k]) && !bad(insns[k])
    ensures r == Ok(None) ==>
              forall k :: from <= k < |insns| ==> !hit(insns[k]) && !bad(insns[k])
    ensures r.Err? ==>
              && r.error == BadCast
              && exists q :: from <= q < |insns| && bad(insns[q])
                   && forall k :: from <= k < q ==> !hit(insns[k]) && !bad(insns[k])
  {
    if from >= |insns| then Ok(None)
    else if bad(insns[from]) then Err(BadCast)
    else if hit(insns[from]) then Ok(Some(from))
    else FirstMatch(insns, from + 1, hit, bad)
  }

  /** `insn` calls a constructor of `owner`: INVOKESPECIAL of `<init>`. */
  predicate IsConstructorCall(insn: Insn, owner: string) {
    insn.MethodInsn? && insn.op == INVOKESPECIAL && insn.name == "<init>" && insn.owner == owner
  }

  /** `insn` reports INVOKESPECIAL without being a method node, so the cast
      to a method node fails. */
  predicate FailsMethodCast(insn: Insn) {
    insn.Opcode() == INVOKESPECIAL && !insn.MethodInsn?
  }

  /** The first constructor call on `owner` at or after position `from`.
      The scan stops at the first match whether or not it was already
      visited, and does not remember which calls earlier allocations took. */
  function FirstConstructorCall(insns: seq<Insn>, from: nat, owner: string): (r: Result<Option<nat>>)
    ensures r.Ok? && r.value.Some? ==>
              && from <= r.value.value < |insns|
              && IsConstructorCall(insns[r.value.value], owner)
              && forall k :: from <= k < r.value.value ==> !IsConstructorCall(insns[k], owner) && !FailsMethodCast(insns[k])
    ensures r == Ok(None) ==>
              forall k :: from <= k < |insns| ==> !IsConstructorCall(insns[k], owner) && !FailsMethodCast(insns[k])
    ensures r.Err? ==>
              && r.error == BadCast
              && exists q :: from <= q < |insns| && FailsMethodCast(insns[q])
                   && forall k :: from <= k < q ==> !IsConstructorCall(insns[k], owner) && !FailsMethodCast(insns[k])
  {
    FirstMatch(insns, from, insn => IsConstructorCall(insn, owner), FailsMethodCast)
  }

  /** What processing position `p` marks: the producers of the `pop` top stack
      cells, then for a local load the writers of the local, or for NEW the
      first later constructor call on the allocated type. */
  function Dependencies(m: Analyzed, pop: PopCount, p: nat): (r: Result<set<nat>>)
    requires p < |m.insns|
    ensures r.Ok? ==> forall q :: q in r.value ==> q < |m.insns|
  {
    var insn := m.insns[p];
    var frame := m.frames[p];
    var n :- pop(insn, frame);
    var operands :- StackOrigins(frame, n);
    if insn.IsLocalLoad() then
      var local :- LocalOrigins(frame, insn.slot);
      Ok(operands + local)
    else if insn.Opcode() == NEW then
      if insn.TypeInsn? then
        var ctor :- FirstConstructorCall(m.insns, p + 1, insn.desc);
        Ok(operands + if ctor.Some? then {ctor.value} else {})
      else Err(BadCast)
    else Ok(operands)
  }

  /** Every position of `s` is processed without a fault and its
      dependencies lie in `s`. */
  ghost predicate Closed(m: Analyzed, pop: PopCount, s: set<nat>) {
    forall p: nat :: p in s ==> p < |m.insns| && Dependencies(m, pop, p).Ok? && Dependencies(m, pop, p).value <= s
  }

  /** `s` is the least closed set of positions containing `target`. */
  ghost predicate LeastClosed(m: Analyzed, pop: PopCount, target: nat, s: set<nat>) {
    && target in s
    && Closed(m, pop, s)
    && forall s': set<nat> :: target in s' && Closed(m, pop, s') ==> s <= s'
  }

  predicate Distinct(xs: seq<nat>) {
    forall i, j :: 0 <= i < j < |xs| ==> xs[i] != xs[j]
  }

  /** Adding the dependencies of a member keeps a set inside every closed
      set that contains the target. */
  lemma ExtendWithinClosed(m: Analyzed, pop: PopCount, target: nat, before: set<nat>, p: nat, d: set<nat>)
    requires p < |m.insns| && p in before
    requires Dependencies(m, pop, p) == Ok(d)
    requires forall s: set<nat> :: target in s && Closed(m, pop, s) ==> before <= s
    ensures forall s: set<nat> :: target in s && Closed(m, pop, s) ==> before + d <= s
  {
    forall s: set<nat> | target in s && Closed(m, pop, s)
      ensures before + d <= s
    {
      assert p in s;
    }
  }

  /** A faulting member of a set that lies inside every closed set containing
      the target rules out any such closed set. */
  lemma FaultExcludesClosure(m: Analyzed, pop: PopCount, target: nat, before: set<nat>, p: nat)
    requires p < |m.insns| && p in before
    requires Dependencies(m, pop, p).Err?
    requires forall s: set<nat> :: target in s && Closed(m, pop, s) ==> before <= s
    ensures forall s: set<nat> :: target in s ==> !Closed(m, pop, s)
  {
  }

  /** The first `head` queued positions have been processed: their
      dependencies are all marked. */
  ghost predicate Processed(m: Analyzed, pop: PopCount, order: seq<nat>, head: nat, visited: set<nat>) {
    && head <= |order|
    && forall i :: 0 <= i < head ==>
         order[i] < |m.insns| && Dependencies(m, pop, order[i]).Ok? && Dependencies(m, pop, order[i]).value <= visited
  }

  /** Processing the next queued position and marking its dependencies
      extends the processed prefix by one. */
  lemma ProcessedStep(m: Analyzed, pop: PopCount, order: seq<nat>, head: nat, visited: set<nat>,
                      order': seq<nat>, visited': set<nat>, d: set<nat>)
    requires Processed(m, pop, order, head, visited)
    requires head < |order| && order[head] < |m.insns|
    requires Dependencies(m, pop, order[head]) == Ok(d)
    requires visited' == visited + d
    requires |order| <= |order'| && order'[..|order|] == order
    ensures Processed(m, pop, order', head + 1, visited')
  {
    forall i | 0 <= i < head + 1
      ensures order'[i] < |m.insns| && Dependencies(m, pop, order'[i]).Ok? && Dependencies(m, pop, order'[i]).value <= visited'
    {
      assert order'[i] == order[i];
    }
  }

  /** Once the whole queue is processed, the marked set is closed. */
  lemma ProcessedAllIsClosed(m: Analyzed, pop: PopCount, order: seq<nat>, visited: set<nat>)
    requires Processed(m, pop, order, |order|, visited)
    requires forall x :: x in visited <==> x in order
    ensures Closed(m, pop, visited)
  {
    forall p: nat | p in visited
      ensures p < |m.insns| && Dependencies(m, pop, p).Ok? && Dependencies(m, pop, p).value <= visited
    {
      var i :| 0 <= i < |order| && order[i] == p;
    }
  }

  /** One turn of the worklist: processing `order[head]` and enqueueing its
      dependencies `d` keeps the loop's invariants and shrinks the unmarked
      positions, or leaves the queue unchanged. */
  lemma SliceStep(m: Analyzed, pop: PopCount, target: nat, order: seq<nat>, head: nat, visited: set<nat>,
                  d: set<nat>, order': seq<nat>, visited': set<nat>)
    requires head < |order| && order[head] < |m.insns| && order[head] in visited
    requires Processed(m, pop, order, head, visited)
    requires forall s: set<nat> :: target in s && Closed(m, pop, s) ==> visited <= s
    requires Dependencies(m, pop, order[head]) == Ok(d)
    requires visited' == visited + d
    requires |order| <= |order'| && order'[..|order|] == order
    requires forall i :: |order| <= i < |order'| ==> order'[i] in d
    requires d <= visited ==> order' == order
    requires forall i :: 0 <= i < |order| ==> order[i] < |m.insns|
    ensures Processed(m, pop, order', head + 1, visited')
    ensures forall s: set<nat> :: target in s && Closed(m, pop, s) ==> visited' <= s
    ensures forall i :: 0 <= i < |order'| ==> order'[i] < |m.insns|
    ensures d <= visited ==> visited' == visited && order' == order
    ensures !(d <= visited) ==> Positions(|m.insns|) - visited' < Positions(|m.insns|) - visited
  {
    ExtendWithinClosed(m, pop, target, visited, order[head], d);
    ProcessedStep(m, pop, order, head, visited, order', visited', d);
    forall i | 0 <= i < |order'|
      ensures order'[i] < |m.insns|
    {
      if i < |order| {
        assert order'[i] == order[i];
      }
    }
    if !(d <= visited) {
      var x :| x in d && x !in visited;
      assert x in Positions(|m.insns|) - visited;
    }
  }

  // ---- the worklist -------------------------------------------------------------

  /** The slicer's final state: the marked positions, and the order in which
      they entered the FIFO queue (which is also the order they left it). */
  datatype Trace = Trace(visited: set<nat>, order: seq<nat>)

  /** Marks and enqueues the unmarked members of `ds`, in an unspecified order. */
  method Enqueue(ds: set<nat>, visited: set<nat>, order: seq<nat>) returns (visited': set<nat>, order': seq<nat>)
    requires forall x :: x in visited <==> x in order
    requires Distinct(order)
    ensures visited' == visited + ds
    ensures forall x :: x in visited' <==> x in order'
    ensures Distinct(order')
    ensures |order| <= |order'| && order'[..|order|] == order
    ensures forall i :: |order| <= i < |order'| ==> order'[i] in ds && order'[i] !in visited
    ensures ds <= visited ==> order' == order
  {
    visited', order' := visited, order;
    var rest := ds;
    while rest != {}
      invariant rest <= ds
      invariant visited' == visited + (ds - rest)
      invariant forall x :: x in visited' <==> x in order'
      invariant Distinct(order')
      invariant |order| <= |order'| && order'[..|order|] == order
      invariant forall i :: |order| <= i < |order'| ==> order'[i] in ds && order'[i] !in visited
      invariant ds <= visited ==> order' == order
      decreases rest
    {
      var x :| x in rest;
      rest := rest - {x};
      if x !in visited' {
        visited' := visited' + {x};
        order' := order' + [x];
      }
    }
  }

  /** The worklist loop seeded with the field write at `target`. On success
      the marked set is the least closed set containing the target, each
      position entered the queue exactly once, and the target first; on a
      fault no closed set contains the target at all. */
  method Slice(m: Analyzed, pop: PopCount, target: nat) returns (r: Result<Trace>)
    requires target < |m.insns|
    ensures r.Ok? ==> LeastClosed(m, pop, target, r.value.visited)
    ensures r.Ok? ==> |r.value.order| > 0 && r.value.order[0] == target && Distinct(r.value.order)
    ensures r.Ok? ==> forall x :: x in r.value.visited <==> x in r.value.order
    ensures r.Ok? ==> forall x :: x in r.value.visited ==> x < |m.insns|
    ensures r.Err? ==> forall s: set<nat> :: target in s ==> !Closed(m, pop, s)
  {
    var visited: set<nat> := {target};
    var order: seq<nat> := [target];
    var head := 0;
    while head < |order|
      invariant 0 < |order| && order[0] == target
      invariant head <= |order|
      invariant Distinct(order)
      invariant forall i :: 0 <= i < |order| ==> order[i] < |m.insns|
      invariant forall x :: x in visited <==> x in order
      invariant Processed(m, pop, order, head, visited)
      invariant forall s: set<nat> :: target in s && Closed(m, pop, s) ==> visited <= s
      decreases Positions(|m.insns|) - visited, |order| - head
    {
      var p := order[head];
      head := head + 1;
      var deps := Dependencies(m, pop, p);
      if deps.Err? {
        FaultExcludesClosure(m, pop, target, visited, p);
        return Err(deps.error);
      }
      ghost var before, queued := visited, order;
      visited, order := Enqueue(deps.value, visited, order);
      SliceStep(m, pop, target, queued, head - 1, before, deps.value, order, visited);
    }
    ProcessedAllIsClosed(m, pop, order, visited);
    r := Ok(Trace(visited, order));
  }

  // ---- what a closed set guarantees -----------------------------------------

  /** In a closed set, every member consumes cells that exist, and the
      producers of those cells are members. */
  lemma ClosedCoversOperands(m: Analyzed, pop: PopCount, s: set<nat>, p: nat)
    requires Closed(m, pop, s) && p in s
    ensures p < |m.insns| && pop(m.insns[p], m.frames[p]).Ok?
    ensures var n := pop(m.insns[p], m.frames[p]).value;
            n > 0 ==>
              && m.frames[p].Some?
              && n <= |m.frames[p].value.stack|
              && var stack := m.frames[p].value.stack;
                 forall j :: |stack| - n <= j < |stack| ==> stack[j].origins <= s
  {
    var n := pop(m.insns[p], m.frames[p]).value;
    var operands := StackOrigins(m.frames[p], n);
    assert operands.Ok? && operands.value <= Dependencies(m, pop, p).value;
  }

  /** In a closed set, every member that loads a local reads an existing slot,
      and the writers of that slot are members. */
  lemma ClosedCoversLocals(m: Analyzed, pop: PopCount, s: set<nat>, p: nat)
    requires Closed(m, pop, s) && p in s
    requires p < |m.insns| && m.insns[p].IsLocalLoad()
    ensures m.frames[p].Some? && m.insns[p].slot < |m.frames[p].value.locals|
    ensures m.frames[p].value.locals[m.insns[p].slot] <= s
  {
    var local := LocalOrigins(m.frames[p], m.insns[p].slot);
    assert local.Ok? && local.value <= Dependencies(m, pop, p).value;
  }

  /** In a closed set, every NEW member is a type node, and the first later
      constructor call on its type, if there is one, is a member. */
  lemma ClosedCoversConstructor(m: Analyzed, pop: PopCount, s: set<nat>, p: nat)
    requires Closed(m, pop, s) && p in s
    requires p < |m.insns| && m.insns[p].Opcode() == NEW
    ensures m.insns[p].TypeInsn?
    ensures FirstConstructorCall(m.insns, p + 1, m.insns[p].desc).Ok?
    ensures var c := FirstConstructorCall(m.insns, p + 1, m.insns[p].desc).value;
            c.Some? ==> c.value in s
  {
    assert !m.insns[p].IsLocalLoad();
  }

  /** The three edges of position `p` stated on its frame, without
      `Dependencies`: its table count is defined, the producers of the cells it
      consumes are in `s`, a local load's slot exists and its writers are in
      `s`, and a NEW is a type node whose first later constructor call on its
      type, if any, is in `s`. */
  ghost predicate EdgesCovered(m: Analyzed, pop: PopCount, s: set<nat>, p: nat)
    requires p < |m.insns|
  {
    var insn, frame := m.insns[p], m.frames[p];
    && pop(insn, frame).Ok?
    && (pop(insn, frame).value > 0 ==>
          && frame.Some?
          && pop(insn, frame).value <= |frame.value.stack|
          && forall j :: |frame.value.stack| - pop(insn, frame).value <= j < |frame.value.stack| ==>
               frame.value.stack[j].origins <= s)
    && (insn.IsLocalLoad() ==>
          frame.Some? && insn.slot < |frame.value.locals| && frame.value.locals[insn.slot] <= s)
    && (insn.Opcode() == NEW ==>
          && insn.TypeInsn?
          && FirstConstructorCall(m.insns, p + 1, insn.desc).Ok?
          && (FirstConstructorCall(m.insns, p + 1, insn.desc).value.Some? ==>
                FirstConstructorCall(m.insns, p + 1, insn.desc).value.value in s))
  }

  /** At one position, the slicer's dependencies succeed and lie in `s`
      exactly when the three edges are covered on the frame. */
  lemma DependenciesWithinIffCovered(m: Analyzed, pop: PopCount, s: set<nat>, p: nat)
    requires p < |m.insns|
    ensures (Dependencies(m, pop, p).Ok? && Dependencies(m, pop, p).value <= s) <==> EdgesCovered(m, pop, s, p)
  {
  }

  /** A set is closed exactly when every member is a position whose three
      edges are covered on its frame: closure stated without `Dependencies`. */
  lemma ClosedIffEdgesCovered(m: Analyzed, pop: PopCount, s: set<nat>)
    ensures Closed(m, pop, s) <==> forall p: nat :: p in s ==> p < |m.insns| && EdgesCovered(m, pop, s, p)
  {
  }

  /** The least closed set containing a target is unique: the slice does not
      depend on the order the queue visits positions in. */
  lemma LeastClosedUnique(m: Analyzed, pop: PopCount, target: nat, s1: set<nat>, s2: set<nat>)
    requires LeastClosed(m, pop, target, s1) && LeastClosed(m, pop, target, s2)
    ensures s1 == s2
  {
  }
}
