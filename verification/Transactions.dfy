/**
  The saga that the sandbox uses for actions on several services: steps run in order, and when one of them throws, the
  completed ones are rolled back in reverse order. A transaction may itself be a step of another one.
 */
module Transactions {
  import opened Domain

  datatype Attempt<+S, +R> = Done(state: S, result: R) | Threw(state: S)

  datatype Undo<+S> = Undone(state: S) | UndoThrew(state: S)

  /** A step acts on the state of the outside world; `rollback` receives what `begin` returned. */
  datatype Step<!S, !R> =
    | Leaf(begin: S -> Attempt<S, R>, rollback: (R, S) -> Undo<S>)
    | Nested(steps: seq<Step<S, R>>)

  /** What a completed step recorded. A nested transaction keeps the results of its own steps. */
  datatype Record<+R> = LeafRecord(result: R) | NestedRecord(records: seq<Record<R>>)

  /** How far `beginTransaction` came: the records of the completed steps, all of them when `ok`. */
  datatype Progress<+S, +R> = Progress(state: S, records: seq<Record<R>>, ok: bool)

  /** A pass of rollbacks: the state it ends in, and for each rollback attempted its step and whether it threw. */
  datatype RollbackPass<+S> = RollbackPass(state: S, attempts: seq<(nat, bool)>)

  datatype Outcome<+S, +R> = Committed(state: S, record: Record<R>) | RolledBack(state: S) | RollbackFailed(state: S)

  function Begin<S, R>(step: Step<S, R>, s: S): Attempt<S, Record<R>> {
    match step
    case Leaf(begin, _) =>
      (match begin(s)
       case Done(t, r) => Done(t, LeafRecord(r))
       case Threw(t) => Threw(t))
    case Nested(steps) =>
      var p := BeginAll(steps, s);
      if p.ok then Done(p.state, NestedRecord(p.records)) else Threw(p.state)
  }

  function BeginAll<S, R>(steps: seq<Step<S, R>>, s: S): (p: Progress<S, R>)
    ensures |p.records| <= |steps| && (p.ok <==> |p.records| == |steps|)
  {
    if steps == [] then Progress(s, [], true)
    else
      match Begin(steps[0], s)
      case Threw(t) => Progress(t, [], false)
      case Done(t, r) =>
        var rest := BeginAll(steps[1..], t);
        Progress(rest.state, [r] + rest.records, rest.ok)
  }

  function Rollback<S, R>(step: Step<S, R>, record: Record<R>, s: S): Undo<S>
    decreases step, 0, 0
  {
    match (step, record)
    case (Leaf(_, rollback), LeafRecord(r)) => rollback(r, s)
    case (Nested(steps), NestedRecord(records)) =>
      if |records| > |steps| then Undone(s)
      else
        var pass := RollbackAll(steps, records, s);
        if AnyThrew(pass.attempts) then UndoThrew(pass.state) else Undone(pass.state)
    case _ => Undone(s)
  }

  /** Rolls back the steps that have a record, the last one first; an exception does not end the pass. */
  function RollbackAll<S, R>(steps: seq<Step<S, R>>, records: seq<Record<R>>, s: S): RollbackPass<S>
    requires |records| <= |steps|
    decreases steps, 1, |records|
  {
    if records == [] then RollbackPass(s, [])
    else
      var last := |records| - 1;
      var undo := Rollback(steps[last], records[last], s);
      var rest := RollbackAll(steps, records[..last], undo.state);
      RollbackPass(rest.state, [(last, undo.UndoThrew?)] + rest.attempts)
  }

  predicate AnyThrew(attempts: seq<(nat, bool)>) {
    exists i :: 0 <= i < |attempts| && attempts[i].1
  }

  function CompleteSpec<S, R>(steps: seq<Step<S, R>>, s: S): Outcome<S, R>
    requires steps != []
  {
    var p := BeginAll(steps, s);
    if p.ok then Committed(p.state, p.records[0])
    else
      var pass := RollbackAll(steps, p.records, p.state);
      if AnyThrew(pass.attempts) then RollbackFailed(pass.state) else RolledBack(pass.state)
  }

  // ----- The transaction object -----

  class Transaction<!S, !R> {
    const steps: seq<Step<S, R>>
    const isComplete: array<bool>
    const results: array<Option<Record<R>>>

    ghost predicate Valid()
      reads this
    {
      steps != [] && isComplete.Length == results.Length == |steps|
    }

    /** Exactly the first steps are complete, with the given results. */
    ghost predicate Holds(records: seq<Record<R>>)
      requires Valid()
      reads this, isComplete, results
    {
      && |records| <= |steps|
      && (forall i :: 0 <= i < |steps| ==> (isComplete[i] <==> i < |records|))
      && (forall i :: 0 <= i < |records| ==> results[i] == Some(records[i]))
    }

    constructor (primary: Step<S, R>, additional: seq<Step<S, R>>)
      ensures Valid() && Holds([]) && steps == [primary] + additional
      ensures fresh(isComplete) && fresh(results)
    {
      steps := [primary] + additional;
      isComplete := new bool[|additional| + 1](_ => false);
      results := new Option<Record<R>>[|additional| + 1](_ => None);
    }

    method BeginTransaction(s: S) returns (t: S, ok: bool)
      requires Valid() && Holds([])
      modifies isComplete, results
      ensures Holds(BeginAll(steps, s).records)
      ensures t == BeginAll(steps, s).state && ok == BeginAll(steps, s).ok
    {
      t, ok := s, true;
      ghost var records := [];
      var i := 0;
      while i < |steps|
        invariant 0 <= i <= |steps| && |records| == i && Holds(records)
        invariant BeginAll(steps, s) ==
                  var rest := BeginAll(steps[i..], t); Progress(rest.state, records + rest.records, rest.ok)
      {
        var attempt := Begin(steps[i], t);
        assert steps[i..][1..] == steps[i + 1..];
        if attempt.Threw? {
          t, ok := attempt.state, false;
          assert records + [] == records;
          return;
        }
        ghost var rest := BeginAll(steps[i + 1..], attempt.state);
        assert records + ([attempt.result] + rest.records) == (records + [attempt.result]) + rest.records;
        results[i] := Some(attempt.result);
        isComplete[i] := true;
        records := records + [attempt.result];
        t := attempt.state;
        i := i + 1;
      }
      assert records + [] == records;
    }

    method RollbackTransaction(s: S, ghost records: seq<Record<R>>) returns (t: S, rollbackErrors: seq<nat>)
      requires Valid() && Holds(records)
      ensures t == RollbackAll(steps, records, s).state
      ensures rollbackErrors != [] <==> AnyThrew(RollbackAll(steps, records, s).attempts)
    {
      t, rollbackErrors := s, [];
      var i := |steps|;
      assert Prefix(records, i) == records;
      while i > 0
        invariant 0 <= i <= |steps|
        invariant var pass, rest := RollbackAll(steps, records, s), RollbackAll(steps, Prefix(records, i), t);
                  && pass.state == rest.state
                  && (AnyThrew(pass.attempts) <==> rollbackErrors != [] || AnyThrew(rest.attempts))
      {
        i := i - 1;
        if isComplete[i] {
          ghost var rest := RollbackAll(steps, Prefix(records, i + 1), t);
          var undo := Rollback(steps[i], results[i].value, t);
          assert Prefix(records, i + 1)[..i] == Prefix(records, i);
          ConsThrew((i as nat, undo.UndoThrew?), RollbackAll(steps, Prefix(records, i), undo.state).attempts);
          if undo.UndoThrew? {
            rollbackErrors := rollbackErrors + [i];
          }
          t := undo.state;
        } else {
          assert Prefix(records, i + 1) == Prefix(records, i);
        }
      }
      assert Prefix(records, 0) == [];
    }

    /** Commits, or rolls back what was completed; a rollback that threw is reported after all were attempted. */
    method Complete(s: S) returns (outcome: Outcome<S, R>)
      requires Valid() && Holds([])
      modifies isComplete, results
      ensures outcome == CompleteSpec(steps, s)
    {
      var t, ok := BeginTransaction(s);
      if ok {
        return Committed(t, results[0].value);
      }
      var rollbackErrors;
      t, rollbackErrors := RollbackTransaction(t, BeginAll(steps, s).records);
      return if rollbackErrors != [] then RollbackFailed(t) else RolledBack(t);
    }
  }

  ghost function Prefix<T>(s: seq<T>, n: nat): seq<T> {
    if n <= |s| then s[..n] else s
  }

  lemma ConsThrew(first: (nat, bool), rest: seq<(nat, bool)>)
    ensures AnyThrew([first] + rest) <==> first.1 || AnyThrew(rest)
  {
    var all := [first] + rest;
    if AnyThrew(rest) {
      var i :| 0 <= i < |rest| && rest[i].1;
      assert all[i + 1].1;
    }
    if first.1 {
      assert all[0].1;
    }
  }

  // ----- Every completed step is attempted, in reverse order -----

  lemma {:induction false} RollbackReversesOrder<S, R>(steps: seq<Step<S, R>>, records: seq<Record<R>>, s: S)
    requires |records| <= |steps|
    ensures var attempts := RollbackAll(steps, records, s).attempts;
            && |attempts| == |records|
            && forall i :: 0 <= i < |attempts| ==> attempts[i].0 == |records| - 1 - i
    decreases |records|
  {
    if records != [] {
      var last := |records| - 1;
      RollbackReversesOrder(steps, records[..last], Rollback(steps[last], records[last], s).state);
    }
  }

  // ----- All or nothing -----

  /**
    `rel(i, a, b)`: where the run was in state `a` after `i` steps, `b` is a state that the undoing may leave there.
    Undoing step `i` leads from what may be left after it to what may be left before it, without an exception.
   */
  ghost predicate Undoes<S(!new), R>(step: Step<S, R>, i: nat, s: S, rel: (nat, S, S) -> bool) {
    match Begin(step, s)
    case Threw(t) => rel(i, s, t)
    case Done(t, record) =>
      forall u :: rel(i + 1, t, u) ==> Rollback(step, record, u).Undone? && rel(i, s, Rollback(step, record, u).state)
  }

  /** Every step that the run reaches undoes itself; the last one need not, once it is done the transaction commits. */
  ghost predicate AllUndo<S(!new), R>(steps: seq<Step<S, R>>, i: nat, s: S, rel: (nat, S, S) -> bool)
    decreases |steps|
  {
    steps != [] ==>
      && ((|steps| == 1 && Begin(steps[0], s).Done?) || Undoes(steps[0], i, s, rel))
      && (Begin(steps[0], s).Done? ==> AllUndo(steps[1..], i + 1, Begin(steps[0], s).state, rel))
  }

  lemma {:induction false} RollbackAllPeels<S, R>(steps: seq<Step<S, R>>, records: seq<Record<R>>, s: S)
    requires 0 < |records| <= |steps|
    ensures var inner := RollbackAll(steps[1..], records[1..], s);
            var outer := RollbackAll(steps, records, s);
            var undo := Rollback(steps[0], records[0], inner.state);
            && outer.state == undo.state
            && (AnyThrew(outer.attempts) <==> AnyThrew(inner.attempts) || undo.UndoThrew?)
    decreases |records|
  {
    var last := |records| - 1;
    var undo := Rollback(steps[last], records[last], s);
    if last == 0 {
      assert records[..0] == [] && records[1..] == [];
      ConsThrew((0, undo.UndoThrew?), []);
    } else {
      assert records[..last][1..] == records[1..][..last - 1];
      assert records[..last][0] == records[0];
      RollbackAllPeels(steps, records[..last], undo.state);
      ConsThrew((last, undo.UndoThrew?), RollbackAll(steps, records[..last], undo.state).attempts);
      ConsThrew((last - 1, undo.UndoThrew?), RollbackAll(steps[1..], records[1..][..last - 1], undo.state).attempts);
    }
  }

  lemma NothingToRollBack<S, R>(steps: seq<Step<S, R>>, s: S)
    ensures RollbackAll(steps, [], s) == RollbackPass(s, []) && !AnyThrew([])
  {
  }

  lemma RollbackAllUnfolds<S, R>(steps: seq<Step<S, R>>, records: seq<Record<R>>, last: Record<R>, s: S)
    requires |records| < |steps|
    ensures var undo := Rollback(steps[|records|], last, s);
            var outer, inner := RollbackAll(steps, records + [last], s), RollbackAll(steps, records, undo.state);
            && outer.state == inner.state
            && (AnyThrew(outer.attempts) <==> undo.UndoThrew? || AnyThrew(inner.attempts))
  {
    var undo := Rollback(steps[|records|], last, s);
    assert (records + [last])[..|records|] == records;
    ConsThrew((|records|, undo.UndoThrew?), RollbackAll(steps, records, undo.state).attempts);
  }

  lemma {:induction false} FailedRunIsUndone<S(!new), R>(
    steps: seq<Step<S, R>>, i: nat, s: S, rel: (nat, S, S) -> bool)
    requires AllUndo(steps, i, s, rel) && !BeginAll(steps, s).ok
    ensures var p := BeginAll(steps, s);
            var pass := RollbackAll(steps, p.records, p.state);
            !AnyThrew(pass.attempts) && rel(i, s, pass.state)
    decreases |steps|
  {
    if Begin(steps[0], s).Done? {
      var t := Begin(steps[0], s).state;
      FailedRunIsUndone(steps[1..], i + 1, t, rel);
      var p := BeginAll(steps, s);
      RollbackAllPeels(steps, p.records, p.state);
      assert p.records[1..] == BeginAll(steps[1..], t).records;
    }
  }

  /** All or nothing: a transaction of steps that undo themselves commits, or leaves what `rel` allows at its start. */
  lemma AllOrNothing<S(!new), R>(steps: seq<Step<S, R>>, s: S, rel: (nat, S, S) -> bool)
    requires steps != [] && AllUndo(steps, 0, s, rel)
    ensures var outcome := CompleteSpec(steps, s);
            outcome.Committed? || (outcome.RolledBack? && rel(0, s, outcome.state))
  {
    if !BeginAll(steps, s).ok {
      FailedRunIsUndone(steps, 0, s, rel);
    }
  }

  // ----- Nested transactions -----

  /** Leaves that fail without effect and whose rollbacks exactly invert them. */
  ghost predicate ExactLeaves<S(!new), R>(step: Step<S, R>) {
    match step
    case Leaf(begin, rollback) =>
      (forall s ::
         match begin(s)
         case Threw(t) => t == s
         case Done(t, r) => rollback(r, t) == Undone(s))
    case Nested(steps) => forall inner :: inner in steps ==> ExactLeaves(inner)
  }

  /** The shape of a transaction, without its actions. */
  datatype Shape = OneLeaf | Several(children: seq<Shape>)

  function ShapeOf<S, R>(step: Step<S, R>): Shape {
    if step.Leaf? then OneLeaf else Several(ShapesOf(step.steps))
  }

  function ShapesOf<S, R>(steps: seq<Step<S, R>>): (shapes: seq<Shape>)
    ensures |shapes| == |steps|
  {
    if steps == [] then [] else [ShapeOf(steps[0])] + ShapesOf(steps[1..])
  }

  function Leaves(shape: Shape): nat {
    match shape
    case OneLeaf => 1
    case Several(children) => AllLeaves(children)
  }

  function AllLeaves(shapes: seq<Shape>): nat {
    if shapes == [] then 0 else Leaves(shapes[0]) + AllLeaves(shapes[1..])
  }

  /** No top-level step has more than one leaf. */
  ghost predicate Shallow(shapes: seq<Shape>) {
    forall i :: 0 <= i < |shapes| ==> Leaves(shapes[i]) <= 1
  }

  lemma {:induction false} NoLeafDoesNothing<S, R>(step: Step<S, R>, s: S, u: S)
    requires Leaves(ShapeOf(step)) == 0
    ensures Begin(step, s).Done? && Begin(step, s).state == s
    ensures Rollback(step, Begin(step, s).result, u) == Undone(u)
    decreases step, 1
  {
    NoLeavesDoNothing(step.steps, s, u);
  }

  lemma {:induction false} NoLeavesDoNothing<S, R>(steps: seq<Step<S, R>>, s: S, u: S)
    requires AllLeaves(ShapesOf(steps)) == 0
    ensures var p := BeginAll(steps, s);
            var pass := RollbackAll(steps, p.records, u);
            p.ok && p.state == s && pass.state == u && !AnyThrew(pass.attempts)
    decreases steps, 0
  {
    if steps != [] {
      assert ShapesOf(steps)[1..] == ShapesOf(steps[1..]);
      NoLeafDoesNothing(steps[0], s, u);
      NoLeavesDoNothing(steps[1..], s, u);
      BeginAllPeels(steps, s);
      RollbackAllPeels(steps, BeginAll(steps, s).records, u);
    }
  }

  lemma {:induction false} ShallowStepIsExact<S(!new), R>(step: Step<S, R>, s: S)
    requires ExactLeaves(step) && Leaves(ShapeOf(step)) <= 1
    ensures match Begin(step, s)
            case Threw(t) => t == s
            case Done(t, record) => Rollback(step, record, t) == Undone(s)
    decreases step, 1
  {
    if step.Nested? {
      ShallowStepsAreExact(step.steps, s);
    } else {
      assert match step.begin(s) case Threw(t) => t == s case Done(t, r) => step.rollback(r, t) == Undone(s);
    }
  }

  lemma {:induction false} ShallowStepsAreExact<S(!new), R>(steps: seq<Step<S, R>>, s: S)
    requires (forall step :: step in steps ==> ExactLeaves(step)) && AllLeaves(ShapesOf(steps)) <= 1
    ensures var p := BeginAll(steps, s);
            var pass := RollbackAll(steps, p.records, p.state);
            if p.ok then pass.state == s && !AnyThrew(pass.attempts) else p.state == s
    decreases steps, 0
  {
    if steps != [] {
      hide ExactLeaves, RollbackAll, Rollback, AnyThrew;
      var first, rest := steps[0], steps[1..];
      assert ShapesOf(steps)[1..] == ShapesOf(rest);
      ShallowStepIsExact(first, s);
      BeginAllPeels(steps, s);
      if Begin(first, s).Done? {
        var t := Begin(first, s).state;
        var p := BeginAll(steps, s);
        if Leaves(ShapeOf(first)) == 0 {
          NoLeafDoesNothing(first, s, s);
          ShallowStepsAreExact(rest, s);
        } else {
          NoLeavesDoNothing(rest, t, t);
        }
        if p.ok {
          RollbackAllPeels(steps, p.records, p.state);
        }
      }
    }
  }

  lemma BeginAllPeels<S, R>(steps: seq<Step<S, R>>, s: S)
    requires steps != []
    ensures var p, attempt := BeginAll(steps, s), Begin(steps[0], s);
            && (attempt.Threw? ==> p == Progress(attempt.state, [], false))
            && (attempt.Done? ==>
                  var q := BeginAll(steps[1..], attempt.state);
                  && p.ok == q.ok && p.state == q.state
                  && p.records != [] && p.records[0] == attempt.result && p.records[1..] == q.records)
  {
  }

  lemma {:induction false} ShallowStepsUndo<S(!new), R>(steps: seq<Step<S, R>>, i: nat, s: S)
    requires (forall step :: step in steps ==> ExactLeaves(step)) && Shallow(ShapesOf(steps))
    ensures AllUndo(steps, i, s, (_, a, b) => a == b)
    decreases |steps|
  {
    if steps != [] {
      assert ShapesOf(steps)[1..] == ShapesOf(steps[1..]);
      assert Leaves(ShapesOf(steps)[0]) <= 1;
      ShallowStepIsExact(steps[0], s);
      if Begin(steps[0], s).Done? {
        ShallowStepsUndo(steps[1..], i + 1, Begin(steps[0], s).state);
      }
    }
  }

  /** With leaves that invert exactly, a transaction whose steps have one leaf each restores the state when it fails. */
  lemma ShallowStepsAreAtomic<S(!new), R>(steps: seq<Step<S, R>>, s: S)
    requires steps != []
    requires (forall step :: step in steps ==> ExactLeaves(step)) && Shallow(ShapesOf(steps))
    ensures var outcome := CompleteSpec(steps, s);
            outcome.Committed? || outcome == RolledBack(s)
  {
    ShallowStepsUndo(steps, 0, s);
    AllOrNothing(steps, s, (_, a, b) => a == b);
  }

  lemma BeginAllUnfolds<S, R>(first: Step<S, R>, rest: seq<Step<S, R>>, s: S)
    ensures BeginAll<S, R>([], s) == Progress(s, [], true)
    ensures var p, attempt := BeginAll([first] + rest, s), Begin(first, s);
            && (attempt.Threw? ==> p == Progress(attempt.state, [], false))
            && (attempt.Done? ==>
                  var q := BeginAll(rest, attempt.state);
                  p == Progress(q.state, [attempt.result] + q.records, q.ok))
  {
    assert ([first] + rest)[1..] == rest;
  }

  function Ended<S, R>(undone: bool, s: S): Outcome<S, R> {
    if undone then RolledBack(s) else RollbackFailed(s)
  }

  /** A transaction of two steps, written out. */
  lemma TwoSteps<S, R>(x: Step<S, R>, y: Step<S, R>, s: S)
    ensures var first := Begin(x, s);
            && (first.Threw? ==> CompleteSpec([x, y], s) == RolledBack(first.state))
            && (first.Done? ==>
                  var second := Begin(y, first.state);
                  && (second.Done? ==> CompleteSpec([x, y], s) == Committed(second.state, first.result))
                  && (second.Threw? ==>
                        var undo := Rollback(x, first.result, second.state);
                        CompleteSpec([x, y], s) == Ended(undo.Undone?, undo.state)))
  {
    hide Begin, Rollback, RollbackAll, AnyThrew;
    assert [x, y] == [x] + ([y] + []);
    BeginAllUnfolds(x, [y] + [], s);
    NothingToRollBack([x, y], Begin(x, s).state);
    if Begin(x, s).Done? {
      var first := Begin(x, s);
      BeginAllUnfolds(y, [], first.state);
      BeginAllUnfolds(y, [], Begin(y, first.state).state);
      if Begin(y, first.state).Threw? {
        RollsBackOne([x, y], first.result, Begin(y, first.state).state);
        assert [first.result] + [] == [first.result];
      }
    }
  }

  /** A transaction of three steps, written out. */
  lemma ThreeSteps<S, R>(x: Step<S, R>, y: Step<S, R>, z: Step<S, R>, s: S)
    ensures var first := Begin(x, s);
            && (first.Threw? ==> CompleteSpec([x, y, z], s) == RolledBack(first.state))
            && (first.Done? ==>
                  var second := Begin(y, first.state);
                  && (second.Threw? ==>
                        var undo := Rollback(x, first.result, second.state);
                        CompleteSpec([x, y, z], s) == Ended(undo.Undone?, undo.state))
                  && (second.Done? ==>
                        var third := Begin(z, second.state);
                        && (third.Done? ==> CompleteSpec([x, y, z], s) == Committed(third.state, first.result))
                        && (third.Threw? ==>
                              var undoY := Rollback(y, second.result, third.state);
                              var undoX := Rollback(x, first.result, undoY.state);
                              CompleteSpec([x, y, z], s) == Ended(undoX.Undone? && undoY.Undone?, undoX.state))))
  {
    hide Begin, Rollback, RollbackAll, AnyThrew;
    assert [x, y, z] == [x] + ([y] + ([z] + []));
    BeginAllUnfolds(x, [y] + ([z] + []), s);
    NothingToRollBack([x, y, z], Begin(x, s).state);
    if Begin(x, s).Done? {
      var first := Begin(x, s);
      BeginAllUnfolds(y, [z] + [], first.state);
      if Begin(y, first.state).Threw? {
        RollsBackOne([x, y, z], first.result, Begin(y, first.state).state);
        assert [first.result] + [] == [first.result];
      } else {
        var second := Begin(y, first.state);
        BeginAllUnfolds(z, [], second.state);
        BeginAllUnfolds(z, [], Begin(z, second.state).state);
        if Begin(z, second.state).Threw? {
          var t := Begin(z, second.state).state;
          RollbackAllUnfolds([x, y, z], [first.result], second.result, t);
          RollsBackOne([x, y, z], first.result, Rollback(y, second.result, t).state);
          assert [first.result] + ([second.result] + []) == [first.result] + [second.result];
        }
      }
    }
  }

  lemma RollsBackOne<S, R>(steps: seq<Step<S, R>>, record: Record<R>, s: S)
    requires steps != []
    ensures var undo := Rollback(steps[0], record, s);
            var pass := RollbackAll(steps, [record], s);
            pass.state == undo.state && (AnyThrew(pass.attempts) <==> undo.UndoThrew?)
  {
    hide Rollback;
    assert [] + [record] == [record];
    RollbackAllUnfolds(steps, [], record, s);
    NothingToRollBack(steps, Rollback(steps[0], record, s).state);
  }

  /** A transaction around one leaf behaves as the leaf. */
  lemma WrappedLeaf<S, R>(leaf: Step<S, R>, s: S)
    requires leaf.Leaf?
    ensures Begin(Nested([leaf]), s) ==
            (match leaf.begin(s)
             case Threw(t) => Threw(t)
             case Done(t, r) => Done(t, NestedRecord([LeafRecord(r)])))
  {
    assert [leaf][1..] == [];
    match leaf.begin(s)
    case Threw(t) => assert BeginAll([leaf], s) == Progress(t, [], false);
    case Done(t, r) =>
      assert [LeafRecord(r)] + [] == [LeafRecord(r)];
      assert BeginAll([leaf], s) == Progress(t, [LeafRecord(r)], true);
  }

  lemma WrappedRollback<S, R>(leaf: Step<S, R>, r: R, s: S)
    requires leaf.Leaf?
    ensures Rollback(Nested([leaf]), NestedRecord([LeafRecord(r)]), s) == leaf.rollback(r, s)
  {
    var undo := leaf.rollback(r, s);
    assert [LeafRecord(r)][..0] == [];
    assert RollbackAll([leaf], [LeafRecord(r)][..0], undo.state) == RollbackPass(undo.state, []);
    assert RollbackAll([leaf], [LeafRecord(r)], s) == RollbackPass(undo.state, [(0, undo.UndoThrew?)] + []);
    ConsThrew((0, undo.UndoThrew?), []);
  }

  /** Leaves that count: each adds one to the state and its rollback subtracts one; the leaf number `failAt` throws. */
  function Counting(shape: Shape, first: nat, failAt: nat): Step<int, ()> {
    match shape
    case OneLeaf =>
      Leaf((s: int) => if first == failAt then Threw(s) else Done(s + 1, ()), (_, s: int) => Undone(s - 1))
    case Several(children) => Nested(CountingAll(children, first, failAt))
  }

  function CountingAll(shapes: seq<Shape>, first: nat, failAt: nat): (steps: seq<Step<int, ()>>)
    ensures |steps| == |shapes|
  {
    if shapes == [] then []
    else [Counting(shapes[0], first, failAt)] + CountingAll(shapes[1..], first + Leaves(shapes[0]), failAt)
  }

  /** The number of the first leaf of the top-level step that leaf `f` belongs to. */
  function StepStart(shapes: seq<Shape>, first: nat, f: nat): (start: nat)
    requires first <= f < first + AllLeaves(shapes)
    ensures first <= start <= f
  {
    if f < first + Leaves(shapes[0]) then first else StepStart(shapes[1..], first + Leaves(shapes[0]), f)
  }

  /** A counting step fails inside at leaf `f`, or counts all its leaves and can take them back. */
  lemma {:induction false} CountingBegin(shape: Shape, first: nat, f: nat, s: int, u: int)
    ensures var step, n := Counting(shape, first, f), Leaves(shape);
            if first <= f < first + n then Begin(step, s) == Threw(s + f - first)
            else Begin(step, s).Done? && Begin(step, s).state == s + n
                 && Rollback(step, Begin(step, s).result, u) == Undone(u - n)
    decreases shape, 0
  {
    if shape.Several? {
      CountingBeginAll(shape.children, first, f, s, u);
    }
  }

  lemma {:induction false} CountingBeginAll(shapes: seq<Shape>, first: nat, f: nat, s: int, u: int)
    ensures var steps, n := CountingAll(shapes, first, f), AllLeaves(shapes);
            var p := BeginAll(steps, s);
            var pass := RollbackAll(steps, p.records, u);
            && !AnyThrew(pass.attempts)
            && if first <= f < first + n
               then !p.ok && p.state == s + f - first && pass.state == u - (StepStart(shapes, first, f) - first)
               else p.ok && p.state == s + n && pass.state == u - n
    decreases shapes, 1
  {
    hide Counting, CountingAll, Begin, BeginAll, Rollback, RollbackAll, AnyThrew;
    if shapes == [] || first <= f < first + Leaves(shapes[0]) {
      CountingStops(shapes, first, f, s, u);
    } else {
      CountingBeginAll(shapes[1..], first + Leaves(shapes[0]), f, s + Leaves(shapes[0]), u);
      CountingPeel(shapes, first, f, s, u);
    }
  }

  /** Nothing completes: there is no step, or the first one fails inside. */
  lemma CountingStops(shapes: seq<Shape>, first: nat, f: nat, s: int, u: int)
    requires shapes == [] || first <= f < first + Leaves(shapes[0])
    ensures var steps := CountingAll(shapes, first, f);
            && BeginAll(steps, s) == Progress(if shapes == [] then s else s + f - first, [], shapes == [])
            && RollbackAll(steps, BeginAll(steps, s).records, u) == RollbackPass(u, [])
            && !AnyThrew(RollbackAll(steps, BeginAll(steps, s).records, u).attempts)
    decreases shapes, 0
  {
    hide Counting, Begin, Rollback;
    if shapes != [] {
      CountingBegin(shapes[0], first, f, s, u);
    }
  }

  /** The first step of a counting transaction completes, so the rest decides and the first is taken back last. */
  lemma CountingPeel(shapes: seq<Shape>, first: nat, f: nat, s: int, u: int)
    requires shapes != [] && !(first <= f < first + Leaves(shapes[0]))
    ensures var n := Leaves(shapes[0]);
            var p := BeginAll(CountingAll(shapes, first, f), s);
            var q := BeginAll(CountingAll(shapes[1..], first + n, f), s + n);
            var outer := RollbackAll(CountingAll(shapes, first, f), p.records, u);
            var inner := RollbackAll(CountingAll(shapes[1..], first + n, f), q.records, u);
            && p.ok == q.ok && p.state == q.state && outer.state == inner.state - n
            && (AnyThrew(outer.attempts) <==> AnyThrew(inner.attempts))
    decreases shapes, 0
  {
    hide RollbackAll, AnyThrew, Counting, Begin, Rollback;
    var n := Leaves(shapes[0]);
    var steps := CountingAll(shapes, first, f);
    CountingBegin(shapes[0], first, f, s, u);
    assert steps[1..] == CountingAll(shapes[1..], first + n, f);
    var p := BeginAll(steps, s);
    assert p.records[1..] == BeginAll(steps[1..], s + n).records;
    RollbackAllPeels(steps, p.records, u);
    CountingBegin(shapes[0], first, f, s, RollbackAll(steps[1..], p.records[1..], u).state);
  }

  /**
    What a failure leaves behind: exactly the leaves that ran inside the top-level step that failed. A nested
    transaction that fails half way is not undone by the outer one, because it never became complete.
   */
  lemma FailureResidue(shapes: seq<Shape>, f: nat, s: int)
    requires f < AllLeaves(shapes)
    ensures shapes != []
    ensures CompleteSpec(CountingAll(shapes, 0, f), s) == RolledBack(s + f - StepStart(shapes, 0, f))
  {
    var steps := CountingAll(shapes, 0, f);
    CountingBeginAll(shapes, 0, f, s, BeginAll(steps, s).state);
  }

  ghost predicate ExactlyInvertible(steps: seq<Step<int, ()>>, shapes: seq<Shape>) {
    ShapesOf(steps) == shapes && forall step :: step in steps ==> ExactLeaves(step)
  }

  ghost predicate AllOrNothingAt(steps: seq<Step<int, ()>>, s: int) {
    steps != [] && var outcome := CompleteSpec(steps, s); outcome.Committed? || outcome == RolledBack(s)
  }

  /**
    Which nestings are safe: whatever exactly invertible leaves are put in them, every failure restores the state, if and
    only if no top-level step has more than one leaf.
   */
  lemma AtomicExactlyWithoutDeepSteps(shapes: seq<Shape>)
    requires shapes != []
    ensures (forall steps, s :: ExactlyInvertible(steps, shapes) ==> AllOrNothingAt(steps, s)) <==> Shallow(shapes)
  {
    if Shallow(shapes) {
      forall steps, s | ExactlyInvertible(steps, shapes)
        ensures AllOrNothingAt(steps, s)
      {
        ShallowStepsAreAtomic(steps, s);
      }
    } else {
      var i :| 0 <= i < |shapes| && Leaves(shapes[i]) > 1;
      var f := SecondLeaf(shapes, 0, i);
      FailureResidue(shapes, f, 0);
      CountingIsExact(shapes, 0, f);
      assert ExactlyInvertible(CountingAll(shapes, 0, f), shapes) && !AllOrNothingAt(CountingAll(shapes, 0, f), 0);
    }
  }

  lemma {:induction false} CountingStepIsExact(shape: Shape, first: nat, f: nat)
    ensures ExactLeaves(Counting(shape, first, f)) && ShapeOf(Counting(shape, first, f)) == shape
    decreases shape, 0
  {
    if shape.Several? {
      CountingIsExact(shape.children, first, f);
    }
  }

  lemma {:induction false} CountingIsExact(shapes: seq<Shape>, first: nat, f: nat)
    ensures (forall step :: step in CountingAll(shapes, first, f) ==> ExactLeaves(step))
            && ShapesOf(CountingAll(shapes, first, f)) == shapes
    decreases shapes, 1
  {
    if shapes != [] {
      CountingStepIsExact(shapes[0], first, f);
      CountingIsExact(shapes[1..], first + Leaves(shapes[0]), f);
      var steps := CountingAll(shapes, first, f);
      assert steps[1..] == CountingAll(shapes[1..], first + Leaves(shapes[0]), f);
      assert forall step :: step in steps ==> step == steps[0] || step in steps[1..];
    }
  }

  lemma {:induction false} SecondLeaf(shapes: seq<Shape>, first: nat, i: nat) returns (f: nat)
    requires i < |shapes| && Leaves(shapes[i]) > 1
    ensures first <= f < first + AllLeaves(shapes) && StepStart(shapes, first, f) < f
    decreases i
  {
    if i == 0 {
      f := first + 1;
    } else {
      f := SecondLeaf(shapes[1..], first + Leaves(shapes[0]), i - 1);
    }
  }
}
