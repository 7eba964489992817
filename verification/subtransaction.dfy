/** The subtransaction protocol of the benchmark runtime: Postgres' subtransaction stack, the
    current memory context and the current resource owner, and `with_subtransaction`, which
    brackets a body with begin and release or rollback. */
module Subtransaction {

  /** What a body can see and change: for each open (sub)transaction, innermost last, the
      effects recorded in it; the two session globals; and how often the benchmark's own
      closures have been called, which no rollback undoes. */
  datatype Session = Session(stack: seq<seq<int>>, context: nat, owner: nat, setups: nat, routines: nat)

  datatype Outcome = Done | Failed(message: string)

  type Body = Session -> (Session, Outcome)

  /** Record effects in the innermost transaction. */
  function Record(stack: seq<seq<int>>, effects: seq<int>): seq<seq<int>>
    requires stack != []
  {
    var top := |stack| - 1;
    stack[top := stack[top] + effects]
  }

  /** Subtransaction commit: the innermost effects become the parent's. */
  function Released(stack: seq<seq<int>>): seq<seq<int>>
    requires |stack| >= 2
  {
    Record(stack[..|stack| - 1], stack[|stack| - 1])
  }

  /** Subtransaction abort: the innermost effects are gone. */
  function RolledBack(stack: seq<seq<int>>): seq<seq<int>>
    requires |stack| >= 2
  {
    stack[..|stack| - 1]
  }

  /** The backend process. */
  class Backend {
    var stack: seq<seq<int>>
    var context: nat
    var owner: nat
    var setups: nat
    var routines: nat

    ghost predicate Valid()
      reads this
    {
      stack != []
    }

    function State(): Session
      reads this
    {
      Session(stack, context, owner, setups, routines)
    }

    /** Postgres opens a subtransaction and moves to a context and an owner of its choice. */
    method BeginInternalSubTransaction()
      modifies this`stack, this`context, this`owner
      ensures stack == old(stack) + [[]]
    {
      stack := stack + [[]];
      context := *;
      owner := *;
    }

    /** Where the globals point after the end of a subtransaction is Postgres' business. */
    method ReleaseCurrentSubTransaction()
      requires |stack| >= 2
      modifies this`stack, this`context, this`owner
      ensures stack == Released(old(stack))
    {
      stack := Released(stack);
      context := *;
      owner := *;
    }

    method RollbackAndReleaseCurrentSubTransaction()
      requires |stack| >= 2
      modifies this`stack, this`context, this`owner
      ensures stack == RolledBack(old(stack))
    {
      stack := RolledBack(stack);
      context := *;
      owner := *;
    }

    method MemoryContextSwitchTo(newContext: nat) returns (oldContext: nat)
      modifies this`context
      ensures context == newContext && oldContext == old(context)
    {
      oldContext := context;
      context := newContext;
    }

    /** Run a body; an error or a panic inside it comes back as `Failed`. */
    method Execute(f: Body) returns (r: Outcome)
      modifies this
      ensures (State(), r) == f(old(State()))
    {
      var (after, outcome) := f(State());
      stack, context, owner := after.stack, after.context, after.owner;
      setups, routines := after.setups, after.routines;
      r := outcome;
    }

    /** `with_subtransaction`. Postgres itself demands that the body leave a subtransaction to
        end. `entry` and `exit` are the states in which the body started and stopped. Whatever
        the body and Postgres did to the globals, they are back as they were. */
    method WithSubtransaction(f: Body) returns (r: Outcome, ghost entry: Session, ghost exit: Session)
      requires Valid()
      requires forall s: Session :: s.stack == stack + [[]] ==> |f(s).0.stack| >= 2
      modifies this
      ensures Valid()
      ensures entry.stack == old(stack) + [[]] && entry.setups == old(setups) && entry.routines == old(routines)
      ensures f(entry) == (exit, r)
      ensures stack == if r.Done? then Released(exit.stack) else RolledBack(exit.stack)
      ensures |stack| == |old(stack)| <==> |exit.stack| == |entry.stack|
      ensures context == old(context) && owner == old(owner)
      ensures setups == exit.setups && routines == exit.routines
    {
      var oldContext := context;
      var oldOwner := owner;
      BeginInternalSubTransaction();
      entry := State();
      r := Execute(f);
      exit := State();
      match r {
        case Done =>
          ReleaseCurrentSubTransaction();
          var _ := MemoryContextSwitchTo(oldContext);
          owner := oldOwner;
        case Failed(_) =>
          var _ := MemoryContextSwitchTo(oldContext);
          RollbackAndReleaseCurrentSubTransaction();
          var _ := MemoryContextSwitchTo(oldContext);
          owner := oldOwner;
      }
    }
  }

  /** The body left the enclosing transactions alone and recorded `effects` in its own. */
  ghost predicate Balanced(before: seq<seq<int>>, exit: seq<seq<int>>, effects: seq<int>) {
    exit == before + [effects]
  }

  /** For a balanced body, success hands exactly its effects to the parent and failure
      discards exactly them. */
  lemma BalancedOutcome(before: seq<seq<int>>, exit: seq<seq<int>>, effects: seq<int>)
    requires before != [] && Balanced(before, exit, effects)
    ensures Released(exit) == Record(before, effects)
    ensures RolledBack(exit) == before
  {
    assert exit[..|exit| - 1] == before;
  }
}
