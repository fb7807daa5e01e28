/** Hook composition (`withHooks` of sub2api/backend/ent/ent.go). A hook is a function from mutator to
    mutator; the ones modelled here pass the mutation on unchanged, at most once, and return what they get
    back or an error of their own. */
module Hooks {
  import opened AccountFields
  import opened Wrappers

  /** The errors of a save: a hook's own, the abort on a nil hook, a failed check, and the two kinds in which
      a failed insert is reported. */
  datatype Error = HookError(message: string) | NilHook | Invalid(field: Field) | ConstraintError | DriverError

  /** Forward passes through; Refuse fails without calling the next mutator; Spoil calls it and then turns a
      success into a failure. */
  datatype Behaviour = Forward | Refuse(error: Error) | Spoil(error: Error)

  datatype Hook = Hook(tag: nat, behaviour: Behaviour)

  /** The mutator closures: the innermost one runs the builder's own operation. */
  datatype Mutator = Base | Wrap(hook: Hook, next: Mutator)

  /** `hooks[0](hooks[1](... base))`. */
  function Compose(hooks: seq<Hook>): Mutator {
    if hooks == [] then Base else Wrap(hooks[0], Compose(hooks[1..]))
  }

  /** The error that comes out of the hooks around an operation with the given error. */
  function Around(hooks: seq<Hook>, inner: Option<Error>): Option<Error> {
    if hooks == [] then inner
    else
      match hooks[0].behaviour
      case Forward => Around(hooks[1..], inner)
      case Refuse(e) => Some(e)
      case Spoil(e) => if Around(hooks[1..], inner).Some? then Around(hooks[1..], inner) else Some(e)
  }

  predicate NoRefusal(hooks: seq<Hook>) {
    forall h <- hooks :: !h.behaviour.Refuse?
  }

  predicate NoSpoiler(hooks: seq<Hook>) {
    forall h <- hooks :: !h.behaviour.Spoil?
  }

  /** Hook k is the first that refuses. */
  ghost predicate FirstRefusal(hooks: seq<Hook>, k: nat) {
    k < |hooks| && hooks[k].behaviour.Refuse? && NoRefusal(hooks[..k])
  }

  /** Hook k is the innermost that spoils a success. */
  ghost predicate LastSpoiler(hooks: seq<Hook>, k: nat) {
    k < |hooks| && hooks[k].behaviour.Spoil? && NoSpoiler(hooks[k + 1..])
  }

  lemma {:induction false} FirstRefuser(hooks: seq<Hook>) returns (k: nat)
    requires !NoRefusal(hooks)
    ensures FirstRefusal(hooks, k)
  {
    k := 0;
    while !hooks[k].behaviour.Refuse?
      invariant k <= |hooks| && NoRefusal(hooks[..k])
      decreases |hooks| - k
    {
      assert hooks[..k + 1] == hooks[..k] + [hooks[k]];
      k := k + 1;
    }
  }

  /** Success needs three things, and they suffice; otherwise the error is that of the first hook to refuse,
      else that of the operation, else that of the innermost spoiler. */
  lemma {:induction false} AroundSucceeds(hooks: seq<Hook>, inner: Option<Error>)
    ensures Around(hooks, inner) == None <==> NoRefusal(hooks) && NoSpoiler(hooks) && inner == None
    ensures NoRefusal(hooks) && inner.Some? ==> Around(hooks, inner) == inner
    ensures forall k: nat :: FirstRefusal(hooks, k) ==> Around(hooks, inner) == Some(hooks[k].behaviour.error)
    ensures NoRefusal(hooks) && inner == None ==>
      forall k: nat :: LastSpoiler(hooks, k) ==> Around(hooks, inner) == Some(hooks[k].behaviour.error)
  {
    if hooks != [] {
      AroundSucceeds(hooks[1..], inner);
      assert forall h :: h in hooks <==> h == hooks[0] || h in hooks[1..];
      forall k: nat | FirstRefusal(hooks, k)
        ensures Around(hooks, inner) == Some(hooks[k].behaviour.error)
      {
        if k > 0 {
          assert hooks[..k] == [hooks[0]] + hooks[1..][..k - 1];
          assert hooks[0] in hooks[..k];
          assert FirstRefusal(hooks[1..], k - 1);
        }
      }
      if NoRefusal(hooks) && inner == None {
        forall k: nat | LastSpoiler(hooks, k)
          ensures Around(hooks, inner) == Some(hooks[k].behaviour.error)
        {
          if k > 0 {
            assert hooks[1..][k..] == hooks[k + 1..];
            assert LastSpoiler(hooks[1..], k - 1);
          } else {
            assert NoSpoiler(hooks[1..]);
          }
        }
      }
    }
  }

  // ---------------------------------------------------------------- traces

  datatype Event = Enter(tag: nat) | Exec | Leave(tag: nat)

  function Enters(hooks: seq<Hook>): seq<Event> {
    if hooks == [] then [] else [Enter(hooks[0].tag)] + Enters(hooks[1..])
  }

  function Leaves(hooks: seq<Hook>): seq<Event> {
    if hooks == [] then [] else Leaves(hooks[1..]) + [Leave(hooks[0].tag)]
  }

  /** The hooks that are entered: up to and including the first that refuses. */
  function Entered(hooks: seq<Hook>): seq<Hook> {
    if hooks == [] then []
    else if hooks[0].behaviour.Refuse? then [hooks[0]]
    else [hooks[0]] + Entered(hooks[1..])
  }

  /** The whole run: enter outside in, execute once unless some hook refuses, leave inside out. */
  function Trace(hooks: seq<Hook>): seq<Event> {
    Enters(Entered(hooks)) + (if NoRefusal(hooks) then [Exec] else []) + Leaves(Entered(hooks))
  }

  lemma {:induction false} TraceStep(hooks: seq<Hook>)
    requires hooks != []
    ensures Trace(hooks) == [Enter(hooks[0].tag)]
      + (if hooks[0].behaviour.Refuse? then [] else Trace(hooks[1..])) + [Leave(hooks[0].tag)]
  {
    var e := Entered(hooks);
    assert forall h :: h in hooks <==> h == hooks[0] || h in hooks[1..];
    if hooks[0].behaviour.Refuse? {
      assert e[1..] == [];
    } else {
      assert e[1..] == Entered(hooks[1..]);
      var mid := if NoRefusal(hooks) then [Exec] else [];
      assert [Enter(hooks[0].tag)] + (Enters(e[1..]) + mid + Leaves(e[1..])) + [Leave(hooks[0].tag)]
          == ([Enter(hooks[0].tag)] + Enters(e[1..])) + mid + (Leaves(e[1..]) + [Leave(hooks[0].tag)]);
    }
  }

  lemma TraceNone(hooks: seq<Hook>)
    requires Compose(hooks) == Base
    ensures hooks == [] && Trace(hooks) == [Exec]
  {
  }

  lemma Bracket(before: seq<Event>, x: Event, mid: seq<Event>, y: Event)
    ensures before + [x] + mid + [y] == before + ([x] + mid + [y])
  {
  }

  /** With hooks that only forward, the trace is the full bracket around one execution. */
  lemma {:induction false} ForwardTrace(hooks: seq<Hook>)
    requires forall h <- hooks :: h.behaviour.Forward?
    ensures Trace(hooks) == Enters(hooks) + [Exec] + Leaves(hooks)
  {
    EnteredAll(hooks);
  }

  /** Event by event: hook i is the i-th to be entered and the i-th from last to be left. */
  lemma {:induction false} ForwardEvents(hooks: seq<Hook>, i: nat)
    requires i < |hooks| && forall h <- hooks :: h.behaviour.Forward?
    ensures |Trace(hooks)| == 2 * |hooks| + 1 && Trace(hooks)[|hooks|] == Exec
    ensures Trace(hooks)[i] == Enter(hooks[i].tag) && Trace(hooks)[2 * |hooks| - i] == Leave(hooks[i].tag)
  {
    ForwardTrace(hooks);
    EventAt(hooks, i);
  }

  lemma {:induction false} EventAt(hooks: seq<Hook>, i: nat)
    requires i < |hooks|
    ensures |Enters(hooks)| == |Leaves(hooks)| == |hooks|
    ensures Enters(hooks)[i] == Enter(hooks[i].tag) && Leaves(hooks)[|hooks| - 1 - i] == Leave(hooks[i].tag)
  {
    if |hooks| > 1 {
      EventAt(hooks[1..], if i == 0 then 0 else i - 1);
    }
  }

  lemma {:induction false} EnteredAll(hooks: seq<Hook>)
    requires NoRefusal(hooks)
    ensures Entered(hooks) == hooks
  {
    if hooks != [] {
      EnteredAll(hooks[1..]);
    }
  }

  /** The operation runs at most once, and exactly once when no hook refuses. */
  lemma {:induction false} ExecCount(hooks: seq<Hook>)
    ensures multiset(Trace(hooks))[Exec] == if NoRefusal(hooks) then 1 else 0
  {
    NoExec(Entered(hooks));
  }

  lemma {:induction false} NoExec(hooks: seq<Hook>)
    ensures Exec !in Enters(hooks) && Exec !in Leaves(hooks)
  {
    if hooks != [] {
      NoExec(hooks[1..]);
    }
  }

  // ---------------------------------------------------------------- the code

  /** The builder whose operation the hooks surround; it records what happens. */
  class Client {
    var trace: seq<Event>

    constructor ()
      ensures trace == []
    {
      trace := [];
    }

    method Exec(outcome: Option<Error>) returns (err: Option<Error>)
      modifies this
      ensures err == outcome && trace == old(trace) + [Event.Exec]
    {
      trace := trace + [Event.Exec];
      err := outcome;
    }

    /** Calling a mutator that was composed from the given hooks. */
    method Mutate(ghost hooks: seq<Hook>, mut: Mutator, outcome: Option<Error>) returns (err: Option<Error>)
      requires mut == Compose(hooks)
      modifies this
      ensures trace == old(trace) + Trace(hooks)
      ensures err == Around(hooks, outcome)
      decreases mut
    {
      if mut.Base? {
        TraceNone(hooks);
        err := Exec(outcome);
        return;
      }
      TraceStep(hooks);
      ghost var inner := if mut.hook.behaviour.Refuse? then [] else Trace(hooks[1..]);
      Bracket(trace, Enter(mut.hook.tag), inner, Leave(mut.hook.tag));
      trace := trace + [Enter(mut.hook.tag)];
      match mut.hook.behaviour {
        case Forward =>
          err := Mutate(hooks[1..], mut.next, outcome);
        case Refuse(e) =>
          err := Some(e);
        case Spoil(e) =>
          err := Mutate(hooks[1..], mut.next, outcome);
          if err.None? {
            err := Some(e);
          }
      }
      trace := trace + [Leave(mut.hook.tag)];
    }

    /** `withHooks`. A nil hook is None, and its error is NilHook. */
    method WithHooks(hooks: seq<Option<Hook>>, outcome: Option<Error>) returns (err: Option<Error>)
      modifies this
      ensures None in hooks ==> err == Some(NilHook) && trace == old(trace)
      ensures None !in hooks ==> trace == old(trace) + Trace(Present(hooks)) && err == Around(Present(hooks), outcome)
    {
      if |hooks| == 0 {
        err := Exec(outcome);
        TraceNone([]);
        return;
      }
      var mut := Base;
      assert hooks[|hooks|..] == [];
      for i := |hooks| downto 0
        invariant None !in hooks[i..] && mut == Compose(Present(hooks[i..]))
      {
        assert hooks[i..] == [hooks[i]] + hooks[i + 1..];
        if hooks[i].None? {
          return Some(NilHook);
        }
        assert None !in hooks[i..];
        mut := Wrap(hooks[i].value, mut);
      }
      assert hooks[0..] == hooks;
      err := Mutate(Present(hooks), mut, outcome);
    }
  }

  /** The hooks behind the pointers, in the same order. */
  function Present(hooks: seq<Option<Hook>>): (r: seq<Hook>)
    requires None !in hooks
    ensures |r| == |hooks| && forall i :: 0 <= i < |hooks| ==> Some(r[i]) == hooks[i]
  {
    if hooks == [] then [] else [hooks[0].value] + Present(hooks[1..])
  }
}
