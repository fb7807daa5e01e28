/** The bulk-create chain (`AccountCreateBulk.Save` of sub2api/backend/ent/account_create.go). The closures
    that call each other are turned into a recursive method over the builder's position. Hooks forward the
    mutation they are given, so writing it back to the builder changes nothing. */
module BulkCreate {
  import opened AccountFields
  import opened Hooks
  import opened Wrappers

  class AccountMutation {
    var fields: Fields
    /** A pointer to the ID of a node, modelled by the node that holds it. */
    var id: AccountRecord?
    var done: bool

    constructor (fields: Fields)
      ensures this.fields == fields && id == null && !done
    {
      this.fields, id, done := fields, null, false;
    }

    /** The `ID` accessor reads through the pointer. */
    function ID(): Option<int>
      reads this, id
    {
      if id == null then None else Some(id.id)
    }
  }

  class CreateSpec {
    const fields: Fields
    var idValue: Option<int>

    constructor (fields: Fields)
      ensures this.fields == fields && idValue == None
    {
      this.fields, idValue := fields, None;
    }
  }

  class AccountCreate {
    const mutation: AccountMutation
    const hooks: seq<Hook>

    constructor (mutation: AccountMutation, hooks: seq<Hook>)
      ensures this.mutation == mutation && this.hooks == hooks
    {
      this.mutation, this.hooks := mutation, hooks;
    }

    /** `defaults`, whose ten steps run through the defaulted fields in order. */
    method Defaults(env: Env) returns (stopped: Option<Field>)
      modifies mutation`fields
      ensures (mutation.fields, stopped) == AccountFields.Defaults(env, old(mutation.fields))
      ensures Filled(env, old(mutation.fields), mutation.fields)
    {
      DefaultsFill(env, mutation.fields);
      var order := FUNCTION_DEFAULTS + PLAIN_DEFAULTS;
      for i := 0 to |order|
        invariant Fill(env, mutation.fields, order[i..]) == AccountFields.Defaults(env, old(mutation.fields))
      {
        assert order[i..][1..] == order[i + 1..];
        if order[i] !in mutation.fields {
          if order[i] !in env.defaults {
            return Some(order[i]);
          }
          mutation.fields := mutation.fields[order[i] := env.defaults[order[i]]];
        }
      }
      return None;
    }

    /** `createSpec`: a node and an insert that carry exactly the fields that are set. */
    method Spec() returns (node: AccountRecord, spec: CreateSpec)
      ensures fresh(node) && fresh(spec)
      ensures node.columns == mutation.fields && node.id == 0
      ensures spec.fields == mutation.fields && spec.idValue == None
    {
      node := new AccountRecord();
      node.columns := mutation.fields;
      spec := new CreateSpec(mutation.fields);
    }
  }

  /** What the database answers to the batch insert: an error, or the key of each row where it reports one. */
  datatype Answer = Failed(constraint: bool) | Stored(ids: nat -> Option<int>)

  function Failure(a: Answer): Option<Error> {
    match a
    case Failed(c) => Some(if c then ConstraintError else DriverError)
    case Stored(_) => None
  }

  class Driver {
    const answer: Answer
    var batches: seq<seq<Fields>>

    constructor (answer: Answer)
      ensures this.answer == answer && batches == []
    {
      this.answer, batches := answer, [];
    }

    /** `sqlgraph.BatchCreate`: it needs a spec in every slot, and reports keys by writing them into the specs. */
    method BatchCreate(specs: array<CreateSpec?>) returns (err: Option<Error>)
      requires forall i :: 0 <= i < specs.Length ==> specs[i] != null
      requires forall i, j :: 0 <= i < j < specs.Length ==> specs[i] != specs[j]
      modifies this`batches, set i | 0 <= i < specs.Length :: specs[i]
      ensures |batches| == |old(batches)| + 1 && batches[..|old(batches)|] == old(batches)
      ensures |batches[|old(batches)|]| == specs.Length
      ensures forall i :: 0 <= i < specs.Length ==> batches[|old(batches)|][i] == specs[i].fields
      ensures err == Failure(answer)
      ensures answer.Stored? ==> forall i :: 0 <= i < specs.Length ==> specs[i].idValue == answer.ids(i)
    {
      var sent: seq<Fields> := seq(specs.Length, i requires 0 <= i < specs.Length && specs[i] != null reads specs => specs[i].fields);
      batches := batches + [sent];
      if answer.Stored? {
        for i := 0 to specs.Length
          invariant batches == old(batches) + [sent]
          invariant forall k :: 0 <= k < i ==> specs[k].idValue == answer.ids(k)
        {
          specs[i].idValue := answer.ids(i);
        }
      }
      err := Failure(answer);
    }
  }

  // ---------------------------------------------------------------- what the chain does, from its inputs

  /** The inputs of a chain: the hooks and the fields of each builder, and the answer of the database. */
  datatype Plan = Plan(env: Env, hooks: seq<seq<Hook>>, fields: seq<Fields>, answer: Answer)

  ghost predicate Wf(p: Plan) {
    |p.hooks| == |p.fields|
  }

  /** Nothing stops the chain at builder i: no hook refuses and the check passes. */
  predicate Clear(p: Plan, i: nat)
    requires |p.hooks| == |p.fields| && i < |p.fields|
  {
    NoRefusal(p.hooks[i]) && Check(p.env, p.fields[i]) == None
  }

  ghost predicate ClearFrom(p: Plan, i: nat)
    requires Wf(p)
  {
    forall j :: i <= j < |p.fields| ==> Clear(p, j)
  }

  /** No builder from position i on has a hook that turns success into failure. */
  ghost predicate UnspoiltFrom(p: Plan, i: nat)
    requires Wf(p)
  {
    forall j :: i <= j < |p.fields| ==> NoSpoiler(p.hooks[j])
  }

  /** The error of builder i's own operation, and of its whole mutator. */
  function CoreError(p: Plan, i: nat): Option<Error>
    requires |p.hooks| == |p.fields| && i < |p.fields|
    decreases |p.fields| - i, 0
  {
    match Check(p.env, p.fields[i])
    case Some(f) => Some(Invalid(f))
    case None => if i < |p.fields| - 1 then ChainError(p, i + 1) else Failure(p.answer)
  }

  function ChainError(p: Plan, i: nat): Option<Error>
    requires |p.hooks| == |p.fields| && i < |p.fields|
    decreases |p.fields| - i, 1
  {
    Around(p.hooks[i], CoreError(p, i))
  }

  lemma {:induction false} ChainSucceeds(p: Plan, i: nat)
    requires Wf(p) && i < |p.fields|
    ensures CoreError(p, i) == None <==>
            Check(p.env, p.fields[i]) == None && ClearFrom(p, i + 1) && p.answer.Stored? && UnspoiltFrom(p, i + 1)
    ensures ChainError(p, i) == None <==> ClearFrom(p, i) && p.answer.Stored? && UnspoiltFrom(p, i)
    decreases |p.fields| - i
  {
    if i < |p.fields| - 1 {
      ChainSucceeds(p, i + 1);
    }
    AroundSucceeds(p.hooks[i], CoreError(p, i));
    assert ClearFrom(p, i) <==> Clear(p, i) && ClearFrom(p, i + 1);
    assert UnspoiltFrom(p, i) <==> NoSpoiler(p.hooks[i]) && UnspoiltFrom(p, i + 1);
  }

  /** The error a caller sees is that of the first builder that is not clear: the one of its first hook that
      refuses, else that of its check. */
  lemma {:induction false} FirstErrorWins(p: Plan, i: nat, k: nat)
    requires Wf(p) && i <= k < |p.fields|
    requires forall j :: i <= j < k ==> Clear(p, j)
    requires !Clear(p, k)
    ensures NoRefusal(p.hooks[k]) ==> ChainError(p, i) == Some(Invalid(Check(p.env, p.fields[k]).value))
    ensures !NoRefusal(p.hooks[k]) ==>
      exists n: nat :: FirstRefusal(p.hooks[k], n) && ChainError(p, i) == Some(p.hooks[k][n].behaviour.error)
    decreases k - i
  {
    AroundSucceeds(p.hooks[i], CoreError(p, i));
    if i == k {
      if !NoRefusal(p.hooks[k]) {
        var n := FirstRefuser(p.hooks[k]);
      }
    } else {
      assert Clear(p, i);
      FirstErrorWins(p, i + 1, k);
    }
  }

  lemma {:induction false} InsertErrorWins(p: Plan, i: nat)
    requires Wf(p) && i < |p.fields| && ClearFrom(p, i) && p.answer.Failed?
    ensures ChainError(p, i) == Failure(p.answer)
    decreases |p.fields| - i
  {
    if i < |p.fields| - 1 {
      InsertErrorWins(p, i + 1);
    }
    assert Clear(p, i);
    AroundSucceeds(p.hooks[i], CoreError(p, i));
  }

  lemma {:induction false} InsertErrorNamed(p: Plan, i: nat)
    requires Wf(p) && i < |p.fields| && ClearFrom(p, i)
    ensures p.answer == Failed(true) ==> ChainError(p, i) == Some(ConstraintError)
    ensures p.answer == Failed(false) ==> ChainError(p, i) == Some(DriverError)
  {
    if p.answer.Failed? {
      InsertErrorWins(p, i);
    }
  }

  /** When only success is spoilt, the error is the one of the innermost spoiling hook of the last builder that
      has any. */
  lemma {:induction false} SpoilErrorWins(p: Plan, i: nat, k: nat, n: nat)
    requires Wf(p) && i <= k < |p.fields| && ClearFrom(p, i) && p.answer.Stored?
    requires LastSpoiler(p.hooks[k], n) && UnspoiltFrom(p, k + 1)
    ensures ChainError(p, i) == Some(p.hooks[k][n].behaviour.error)
    decreases k - i
  {
    ChainSucceeds(p, i);
    assert Clear(p, i) && ClearFrom(p, i + 1);
    AroundSucceeds(p.hooks[i], CoreError(p, i));
    if i < k {
      SpoilErrorWins(p, i + 1, k, n);
    }
  }

  /** All or nothing: a failing save leaves a mark behind exactly when the insert went through and some hook
      turned that success into a failure. The last builder is then marked in any case, and so is every builder
      behind a marked one. */
  lemma {:induction false} AllOrNothing(p: Plan)
    requires Wf(p) && p.fields != []
    ensures ChainError(p, 0).Some? && (exists j :: 0 <= j < |p.fields| && InsertedAndMarked(p, j)) <==>
            ClearFrom(p, 0) && p.answer.Stored? && !UnspoiltFrom(p, 0)
    ensures forall j, k :: 0 <= j <= k < |p.fields| && InsertedAndMarked(p, j) ==> InsertedAndMarked(p, k)
  {
    ChainSucceeds(p, 0);
    var last := |p.fields| - 1;
    assert InsertedAndMarked(p, last) <==> ClearFrom(p, 0) && p.answer.Stored?;
  }

  ghost predicate InsertedAndMarked(p: Plan, j: nat)
    requires Wf(p)
  {
    ClearFrom(p, 0) && p.answer.Stored? && UnspoiltFrom(p, j + 1)
  }

  /** It does happen: one builder that passes its check, with a hook that fails after the insert. */
  lemma {:induction false} FailureCanLeaveMark(env: Env, fields: Fields, tag: nat, e: Error, ids: nat -> Option<int>)
    requires Check(env, fields) == None
    ensures var p := Plan(env, [[Hook(tag, Spoil(e))]], [fields], Stored(ids));
      ChainError(p, 0) == Some(e) && InsertedAndMarked(p, 0)
  {
    var p := Plan(env, [[Hook(tag, Spoil(e))]], [fields], Stored(ids));
    assert p.hooks[0] == [Hook(tag, Spoil(e))];
    assert LastSpoiler(p.hooks[0], 0);
    AroundSucceeds(p.hooks[0], CoreError(p, 0));
  }

  // ---------------------------------------------------------------- the chain

  /** The mutation is still marked or not as it was. */
  twostate predicate Kept(m: AccountMutation)
    reads m
  {
    m.done == old(m.done) && m.id == old(m.id)
  }

  /** The variables that the closures of one `Save` share. */
  class Chain {
    const env: Env
    const driver: Driver
    const builders: seq<AccountCreate>
    const mutators: array<Mutator>
    const specs: array<CreateSpec?>
    const nodes: array<AccountRecord?>

    constructor (env: Env, driver: Driver, builders: seq<AccountCreate>)
      ensures this.env == env && this.driver == driver && this.builders == builders
      ensures fresh(mutators) && fresh(specs) && fresh(nodes)
      ensures mutators.Length == specs.Length == nodes.Length == |builders|
    {
      this.env, this.driver, this.builders := env, driver, builders;
      mutators := new Mutator[|builders|](_ => Base);
      specs := new CreateSpec?[|builders|](_ => null);
      nodes := new AccountRecord?[|builders|](_ => null);
    }

    ghost function Mutations(): set<AccountMutation> {
      set b | b in builders :: b.mutation
    }

    /** The plan describes this chain in the current state. */
    ghost predicate Matches(p: Plan)
      reads Mutations()
    {
      && p.env == env && p.answer == driver.answer && |p.hooks| == |p.fields| == |builders|
      && (forall j :: 0 <= j < |builders| ==> p.hooks[j] == builders[j].hooks)
      && (forall j :: 0 <= j < |builders| ==> p.fields[j] == builders[j].mutation.fields)
    }

    ghost predicate Shaped()
      reads this, mutators
    {
      && mutators.Length == specs.Length == nodes.Length == |builders|
      && specs as object != nodes && specs as object != mutators && nodes as object != mutators
      && forall j :: 0 <= j < |builders| ==> mutators[j] == Compose(builders[j].hooks)
    }

    /** Plan and slices have one entry for each builder. */
    ghost predicate Sized(p: Plan) {
      |p.hooks| == |p.fields| == |builders| == specs.Length == nodes.Length && specs as object != nodes
    }

    /** The first i slots are filled with separate specs for the builders' fields, and with nodes. */
    ghost predicate FilledTo(i: nat)
      requires mutators.Length == specs.Length == nodes.Length == |builders|
      reads this, specs, nodes, Mutations()
    {
      && i <= |builders|
      && (forall j :: 0 <= j < i ==> specs[j] != null && specs[j].fields == builders[j].mutation.fields)
      && (forall j, k :: 0 <= j < k < i ==> specs[j] != specs[k])
      && (forall j :: 0 <= j < i ==> nodes[j] != null)
    }

    /** The insert is reached from builder i's own operation. */
    static ghost predicate Reached(p: Plan, i: nat)
      requires Wf(p) && i < |p.fields|
    {
      Check(p.env, p.fields[i]) == None && ClearFrom(p, i + 1)
    }

    /** Builder j's mutation is marked as done, provided the insert succeeds: nothing inside turned the success
        into a failure on the way back. */
    static ghost predicate Marked(p: Plan, j: nat)
      requires Wf(p)
    {
      UnspoiltFrom(p, j + 1)
    }

    /** The effect of a successful insert on slots, nodes and mutations, for the builders from i on. */
    ghost predicate Effect(p: Plan, i: nat)
      requires Wf(p) && |p.fields| == |builders| == specs.Length == nodes.Length && p.answer.Stored?
      reads this, specs, nodes, Mutations()
      reads set j | 0 <= j < nodes.Length :: nodes[j]
      reads set j | 0 <= j < specs.Length :: specs[j]
    {
      && (forall j :: 0 <= j < |builders| ==> specs[j] != null && specs[j].idValue == p.answer.ids(j))
      && (forall j :: i <= j < |builders| ==> nodes[j] != null && nodes[j].columns == p.fields[j])
      && (forall j :: i <= j < |builders| && Marked(p, j) ==>
            && nodes[j].id == (if p.answer.ids(j).Some? then p.answer.ids(j).value else 0)
            && builders[j].mutation.done)
      && (forall j :: i <= j < |builders| && Marked(p, j) && Earliest(p, i, j) ==> builders[j].mutation.id == nodes[j])
    }

    /** No earlier marked builder has the same mutation. */
    ghost predicate Earliest(p: Plan, i: nat, j: nat)
      requires Wf(p) && j < |builders|
    {
      forall k :: i <= k < j && Marked(p, k) ==> builders[k].mutation != builders[j].mutation
    }

    /** No marked builder from i on has this mutation. */
    ghost predicate Untouched(p: Plan, i: nat, m: AccountMutation)
      requires Wf(p)
    {
      forall j :: i <= j < |builders| && Marked(p, j) ==> builders[j].mutation != m
    }

    /** The innermost function of builder i's mutator. */
    method Core(i: nat, ghost p: Plan) returns (err: Option<Error>)
      requires Shaped() && Matches(p) && i < |builders| && FilledTo(i)
      modifies specs, nodes, driver`batches, Mutations()`id, Mutations()`done
      modifies set j | 0 <= j < i :: specs[j]
      ensures err == CoreError(p, i)
      ensures driver.batches == old(driver.batches) + (if Reached(p, i) then [p.fields] else [])
      ensures forall j :: 0 <= j < i ==> specs[j] == old(specs[j]) && nodes[j] == old(nodes[j])
      ensures Reached(p, i) && p.answer.Stored? ==> Effect(p, i) && forall j :: i <= j < |builders| ==> fresh(nodes[j])
      ensures forall m <- Mutations() :: !(Reached(p, i) && p.answer.Stored?) || Untouched(p, i, m) ==> Kept(m)
      decreases |builders| - i, 2
    {
      var failed := Check(env, builders[i].mutation.fields);
      if failed.Some? {
        return Some(Invalid(failed.value));
      }
      Place(i);
      err := Operate(i, p);
    }

    /** The rest of that function: go on to the next builder, then mark this one unless an error came back. */
    method Operate(i: nat, ghost p: Plan) returns (err: Option<Error>)
      requires Shaped() && Matches(p) && i < |builders| && FilledTo(i + 1) && Check(p.env, p.fields[i]) == None
      requires nodes[i].id == 0 && nodes[i].columns == p.fields[i]
      modifies specs, nodes, driver`batches, Mutations()`id, Mutations()`done, nodes[i]
      modifies set j | 0 <= j < i + 1 :: specs[j]
      ensures err == CoreError(p, i)
      ensures driver.batches == old(driver.batches) + (if Reached(p, i) then [p.fields] else [])
      ensures forall j :: 0 <= j < i + 1 ==> specs[j] == old(specs[j]) && nodes[j] == old(nodes[j])
      ensures Reached(p, i) && p.answer.Stored? ==> Effect(p, i) && forall j :: i < j < |builders| ==> fresh(nodes[j])
      ensures forall m <- Mutations() :: !(Reached(p, i) && p.answer.Stored?) || Untouched(p, i, m) ==> Kept(m)
      decreases |builders| - i, 1
    {
      err := Continue(i, p);
      Unwinding(p, i);
      Settle(i, p, err);
    }

    /** The way back through builder i. */
    method Settle(i: nat, ghost p: Plan, err: Option<Error>)
      requires Sized(p) && i < |builders|
      requires err == None <==> Reached(p, i) && p.answer.Stored? && Marked(p, i)
      requires Reached(p, i) && p.answer.Stored? ==> Effect(p, i + 1) && forall j :: i < j < |builders| ==> nodes[j] != nodes[i]
      requires nodes[i] != null && nodes[i].id == 0 && nodes[i].columns == p.fields[i]
      modifies builders[i].mutation`id, builders[i].mutation`done, nodes[i]
      ensures Reached(p, i) && p.answer.Stored? ==> Effect(p, i)
      ensures forall m <- Mutations() :: err.Some? || m != builders[i].mutation ==> Kept(m)
    {
      if err.None? {
        Mark(i, p);
      } else if Reached(p, i) && p.answer.Stored? {
        EffectUnmarked(i, p);
      }
    }

    lemma EffectUnmarked(i: nat, p: Plan)
      requires Sized(p) && i < |builders| && p.answer.Stored? && !Marked(p, i) && Effect(p, i + 1)
      requires nodes[i] != null && nodes[i].columns == p.fields[i]
      ensures Effect(p, i)
    {
      forall j | i <= j < |builders| && Marked(p, j) && Earliest(p, i, j)
        ensures builders[j].mutation.id == nodes[j]
      {
        assert Earliest(p, i + 1, j);
      }
    }

    /** Builder i is marked exactly when the insert was reached and its own operation succeeds. */
    lemma Unwinding(p: Plan, i: nat)
      requires Wf(p) && i < |p.fields| == |builders|
      ensures CoreError(p, i) == None <==> Reached(p, i) && p.answer.Stored? && Marked(p, i)
      ensures forall m :: Untouched(p, i, m) ==> Untouched(p, i + 1, m)
      ensures forall m :: Untouched(p, i, m) && Marked(p, i) ==> m != builders[i].mutation
    {
      ChainSucceeds(p, i);
    }

    /** Fills slot i with the node and the spec of builder i. */
    method Place(i: nat)
      requires Shaped() && i < |builders| && FilledTo(i)
      modifies specs, nodes
      ensures FilledTo(i + 1)
      ensures forall j :: 0 <= j < |builders| && j != i ==> specs[j] == old(specs[j]) && nodes[j] == old(nodes[j])
      ensures fresh(specs[i]) && fresh(nodes[i]) && nodes[i].id == 0 && nodes[i].columns == builders[i].mutation.fields
    {
      var node, spec := builders[i].Spec();
      nodes[i], specs[i] := node, spec;
    }

    /** The call of the next mutator or, from the last one, the insert. */
    method Continue(i: nat, ghost p: Plan) returns (err: Option<Error>)
      requires Shaped() && Matches(p) && i < |builders| && FilledTo(i + 1) && Check(p.env, p.fields[i]) == None
      modifies specs, nodes, driver`batches, Mutations()`id, Mutations()`done
      modifies set j | 0 <= j < i + 1 :: specs[j]
      ensures err == CoreError(p, i)
      ensures driver.batches == old(driver.batches) + (if Reached(p, i) then [p.fields] else [])
      ensures forall j :: 0 <= j < i + 1 ==> specs[j] == old(specs[j]) && nodes[j] == old(nodes[j])
      ensures Reached(p, i) && p.answer.Stored? ==>
        Effect(p, i + 1) && forall j :: i < j < |builders| ==> fresh(nodes[j]) && nodes[j] != nodes[i]
      ensures forall m <- Mutations() :: !(Reached(p, i) && p.answer.Stored?) || Untouched(p, i + 1, m) ==> Kept(m)
      decreases |builders| - i, 0
    {
      if i < |builders| - 1 {
        err := Mutate(i + 1, p, builders[i + 1].hooks, mutators[i + 1]);
        ClearReached(p, i + 1);
      } else {
        err := Insert(p);
      }
    }

    /** The insert, when all slots are filled. */
    method Insert(ghost p: Plan) returns (err: Option<Error>)
      requires Shaped() && Matches(p) && FilledTo(|builders|)
      modifies driver`batches, set j | 0 <= j < |builders| :: specs[j]
      ensures err == Failure(p.answer) && driver.batches == old(driver.batches) + [p.fields]
      ensures p.answer.Stored? ==> Effect(p, |builders|)
    {
      err := driver.BatchCreate(specs);
      assert driver.batches[|old(driver.batches)|] == p.fields;
      assert driver.batches == old(driver.batches) + [p.fields];
    }

    /** What is done after the insert has succeeded: the mutation points at its node before the key is copied
        into the node. */
    method Mark(i: nat, ghost p: Plan)
      requires Sized(p) && i < |builders| && p.answer.Stored? && Marked(p, i) && Effect(p, i + 1)
      requires nodes[i] != null && nodes[i].id == 0 && nodes[i].columns == p.fields[i]
      requires forall j :: i < j < |builders| ==> nodes[j] != nodes[i]
      modifies builders[i].mutation`id, builders[i].mutation`done, nodes[i]
      ensures Effect(p, i)
    {
      var m := builders[i].mutation;
      m.id := nodes[i];
      if specs[i].idValue.Some? {
        nodes[i].id := specs[i].idValue.value;
      }
      m.done := true;
      EarliestApart(i, p);
    }

    /** An earliest marked builder behind i does not share its mutation with the marked builder i. */
    lemma EarliestApart(i: nat, p: Plan)
      requires Wf(p) && i < |builders| && Marked(p, i)
      ensures forall j :: i < j < |builders| && Earliest(p, i, j) ==>
        Earliest(p, i + 1, j) && builders[j].mutation != builders[i].mutation
    {
    }

    /** Calling the first mutator. */
    method Begin(ghost p: Plan) returns (err: Option<Error>)
      requires Shaped() && Matches(p) && |builders| > 0 && FilledTo(0)
      modifies specs, nodes, driver`batches, Mutations()`id, Mutations()`done
      ensures err == ChainError(p, 0)
      ensures driver.batches == old(driver.batches) + (if ClearFrom(p, 0) then [p.fields] else [])
      ensures ClearFrom(p, 0) && p.answer.Stored? ==> Effect(p, 0)
      ensures forall m <- Mutations() :: !(ClearFrom(p, 0) && p.answer.Stored?) || Untouched(p, 0, m) ==> Kept(m)
    {
      ClearReached(p, 0);
      err := Mutate(0, p, builders[0].hooks, mutators[0]);
    }

    /** Calling builder i's mutator, or what is left of it inside some of its hooks. */
    method Mutate(i: nat, ghost p: Plan, ghost hooks: seq<Hook>, mut: Mutator) returns (err: Option<Error>)
      requires Shaped() && Matches(p) && i < |builders| && FilledTo(i)
      requires mut == Compose(hooks)
      modifies specs, nodes, driver`batches, Mutations()`id, Mutations()`done
      modifies set j | 0 <= j < i :: specs[j]
      ensures err == Around(hooks, CoreError(p, i))
      ensures driver.batches == old(driver.batches) + (if NoRefusal(hooks) && Reached(p, i) then [p.fields] else [])
      ensures forall j :: 0 <= j < i ==> specs[j] == old(specs[j]) && nodes[j] == old(nodes[j])
      ensures NoRefusal(hooks) && Reached(p, i) && p.answer.Stored? ==>
        Effect(p, i) && forall j :: i <= j < |builders| ==> fresh(nodes[j])
      ensures forall m <- Mutations() :: !(NoRefusal(hooks) && Reached(p, i) && p.answer.Stored?) || Untouched(p, i, m) ==> Kept(m)
      decreases |builders| - i, 3, mut
    {
      if mut.Base? {
        err := Core(i, p);
        return;
      }
      match mut.hook.behaviour {
        case Forward =>
          err := Mutate(i, p, hooks[1..], mut.next);
        case Refuse(e) =>
          err := Some(e);
        case Spoil(e) =>
          err := Mutate(i, p, hooks[1..], mut.next);
          if err.None? {
            err := Some(e);
          }
      }
    }
  }

  /** The insert is reached through builder i's mutator exactly when all builders from i on are clear. */
  lemma ClearReached(p: Plan, i: nat)
    requires Wf(p) && i < |p.fields|
    ensures ClearFrom(p, i) <==> NoRefusal(p.hooks[i]) && Chain.Reached(p, i)
  {
    assert ClearFrom(p, i) <==> Clear(p, i) && ClearFrom(p, i + 1);
  }

  // ---------------------------------------------------------------- the bulk builder

  class AccountCreateBulk {
    const env: Env
    const driver: Driver
    const builders: seq<AccountCreate>
    const err: Option<Error>

    constructor (env: Env, driver: Driver, builders: seq<AccountCreate>, err: Option<Error>)
      ensures this.env == env && this.driver == driver && this.builders == builders && this.err == err
    {
      this.env, this.driver, this.builders, this.err := env, driver, builders, err;
    }

    ghost function Mutations(): set<AccountMutation> {
      set b | b in builders :: b.mutation
    }

    /** The plan of a save that starts in the current state: every mutation has its defaults filled in. */
    ghost function PlanAhead(): (p: Plan)
      reads Mutations()
      ensures Wf(p) && |p.fields| == |builders|
    {
      Plan(env,
           seq(|builders|, i requires 0 <= i < |builders| => builders[i].hooks),
           seq(|builders|, i requires 0 <= i < |builders| reads Mutations() =>
             AccountFields.Defaults(env, builders[i].mutation.fields).0),
           driver.answer)
    }

    ghost predicate Inserts(p: Plan)
      requires Wf(p)
    {
      err == None && p.fields != [] && ClearFrom(p, 0)
    }

    /** The first loop of `Save`, without the wrapping of hooks. Builders may share a mutation: filling its
        defaults twice is filling them once. */
    method FillAllDefaults()
      modifies Mutations()`fields
      ensures forall m <- Mutations() :: m.fields == AccountFields.Defaults(env, old(m.fields)).0
    {
      for i := 0 to |builders|
        invariant forall m <- Mutations() :: m.fields == old(m.fields) || m.fields == AccountFields.Defaults(env, old(m.fields)).0
        invariant forall k :: 0 <= k < i ==>
          builders[k].mutation.fields == AccountFields.Defaults(env, old(builders[k].mutation.fields)).0
      {
        ghost var m := builders[i].mutation;
        DefaultsIdempotent(env, old(m.fields));
        var _ := builders[i].Defaults(env);
      }
      forall m | m in Mutations()
        ensures m.fields == AccountFields.Defaults(env, old(m.fields)).0
      {
        var b :| b in builders && b.mutation == m;
        var k :| 0 <= k < |builders| && builders[k] == b;
      }
    }

    /** The hooks of each builder wrapped around its innermost function, the first hook outermost. */
    method WrapAll(mutators: array<Mutator>)
      requires mutators.Length == |builders|
      modifies mutators
      ensures forall i :: 0 <= i < |builders| ==> mutators[i] == Compose(builders[i].hooks)
    {
      for i := 0 to |builders|
        invariant forall k :: 0 <= k < i ==> mutators[k] == Compose(builders[k].hooks)
      {
        var hooks := builders[i].hooks;
        var mut := Base;
        for h := |hooks| downto 0
          invariant mut == Compose(hooks[h..])
        {
          assert hooks[h..][1..] == hooks[h + 1..];
          mut := Wrap(hooks[h], mut);
        }
        assert hooks[0..] == hooks;
        mutators[i] := mut;
      }
    }

    /** The chain has been started with the planned fields in place. */
    ghost predicate Prepared(p: Plan)
      reads Mutations()
    {
      && p.env == env && p.answer == driver.answer && |p.hooks| == |p.fields| == |builders|
      && (forall j :: 0 <= j < |builders| ==> p.hooks[j] == builders[j].hooks)
      && (forall j :: 0 <= j < |builders| ==> p.fields[j] == builders[j].mutation.fields)
    }

    /** Every marked mutation is done and reads, through its pointer, the key that was reported for its first
        marked builder. */
    ghost predicate ReadsFinalKeys(p: Plan)
      requires Wf(p) && |p.fields| == |builders|
      reads Mutations(), set m | m in Mutations() :: m.id
    {
      forall j :: 0 <= j < |builders| && Chain.Marked(p, j) ==>
        builders[j].mutation.done && builders[j].mutation.ID() == Some(KeyAt(p, FirstMarked(p, j)))
    }

    ghost predicate Unmarked(p: Plan, m: AccountMutation)
      requires Wf(p) && |p.fields| == |builders|
    {
      forall j :: 0 <= j < |builders| && Chain.Marked(p, j) ==> builders[j].mutation != m
    }

    /** Setting up the chain and calling its first mutator. */
    method RunChain(ghost p: Plan) returns (failed: Option<Error>, nodes: array<AccountRecord?>)
      requires Prepared(p) && |builders| > 0
      modifies driver`batches, Mutations()`id, Mutations()`done
      ensures nodes.Length == |builders| && failed == ChainError(p, 0)
      ensures driver.batches == old(driver.batches) + (if ClearFrom(p, 0) then [p.fields] else [])
      ensures ClearFrom(p, 0) && p.answer.Stored? ==> ReadsFinalKeys(p)
      ensures forall m <- Mutations() :: !(ClearFrom(p, 0) && p.answer.Stored?) || Unmarked(p, m) ==> Kept(m)
      ensures failed == None ==> forall j :: 0 <= j < |builders| ==>
        nodes[j] != null && nodes[j].columns == p.fields[j] && nodes[j].id == KeyAt(p, j)
    {
      var chain := Start(p);
      label started:
      failed := Enter(chain, p);
      nodes := chain.nodes;
      forall m | m in Mutations() && Kept@started(m)
        ensures Kept(m)
      {
      }
    }

    method Enter(chain: Chain, ghost p: Plan) returns (failed: Option<Error>)
      requires Prepared(p) && |builders| > 0
      requires chain.env == env && chain.driver == driver && chain.builders == builders
      requires chain.Shaped() && chain.Matches(p) && chain.FilledTo(0)
      modifies chain.specs, chain.nodes, driver`batches, Mutations()`id, Mutations()`done
      ensures failed == ChainError(p, 0)
      ensures driver.batches == old(driver.batches) + (if ClearFrom(p, 0) then [p.fields] else [])
      ensures ClearFrom(p, 0) && p.answer.Stored? ==> ReadsFinalKeys(p)
      ensures forall m <- Mutations() :: !(ClearFrom(p, 0) && p.answer.Stored?) || Unmarked(p, m) ==> Kept(m)
      ensures failed == None ==> forall j :: 0 <= j < |builders| ==>
        chain.nodes[j] != null && chain.nodes[j].columns == p.fields[j] && chain.nodes[j].id == KeyAt(p, j)
    {
      failed := chain.Begin(p);
      ChainSucceeds(p, 0);
      if ClearFrom(p, 0) && p.answer.Stored? {
        ReadThrough(p, chain);
      }
      UnmarkedUntouched(p, chain);
    }

    lemma UnmarkedUntouched(p: Plan, chain: Chain)
      requires chain.builders == builders && Wf(p) && |p.fields| == |builders|
      ensures forall m :: Unmarked(p, m) <==> chain.Untouched(p, 0, m)
    {
    }

    method Start(ghost p: Plan) returns (chain: Chain)
      requires Prepared(p)
      ensures fresh(chain) && fresh(chain.specs) && fresh(chain.nodes) && fresh(chain.mutators)
      ensures chain.env == env && chain.driver == driver && chain.builders == builders
      ensures chain.Shaped() && chain.Matches(p) && chain.FilledTo(0)
    {
      chain := new Chain(env, driver, builders);
      WrapAll(chain.mutators);
    }

    lemma ReadThrough(p: Plan, chain: Chain)
      requires chain.builders == builders && chain.Shaped() && chain.Matches(p) && p.answer.Stored? && chain.Effect(p, 0)
      ensures ReadsFinalKeys(p)
      ensures UnspoiltFrom(p, 0) ==> forall j :: 0 <= j < |builders| ==>
        chain.nodes[j] != null && chain.nodes[j].columns == p.fields[j] && chain.nodes[j].id == KeyAt(p, j)
    {
      assert UnspoiltFrom(p, 0) ==> forall j :: 0 <= j < |builders| ==> Chain.Marked(p, j);
      forall j | 0 <= j < |builders| && Chain.Marked(p, j)
        ensures builders[j].mutation.ID() == Some(KeyAt(p, FirstMarked(p, j)))
      {
        assert chain.Earliest(p, 0, FirstMarked(p, j));
      }
    }

    /** `Save`. The insert is sent at most once, and exactly when the builders allow it; it then carries the
        fields of every builder in order. If it is not sent or fails, no mutation is touched. If it succeeds,
        the marked mutations are the ones whose success no inner hook has spoilt, and each of them reads the
        final key through the node of its first marked builder. */
    method Save() returns (r: Result<array<AccountRecord?>, Error>)
      modifies driver`batches, Mutations()
      ensures driver.batches == old(driver.batches) + (if Inserts(old(PlanAhead())) then [old(PlanAhead()).fields] else [])
      ensures r.Ok? <==>
        err == None && (|builders| > 0 ==>
          ClearFrom(old(PlanAhead()), 0) && driver.answer.Stored? && UnspoiltFrom(old(PlanAhead()), 0))
      ensures r.Err? ==>
        Some(r.error) == if err.Some? then err else if |builders| > 0 then ChainError(old(PlanAhead()), 0) else None
      ensures Inserts(old(PlanAhead())) ==>
        && |driver.batches| == |old(driver.batches)| + 1 && |driver.batches[|old(driver.batches)|]| == |builders|
        && forall j :: 0 <= j < |builders| ==>
             Filled(env, old(builders[j].mutation.fields), driver.batches[|old(driver.batches)|][j])
      ensures Inserts(old(PlanAhead())) && driver.answer == Failed(true) ==> r == Err(ConstraintError)
      ensures Inserts(old(PlanAhead())) && driver.answer == Failed(false) ==> r == Err(DriverError)
      ensures Inserts(old(PlanAhead())) && driver.answer.Stored? ==> ReadsFinalKeys(old(PlanAhead()))
      ensures forall m <- Mutations() ::
        !(Inserts(old(PlanAhead())) && driver.answer.Stored?) || Unmarked(old(PlanAhead()), m) ==>
          m.done == old(m.done) && m.id == old(m.id)
      ensures r.Ok? ==> r.value.Length == |builders| && forall j :: 0 <= j < |builders| ==>
        && r.value[j] != null && r.value[j].columns == old(PlanAhead()).fields[j]
        && r.value[j].id == KeyAt(old(PlanAhead()), j)
    {
      if err.Some? {
        return Err(err.value);
      }
      ghost var p := PlanAhead();
      PlanFilled(p);
      FillAllDefaults();
      if |builders| == 0 {
        var none := new AccountRecord?[0];
        return Ok(none);
      }
      var failed, nodes := RunChain(p);
      ChainSucceeds(p, 0);
      if ClearFrom(p, 0) {
        InsertErrorNamed(p, 0);
      }
      return if failed.Some? then Err(failed.value) else Ok(nodes);
    }

    lemma PlanFilled(p: Plan)
      requires p == PlanAhead()
      ensures forall j :: 0 <= j < |builders| ==> Filled(env, builders[j].mutation.fields, p.fields[j])
    {
      forall j | 0 <= j < |builders|
        ensures Filled(env, builders[j].mutation.fields, p.fields[j])
      {
        DefaultsFill(env, builders[j].mutation.fields);
      }
    }

    /** The first marked builder that shares its mutation with builder j. */
    ghost function FirstMarked(p: Plan, j: nat): (k: nat)
      requires Wf(p) && |p.fields| == |builders| && j < |builders| && Chain.Marked(p, j)
      ensures k <= j && Chain.Marked(p, k) && builders[k].mutation == builders[j].mutation
      ensures forall i :: 0 <= i < k && Chain.Marked(p, i) ==> builders[i].mutation != builders[j].mutation
    {
      if i :| 0 <= i < j && Chain.Marked(p, i) && builders[i].mutation == builders[j].mutation then FirstMarked(p, i) else j
    }
  }

  /** The key that the database reports for row j, or zero when it reports none. */
  function KeyAt(p: Plan, j: nat): int {
    match p.answer
    case Failed(_) => 0
    case Stored(ids) => if ids(j).Some? then ids(j).value else 0
  }
}
