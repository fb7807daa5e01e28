/** Upserts (`OnConflict` and the upsert builders of sub2api/backend/ent/account_create.go). The SQL library
    is taken to keep one assignment per column, where the last write wins, and to let `DoNothing` override
    all assignments. */
module Upsert {
  import opened AccountFields
  import opened BulkCreate
  import opened Wrappers

  /** What an UPDATE of the conflicting row does to one column. */
  datatype Action =
    | SetTo(v: Value)
    | SetExcluded
    | SetIgnore
    | SetNull
    | Add(v: Value)

  type Sets = seq<(Field, Action)>

  /** A conflict option. `KeepCreatedAt` is the closure of `UpdateNewValues`, which looks at the mutations only
      when the statement is built. */
  datatype ConflictOption =
    | ResolveWithNewValues
    | ResolveWithIgnore
    | DoNothingOption
    | ConflictColumns(columns: seq<string>)
    | KeepCreatedAt
    | ResolveWith(sets: Sets)

  type Actions = map<Field, Action>

  function ApplySets(sets: Sets, acts: Actions): Actions {
    if sets == [] then acts
    else ApplySets(sets[..|sets| - 1], acts)[sets[|sets| - 1].0 := sets[|sets| - 1].1]
  }

  /** One option, given the columns of the insert and whether some mutation has set `created_at`. */
  function ApplyOption(o: ConflictOption, columns: set<Field>, created: bool, acts: Actions): Actions {
    match o
    case ResolveWithNewValues => acts + map f | f in columns :: SetExcluded
    case ResolveWithIgnore => acts + map f | f in columns :: SetIgnore
    case DoNothingOption => acts
    case ConflictColumns(_) => acts
    case KeepCreatedAt => if created then acts[CreatedAt := SetIgnore] else acts
    case ResolveWith(sets) => ApplySets(sets, acts)
  }

  /** The assignments of the statement: all options, in order. */
  function Evaluate(options: seq<ConflictOption>, columns: set<Field>, created: bool): Actions {
    if options == [] then map[]
    else ApplyOption(options[|options| - 1], columns, created, Evaluate(options[..|options| - 1], columns, created))
  }

  /** The conflicting row after the statement. Null cells are absent. */
  function Updated(stored: Fields, proposed: Fields, acts: Actions, nothing: bool, f: Field): Option<Value> {
    var was := if f in stored then Some(stored[f]) else None;
    if nothing || f !in acts then was
    else
      match acts[f]
      case SetTo(v) => Some(v)
      case SetExcluded => if f in proposed then Some(proposed[f]) else None
      case SetIgnore => was
      case SetNull => None
      case Add(v) => Some(if was.Some? then Plus(was.value, v) else v)
  }

  /** The typed setters add a number of the column's own type. */
  function Plus(a: Value, b: Value): Value {
    match (a, b)
    case (Int(m), Int(n)) => Int(m + n)
    case (Float(x), Float(y)) => Float(x + y)
    case _ => b
  }

  // ---------------------------------------------------------------- the column-wise view

  /** What an option alone decides about a column. */
  function Touch(o: ConflictOption, columns: set<Field>, created: bool, f: Field): Option<Action> {
    match o
    case ResolveWithNewValues => if f in columns then Some(SetExcluded) else None
    case ResolveWithIgnore => if f in columns then Some(SetIgnore) else None
    case KeepCreatedAt => if created && f == CreatedAt then Some(SetIgnore) else None
    case ResolveWith(sets) => LastSet(sets, f)
    case _ => None
  }

  function LastSet(sets: Sets, f: Field): Option<Action> {
    if sets == [] then None
    else if sets[|sets| - 1].0 == f then Some(sets[|sets| - 1].1)
    else LastSet(sets[..|sets| - 1], f)
  }

  /** The decision of the last option that touches the column. */
  function LastTouch(options: seq<ConflictOption>, columns: set<Field>, created: bool, f: Field): Option<Action> {
    if options == [] then None
    else
      var t := Touch(options[|options| - 1], columns, created, f);
      if t.Some? then t else LastTouch(options[..|options| - 1], columns, created, f)
  }

  function At(acts: Actions, f: Field): Option<Action> {
    if f in acts then Some(acts[f]) else None
  }

  lemma {:induction false} SetsAt(sets: Sets, acts: Actions, f: Field)
    ensures At(ApplySets(sets, acts), f) == if LastSet(sets, f).Some? then LastSet(sets, f) else At(acts, f)
    decreases |sets|
  {
    if sets != [] {
      SetsAt(sets[..|sets| - 1], acts, f);
    }
  }

  lemma {:induction false} OptionAt(o: ConflictOption, columns: set<Field>, created: bool, acts: Actions, f: Field)
    ensures At(ApplyOption(o, columns, created, acts), f) ==
            if Touch(o, columns, created, f).Some? then Touch(o, columns, created, f) else At(acts, f)
  {
    if o.ResolveWith? {
      SetsAt(o.sets, acts, f);
    }
  }

  /** The whole statement, column by column: the last option that touches a column decides. */
  lemma {:induction false} LastOptionDecides(options: seq<ConflictOption>, columns: set<Field>, created: bool, f: Field)
    ensures At(Evaluate(options, columns, created), f) == LastTouch(options, columns, created, f)
    decreases |options|
  {
    if options != [] {
      var n := |options| - 1;
      LastOptionDecides(options[..n], columns, created, f);
      OptionAt(options[n], columns, created, Evaluate(options[..n], columns, created), f);
    }
  }

  lemma {:induction false} LastTouchAppend(a: seq<ConflictOption>, b: seq<ConflictOption>, columns: set<Field>, created: bool, f: Field)
    ensures LastTouch(a + b, columns, created, f) ==
            if LastTouch(b, columns, created, f).Some? then LastTouch(b, columns, created, f)
            else LastTouch(a, columns, created, f)
    decreases |b|
  {
    if b == [] {
      assert a + b == a;
    } else {
      assert (a + b)[..|a + b| - 1] == a + b[..|b| - 1];
      LastTouchAppend(a, b[..|b| - 1], columns, created, f);
    }
  }

  // ---------------------------------------------------------------- the fluent calls

  /** The calls on an upsert builder. The typed Set, Update, Clear and Add calls are each an `Update` with a
      single assignment to a column other than `created_at`. */
  datatype Call = UpdateNewValues | Ignore | DoNothing | Update(sets: Sets)

  function OptionsOf(c: Call): seq<ConflictOption> {
    match c
    case UpdateNewValues => [ResolveWithNewValues, KeepCreatedAt]
    case Ignore => [ResolveWithIgnore]
    case DoNothing => [DoNothingOption]
    case Update(sets) => [ResolveWith(sets)]
  }

  function AllOptions(calls: seq<Call>): seq<ConflictOption> {
    if calls == [] then [] else AllOptions(calls[..|calls| - 1]) + OptionsOf(calls[|calls| - 1])
  }

  /** What a call decides about `created_at`, when it is among the inserted columns. */
  function CallOnCreatedAt(c: Call): Option<Action> {
    match c
    case UpdateNewValues => Some(SetIgnore)
    case Ignore => Some(SetIgnore)
    case DoNothing => None
    case Update(sets) => LastSet(sets, CreatedAt)
  }

  /** The explicit assignment that decides `created_at`, if the last call to touch it is an `Update`. */
  function Override(calls: seq<Call>): Option<Action> {
    if calls == [] then None
    else
      var c := calls[|calls| - 1];
      if CallOnCreatedAt(c).Some? then (if c.Update? then CallOnCreatedAt(c) else None)
      else Override(calls[..|calls| - 1])
  }

  lemma {:induction false} CreatedAtDecision(calls: seq<Call>, columns: set<Field>)
    requires CreatedAt in columns
    ensures LastTouch(AllOptions(calls), columns, true, CreatedAt) in {None, Some(SetIgnore), Override(calls)}
    ensures Override(calls).Some? ==> LastTouch(AllOptions(calls), columns, true, CreatedAt) == Override(calls)
    decreases |calls|
  {
    if calls != [] {
      var n := |calls| - 1;
      var c := calls[n];
      CreatedAtDecision(calls[..n], columns);
      LastTouchAppend(AllOptions(calls[..n]), OptionsOf(c), columns, true, CreatedAt);
      CallDecision(c, columns);
    }
  }

  lemma CallDecision(c: Call, columns: set<Field>)
    requires CreatedAt in columns
    ensures LastTouch(OptionsOf(c), columns, true, CreatedAt) == CallOnCreatedAt(c)
  {
    var options := OptionsOf(c);
    assert options[..|options| - 1] == if c.UpdateNewValues? then [ResolveWithNewValues] else [];
  }

  /** A cell of the conflicting row after an upsert with the given options and inserted fields. */
  function UpsertCell(options: seq<ConflictOption>, stored: Fields, proposed: Fields, f: Field): Option<Value> {
    Updated(stored, proposed, Evaluate(options, proposed.Keys, CreatedAt in proposed), DoNothingOption in options, f)
  }

  // ---------------------------------------------------------------- what the calls do, column by column

  /** What one call decides about a column: the columns of the insert, and whether some mutation has set
      `created_at`, are those at the time of the statement. */
  function Decided(c: Call, columns: set<Field>, created: bool, f: Field): Option<Action> {
    match c
    case UpdateNewValues =>
      if f == CreatedAt && created then Some(SetIgnore) else if f in columns then Some(SetExcluded) else None
    case Ignore => if f in columns then Some(SetIgnore) else None
    case DoNothing => None
    case Update(sets) => if Assigned(sets, f) then Some(Assignment(sets, f)) else None
  }

  /** The last call that decides a column counts. */
  function Decision(calls: seq<Call>, columns: set<Field>, created: bool, f: Field): Option<Action> {
    if calls == [] then None
    else if Decided(calls[|calls| - 1], columns, created, f).Some? then Decided(calls[|calls| - 1], columns, created, f)
    else Decision(calls[..|calls| - 1], columns, created, f)
  }

  /** The assignments of one `Update`: the last one to a column counts. */
  ghost predicate AssignedAt(sets: Sets, f: Field, i: nat) {
    i < |sets| && sets[i].0 == f && forall j :: i < j < |sets| ==> sets[j].0 != f
  }

  predicate Assigned(sets: Sets, f: Field) {
    exists s <- sets :: s.0 == f
  }

  function Assignment(sets: Sets, f: Field): Action
    requires Assigned(sets, f)
    decreases |sets|
  {
    var n := |sets| - 1;
    if sets[n].0 == f then sets[n].1
    else
      assert forall s <- sets :: s == sets[n] || s in sets[..n];
      Assignment(sets[..n], f)
  }

  lemma {:induction false} AssignmentExact(sets: Sets, f: Field, i: nat)
    requires AssignedAt(sets, f, i)
    ensures Assigned(sets, f) && Assignment(sets, f) == sets[i].1
    decreases |sets|
  {
    var n := |sets| - 1;
    assert sets[i] in sets;
    if i < n {
      assert AssignedAt(sets[..n], f, i);
      AssignmentExact(sets[..n], f, i);
    }
  }

  lemma {:induction false} LastSetAssigned(sets: Sets, f: Field)
    ensures LastSet(sets, f) == if Assigned(sets, f) then Some(Assignment(sets, f)) else None
    decreases |sets|
  {
    if sets != [] {
      var n := |sets| - 1;
      assert forall s :: s in sets <==> s == sets[n] || s in sets[..n];
      LastSetAssigned(sets[..n], f);
    }
  }

  /** The accumulated options say about every column what the calls decide. */
  lemma {:induction false} CallsDecide(target: seq<ConflictOption>, calls: seq<Call>, columns: set<Field>, created: bool, f: Field)
    requires OnlyTarget(target)
    ensures LastTouch(target + AllOptions(calls), columns, created, f) == Decision(calls, columns, created, f)
    decreases |calls|
  {
    if calls == [] {
      assert target + AllOptions(calls) == target;
      TargetTouchesNothing(target, columns, created, f);
    } else {
      var n := |calls| - 1;
      var before, last := target + AllOptions(calls[..n]), OptionsOf(calls[n]);
      CallsDecide(target, calls[..n], columns, created, f);
      assert target + AllOptions(calls) == before + last;
      LastTouchAppend(before, last, columns, created, f);
      OneCall(calls[n], columns, created, f);
    }
  }

  lemma {:induction false} OneCall(c: Call, columns: set<Field>, created: bool, f: Field)
    ensures LastTouch(OptionsOf(c), columns, created, f) == Decided(c, columns, created, f)
  {
    match c
    case UpdateNewValues =>
      LastTouchAppend([ResolveWithNewValues], [KeepCreatedAt], columns, created, f);
      OneOption(ResolveWithNewValues, columns, created, f);
      OneOption(KeepCreatedAt, columns, created, f);
      assert OptionsOf(c) == [ResolveWithNewValues] + [KeepCreatedAt];
    case Ignore =>
      OneOption(ResolveWithIgnore, columns, created, f);
    case DoNothing =>
      OneOption(DoNothingOption, columns, created, f);
    case Update(sets) =>
      OneOption(ResolveWith(sets), columns, created, f);
      LastSetAssigned(sets, f);
  }

  lemma OneOption(o: ConflictOption, columns: set<Field>, created: bool, f: Field)
    ensures LastTouch([o], columns, created, f) == Touch(o, columns, created, f)
  {
    assert [o][..0] == [];
  }

  /** A cell after the decided action. */
  function Acted(decision: Option<Action>, was: Option<Value>, proposed: Fields, f: Field): Option<Value> {
    match decision
    case None => was
    case Some(SetIgnore) => was
    case Some(SetExcluded) => if f in proposed then Some(proposed[f]) else None
    case Some(SetTo(v)) => Some(v)
    case Some(SetNull) => None
    case Some(Add(v)) => if was.Some? then Some(Plus(was.value, v)) else Some(v)
  }

  /** A cell of the conflicting row after the statement, for any sequence of calls. */
  lemma {:induction false} CellExact(target: seq<ConflictOption>, calls: seq<Call>, stored: Fields, proposed: Fields, f: Field)
    requires OnlyTarget(target)
    ensures
      var was := if f in stored then Some(stored[f]) else None;
      UpsertCell(target + AllOptions(calls), stored, proposed, f) ==
        if DoNothing in calls then was else Acted(Decision(calls, proposed.Keys, CreatedAt in proposed, f), was, proposed, f)
  {
    CallsDecide(target, calls, proposed.Keys, CreatedAt in proposed, f);
    LastOptionDecides(target + AllOptions(calls), proposed.Keys, CreatedAt in proposed, f);
    SuppressedBy(calls);
  }

  /** A typed setter, as the last call: the cell is set, cleared or increased. */
  lemma {:induction false} TypedSetter(target: seq<ConflictOption>, calls: seq<Call>, stored: Fields, proposed: Fields, f: Field, a: Action)
    requires OnlyTarget(target) && DoNothing !in calls
    ensures
      var cell := UpsertCell(target + AllOptions(calls + [Update([(f, a)])]), stored, proposed, f);
      && (a.SetTo? ==> cell == Some(a.v))
      && (a.SetNull? ==> cell == None)
      && (a.Add? && f in stored && stored[f].Int? && a.v.Int? ==> cell == Some(Int(stored[f].n + a.v.n)))
      && (a.Add? && f in stored && stored[f].Float? && a.v.Float? ==> cell == Some(Float(stored[f].x + a.v.x)))
  {
    var more := calls + [Update([(f, a)])];
    CellExact(target, more, stored, proposed, f);
    OneSetter(calls, proposed.Keys, CreatedAt in proposed, f, a);
  }

  lemma {:induction false} OneSetter(calls: seq<Call>, columns: set<Field>, created: bool, f: Field, a: Action)
    requires DoNothing !in calls
    ensures DoNothing !in calls + [Update([(f, a)])]
    ensures Decision(calls + [Update([(f, a)])], columns, created, f) == Some(a)
  {
    var more, sets := calls + [Update([(f, a)])], [(f, a)];
    assert more[|more| - 1] == Update(sets);
    AssignmentExact(sets, f, 0);
  }

  /** Options that only name the conflict target, as `OnConflictColumns` adds them. */
  ghost predicate OnlyTarget(options: seq<ConflictOption>) {
    forall o <- options :: o.ConflictColumns?
  }

  lemma {:induction false} TargetTouchesNothing(options: seq<ConflictOption>, columns: set<Field>, created: bool, f: Field)
    requires OnlyTarget(options)
    ensures LastTouch(options, columns, created, f) == None
    decreases |options|
  {
    if options != [] {
      assert options[|options| - 1].ConflictColumns?;
      TargetTouchesNothing(options[..|options| - 1], columns, created, f);
    }
  }

  /** Upserts and `created_at`: whatever calls are made and in whatever order, the conflicting row keeps its
      stored `created_at`, unless the last call that touches it is an `Update` that assigns it explicitly; then
      that assignment takes effect, if `DoNothing` does not suppress it. What makes this work is that a row is
      only inserted after `check`, so the mutation has a `created_at` by the time the closure looks. */
  lemma {:induction false} CreatedAtKept(env: Env, target: seq<ConflictOption>, calls: seq<Call>, stored: Fields, proposed: Fields)
    requires OnlyTarget(target) && CreatedAt in stored && Check(env, proposed) == None
    ensures Override(calls) == None ==>
      UpsertCell(target + AllOptions(calls), stored, proposed, CreatedAt) == Some(stored[CreatedAt])
    ensures Override(calls).Some? ==>
      UpsertCell(target + AllOptions(calls), stored, proposed, CreatedAt) ==
      Updated(stored, proposed, map[CreatedAt := Override(calls).value], DoNothing in calls, CreatedAt)
  {
    var options := target + AllOptions(calls);
    CheckExact(env, proposed);
    assert NeedsValue(CreatedAt);
    LastOptionDecides(options, proposed.Keys, true, CreatedAt);
    LastTouchAppend(target, AllOptions(calls), proposed.Keys, true, CreatedAt);
    TargetTouchesNothing(target, proposed.Keys, true, CreatedAt);
    CreatedAtDecision(calls, proposed.Keys);
    SuppressedBy(calls);
  }

  /** No call assigns `created_at`, as is the case when only the typed setters are used. */
  predicate Typed(calls: seq<Call>) {
    forall c <- calls :: c.Update? ==> forall s <- c.sets :: s.0 != CreatedAt
  }

  lemma {:induction false} TypedNeverOverrides(calls: seq<Call>)
    requires Typed(calls)
    ensures Override(calls) == None
    decreases |calls|
  {
    if calls != [] {
      var n := |calls| - 1;
      TypedNeverOverrides(calls[..n]);
      assert calls[n] in calls;
      if calls[n].Update? {
        NotSet(calls[n].sets, CreatedAt);
      }
    }
  }

  lemma {:induction false} NotSet(sets: Sets, f: Field)
    requires forall s <- sets :: s.0 != f
    ensures LastSet(sets, f) == None
    decreases |sets|
  {
    if sets != [] {
      NotSet(sets[..|sets| - 1], f);
    }
  }

  /** With the typed setters alone, an upsert never changes `created_at`. */
  lemma {:induction false} TypedKeepsCreatedAt(env: Env, target: seq<ConflictOption>, calls: seq<Call>, stored: Fields, proposed: Fields)
    requires OnlyTarget(target) && CreatedAt in stored && Check(env, proposed) == None && Typed(calls)
    ensures UpsertCell(target + AllOptions(calls), stored, proposed, CreatedAt) == Some(stored[CreatedAt])
  {
    TypedNeverOverrides(calls);
    CreatedAtKept(env, target, calls, stored, proposed);
  }

  lemma {:induction false} SuppressedBy(calls: seq<Call>)
    ensures DoNothingOption in AllOptions(calls) <==> DoNothing in calls
    decreases |calls|
  {
    if calls != [] {
      var n := |calls| - 1;
      SuppressedBy(calls[..n]);
      assert forall c :: c in calls <==> c == calls[n] || c in calls[..n];
    }
  }

  /** The documentation calls `UpdateNewValues` equivalent to `OnConflict(sql.ResolveWithNewValues())`. That is
      so for every column but `created_at`: the raw option overwrites it with the proposed value. */
  lemma {:induction false} NotJustNewValues(env: Env, options: seq<ConflictOption>, stored: Fields, proposed: Fields, f: Field)
    requires CreatedAt in stored && Check(env, proposed) == None && DoNothingOption !in options
    ensures f != CreatedAt ==>
      UpsertCell(options + [ResolveWithNewValues], stored, proposed, f) ==
      UpsertCell(options + OptionsOf(UpdateNewValues), stored, proposed, f)
    ensures UpsertCell(options + [ResolveWithNewValues], stored, proposed, CreatedAt) == Some(proposed[CreatedAt])
    ensures UpsertCell(options + OptionsOf(UpdateNewValues), stored, proposed, CreatedAt) == Some(stored[CreatedAt])
  {
    CheckExact(env, proposed);
    assert NeedsValue(CreatedAt);
    var raw, both := options + [ResolveWithNewValues], options + OptionsOf(UpdateNewValues);
    assert raw[..|raw| - 1] == options && both[..|both| - 1] == raw;
    LastOptionDecides(raw, proposed.Keys, true, f);
    LastOptionDecides(both, proposed.Keys, true, f);
    LastOptionDecides(raw, proposed.Keys, true, CreatedAt);
    LastOptionDecides(both, proposed.Keys, true, CreatedAt);
  }

  /** The two forms do differ: a complete row that is proposed at another time than the stored one. */
  lemma {:induction false} FormsCanDiffer(before: int, now: int)
    requires before != now
    ensures Check(LENIENT, FullRow(now)) == None
    ensures UpsertCell([ResolveWithNewValues], map[CreatedAt := Time(before)], FullRow(now), CreatedAt) == Some(Time(now))
    ensures UpsertCell(OptionsOf(UpdateNewValues), map[CreatedAt := Time(before)], FullRow(now), CreatedAt) == Some(Time(before))
  {
    FullRowPasses(now);
    NotJustNewValues(LENIENT, [], map[CreatedAt := Time(before)], FullRow(now), CreatedAt);
    assert [] + [ResolveWithNewValues] == [ResolveWithNewValues];
    assert [] + OptionsOf(UpdateNewValues) == OptionsOf(UpdateNewValues);
  }

  /** No defaults, and validators that accept everything. */
  const LENIENT := Env(map[], (f, v) => true)

  lemma FullRowPasses(created: int)
    ensures Check(LENIENT, FullRow(created)) == None && FullRow(created)[CreatedAt] == Time(created)
  {
    var m := FullRow(created);
    forall f: Field | NeedsValue(f)
      ensures f in m
    {
    }
    CheckExact(LENIENT, m);
  }

  /** A row with every required field. */
  function FullRow(created: int): (m: Fields)
    ensures CreatedAt in m
  {
    map[CreatedAt := Time(created), UpdatedAt := Time(created), Name := Str("n"), Platform := Str("p"), Type := Str("t"),
        Credentials := Doc("{}"), Extra := Doc("{}"), Concurrency := Int(3), Priority := Int(50),
        RateMultiplier := Float(1.0), Status := Str("active"), AutoPauseOnExpired := Flag(true), Schedulable := Flag(true)]
  }

  // ---------------------------------------------------------------- the builders

  /** `AccountUpsertOne` (one mutation) and `AccountUpsertBulk` (the mutations of all builders). */
  class AccountUpsert {
    const mutations: seq<AccountMutation>
    var conflict: seq<ConflictOption>
    ghost const target: seq<ConflictOption>
    ghost var calls: seq<Call>

    ghost predicate Valid()
      reads this
    {
      OnlyTarget(target) && conflict == target + AllOptions(calls)
    }

    constructor (mutations: seq<AccountMutation>, target: seq<ConflictOption>)
      requires OnlyTarget(target)
      ensures Valid() && calls == [] && this.mutations == mutations && this.target == target
    {
      this.mutations, conflict, this.target, calls := mutations, target, target, [];
      new;
      assert conflict == target + AllOptions(calls);
    }

    ghost method Record(c: Call)
      requires OnlyTarget(target) && conflict == target + AllOptions(calls) + OptionsOf(c)
      modifies this`calls
      ensures Valid() && calls == old(calls) + [c]
    {
      calls := calls + [c];
      assert calls[..|calls| - 1] == old(calls);
      assert conflict == target + (AllOptions(old(calls)) + OptionsOf(c));
    }

    method UpdateNewValues()
      requires Valid()
      modifies this
      ensures Valid() && calls == old(calls) + [Call.UpdateNewValues]
    {
      conflict := conflict + [ResolveWithNewValues];
      conflict := conflict + [KeepCreatedAt];
      assert conflict == old(conflict) + OptionsOf(Call.UpdateNewValues);
      Record(Call.UpdateNewValues);
    }

    method Ignore()
      requires Valid()
      modifies this
      ensures Valid() && calls == old(calls) + [Call.Ignore]
    {
      conflict := conflict + [ResolveWithIgnore];
      Record(Call.Ignore);
    }

    method DoNothing()
      requires Valid()
      modifies this
      ensures Valid() && calls == old(calls) + [Call.DoNothing]
    {
      conflict := conflict + [DoNothingOption];
      Record(Call.DoNothing);
    }

    method Update(sets: Sets)
      requires Valid()
      modifies this
      ensures Valid() && calls == old(calls) + [Call.Update(sets)]
    {
      conflict := conflict + [ResolveWith(sets)];
      Record(Call.Update(sets));
    }

    /** What the closure of `UpdateNewValues` finds when the statement is built. */
    ghost predicate Created()
      reads mutations
    {
      exists m <- mutations :: CreatedAt in m.fields
    }

    ghost predicate Inserted(f: Field)
      reads mutations
    {
      exists m <- mutations :: f in m.fields
    }

    /** The columns that the insert names: those of any of its rows. */
    ghost function Columns(): set<Field>
      reads mutations
    {
      set f: Field | Inserted(f)
    }

    lemma InTermsOfCalls(columns: set<Field>, created: bool)
      requires Valid()
      ensures forall f :: LastTouch(conflict, columns, created, f) == Decision(calls, columns, created, f)
      ensures DoNothingOption in conflict <==> Call.DoNothing in calls
    {
      forall f: Field
        ensures LastTouch(conflict, columns, created, f) == Decision(calls, columns, created, f)
      {
        CallsDecide(target, calls, columns, created, f);
      }
      SuppressedBy(calls);
      assert forall o :: o in conflict <==> o in target || o in AllOptions(calls);
    }

    /** Building the assignments of the statement, in the state in which the insert is sent. */
    method Statement() returns (acts: Actions, nothing: bool)
      ensures forall f :: At(acts, f) == LastTouch(conflict, Columns(), Created(), f)
      ensures nothing <==> DoNothingOption in conflict
      ensures Valid() ==> forall f :: At(acts, f) == Decision(calls, Columns(), Created(), f)
      ensures Valid() ==> (nothing <==> Call.DoNothing in calls)
    {
      var created, columns := false, {};
      for i := 0 to |mutations|
        invariant created <==> exists m <- mutations[..i] :: CreatedAt in m.fields
        invariant forall f :: f in columns <==> exists m <- mutations[..i] :: f in m.fields
      {
        assert mutations[..i + 1] == mutations[..i] + [mutations[i]];
        assert forall m :: m in mutations[..i + 1] <==> m in mutations[..i] || m == mutations[i];
        columns := columns + mutations[i].fields.Keys;
        created := created || CreatedAt in mutations[i].fields;
      }
      assert mutations[..|mutations|] == mutations;
      acts := map[];
      for i := 0 to |conflict|
        invariant acts == Evaluate(conflict[..i], columns, created)
      {
        assert conflict[..i + 1][..i] == conflict[..i];
        acts := ApplyOption(conflict[i], columns, created, acts);
      }
      assert conflict[..|conflict|] == conflict;
      nothing := DoNothingOption in conflict;
      assert columns == Columns();
      forall f: Field
        ensures At(acts, f) == LastTouch(conflict, columns, created, f)
      {
        LastOptionDecides(conflict, columns, created, f);
      }
      if Valid() {
        InTermsOfCalls(columns, created);
      }
    }
  }

  /** For a valid upsert whose mutations have all passed `check`, the statement leaves `created_at` alone
      unless an explicit assignment decides it, which then takes effect. */
  lemma {:induction false} StatementKeepsCreatedAt(u: AccountUpsert, env: Env)
    requires u.Valid() && u.mutations != [] && forall m <- u.mutations :: Check(env, m.fields) == None
    ensures Override(u.calls) == None ==>
      LastTouch(u.conflict, u.Columns(), u.Created(), CreatedAt) in {None, Some(SetIgnore)}
    ensures Override(u.calls).Some? ==>
      LastTouch(u.conflict, u.Columns(), u.Created(), CreatedAt) == Override(u.calls)
  {
    var m := u.mutations[0];
    CheckExact(env, m.fields);
    assert NeedsValue(CreatedAt) && CreatedAt in m.fields;
    assert u.Created() && CreatedAt in u.Columns();
    var columns := u.Columns();
    LastTouchAppend(u.target, AllOptions(u.calls), columns, true, CreatedAt);
    TargetTouchesNothing(u.target, columns, true, CreatedAt);
    CreatedAtDecision(u.calls, columns);
  }
}
