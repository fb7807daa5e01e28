/** The columns of an account: filling in defaults, checking before a save, writing a row and reading it
    back (account_create.go and account.go under sub2api/backend/ent). */
module AccountFields {
  import opened Wrappers

  datatype Field =
    | CreatedAt | UpdatedAt | DeletedAt | Name | Notes | Platform | Type | Credentials | Extra | ProxyID
    | Concurrency | LoadFactor | Priority | RateMultiplier | Status | ErrorMessage | LastUsedAt | ExpiresAt
    | AutoPauseOnExpired | Schedulable | RateLimitedAt | RateLimitResetAt | OverloadUntil
    | TempUnschedulableUntil | TempUnschedulableReason | SessionWindowStart | SessionWindowEnd
    | SessionWindowStatus

  /** A JSON document is kept as what it denotes; instants are counted in some unit. */
  datatype Value = Time(t: int) | Str(s: string) | Doc(d: string) | Int(n: int) | Float(x: real) | Flag(b: bool)

  /** The fields a mutation has set, or the columns a node carries. An unset field of a node is nil or the
      zero value of its type. */
  type Fields = map<Field, Value>

  /** What the package is configured with: the default of each field, where one is initialised, and the
      validators. The four function-valued defaults are nil until the runtime package is imported. */
  datatype Env = Env(defaults: map<Field, Value>, valid: (Field, Value) -> bool)

  ghost predicate Initialised(env: Env) {
    forall f <- PLAIN_DEFAULTS :: f in env.defaults
  }

  const FUNCTION_DEFAULTS := [CreatedAt, UpdatedAt, Credentials, Extra]
  const PLAIN_DEFAULTS := [Concurrency, Priority, RateMultiplier, Status, AutoPauseOnExpired, Schedulable]

  // ---------------------------------------------------------------- defaults

  /** The steps of `defaults` for the given fields, in order: the field whose default is missing stops it. */
  function Fill(env: Env, m: Fields, order: seq<Field>): (Fields, Option<Field>)
    decreases |order|
  {
    if order == [] then (m, None)
    else if order[0] in m then Fill(env, m, order[1..])
    else if order[0] !in env.defaults then (m, Some(order[0]))
    else Fill(env, m[order[0] := env.defaults[order[0]]], order[1..])
  }

  /** `defaults`: the mutation's fields afterwards, and the field it stopped at, if any. */
  function Defaults(env: Env, m: Fields): (Fields, Option<Field>) {
    Fill(env, m, FUNCTION_DEFAULTS + PLAIN_DEFAULTS)
  }

  ghost predicate Extends(m: Fields, grown: Fields) {
    forall f <- m :: f in grown && grown[f] == m[f]
  }

  lemma {:induction false} FillLaws(env: Env, m: Fields, order: seq<Field>)
    ensures Extends(m, Fill(env, m, order).0)
    ensures forall f <- Fill(env, m, order).0 :: f in m || (f in order && f in env.defaults && Fill(env, m, order).0[f] == env.defaults[f])
    ensures Fill(env, m, order).1 == None ==> forall f <- order :: f in Fill(env, m, order).0
    ensures forall f :: Fill(env, m, order).1 == Some(f) ==>
      f in order && f !in env.defaults && f !in Fill(env, m, order).0
    decreases |order|
  {
    if order != [] {
      var next := if order[0] in m || order[0] !in env.defaults then m else m[order[0] := env.defaults[order[0]]];
      FillLaws(env, next, order[1..]);
      assert forall f :: f in order <==> f == order[0] || f in order[1..];
    }
  }

  /** Position n is the first unset field, and it has no default. */
  ghost predicate StopsAt(env: Env, m: Fields, order: seq<Field>, n: nat) {
    && n < |order| && order[n] !in m && order[n] !in env.defaults
    && forall i :: 0 <= i < n ==> order[i] in m
  }

  lemma {:induction false} FillSettled(env: Env, m: Fields, order: seq<Field>)
    requires forall f <- order :: f in m
    ensures Fill(env, m, order) == (m, None)
  {
    if order != [] {
      FillSettled(env, m, order[1..]);
    }
  }

  lemma {:induction false} FillStopped(env: Env, m: Fields, order: seq<Field>, n: nat)
    requires StopsAt(env, m, order, n)
    ensures Fill(env, m, order) == (m, Some(order[n]))
  {
    if n > 0 {
      FillStopped(env, m, order[1..], n - 1);
    }
  }

  lemma {:induction false} FillStops(env: Env, m: Fields, order: seq<Field>)
    requires Fill(env, m, order).1.Some?
    ensures exists n: nat :: StopsAt(env, Fill(env, m, order).0, order, n) && Fill(env, m, order).1 == Some(order[n])
    decreases |order|
  {
    var end := Fill(env, m, order).0;
    FillLaws(env, m, order);
    if order[0] in m || order[0] in env.defaults {
      var next := if order[0] in m then m else m[order[0] := env.defaults[order[0]]];
      FillStops(env, next, order[1..]);
      FillLaws(env, next, order[1..]);
      var n: nat :| StopsAt(env, end, order[1..], n) && Fill(env, next, order[1..]).1 == Some(order[1..][n]);
      assert forall i :: 1 <= i < n + 1 ==> order[i] == order[1..][i - 1];
      assert StopsAt(env, end, order, n + 1);
    } else {
      assert StopsAt(env, end, order, 0);
    }
  }

  /** What filling in does: set fields are kept, and every other field that is set afterwards is one of the ten
      defaulted ones and has its own default. */
  ghost predicate Filled(env: Env, before: Fields, after: Fields) {
    && Extends(before, after)
    && forall f <- after :: f !in before ==> f in DEFAULTED && f in env.defaults && after[f] == env.defaults[f]
  }

  /** The ten defaulted fields, in the order in which they are filled. */
  const DEFAULTED :=
    [CreatedAt, UpdatedAt, Credentials, Extra, Concurrency, Priority, RateMultiplier, Status, AutoPauseOnExpired, Schedulable]

  /** `defaults` stops at the first field that is neither set nor has a default; without one, all ten are set. */
  lemma {:induction false} DefaultsFill(env: Env, m: Fields)
    ensures Filled(env, m, Defaults(env, m).0)
    ensures Defaults(env, m).1 == None <==> forall f <- DEFAULTED :: f in m || f in env.defaults
    ensures Defaults(env, m).1 == None ==> forall f <- DEFAULTED :: f in Defaults(env, m).0
    ensures Defaults(env, m).1.Some? ==> exists n: nat :: MissingAt(env, m, DEFAULTED, n) && Defaults(env, m).1 == Some(DEFAULTED[n])
  {
    assert FUNCTION_DEFAULTS + PLAIN_DEFAULTS == DEFAULTED;
    FillLaws(env, m, DEFAULTED);
    FillMissing(env, m, DEFAULTED);
  }

  /** Position n is the first field that is neither set nor has a default. */
  ghost predicate MissingAt(env: Env, m: Fields, order: seq<Field>, n: nat) {
    && n < |order| && order[n] !in m && order[n] !in env.defaults
    && forall i :: 0 <= i < n ==> order[i] in m || order[i] in env.defaults
  }

  lemma {:induction false} FillMissing(env: Env, m: Fields, order: seq<Field>)
    ensures Fill(env, m, order).1.Some? ==> exists n: nat :: MissingAt(env, m, order, n) && Fill(env, m, order).1 == Some(order[n])
    ensures Fill(env, m, order).1 == None ==> forall f <- order :: f in m || f in env.defaults
    decreases |order|
  {
    if order != [] {
      assert forall f :: f in order <==> f == order[0] || f in order[1..];
      if order[0] in m || order[0] in env.defaults {
        var next := if order[0] in m then m else m[order[0] := env.defaults[order[0]]];
        FillMissing(env, next, order[1..]);
        if Fill(env, m, order).1.Some? {
          var n: nat :| MissingAt(env, next, order[1..], n) && Fill(env, next, order[1..]).1 == Some(order[1..][n]);
          assert forall i :: 1 <= i < n + 1 ==> order[i] == order[1..][i - 1];
          assert MissingAt(env, m, order, n + 1);
        }
      } else {
        assert MissingAt(env, m, order, 0);
      }
    }
  }

  /** `defaults` never overwrites, and running it a second time changes nothing and stops at the same field,
      if any. */
  lemma {:induction false} DefaultsIdempotent(env: Env, m: Fields)
    ensures Extends(m, Defaults(env, m).0)
    ensures Defaults(env, Defaults(env, m).0) == Defaults(env, m)
  {
    var order := FUNCTION_DEFAULTS + PLAIN_DEFAULTS;
    var end := Fill(env, m, order).0;
    FillLaws(env, m, order);
    if Fill(env, m, order).1.Some? {
      FillStops(env, m, order);
      var n: nat :| StopsAt(env, end, order, n) && Fill(env, m, order).1 == Some(order[n]);
      FillStopped(env, end, order, n);
    } else {
      FillSettled(env, end, order);
    }
  }

  // ---------------------------------------------------------------- check

  datatype Test = Required(f: Field) | Validated(f: Field)

  /** The tests of `check`, in order. */
  const CHECKS := [
    Required(CreatedAt), Required(UpdatedAt), Required(Name), Validated(Name), Required(Platform), Validated(Platform),
    Required(Type), Validated(Type), Required(Credentials), Required(Extra), Required(Concurrency), Required(Priority),
    Required(RateMultiplier), Required(Status), Validated(Status), Required(AutoPauseOnExpired), Required(Schedulable),
    Validated(SessionWindowStatus)]

  predicate Holds(env: Env, m: Fields, t: Test) {
    match t
    case Required(f) => f in m
    case Validated(f) => f in m ==> env.valid(f, m[f])
  }

  function FirstFailure(env: Env, m: Fields, tests: seq<Test>): Option<Field> {
    if tests == [] then None
    else if !Holds(env, m, tests[0]) then Some(tests[0].f)
    else FirstFailure(env, m, tests[1..])
  }

  /** `check`: the field named by the validation error, if any. */
  function Check(env: Env, m: Fields): Option<Field> {
    FirstFailure(env, m, CHECKS)
  }

  lemma {:induction false} PassesAll(env: Env, m: Fields, tests: seq<Test>)
    ensures FirstFailure(env, m, tests) == None <==> forall t <- tests :: Holds(env, m, t)
  {
    if tests != [] {
      PassesAll(env, m, tests[1..]);
      assert forall t :: t in tests <==> t == tests[0] || t in tests[1..];
    }
  }

  /** One test after the other. */
  lemma {:induction false} NextTest(env: Env, m: Fields, k: nat)
    requires k < |CHECKS|
    ensures FirstFailure(env, m, CHECKS[k..]) ==
            if Holds(env, m, CHECKS[k]) then FirstFailure(env, m, CHECKS[k + 1..]) else Some(CHECKS[k].f)
  {
    assert CHECKS[k..][1..] == CHECKS[k + 1..];
  }

  lemma {:induction false} LastTests(env: Env, m: Fields)
    ensures FirstFailure(env, m, CHECKS[9..]) ==
      if Extra !in m then Some(Extra)
      else if Concurrency !in m then Some(Concurrency)
      else if Priority !in m then Some(Priority)
      else if RateMultiplier !in m then Some(RateMultiplier)
      else if Status !in m || !env.valid(Status, m[Status]) then Some(Status)
      else if AutoPauseOnExpired !in m then Some(AutoPauseOnExpired)
      else if Schedulable !in m then Some(Schedulable)
      else if SessionWindowStatus in m && !env.valid(SessionWindowStatus, m[SessionWindowStatus]) then Some(SessionWindowStatus)
      else None
  {
    NextTest(env, m, 9);
    NextTest(env, m, 10);
    NextTest(env, m, 11);
    NextTest(env, m, 12);
    NextTest(env, m, 13);
    NextTest(env, m, 14);
    NextTest(env, m, 15);
    NextTest(env, m, 16);
    NextTest(env, m, 17);
    assert CHECKS[18..] == [];
  }

  /** The field that `check` names: that of the first test to fail, where the tests come field by field, and a
      required field is validated right after its presence was tested. */
  lemma {:induction false} CheckNames(env: Env, m: Fields)
    ensures Check(env, m) ==
      if CreatedAt !in m then Some(CreatedAt)
      else if UpdatedAt !in m then Some(UpdatedAt)
      else if Name !in m || !env.valid(Name, m[Name]) then Some(Name)
      else if Platform !in m || !env.valid(Platform, m[Platform]) then Some(Platform)
      else if Type !in m || !env.valid(Type, m[Type]) then Some(Type)
      else if Credentials !in m then Some(Credentials)
      else if Extra !in m then Some(Extra)
      else if Concurrency !in m then Some(Concurrency)
      else if Priority !in m then Some(Priority)
      else if RateMultiplier !in m then Some(RateMultiplier)
      else if Status !in m || !env.valid(Status, m[Status]) then Some(Status)
      else if AutoPauseOnExpired !in m then Some(AutoPauseOnExpired)
      else if Schedulable !in m then Some(Schedulable)
      else if SessionWindowStatus in m && !env.valid(SessionWindowStatus, m[SessionWindowStatus]) then Some(SessionWindowStatus)
      else None
  {
    NextTest(env, m, 0);
    NextTest(env, m, 1);
    NextTest(env, m, 2);
    NextTest(env, m, 3);
    NextTest(env, m, 4);
    NextTest(env, m, 5);
    NextTest(env, m, 6);
    NextTest(env, m, 7);
    NextTest(env, m, 8);
    LastTests(env, m);
    assert CHECKS[0..] == CHECKS;
  }

  predicate NeedsValue(f: Field) {
    f in {CreatedAt, UpdatedAt, Name, Platform, Type, Credentials, Extra, Concurrency, Priority, RateMultiplier, Status,
          AutoPauseOnExpired, Schedulable}
  }

  predicate HasValidator(f: Field) {
    f in {Name, Platform, Type, Status, SessionWindowStatus}
  }

  lemma {:induction false} RequiredListed(f: Field)
    requires NeedsValue(f)
    ensures Required(f) in CHECKS
  {
    assert CHECKS[0] == Required(CreatedAt) && CHECKS[1] == Required(UpdatedAt) && CHECKS[2] == Required(Name);
    assert CHECKS[4] == Required(Platform) && CHECKS[6] == Required(Type);
    assert CHECKS[8] == Required(Credentials) && CHECKS[9] == Required(Extra);
    assert CHECKS[10] == Required(Concurrency) && CHECKS[11] == Required(Priority);
    assert CHECKS[12] == Required(RateMultiplier) && CHECKS[13] == Required(Status);
    assert CHECKS[15] == Required(AutoPauseOnExpired) && CHECKS[16] == Required(Schedulable);
  }

  lemma {:induction false} ValidatedListed(f: Field)
    requires HasValidator(f)
    ensures Validated(f) in CHECKS
  {
    assert CHECKS[3] == Validated(Name) && CHECKS[5] == Validated(Platform) && CHECKS[7] == Validated(Type);
    assert CHECKS[14] == Validated(Status) && CHECKS[17] == Validated(SessionWindowStatus);
  }

  /** What `check` accepts. */
  ghost predicate Complete(env: Env, m: Fields) {
    && (forall f :: NeedsValue(f) ==> f in m)
    && (forall f <- m :: HasValidator(f) ==> env.valid(f, m[f]))
  }

  lemma {:induction false} CheckExact(env: Env, m: Fields)
    ensures Check(env, m) == None <==> Complete(env, m)
  {
    PassesAll(env, m, CHECKS);
    if Check(env, m) == None {
      forall f: Field
        ensures NeedsValue(f) ==> f in m
        ensures HasValidator(f) && f in m ==> env.valid(f, m[f])
      {
        if NeedsValue(f) {
          RequiredListed(f);
          assert Holds(env, m, Required(f));
        }
        if HasValidator(f) {
          ValidatedListed(f);
          assert Holds(env, m, Validated(f));
        }
      }
    }
  }

  /** The bulk path drops the error of `defaults`. That is harmless: the field it stopped at is required, so
      `check` fails too; and after a complete `defaults` only name, platform, type and the validators remain
      to be checked. */
  lemma {:induction false} DroppedErrorHarmless(env: Env, m: Fields)
    requires Initialised(env)
    ensures Defaults(env, m).1.Some? ==> Check(env, Defaults(env, m).0).Some?
    ensures Defaults(env, m).1 == None ==>
      (Check(env, Defaults(env, m).0) == None <==>
        && Name in m && Platform in m && Type in m
        && forall f <- Defaults(env, m).0 :: HasValidator(f) ==> env.valid(f, Defaults(env, m).0[f]))
  {
    var order, end := FUNCTION_DEFAULTS + PLAIN_DEFAULTS, Defaults(env, m).0;
    FillLaws(env, m, order);
    CheckExact(env, end);
    DefaultedFields();
  }

  lemma DefaultedFields()
    ensures forall f <- FUNCTION_DEFAULTS + PLAIN_DEFAULTS :: NeedsValue(f) && (f in PLAIN_DEFAULTS || f in FUNCTION_DEFAULTS)
    ensures forall f :: NeedsValue(f) ==> f in FUNCTION_DEFAULTS + PLAIN_DEFAULTS || f in {Name, Platform, Type}
    ensures forall f <- FUNCTION_DEFAULTS + PLAIN_DEFAULTS :: f !in {Name, Platform, Type}
  {
    var order := FUNCTION_DEFAULTS + PLAIN_DEFAULTS;
    assert order[0] == CreatedAt && order[1] == UpdatedAt && order[2] == Credentials && order[3] == Extra;
    assert order[4] == Concurrency && order[5] == Priority && order[6] == RateMultiplier && order[7] == Status;
    assert order[8] == AutoPauseOnExpired && order[9] == Schedulable;
  }

  // ---------------------------------------------------------------- writing a row

  datatype SqlType = TypeTime | TypeString | TypeJSON | TypeInt | TypeFloat64 | TypeBool

  /** The type under which `createSpec` hands a field to the driver; `proxy_id` travels as the key of its edge. */
  function SpecType(f: Field): SqlType {
    match f
    case CreatedAt => TypeTime
    case UpdatedAt => TypeTime
    case DeletedAt => TypeTime
    case Name => TypeString
    case Notes => TypeString
    case Platform => TypeString
    case Type => TypeString
    case Credentials => TypeJSON
    case Extra => TypeJSON
    case ProxyID => TypeInt
    case Concurrency => TypeInt
    case LoadFactor => TypeInt
    case Priority => TypeInt
    case RateMultiplier => TypeFloat64
    case Status => TypeString
    case ErrorMessage => TypeString
    case LastUsedAt => TypeTime
    case ExpiresAt => TypeTime
    case AutoPauseOnExpired => TypeBool
    case Schedulable => TypeBool
    case RateLimitedAt => TypeTime
    case RateLimitResetAt => TypeTime
    case OverloadUntil => TypeTime
    case TempUnschedulableUntil => TypeTime
    case TempUnschedulableReason => TypeString
    case SessionWindowStart => TypeTime
    case SessionWindowEnd => TypeTime
    case SessionWindowStatus => TypeString
  }

  /** What Go's typed setters guarantee about a mutation. */
  predicate WellTyped(m: Fields) {
    forall f <- m :: Fits(SpecType(f), m[f])
  }

  predicate Fits(t: SqlType, v: Value) {
    match t
    case TypeTime => v.Time?
    case TypeString => v.Str?
    case TypeJSON => v.Doc?
    case TypeInt => v.Int?
    case TypeFloat64 => v.Float?
    case TypeBool => v.Flag?
  }

  /** The JSON library. Decoding goes into the document that the target already holds, if any, whose entries are
      kept unless the text has them too. */
  datatype Codec = Codec(encode: string -> string, decode: (Option<string>, string) -> Option<string>)

  /** Documents survive encoding, also when they are decoded into themselves, and no encoding is empty. */
  ghost predicate Lawful(codec: Codec) {
    forall d :: codec.encode(d) != "" && codec.decode(None, codec.encode(d)) == codec.decode(Some(d), codec.encode(d)) == Some(d)
  }

  datatype Cell = Null | CTime(t: int) | CStr(s: string) | CBytes(raw: string) | CInt(n: int) | CFloat(x: real) | CBool(b: bool)

  /** A stored row: its key, and one cell for each column. */
  datatype Row = Row(id: int, cells: Field -> Cell)

  function WriteCell(codec: Codec, v: Value): Cell {
    match v
    case Time(t) => CTime(t)
    case Str(s) => CStr(s)
    case Doc(d) => CBytes(codec.encode(d))
    case Int(n) => CInt(n)
    case Float(x) => CFloat(x)
    case Flag(b) => CBool(b)
  }

  /** The row that the insert of a mutation stores under the given key. */
  function RowOf(codec: Codec, id: int, m: Fields): Row {
    Row(id, f => if f in m then WriteCell(codec, m[f]) else Null)
  }

  // ---------------------------------------------------------------- reading a row

  datatype Column = ID | Col(f: Field) | Other(name: string)

  /** The scan targets of the sql package. */
  datatype Target =
    | NullInt64(n: Option<int>)
    | NullString(s: Option<string>)
    | NullTime(t: Option<int>)
    | NullBool(b: Option<bool>)
    | NullFloat64(x: Option<real>)
    | Bytes(raw: string)
    | Unknown

  /** The target that `scanValues` allocates for a column. */
  function ScanTarget(c: Column): Target {
    match c
    case Col(Credentials) => Bytes("")
    case Col(Extra) => Bytes("")
    case Col(AutoPauseOnExpired) => NullBool(None)
    case Col(Schedulable) => NullBool(None)
    case Col(RateMultiplier) => NullFloat64(None)
    case ID => NullInt64(None)
    case Col(ProxyID) => NullInt64(None)
    case Col(Concurrency) => NullInt64(None)
    case Col(LoadFactor) => NullInt64(None)
    case Col(Priority) => NullInt64(None)
    case Col(Name) => NullString(None)
    case Col(Notes) => NullString(None)
    case Col(Platform) => NullString(None)
    case Col(Type) => NullString(None)
    case Col(Status) => NullString(None)
    case Col(ErrorMessage) => NullString(None)
    case Col(TempUnschedulableReason) => NullString(None)
    case Col(SessionWindowStatus) => NullString(None)
    case Col(CreatedAt) => NullTime(None)
    case Col(UpdatedAt) => NullTime(None)
    case Col(DeletedAt) => NullTime(None)
    case Col(LastUsedAt) => NullTime(None)
    case Col(ExpiresAt) => NullTime(None)
    case Col(RateLimitedAt) => NullTime(None)
    case Col(RateLimitResetAt) => NullTime(None)
    case Col(OverloadUntil) => NullTime(None)
    case Col(TempUnschedulableUntil) => NullTime(None)
    case Col(SessionWindowStart) => NullTime(None)
    case Col(SessionWindowEnd) => NullTime(None)
    case Other(_) => Unknown
  }

  method ScanValues(columns: seq<Column>) returns (values: seq<Target>)
    ensures |values| == |columns|
    ensures forall i :: 0 <= i < |columns| ==> values[i] == ScanTarget(columns[i])
  {
    values := [];
    for i := 0 to |columns|
      invariant |values| == i && forall k :: 0 <= k < i ==> values[k] == ScanTarget(columns[k])
    {
      values := values + [ScanTarget(columns[i])];
    }
  }

  /** The driver copies a cell into a target; None is its conversion error. */
  function Scan(target: Target, cell: Cell): Option<Target> {
    match (target, cell)
    case (NullInt64(_), CInt(n)) => Some(NullInt64(Some(n)))
    case (NullString(_), CStr(s)) => Some(NullString(Some(s)))
    case (NullTime(_), CTime(t)) => Some(NullTime(Some(t)))
    case (NullBool(_), CBool(b)) => Some(NullBool(Some(b)))
    case (NullFloat64(_), CFloat(x)) => Some(NullFloat64(Some(x)))
    case (Bytes(_), CBytes(raw)) => Some(Bytes(raw))
    case (Unknown, _) => Some(Unknown)
    case (_, Null) => Some(target)
    case _ => None
  }

  function CellOf(row: Row, c: Column): Cell {
    match c
    case ID => CInt(row.id)
    case Col(f) => row.cells(f)
    case Other(_) => Null
  }

  /** The scanned targets of a row for a column list; None when some conversion fails. */
  function ScanRow(row: Row, columns: seq<Column>): Option<seq<Target>> {
    if columns == [] then Some([])
    else
      match (ScanRow(row, columns[..|columns| - 1]), Scan(ScanTarget(columns[|columns| - 1]), CellOf(row, columns[|columns| - 1])))
      case (Some(ts), Some(t)) => Some(ts + [t])
      case _ => None
  }

  // ---------------------------------------------------------------- assigning scanned values

  datatype AssignError = TooFewValues | WrongType(c: Column) | BadJson(c: Column)

  /** The scalar fields of a node that reading a row can set. */
  datatype NodeData = NodeData(id: int, columns: Fields, selected: map<string, Target>)

  function AssignTime(n: NodeData, f: Field, t: Target): Result<NodeData, AssignError> {
    if !t.NullTime? then Err(WrongType(Col(f)))
    else if t.t.Some? then Ok(n.(columns := n.columns[f := Time(t.t.value)])) else Ok(n)
  }

  function AssignString(n: NodeData, f: Field, t: Target): Result<NodeData, AssignError> {
    if !t.NullString? then Err(WrongType(Col(f)))
    else if t.s.Some? then Ok(n.(columns := n.columns[f := Str(t.s.value)])) else Ok(n)
  }

  function AssignInt(n: NodeData, f: Field, t: Target): Result<NodeData, AssignError> {
    if !t.NullInt64? then Err(WrongType(Col(f)))
    else if t.n.Some? then Ok(n.(columns := n.columns[f := Int(t.n.value)])) else Ok(n)
  }

  function AssignFloat(n: NodeData, f: Field, t: Target): Result<NodeData, AssignError> {
    if !t.NullFloat64? then Err(WrongType(Col(f)))
    else if t.x.Some? then Ok(n.(columns := n.columns[f := Float(t.x.value)])) else Ok(n)
  }

  function AssignBool(n: NodeData, f: Field, t: Target): Result<NodeData, AssignError> {
    if !t.NullBool? then Err(WrongType(Col(f)))
    else if t.b.Some? then Ok(n.(columns := n.columns[f := Flag(t.b.value)])) else Ok(n)
  }

  /** The document that a node holds in a column. */
  function Held(n: NodeData, f: Field): Option<string> {
    if f in n.columns && n.columns[f].Doc? then Some(n.columns[f].d) else None
  }

  function AssignJson(codec: Codec, n: NodeData, f: Field, t: Target): Result<NodeData, AssignError> {
    if !t.Bytes? then Err(WrongType(Col(f)))
    else if t.raw == "" then Ok(n)
    else
      match codec.decode(Held(n, f), t.raw)
      case Some(d) => Ok(n.(columns := n.columns[f := Doc(d)]))
      case None => Err(BadJson(Col(f)))
  }

  /** One arm of the switch in `assignValues`. */
  function AssignOne(codec: Codec, n: NodeData, c: Column, t: Target): Result<NodeData, AssignError> {
    match c
    case ID =>
      if !t.NullInt64? then Err(WrongType(ID)) else Ok(n.(id := if t.n.Some? then t.n.value else 0))
    case Other(name) => Ok(n.(selected := n.selected[name := t]))
    case Col(f) =>
      match f
      case CreatedAt => AssignTime(n, f, t)
      case UpdatedAt => AssignTime(n, f, t)
      case DeletedAt => AssignTime(n, f, t)
      case Name => AssignString(n, f, t)
      case Notes => AssignString(n, f, t)
      case Platform => AssignString(n, f, t)
      case Type => AssignString(n, f, t)
      case Credentials => AssignJson(codec, n, f, t)
      case Extra => AssignJson(codec, n, f, t)
      case ProxyID => AssignInt(n, f, t)
      case Concurrency => AssignInt(n, f, t)
      case LoadFactor => AssignInt(n, f, t)
      case Priority => AssignInt(n, f, t)
      case RateMultiplier => AssignFloat(n, f, t)
      case Status => AssignString(n, f, t)
      case ErrorMessage => AssignString(n, f, t)
      case LastUsedAt => AssignTime(n, f, t)
      case ExpiresAt => AssignTime(n, f, t)
      case AutoPauseOnExpired => AssignBool(n, f, t)
      case Schedulable => AssignBool(n, f, t)
      case RateLimitedAt => AssignTime(n, f, t)
      case RateLimitResetAt => AssignTime(n, f, t)
      case OverloadUntil => AssignTime(n, f, t)
      case TempUnschedulableUntil => AssignTime(n, f, t)
      case TempUnschedulableReason => AssignString(n, f, t)
      case SessionWindowStart => AssignTime(n, f, t)
      case SessionWindowEnd => AssignTime(n, f, t)
      case SessionWindowStatus => AssignString(n, f, t)
  }

  /** The loop of `assignValues` over the first columns, from left to right. */
  function Assign(codec: Codec, n: NodeData, columns: seq<Column>, values: seq<Target>): Result<NodeData, AssignError>
    requires |columns| <= |values|
    decreases |columns|
  {
    if columns == [] then Ok(n)
    else
      var k := |columns| - 1;
      match Assign(codec, n, columns[..k], values)
      case Ok(mid) => AssignOne(codec, mid, columns[k], values[k])
      case Err(e) => Err(e)
  }

  lemma {:induction false} AssignPrefixFails(codec: Codec, n: NodeData, columns: seq<Column>, values: seq<Target>, k: nat)
    requires k <= |columns| <= |values| && Assign(codec, n, columns[..k], values).Err?
    ensures Assign(codec, n, columns, values) == Assign(codec, n, columns[..k], values)
    decreases |columns|
  {
    if k < |columns| {
      assert columns[..|columns| - 1][..k] == columns[..k];
      AssignPrefixFails(codec, n, columns[..|columns| - 1], values, k);
    } else {
      assert columns[..k] == columns;
    }
  }

  /** Column k is the faulty one: the columns before it turn the node from `n` into `mid`, and it fails there. */
  ghost predicate FailsAt(codec: Codec, n: NodeData, columns: seq<Column>, values: seq<Target>, k: nat,
                          mid: NodeData, e: AssignError)
    requires |columns| <= |values|
  {
    && k < |columns|
    && Assign(codec, n, columns[..k], values) == Ok(mid)
    && AssignOne(codec, mid, columns[k], values[k]) == Err(e)
  }

  /** The scalar part of an account node. */
  class AccountRecord {
    var id: int
    var columns: Fields
    var selected: map<string, Target>

    function Data(): NodeData
      reads this
    {
      NodeData(id, columns, selected)
    }

    constructor ()
      ensures Data() == NodeData(0, map[], map[])
    {
      id, columns, selected := 0, map[], map[];
    }

    /** `assignValues`; on an error exactly the columns before the faulty one stay assigned. */
    method AssignValues(codec: Codec, names: seq<Column>, values: seq<Target>) returns (err: Option<AssignError>)
      modifies this
      ensures |values| < |names| ==> err == Some(TooFewValues) && Data() == old(Data())
      ensures |names| <= |values| ==>
        match Assign(codec, old(Data()), names, values)
        case Ok(n) => err == None && Data() == n
        case Err(e) => err == Some(e) && exists k: nat :: FailsAt(codec, old(Data()), names, values, k, Data(), e)
    {
      if |values| < |names| {
        return Some(TooFewValues);
      }
      for i := 0 to |names|
        invariant Assign(codec, old(Data()), names[..i], values) == Ok(Data())
      {
        assert names[..i + 1][..i] == names[..i];
        var step := AssignOne(codec, Data(), names[i], values[i]);
        if step.Err? {
          AssignPrefixFails(codec, old(Data()), names, values, i + 1);
          assert FailsAt(codec, old(Data()), names, values, i, Data(), step.error);
          return Some(step.error);
        }
        id, columns, selected := step.value.id, step.value.columns, step.value.selected;
      }
      assert names[..|names|] == names;
      return None;
    }
  }

  // ---------------------------------------------------------------- agreement of writer and reader

  predicate SameKind(a: Target, b: Target) {
    match a
    case NullInt64(_) => b.NullInt64?
    case NullString(_) => b.NullString?
    case NullTime(_) => b.NullTime?
    case NullBool(_) => b.NullBool?
    case NullFloat64(_) => b.NullFloat64?
    case Bytes(_) => b.Bytes?
    case Unknown => b.Unknown?
  }

  /** A JSON text is decoded into the document that the node holds in that column. */
  ghost predicate MergedArms(codec: Codec, n: NodeData, c: Column, t: Target) {
    c in {Col(Credentials), Col(Extra)} && t.Bytes? && t.raw != "" && c.f in n.columns && n.columns[c.f].Doc? ==>
      match codec.decode(Some(n.columns[c.f].d), t.raw)
      case Some(d) => AssignOne(codec, n, c, t) == Ok(n.(columns := n.columns[c.f := Doc(d)]))
      case None => AssignOne(codec, n, c, t).Err?
  }

  /** One arm of the switch fails exactly on a target of another type than was allocated, and on a non-empty JSON
      text that does not decode. A null ID is zero, and any other null leaves the node as it is. */
  lemma {:induction false} AssignExact(codec: Codec, n: NodeData, c: Column, t: Target)
    ensures AssignOne(codec, n, c, t) == Err(WrongType(c)) <==> !c.Other? && !SameKind(ScanTarget(c), t)
    ensures AssignOne(codec, n, c, t) == Err(BadJson(c)) <==>
      c in {Col(Credentials), Col(Extra)} && t.Bytes? && t.raw != "" && codec.decode(Held(n, c.f), t.raw) == None
    ensures AssignOne(codec, n, c, t).Err? ==> AssignOne(codec, n, c, t).error in {WrongType(c), BadJson(c)}
    ensures AssignOne(codec, n, ID, NullInt64(None)) == Ok(n.(id := 0))
    ensures c.Col? ==> AssignOne(codec, n, c, ScanTarget(c)) == Ok(n)
    ensures MergedArms(codec, n, c, t)
  {
  }

  /** For every column list, known names or not, `assignValues` accepts the types that `scanValues` allocated. */
  lemma {:induction false} NeverWrongType(codec: Codec, n: NodeData, columns: seq<Column>, values: seq<Target>)
    requires |columns| <= |values|
    requires forall i :: 0 <= i < |columns| ==> SameKind(ScanTarget(columns[i]), values[i])
    ensures match Assign(codec, n, columns, values) case Ok(_) => true case Err(e) => e.BadJson?
    decreases |columns|
  {
    if columns != [] {
      NeverWrongType(codec, n, columns[..|columns| - 1], values);
    }
  }

  /** The columns of a node read with a column list. */
  function Project(m: Fields, columns: seq<Column>): Fields {
    map f | f in m && Col(f) in columns :: m[f]
  }

  /** The value of a stored field comes back through its scan target, into a node that holds no other document
      in that column. */
  lemma {:induction false} OneColumn(codec: Codec, n: NodeData, id: int, m: Fields, c: Column)
    requires Lawful(codec) && WellTyped(m)
    requires c.Col? && c.f in n.columns && c.f in m ==> n.columns[c.f] == m[c.f] || !n.columns[c.f].Doc?
    ensures Scan(ScanTarget(c), CellOf(RowOf(codec, id, m), c)).Some?
    ensures
      var t := Scan(ScanTarget(c), CellOf(RowOf(codec, id, m), c)).value;
      AssignOne(codec, n, c, t) ==
        match c
        case ID => Ok(n.(id := id))
        case Col(f) => if f in m then Ok(n.(columns := n.columns[f := m[f]])) else Ok(n)
        case Other(name) => Ok(n.(selected := n.selected[name := Unknown]))
  {
    match c
    case ID =>
    case Other(_) =>
    case Col(f) =>
      if f in m {
        assert Fits(SpecType(f), m[f]);
        FieldScanned(codec, f, m[f]);
        FieldAssigned(codec, n, f, m[f]);
      } else {
        EmptyAssigned(codec, n, f);
      }
  }

  /** What a target holds after a value's cell was scanned into it. */
  function Holding(codec: Codec, v: Value): Target {
    match v
    case Time(t) => NullTime(Some(t))
    case Str(s) => NullString(Some(s))
    case Doc(d) => Bytes(codec.encode(d))
    case Int(n) => NullInt64(Some(n))
    case Float(x) => NullFloat64(Some(x))
    case Flag(b) => NullBool(Some(b))
  }

  lemma FieldScanned(codec: Codec, f: Field, v: Value)
    requires Fits(SpecType(f), v)
    ensures Scan(ScanTarget(Col(f)), WriteCell(codec, v)) == Some(Holding(codec, v))
  {
  }

  lemma FieldAssigned(codec: Codec, n: NodeData, f: Field, v: Value)
    requires Lawful(codec) && Fits(SpecType(f), v) && (Held(n, f).Some? ==> n.columns[f] == v)
    ensures AssignOne(codec, n, Col(f), Holding(codec, v)) == Ok(n.(columns := n.columns[f := v]))
  {
  }

  lemma EmptyAssigned(codec: Codec, n: NodeData, f: Field)
    ensures Scan(ScanTarget(Col(f)), Null) == Some(ScanTarget(Col(f)))
    ensures AssignOne(codec, n, Col(f), ScanTarget(Col(f))) == Ok(n)
  {
  }

  /** Create, then read: scanning the stored row with any column list and assigning the result rebuilds the
      created node's columns, restricted to that list, and its key if `id` is listed. */
  lemma {:induction false} CreateThenRead(codec: Codec, id: int, m: Fields, columns: seq<Column>)
    requires Lawful(codec) && WellTyped(m)
    ensures ScanRow(RowOf(codec, id, m), columns).Some?
    ensures |ScanRow(RowOf(codec, id, m), columns).value| == |columns|
    ensures match Assign(codec, NodeData(0, map[], map[]), columns, ScanRow(RowOf(codec, id, m), columns).value)
      case Ok(n) => n.columns == Project(m, columns) && n.id == (if ID in columns then id else 0)
      case Err(_) => false
    decreases |columns|
  {
    var zero := NodeData(0, map[], map[]);
    if columns != [] {
      var k := |columns| - 1;
      var row, c := RowOf(codec, id, m), columns[k];
      CreateThenRead(codec, id, m, columns[..k]);
      var ts := ScanRow(row, columns[..k]).value;
      var mid := Assign(codec, zero, columns[..k], ts).value;
      OneColumn(codec, mid, id, m, c);
      AssignIgnoresRest(codec, zero, columns[..k], ts, ScanRow(row, columns).value);
      ProjectSnoc(m, columns[..k], c);
      assert columns[..k] + [c] == columns;
    }
  }

  lemma ProjectSnoc(m: Fields, columns: seq<Column>, c: Column)
    ensures Project(m, columns + [c]) ==
            if c.Col? && c.f in m then Project(m, columns)[c.f := m[c.f]] else Project(m, columns)
    ensures ID in columns + [c] <==> ID in columns || c == ID
  {
    assert forall x :: x in columns + [c] <==> x in columns || x == c;
  }

  lemma {:induction false} AssignIgnoresRest(codec: Codec, n: NodeData, columns: seq<Column>, values: seq<Target>, more: seq<Target>)
    requires |columns| <= |values| <= |more| && values == more[..|values|]
    ensures Assign(codec, n, columns, values) == Assign(codec, n, columns, more)
    decreases |columns|
  {
    if columns != [] {
      AssignIgnoresRest(codec, n, columns[..|columns| - 1], values, more);
    }
  }

  /** Reading the row of a created node: allocate the targets, let the driver scan the cells into them, and assign
      the result. No step fails, and the new node carries the created columns that were asked for. */
  method ReadCreated(codec: Codec, id: int, m: Fields, columns: seq<Column>) returns (node: AccountRecord)
    requires Lawful(codec) && WellTyped(m)
    ensures fresh(node) && node.columns == Project(m, columns) && node.id == (if ID in columns then id else 0)
  {
    var row := RowOf(codec, id, m);
    CreateThenRead(codec, id, m, columns);
    var targets := ScanValues(columns);
    var values: seq<Target> := [];
    for i := 0 to |columns|
      invariant ScanRow(row, columns[..i]) == Some(values)
    {
      assert columns[..i + 1][..i] == columns[..i];
      if Scan(targets[i], CellOf(row, columns[i])).None? {
        ScanPrefixFails(row, columns, i + 1);
        assert false;
      }
      values := values + [Scan(targets[i], CellOf(row, columns[i])).value];
    }
    assert columns[..|columns|] == columns;
    node := new AccountRecord();
    var err := node.AssignValues(codec, columns, values);
    assert err == None;
  }

  lemma {:induction false} ScanPrefixFails(row: Row, columns: seq<Column>, k: nat)
    requires k <= |columns| && ScanRow(row, columns[..k]) == None
    ensures ScanRow(row, columns) == None
    decreases |columns|
  {
    if k < |columns| {
      assert columns[..|columns| - 1][..k] == columns[..k];
      ScanPrefixFails(row, columns[..|columns| - 1], k);
    } else {
      assert columns[..k] == columns;
    }
  }
}
