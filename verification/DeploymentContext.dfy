/** The immutable deployment context: construction, serialisation, fingerprint and the injection boundary. */
module DeploymentContexts {
  import opened Ordering
  import opened FrozenValues

  datatype ContextError = TypeError(subject: string) | ValueError(subject: string)

  /** The entries of the three frozen sections. */
  datatype Context = Context(environment: seq<Entry>, variables: seq<Entry>, metadata: seq<Entry>)

  // ---------- dictionaries ----------

  /** The position of a key, the length when it is absent. */
  function Find(es: seq<Entry>, k: string): (i: nat)
    ensures i <= |es|
    ensures i < |es| ==> es[i].key == k
    ensures forall j :: 0 <= j < i ==> es[j].key != k
  {
    if es == [] then 0
    else if es[0].key == k then 0
    else 1 + Find(es[1..], k)
  }

  /** `d.get(k, default)` */
  function GetOr(es: seq<Entry>, k: string, default: Value): Value {
    if Find(es, k) < |es| then es[Find(es, k)].value else default
  }

  /** `d.get(k)` */
  function Get(es: seq<Entry>, k: string): Value {
    GetOr(es, k, Null)
  }

  /** `d[k] = v`: an existing key keeps its place. */
  function Put(es: seq<Entry>, k: string, v: Value): seq<Entry> {
    if Find(es, k) < |es| then es[Find(es, k) := Entry(k, v)] else es + [Entry(k, v)]
  }

  /** Whether Python takes a value for true. */
  predicate Truthy(v: Value) {
    match v
    case Null => false
    case Flag(b) => b
    case Whole(n) => n != 0
    case Floating(x) => x != 0.0
    case Str(s) => s != ""
    case List(items) => items != []
    case Tuple(items) => items != []
    case Dict(es) => es != []
    case FrozenDict(es) => es != []
  }

  function Or(v: Value, w: Value): Value { if Truthy(v) then v else w }

  /** White space in the sense of `str.strip`. */
  predicate IsSpace(c: char) {
    var n := c as int;
    || 9 <= n <= 13 || 28 <= n <= 32 || n == 0x85 || n == 0xA0 || n == 0x1680 || 0x2000 <= n <= 0x200A
    || n == 0x2028 || n == 0x2029 || n == 0x202F || n == 0x205F || n == 0x3000
  }

  predicate Blank(s: string) { forall i :: 0 <= i < |s| ==> IsSpace(s[i]) }

  predicate NonBlank(v: Value) { v.Str? && !Blank(v.s) }

  // ---------- the context ----------

  function Coerce(name: string, v: Value): Result<seq<Entry>, ContextError> {
    if v.FrozenDict? then Ok(v.entries)
    else if v.Dict? then Ok(Sort(FreezeEntries(v.entries), KeyLess))
    else Err(TypeError(name))
  }

  predicate RequiredFields(c: Context) {
    && NonBlank(Get(c.environment, "name")) && NonBlank(Get(c.environment, "region"))
    && NonBlank(Get(c.environment, "provider_type")) && NonBlank(Get(c.metadata, "execution_id"))
  }

  /** The constructor: coerces the sections in order, then checks the required fields in order. */
  function MakeContext(environment: Value, variables: Value, metadata: Value): Result<Context, ContextError> {
    var e, v, m := Coerce("environment", environment), Coerce("variables", variables), Coerce("metadata", metadata);
    if e.Err? then Err(e.error)
    else if v.Err? then Err(v.error)
    else if m.Err? then Err(m.error)
    else if !NonBlank(Get(e.value, "name")) then Err(ValueError("environment.name"))
    else if !NonBlank(Get(e.value, "region")) then Err(ValueError("environment.region"))
    else if !NonBlank(Get(e.value, "provider_type")) then Err(ValueError("environment.provider_type"))
    else if !NonBlank(Get(m.value, "execution_id")) then Err(ValueError("metadata.execution_id"))
    else Ok(Context(e.value, v.value, m.value))
  }

  ghost predicate Valid(c: Context) {
    && IsFrozen(FrozenDict(c.environment)) && IsFrozen(FrozenDict(c.variables)) && IsFrozen(FrozenDict(c.metadata))
    && RequiredFields(c)
  }

  /** Every context that can be constructed is frozen throughout and has its required fields. */
  lemma ConstructedIsValid(environment: Value, variables: Value, metadata: Value)
    requires WellFormed(environment) && WellFormed(variables) && WellFormed(metadata)
    ensures var c := MakeContext(environment, variables, metadata); c.Ok? ==> Valid(c.value)
  {
    FreezeFreezes(environment);
    FreezeFreezes(variables);
    FreezeFreezes(metadata);
  }

  function ToDict(c: Context): Value {
    Dict([Entry("environment", Thaw(FrozenDict(c.environment))), Entry("variables", Thaw(FrozenDict(c.variables))),
      Entry("metadata", Thaw(FrozenDict(c.metadata)))])
  }

  function FromDict(payload: Value): Result<Context, ContextError> {
    if !IsMapping(payload) then Err(TypeError("payload"))
    else MakeContext(GetOr(payload.entries, "environment", Dict([])), GetOr(payload.entries, "variables", Dict([])),
      GetOr(payload.entries, "metadata", Dict([])))
  }

  /** Serialising a context and reading it back gives the same context. */
  lemma DictRoundTrip(c: Context)
    requires Valid(c)
    ensures FromDict(ToDict(c)) == Ok(c)
  {
    SectionRoundTrip("environment", c.environment);
    SectionRoundTrip("variables", c.variables);
    SectionRoundTrip("metadata", c.metadata);
    SectionsFound(Thaw(FrozenDict(c.environment)), Thaw(FrozenDict(c.variables)), Thaw(FrozenDict(c.metadata)));
  }

  lemma SectionsFound(environment: Value, variables: Value, metadata: Value)
    ensures FromDict(Dict([Entry("environment", environment), Entry("variables", variables), Entry("metadata", metadata)]))
         == MakeContext(environment, variables, metadata)
  {
    var d := [Entry("environment", environment), Entry("variables", variables), Entry("metadata", metadata)];
    assert d[0].key == "environment" && d[1].key == "variables" && d[2].key == "metadata";
    GetAt(d, 0);
    GetAt(d, 1);
    GetAt(d, 2);
  }

  lemma SectionRoundTrip(name: string, es: seq<Entry>)
    requires IsFrozen(FrozenDict(es))
    ensures Coerce(name, Thaw(FrozenDict(es))) == Ok(es)
  {
    FreezeAfterThaw(FrozenDict(es));
  }

  lemma GetAt(es: seq<Entry>, i: nat)
    requires i < |es| && forall j :: 0 <= j < i ==> es[j].key != es[i].key
    ensures Find(es, es[i].key) == i
  {
  }

  // ---------- fingerprint ----------

  const UNFINGERPRINTED := {"execution_id", "context_fingerprint"}

  function Fingerprinted(): Entry -> bool { (e: Entry) => e.key !in UNFINGERPRINTED }

  /** The metadata that counts towards the fingerprint. */
  function Rest(metadata: seq<Entry>): seq<Entry> { Filter(metadata, Fingerprinted()) }

  function Payload(c: Context): Value {
    Dict([Entry("environment", Thaw(Freeze(Dict(c.environment)))), Entry("variables", Thaw(Freeze(Dict(c.variables)))),
      Entry("metadata", Dict(ThawEntries(Rest(c.metadata))))])
  }

  /** `context_fingerprint`; `digest` is the SHA-256 of the JSON text with sorted keys. */
  function Fingerprint(c: Context, digest: Value -> string): string { digest(Payload(c)) }

  /** The `fingerprint` property: the stored one if there is one. */
  function StoredFingerprint(c: Context, digest: Value -> string): string {
    var stored := Get(c.metadata, "context_fingerprint");
    if stored.Str? && stored.s != "" then stored.s else Fingerprint(c, digest)
  }

  /** The fingerprinted payload determines the whole context except those two metadata entries, and nothing more. */
  lemma PayloadDecides(c: Context, d: Context)
    requires Valid(c) && Valid(d)
    ensures Payload(c) == Payload(d) <==>
      c.environment == d.environment && c.variables == d.variables && Rest(c.metadata) == Rest(d.metadata)
  {
    RefreezeEntries(c.environment);
    RefreezeEntries(d.environment);
    RefreezeEntries(c.variables);
    RefreezeEntries(d.variables);
    FreezeAfterThaw(FrozenDict(c.environment));
    FreezeAfterThaw(FrozenDict(d.environment));
    FreezeAfterThaw(FrozenDict(c.variables));
    FreezeAfterThaw(FrozenDict(d.variables));
    RestFrozen(c.metadata);
    RestFrozen(d.metadata);
    FreezeAfterThaw(FrozenDict(Rest(c.metadata)));
    FreezeAfterThaw(FrozenDict(Rest(d.metadata)));
    var p, q := Payload(c).entries, Payload(d).entries;
    if p == q {
      assert p[0].value == q[0].value && p[1].value == q[1].value && p[2].value == q[2].value;
    }
  }

  lemma RefreezeEntries(es: seq<Entry>)
    requires IsFrozen(FrozenDict(es))
    ensures Freeze(Dict(es)) == FrozenDict(es)
  {
    FrozenWellFormed(FrozenDict(es));
    FreezeMapping(FrozenDict(es));
  }

  lemma RestFrozen(es: seq<Entry>)
    requires IsFrozen(FrozenDict(es))
    ensures IsFrozen(FrozenDict(Rest(es)))
  {
    FilterKeepsAscending(es, Fingerprinted());
    FilterMembers(es, Fingerprinted());
    var r := Rest(es);
    forall i | 0 <= i < |r| ensures IsFrozen(r[i].value) { assert r[i] in es; }
  }

  lemma {:induction false} FilterKeepsAscending(es: seq<Entry>, p: Entry -> bool)
    requires Canonical(es)
    ensures Canonical(Filter(es, p))
  {
    if es != [] {
      var n := |es| - 1;
      FilterKeepsAscending(es[..n], p);
      FilterMembers(es[..n], p);
      var r := Filter(es[..n], p);
      forall i | 0 <= i < |r| ensures KeyLess(r[i], es[n]) { assert r[i] in es[..n]; }
    }
  }

  // ---------- injection ----------

  function NormalizeEnvironment(resolved: seq<Entry>): Result<seq<Entry>, ContextError> {
    var name := Or(Get(resolved, "name"), Get(resolved, "environment"));
    var credentials := GetOr(resolved, "credentials_ref", Str(""));
    if !NonBlank(name) then Err(ValueError("name"))
    else if !NonBlank(Get(resolved, "region")) then Err(ValueError("region"))
    else if !NonBlank(Get(resolved, "provider_type")) then Err(ValueError("provider_type"))
    else if !credentials.Str? then Err(TypeError("credentials_ref"))
    else Ok([Entry("name", name), Entry("region", Get(resolved, "region")),
      Entry("provider_type", Get(resolved, "provider_type")), Entry("credentials_ref", credentials)])
  }

  datatype Sections = Sections(variables: seq<Entry>, metadata: seq<Entry>)

  /** Without explicit sections the whole configuration is the variables. */
  function NormalizeConfig(config: seq<Entry>): Result<Sections, ContextError> {
    var variables, metadata := Get(config, "variables"), Get(config, "metadata");
    if variables.Null? && metadata.Null? then Ok(Sections(config, []))
    else
      var v, m := Or(variables, Dict([])), Or(metadata, Dict([]));
      if !v.Dict? then Err(TypeError("config variables"))
      else if !m.Dict? then Err(TypeError("config metadata"))
      else Ok(Sections(v.entries, m.entries))
  }

  /** `str(v)`; `render` is what it gives on values that are not strings. */
  function Text(v: Value, render: Value -> string): string {
    if v.Str? then v.s else render(v)
  }

  /** The supplied execution id if there is one, else `otherwise`. */
  function ExecutionId(metadata: seq<Entry>, otherwise: string, render: Value -> string): Value {
    Str(Text(Or(Get(metadata, "execution_id"), Str(otherwise)), render))
  }

  function Provisional(environment: seq<Entry>, s: Sections, render: Value -> string): Result<Context, ContextError> {
    MakeContext(Dict(environment), Dict(s.variables),
      Dict(Put(s.metadata, "execution_id", ExecutionId(s.metadata, "provisional", render))))
  }

  function FinalMetadata(metadata: seq<Entry>, fingerprint: string, render: Value -> string): seq<Entry> {
    var stamped := Put(metadata, "context_fingerprint", Str(fingerprint));
    Put(stamped, "execution_id", ExecutionId(stamped, fingerprint, render))
  }

  function Finish(environment: seq<Entry>, s: Sections, fingerprint: string, render: Value -> string): Result<Context, ContextError> {
    MakeContext(Dict(environment), Dict(s.variables), Dict(FinalMetadata(s.metadata, fingerprint, render)))
  }

  /** `build_deployment_context` */
  function Build(resolved: Value, config: Value, render: Value -> string, digest: Value -> string): Result<Context, ContextError> {
    if !resolved.Dict? then Err(TypeError("resolved_env"))
    else if NormalizeEnvironment(resolved.entries).Err? then Err(NormalizeEnvironment(resolved.entries).error)
    else if !config.Dict? then Err(TypeError("config"))
    else if NormalizeConfig(config.entries).Err? then Err(NormalizeConfig(config.entries).error)
    else
      var environment, s := NormalizeEnvironment(resolved.entries).value, NormalizeConfig(config.entries).value;
      var provisional := Provisional(environment, s, render);
      if provisional.Err? then Err(provisional.error)
      else
        Finish(environment, s, Fingerprint(provisional.value, digest), render)
  }

  // ---------- entries through freezing ----------

  lemma PutDistinct(es: seq<Entry>, k: string, v: Value)
    requires WellFormed(Dict(es)) && WellFormed(v)
    ensures WellFormed(Dict(Put(es, k, v)))
    ensures Entry(k, v) in Put(es, k, v)
  {
    var p, i := Put(es, k, v), Find(es, k);
    if i < |es| { assert p[i] == Entry(k, v); } else { assert p[|es|] == Entry(k, v); }
  }

  lemma PutKeeps(es: seq<Entry>, k: string, v: Value, e: Entry)
    requires e in es && e.key != k
    ensures e in Put(es, k, v)
  {
  }

  lemma GetEntry(es: seq<Entry>, e: Entry)
    requires DistinctKeys(es) && e in es
    ensures Get(es, e.key) == e.value
  {
  }

  /** A frozen section holds each entry's value frozen. */
  lemma FrozenGet(es: seq<Entry>, e: Entry)
    requires DistinctKeys(es) && e in es
    ensures Get(Sort(FreezeEntries(es), KeyLess), e.key) == Freeze(e.value)
  {
    var frozen := FreezeEntries(es);
    var i :| 0 <= i < |es| && es[i] == e;
    SortedCanonical(frozen);
    CanonicalSorted(Sort(frozen, KeyLess));
    SortMembers(frozen, KeyLess);
    assert frozen[i] in frozen;
    GetEntry(Sort(frozen, KeyLess), frozen[i]);
  }

  lemma {:induction false} FilterUpdate(es: seq<Entry>, i: nat, e: Entry, p: Entry -> bool)
    requires i < |es| && !p(es[i]) && !p(e)
    ensures Filter(es[i := e], p) == Filter(es, p)
  {
    var n := |es| - 1;
    if i == n {
      assert es[i := e][..n] == es[..n];
    } else {
      assert es[i := e][..n] == es[..n][i := e];
      FilterUpdate(es[..n], i, e, p);
    }
  }

  /** Setting an excluded key changes nothing that counts. */
  lemma RestOfPut(es: seq<Entry>, k: string, v: Value)
    requires k in UNFINGERPRINTED
    ensures Filter(FreezeEntries(Put(es, k, v)), Fingerprinted()) == Filter(FreezeEntries(es), Fingerprinted())
  {
    var frozen, e := FreezeEntries(es), Entry(k, Freeze(v));
    var i := Find(es, k);
    if i < |es| {
      assert FreezeEntries(Put(es, k, v)) == frozen[i := e];
      FilterUpdate(frozen, i, e, Fingerprinted());
    } else {
      assert FreezeEntries(Put(es, k, v)) == frozen + [e];
      assert (frozen + [e])[..|frozen|] == frozen;
    }
  }

  /** Filtering a frozen section is freezing the filtered entries. */
  lemma RestOfFrozen(es: seq<Entry>)
    requires DistinctKeys(es)
    ensures Rest(Sort(FreezeEntries(es), KeyLess)) == Sort(Filter(FreezeEntries(es), Fingerprinted()), KeyLess)
  {
    var frozen := FreezeEntries(es);
    var left, right := Rest(Sort(frozen, KeyLess)), Sort(Filter(frozen, Fingerprinted()), KeyLess);
    SortedCanonical(frozen);
    FilterKeepsAscending(Sort(frozen, KeyLess), Fingerprinted());
    FilterIgnoresOrder(Sort(frozen, KeyLess), frozen, Fingerprinted());
    KeyLessIsWeak();
    SortSorts(Filter(frozen, Fingerprinted()), KeyLess);
    CanonicalSorted(left);
    DistinctSeparated(left);
    SortedUnique(left, right, KeyLess);
  }

  // ---------- what building guarantees ----------

  lemma EnvironmentWellFormed(resolved: seq<Entry>)
    ensures var e := NormalizeEnvironment(resolved); e.Ok? ==> WellFormed(Dict(e.value))
  {
  }

  lemma SectionsWellFormed(config: seq<Entry>)
    requires WellFormed(Dict(config))
    ensures var s := NormalizeConfig(config);
      s.Ok? ==> WellFormed(Dict(s.value.variables)) && WellFormed(Dict(s.value.metadata))
  {
  }

  /** The normalised inputs of a build. */
  ghost predicate Inputs(resolved: Value, config: Value, environment: seq<Entry>, s: Sections) {
    && WellFormed(resolved) && WellFormed(config) && resolved.Dict? && config.Dict?
    && NormalizeEnvironment(resolved.entries) == Ok(environment) && NormalizeConfig(config.entries) == Ok(s)
  }

  /** The supplied execution id, when there is one, is not blank as text. */
  predicate UsableExecutionId(metadata: seq<Entry>, render: Value -> string) {
    Truthy(Get(metadata, "execution_id")) ==> !Blank(Text(Get(metadata, "execution_id"), render))
  }

  /** What a context made from normalised sections with metadata `m` holds. */
  lemma MadeContext(environment: seq<Entry>, s: Sections, m: seq<Entry>, resolved: Value, config: Value)
    requires Inputs(resolved, config, environment, s) && WellFormed(Dict(m))
    ensures var c := MakeContext(Dict(environment), Dict(s.variables), Dict(m));
      && (c.Ok? <==> NonBlank(Get(Sort(FreezeEntries(m), KeyLess), "execution_id")))
      && (c.Ok? ==> Valid(c.value) && c.value == Context(Sort(FreezeEntries(environment), KeyLess),
            Sort(FreezeEntries(s.variables), KeyLess), Sort(FreezeEntries(m), KeyLess)))
  {
    EnvironmentWellFormed(resolved.entries);
    SectionsWellFormed(config.entries);
    ConstructedIsValid(Dict(environment), Dict(s.variables), Dict(m));
    FrozenGet(environment, environment[0]);
    FrozenGet(environment, environment[1]);
    FrozenGet(environment, environment[2]);
  }

  /** The metadata of the provisional and of the final context, frozen. */
  lemma ProvisionalMetadata(metadata: seq<Entry>, render: Value -> string) returns (m: seq<Entry>)
    requires WellFormed(Dict(metadata))
    ensures m == Put(metadata, "execution_id", ExecutionId(metadata, "provisional", render)) && WellFormed(Dict(m))
    ensures Get(Sort(FreezeEntries(m), KeyLess), "execution_id") == ExecutionId(metadata, "provisional", render)
    ensures Rest(Sort(FreezeEntries(m), KeyLess)) == Sort(Filter(FreezeEntries(metadata), Fingerprinted()), KeyLess)
  {
    var id := ExecutionId(metadata, "provisional", render);
    m := Put(metadata, "execution_id", id);
    PutDistinct(metadata, "execution_id", id);
    FrozenGet(m, Entry("execution_id", id));
    RestOfPut(metadata, "execution_id", id);
    RestOfFrozen(m);
  }

  lemma GetAfterPut(es: seq<Entry>, k: string, v: Value, other: string)
    requires DistinctKeys(es) && other != k
    ensures Get(Put(es, k, v), other) == Get(es, other)
  {
    var p := Put(es, k, v);
    assert DistinctKeys(p);
    if Find(es, other) < |es| {
      var e := es[Find(es, other)];
      PutKeeps(es, k, v, e);
      GetEntry(p, e);
    } else {
      assert forall j :: 0 <= j < |p| ==> p[j].key != other;
    }
  }

  lemma FinalMetadataHolds(metadata: seq<Entry>, fingerprint: string, render: Value -> string) returns (m: seq<Entry>)
    requires WellFormed(Dict(metadata))
    ensures m == FinalMetadata(metadata, fingerprint, render) && WellFormed(Dict(m))
    ensures Get(Sort(FreezeEntries(m), KeyLess), "execution_id") == ExecutionId(metadata, fingerprint, render)
    ensures Get(Sort(FreezeEntries(m), KeyLess), "context_fingerprint") == Str(fingerprint)
    ensures Rest(Sort(FreezeEntries(m), KeyLess)) == Sort(Filter(FreezeEntries(metadata), Fingerprinted()), KeyLess)
  {
    var stamped := Put(metadata, "context_fingerprint", Str(fingerprint));
    var id := ExecutionId(metadata, fingerprint, render);
    GetAfterPut(metadata, "context_fingerprint", Str(fingerprint), "execution_id");
    m := Put(stamped, "execution_id", id);
    PutDistinct(metadata, "context_fingerprint", Str(fingerprint));
    PutDistinct(stamped, "execution_id", id);
    PutKeeps(stamped, "execution_id", id, Entry("context_fingerprint", Str(fingerprint)));
    FrozenGet(m, Entry("execution_id", id));
    FrozenGet(m, Entry("context_fingerprint", Str(fingerprint)));
    RestOfPut(metadata, "context_fingerprint", Str(fingerprint));
    RestOfPut(stamped, "execution_id", id);
    RestOfFrozen(m);
  }

  /** A digest is never blank text. */
  ghost predicate Digests(digest: Value -> string) {
    forall v :: !Blank(digest(v))
  }

  /** The fingerprinted part of the context is what was supplied, frozen. */
  ghost predicate Supplied(c: Context, environment: seq<Entry>, s: Sections) {
    && c.environment == Sort(FreezeEntries(environment), KeyLess)
    && c.variables == Sort(FreezeEntries(s.variables), KeyLess)
    && Rest(c.metadata) == Sort(Filter(FreezeEntries(s.metadata), Fingerprinted()), KeyLess)
  }

  /** What a build returns: everything supplied, with the two metadata entries stamped. */
  ghost predicate Stamped(c: Context, environment: seq<Entry>, s: Sections, fingerprint: string, render: Value -> string) {
    && Valid(c) && Supplied(c, environment, s)
    && Get(c.metadata, "context_fingerprint") == Str(fingerprint)
    && Get(c.metadata, "execution_id") == ExecutionId(s.metadata, fingerprint, render)
  }

  /**
   Building succeeds exactly on usable execution ids; then the stored fingerprint is the recomputed one, the
   execution id is the supplied one or else the fingerprint, and nothing else is changed.
   */
  lemma BuiltContext(resolved: Value, config: Value, render: Value -> string, digest: Value -> string,
    environment: seq<Entry>, s: Sections)
    requires Inputs(resolved, config, environment, s) && Digests(digest)
    ensures Build(resolved, config, render, digest).Ok? <==> UsableExecutionId(s.metadata, render)
    ensures Build(resolved, config, render, digest).Ok? ==>
      var c := Build(resolved, config, render, digest).value;
      Stamped(c, environment, s, Fingerprint(c, digest), render) && StoredFingerprint(c, digest) == Fingerprint(c, digest)
  {
    SectionsWellFormed(config.entries);
    ProvisionalContext(resolved, config, render, environment, s);
    BuildUnfolds(resolved, config, render, digest, environment, s);
    var provisional := Provisional(environment, s, render);
    if provisional.Ok? {
      var fingerprint := Fingerprint(provisional.value, digest);
      assert !Blank(fingerprint);
      FinalContext(resolved, config, render, environment, s, fingerprint);
      var built := Finish(environment, s, fingerprint, render);
      if built.Ok? {
        SamePayload(provisional.value, built.value);
        StoredIs(built.value, fingerprint, digest);
      }
    }
  }

  /** For any inputs, a build succeeds exactly when they normalise and carry a usable execution id. */
  lemma BuildSucceedsExactly(resolved: Value, config: Value, render: Value -> string, digest: Value -> string)
    requires WellFormed(resolved) && WellFormed(config) && Digests(digest)
    ensures Build(resolved, config, render, digest).Ok? <==>
      exists e, s :: Inputs(resolved, config, e, s) && UsableExecutionId(s.metadata, render)
  {
    if Build(resolved, config, render, digest).Ok? {
      var e, s := NormalizeEnvironment(resolved.entries).value, NormalizeConfig(config.entries).value;
      assert Inputs(resolved, config, e, s);
      BuiltContext(resolved, config, render, digest, e, s);
    }
    if e, s :| Inputs(resolved, config, e, s) && UsableExecutionId(s.metadata, render) {
      BuiltContext(resolved, config, render, digest, e, s);
    }
  }

  lemma StoredIs(c: Context, fingerprint: string, digest: Value -> string)
    requires Get(c.metadata, "context_fingerprint") == Str(fingerprint) && !Blank(fingerprint)
    ensures StoredFingerprint(c, digest) == fingerprint
  {
  }

  lemma BuildUnfolds(resolved: Value, config: Value, render: Value -> string, digest: Value -> string,
    environment: seq<Entry>, s: Sections)
    requires Inputs(resolved, config, environment, s)
    ensures var p := Provisional(environment, s, render);
      Build(resolved, config, render, digest) == if p.Err? then p else Finish(environment, s, Fingerprint(p.value, digest), render)
  {
  }

  lemma ProvisionalContext(resolved: Value, config: Value, render: Value -> string, environment: seq<Entry>, s: Sections)
    requires Inputs(resolved, config, environment, s) && WellFormed(Dict(s.metadata))
    ensures var p := Provisional(environment, s, render);
      && (p.Ok? <==> UsableExecutionId(s.metadata, render))
      && (p.Ok? ==> Supplied(p.value, environment, s))
  {
    var m := ProvisionalMetadata(s.metadata, render);
    MadeContext(environment, s, m, resolved, config);
    NotBlank();
  }

  lemma SamePayload(c: Context, d: Context)
    requires c.environment == d.environment && c.variables == d.variables && Rest(c.metadata) == Rest(d.metadata)
    ensures Payload(c) == Payload(d)
  {
  }

  lemma FinalContext(resolved: Value, config: Value, render: Value -> string,
    environment: seq<Entry>, s: Sections, fingerprint: string)
    requires Inputs(resolved, config, environment, s) && WellFormed(Dict(s.metadata)) && !Blank(fingerprint)
    ensures var built := Finish(environment, s, fingerprint, render);
      && (built.Ok? <==> UsableExecutionId(s.metadata, render))
      && (built.Ok? ==> Stamped(built.value, environment, s, fingerprint, render))
  {
    var final := FinalMetadataHolds(s.metadata, fingerprint, render);
    MadeContext(environment, s, final, resolved, config);
  }

  lemma NotBlank()
    ensures !Blank("provisional")
  {
    assert !IsSpace("provisional"[0]);
  }

  /**
   Two builds are fingerprinted over the same payload exactly when environment, variables and metadata agree
   up to key order and sequence kind, the execution id and any supplied fingerprint aside.
   */
  lemma FingerprintIgnoresExecutionId(resolved: Value, config: Value, environment: seq<Entry>, s: Sections,
    resolved': Value, config': Value, environment': seq<Entry>, s': Sections, render: Value -> string, digest: Value -> string)
    requires Inputs(resolved, config, environment, s) && Inputs(resolved', config', environment', s') && Digests(digest)
    requires UsableExecutionId(s.metadata, render) && UsableExecutionId(s'.metadata, render)
    ensures Build(resolved, config, render, digest).Ok? && Build(resolved', config', render, digest).Ok?
    ensures
      var c, d := Build(resolved, config, render, digest).value, Build(resolved', config', render, digest).value;
      && (Payload(c) == Payload(d) <==>
           && Same(Dict(environment), Dict(environment')) && Same(Dict(s.variables), Dict(s'.variables))
           && Same(Dict(Rest(s.metadata)), Dict(Rest(s'.metadata))))
      && (Payload(c) == Payload(d) ==> StoredFingerprint(c, digest) == StoredFingerprint(d, digest))
  {
    BuiltContext(resolved, config, render, digest, environment, s);
    BuiltContext(resolved', config', render, digest, environment', s');
    EnvironmentWellFormed(resolved.entries);
    SectionsWellFormed(config.entries);
    EnvironmentWellFormed(resolved'.entries);
    SectionsWellFormed(config'.entries);
    FreezeDecidesSame(Dict(environment), Dict(environment'));
    FreezeDecidesSame(Dict(s.variables), Dict(s'.variables));
    RestWellFormed(s.metadata);
    RestWellFormed(s'.metadata);
    FreezeDecidesSame(Dict(Rest(s.metadata)), Dict(Rest(s'.metadata)));
    PayloadDecides(Build(resolved, config, render, digest).value, Build(resolved', config', render, digest).value);
  }

  lemma {:induction false} FreezeRest(es: seq<Entry>)
    ensures FreezeEntries(Rest(es)) == Filter(FreezeEntries(es), Fingerprinted())
  {
    if es != [] {
      var n := |es| - 1;
      FreezeRest(es[..n]);
      assert FreezeEntries(es)[..n] == FreezeEntries(es[..n]);
    }
  }

  lemma RestWellFormed(es: seq<Entry>)
    requires WellFormed(Dict(es))
    ensures WellFormed(Dict(Rest(es))) && FreezeEntries(Rest(es)) == Filter(FreezeEntries(es), Fingerprinted())
  {
    FreezeRest(es);
    FilterDistinctBy(es, Fingerprinted(), KeyOf);
    FilterMembers(es, Fingerprinted());
    var r := Rest(es);
    forall i | 0 <= i < |r| ensures WellFormed(r[i].value) { assert r[i] in es; }
  }

  // ---------- what is required, kept and ignored ----------

  /** What Python takes for false. */
  lemma TruthyExactly(v: Value)
    ensures Truthy(v) <==>
      && v != Null && v != Flag(false) && v != Whole(0) && v != Floating(0.0) && v != Str("")
      && v != List([]) && v != Tuple([]) && v != Dict([]) && v != FrozenDict([])
  {
  }

  /** Among the first 128 characters, tab to carriage return, the four separators and the space. */
  lemma AsciiSpaces(c: char)
    requires c as int < 128
    ensures IsSpace(c) <==> c in {'\t', '\n', '\U{0B}', '\U{0C}', '\r', '\U{1C}', '\U{1D}', '\U{1E}', '\U{1F}', ' '}
  {
  }

  /** Beyond those, the other white space of Unicode. */
  lemma OtherSpaces(c: char)
    requires c as int >= 128
    ensures IsSpace(c) <==> c in {'\U{85}', '\U{A0}', '\U{1680}', '\U{2000}', '\U{2001}', '\U{2002}', '\U{2003}', '\U{2004}',
      '\U{2005}', '\U{2006}', '\U{2007}', '\U{2008}', '\U{2009}', '\U{200A}', '\U{2028}', '\U{2029}', '\U{202F}', '\U{205F}', '\U{3000}'}
  {
  }

  /** What is read back must be a mapping; missing sections are empty ones. */
  lemma PayloadMustBeMapping(payload: Value)
    ensures !IsMapping(payload) ==> FromDict(payload) == Err(TypeError("payload"))
    ensures payload == Dict([]) ==> FromDict(payload) == Err(ValueError("environment.name"))
  {
    if payload == Dict([]) { assert FreezeEntries([]) == []; }
  }

  /** The fingerprinted payload is the serialised context with less metadata, under the same names. */
  lemma PayloadSections(c: Context)
    requires Valid(c)
    ensures Get(Payload(c).entries, "environment") == Get(ToDict(c).entries, "environment") == Thaw(FrozenDict(c.environment))
    ensures Get(Payload(c).entries, "variables") == Get(ToDict(c).entries, "variables") == Thaw(FrozenDict(c.variables))
    ensures Get(Payload(c).entries, "metadata") == Thaw(FrozenDict(Rest(c.metadata)))
    ensures Get(ToDict(c).entries, "metadata") == Thaw(FrozenDict(c.metadata))
    ensures |Payload(c).entries| == |ToDict(c).entries| == 3
  {
    RefreezeEntries(c.environment);
    RefreezeEntries(c.variables);
    ThreeSections(Thaw(FrozenDict(c.environment)), Thaw(FrozenDict(c.variables)), Dict(ThawEntries(Rest(c.metadata))));
    ThreeSections(Thaw(FrozenDict(c.environment)), Thaw(FrozenDict(c.variables)), Thaw(FrozenDict(c.metadata)));
  }

  lemma ThreeSections(a: Value, b: Value, c: Value)
    ensures var es := [Entry("environment", a), Entry("variables", b), Entry("metadata", c)];
      Get(es, "environment") == a && Get(es, "variables") == b && Get(es, "metadata") == c
  {
    var es := [Entry("environment", a), Entry("variables", b), Entry("metadata", c)];
    assert es[0].key == "environment" && es[1].key == "variables" && es[2].key == "metadata";
    GetAt(es, 0);
    GetAt(es, 1);
    GetAt(es, 2);
  }

  /** Looking a key up finds its entry, or else the default. */
  lemma LookedUp(es: seq<Entry>, k: string, default: Value)
    requires DistinctKeys(es)
    ensures forall e :: e in es && e.key == k ==> GetOr(es, k, default) == e.value
    ensures (forall e :: e in es ==> e.key != k) ==> GetOr(es, k, default) == default
  {
    forall e | e in es && e.key == k ensures GetOr(es, k, default) == e.value { GetEntry(es, e); }
    if Find(es, k) < |es| { assert es[Find(es, k)] in es; }
  }

  predicate IsText(v: Value) { v.Str? && !Blank(v.s) }

  /** A context is made exactly from three mappings with name, region, provider type and execution id. */
  lemma ContextRequires(e: Value, v: Value, m: Value)
    requires e.FrozenDict? && v.FrozenDict? && m.FrozenDict?
    ensures MakeContext(e, v, m) ==
      if !IsText(Get(e.entries, "name")) then Err(ValueError("environment.name"))
      else if !IsText(Get(e.entries, "region")) then Err(ValueError("environment.region"))
      else if !IsText(Get(e.entries, "provider_type")) then Err(ValueError("environment.provider_type"))
      else if !IsText(Get(m.entries, "execution_id")) then Err(ValueError("metadata.execution_id"))
      else Ok(Context(e.entries, v.entries, m.entries))
  {
  }

  /** A section that is no mapping is refused, the first such section first. */
  lemma SectionsMustBeMappings(e: Value, v: Value, m: Value)
    ensures !IsMapping(e) ==> MakeContext(e, v, m) == Err(TypeError("environment"))
    ensures IsMapping(e) && !IsMapping(v) ==> MakeContext(e, v, m) == Err(TypeError("variables"))
    ensures IsMapping(e) && IsMapping(v) && !IsMapping(m) ==> MakeContext(e, v, m) == Err(TypeError("metadata"))
  {
  }

  /**
   The environment is taken exactly when it has a name under either key, a region, a provider type and, if any,
   a textual credentials reference; it then holds just these four.
   */
  lemma EnvironmentExactly(resolved: seq<Entry>)
    ensures var name := if Truthy(Get(resolved, "name")) then Get(resolved, "name") else Get(resolved, "environment");
      var region, provider := Get(resolved, "region"), Get(resolved, "provider_type");
      var credentials := if Find(resolved, "credentials_ref") == |resolved| then Str("") else Get(resolved, "credentials_ref");
      var r := NormalizeEnvironment(resolved);
      && (r.Ok? <==> IsText(name) && IsText(region) && IsText(provider) && credentials.Str?)
      && (r.Ok? ==> r.value == [Entry("name", name), Entry("region", region), Entry("provider_type", provider),
            Entry("credentials_ref", credentials)])
  {
  }

  /** The first thing missing in the environment is named. */
  lemma EnvironmentErrors(resolved: seq<Entry>)
    requires NormalizeEnvironment(resolved).Err?
    ensures var name := if Truthy(Get(resolved, "name")) then Get(resolved, "name") else Get(resolved, "environment");
      NormalizeEnvironment(resolved).error ==
        if !IsText(name) then ValueError("name")
        else if !IsText(Get(resolved, "region")) then ValueError("region")
        else if !IsText(Get(resolved, "provider_type")) then ValueError("provider_type")
        else TypeError("credentials_ref")
  {
  }

  /** Inputs are checked in order: the environment's kind, its contents, the configuration's kind, its sections. */
  lemma BuildErrors(resolved: Value, config: Value, render: Value -> string, digest: Value -> string)
    ensures var r := Build(resolved, config, render, digest);
      if !resolved.Dict? then r == Err(TypeError("resolved_env"))
      else if NormalizeEnvironment(resolved.entries).Err? then r == Err(NormalizeEnvironment(resolved.entries).error)
      else if !config.Dict? then r == Err(TypeError("config"))
      else NormalizeConfig(config.entries).Err? ==> r == Err(NormalizeConfig(config.entries).error)
  {
  }

  /** Without explicit sections everything is variables; a falsy section counts as empty, any other must be a dictionary. */
  lemma ConfigSections(config: seq<Entry>)
    ensures var v, m := Get(config, "variables"), Get(config, "metadata"); var r := NormalizeConfig(config);
      if v == Null && m == Null then r == Ok(Sections(config, []))
      else if Truthy(v) && !v.Dict? then r == Err(TypeError("config variables"))
      else if Truthy(m) && !m.Dict? then r == Err(TypeError("config metadata"))
      else r == Ok(Sections(if Truthy(v) then v.entries else [], if Truthy(m) then m.entries else []))
  {
  }

  /** The fingerprint ignores the execution id and the stored fingerprint, and no other metadata. */
  lemma RestIs(metadata: seq<Entry>)
    ensures forall e :: e in Rest(metadata) <==> e in metadata && e.key != "execution_id" && e.key != "context_fingerprint"
  {
    FilterMembers(metadata, Fingerprinted());
  }

  /** A supplied text is the execution id; without a truthy one the fingerprint is. */
  lemma ExecutionIdIs(metadata: seq<Entry>, fingerprint: string, render: Value -> string)
    ensures var supplied := Get(metadata, "execution_id");
      ExecutionId(metadata, fingerprint, render) ==
        if !Truthy(supplied) then Str(fingerprint) else if supplied.Str? then supplied else Str(render(supplied))
  {
  }
}
