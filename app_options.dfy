/**
 * The application's functional options: an `AppConfig` record, its
 * defaults, one setter per field, and applyOptions, which copies a config
 * and runs the setters over the copy from left to right.
 */
module AppOptions {
  import opened Wrappers
  import opened Calendar

  /** The value of an `AppConfig`. Durations are nanoseconds. */
  datatype Settings = Settings(indexName: string, retentionDays: int, shutdownTimer: int)

  /** defaultConfig */
  const Defaults: Settings := Settings("index-storage/index", 12 * 24 * Hour, 5 * Second)

  /** An `AppOption`, named after the constructor that returns it. */
  datatype AppOption = IndexName(indexName: string) | RetentionDays(retDays: int) | ShutdownTimer(duration: int)

  datatype Field = IndexNameField | RetentionDaysField | ShutdownTimerField

  datatype FieldValue = Text(text: string) | Span(nanoseconds: int)

  function Get(c: Settings, f: Field): FieldValue {
    match f
    case IndexNameField => Text(c.indexName)
    case RetentionDaysField => Span(c.retentionDays)
    case ShutdownTimerField => Span(c.shutdownTimer)
  }

  /** The field an option writes. */
  function Target(opt: AppOption): Field {
    match opt
    case IndexName(_) => IndexNameField
    case RetentionDays(_) => RetentionDaysField
    case ShutdownTimer(_) => ShutdownTimerField
  }

  /** The value an option writes. */
  function Written(opt: AppOption): FieldValue {
    match opt
    case IndexName(name) => Text(name)
    case RetentionDays(d) => Span(d)
    case ShutdownTimer(d) => Span(d)
  }

  /** Running one setter: its field takes the option's value and the other two keep theirs. */
  function Set(c: Settings, opt: AppOption): (r: Settings)
    ensures Get(r, Target(opt)) == Written(opt)
    ensures forall f :: f != Target(opt) ==> Get(r, f) == Get(c, f)
  {
    match opt
    case IndexName(name) => c.(indexName := name)
    case RetentionDays(d) => c.(retentionDays := d)
    case ShutdownTimer(d) => c.(shutdownTimer := d)
  }

  /** The config after running `opts` from left to right. */
  function Applied(c: Settings, opts: seq<AppOption>): Settings
    decreases |opts|
  {
    if opts == [] then c else Set(Applied(c, opts[..|opts| - 1]), opts[|opts| - 1])
  }

  /** The value the last option targeting `f` writes, if any option does. */
  function LastWritten(opts: seq<AppOption>, f: Field): Option<FieldValue>
    decreases |opts|
  {
    if opts == [] then None
    else if Target(opts[|opts| - 1]) == f then Some(Written(opts[|opts| - 1]))
    else LastWritten(opts[..|opts| - 1], f)
  }

  /**
   * Last one wins: after applyOptions, a field holds the value of the last
   * option that sets it, and keeps the value it had in the input config when
   * no option does (in particular, no options give back the input).
   */
  lemma {:induction false} AppliedFields(c: Settings, opts: seq<AppOption>, f: Field)
    ensures Get(Applied(c, opts), f) == match LastWritten(opts, f)
      case Some(v) => v
      case None => Get(c, f)
    decreases |opts|
  {
    if opts != [] {
      AppliedFields(c, opts[..|opts| - 1], f);
    }
  }

  /** Applying `a + b` is applying `b` to the result of applying `a`. */
  lemma {:induction false} AppliedConcat(c: Settings, a: seq<AppOption>, b: seq<AppOption>)
    ensures Applied(c, a + b) == Applied(Applied(c, a), b)
    decreases |b|
  {
    if b == [] {
      assert a + b == a;
    } else {
      assert (a + b)[..|a + b| - 1] == a + b[..|b| - 1];
      AppliedConcat(c, a, b[..|b| - 1]);
    }
  }

  /** The `*AppConfig` record a setter writes into. */
  class AppConfig {
    var indexName: string
    var retentionDays: int
    var shutdownTimer: int

    function Value(): Settings
      reads this
    {
      Settings(indexName, retentionDays, shutdownTimer)
    }

    /** A fresh record holding `s`, as the composite literal or the copy `*cfg` makes. */
    constructor (s: Settings)
      ensures Value() == s
    {
      indexName := s.indexName;
      retentionDays := s.retentionDays;
      shutdownTimer := s.shutdownTimer;
    }

    /** `opt(cfg)`: the closure an option constructor returns, run on this record. */
    method Apply(opt: AppOption)
      modifies this
      ensures Value() == Set(old(Value()), opt)
    {
      match opt
      case IndexName(name) => indexName := name;
      case RetentionDays(d) => retentionDays := d;
      case ShutdownTimer(d) => shutdownTimer := d;
    }
  }

  /** defaultConfig: a record holding the defaults. */
  method DefaultConfig() returns (cfg: AppConfig)
    ensures fresh(cfg) && cfg.Value() == Defaults
  {
    cfg := new AppConfig(Defaults);
  }

  /**
   * applyOptions: copy `cfg`, run the options on the copy from left to
   * right, and return the copy; `cfg` itself is left as it was.
   */
  method ApplyOptions(cfg: AppConfig, opts: seq<AppOption>) returns (applied: AppConfig)
    ensures fresh(applied)
    ensures applied.Value() == Applied(cfg.Value(), opts)
    ensures cfg.Value() == old(cfg.Value())
  {
    applied := new AppConfig(cfg.Value());
    for i := 0 to |opts|
      invariant applied.Value() == Applied(cfg.Value(), opts[..i])
    {
      assert opts[..i + 1][..i] == opts[..i];
      applied.Apply(opts[i]);
    }
    assert opts[..|opts|] == opts;
  }
}
