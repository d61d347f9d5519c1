/**
 * The server's functional options: a `ServerConfig` record, its defaults,
 * one setter per field, and applyOptions, which copies a config and runs the
 * setters over the copy from left to right.
 */
module ServerOptions {
  import opened Wrappers
  import opened Calendar

  /** The value of a `ServerConfig`. The shutdown timer is in nanoseconds. */
  datatype Settings = Settings(shutdownTimer: int, port: string, indexName: string)

  /** defaultConfig: the index name is never set and stays empty. */
  const Defaults: Settings := Settings(5 * Second, "8080", "")

  /** A `ServerOption`, named after the constructor that returns it. */
  datatype ServerOption = ShutdownTimer(duration: int) | Port(port: string) | IndexName(indexName: string)

  datatype Field = ShutdownTimerField | PortField | IndexNameField

  datatype FieldValue = Text(text: string) | Span(nanoseconds: int)

  function Get(c: Settings, f: Field): FieldValue {
    match f
    case ShutdownTimerField => Span(c.shutdownTimer)
    case PortField => Text(c.port)
    case IndexNameField => Text(c.indexName)
  }

  /** The field an option writes. */
  function Target(opt: ServerOption): Field {
    match opt
    case ShutdownTimer(_) => ShutdownTimerField
    case Port(_) => PortField
    case IndexName(_) => IndexNameField
  }

  /** The value an option writes. */
  function Written(opt: ServerOption): FieldValue {
    match opt
    case ShutdownTimer(d) => Span(d)
    case Port(port) => Text(port)
    case IndexName(name) => Text(name)
  }

  /** Running one setter: its field takes the option's value and the other two keep theirs. */
  function Set(c: Settings, opt: ServerOption): (r: Settings)
    ensures Get(r, Target(opt)) == Written(opt)
    ensures forall f :: f != Target(opt) ==> Get(r, f) == Get(c, f)
  {
    match opt
    case ShutdownTimer(d) => c.(shutdownTimer := d)
    case Port(port) => c.(port := port)
    case IndexName(name) => c.(indexName := name)
  }

  /** The config after running `opts` from left to right. */
  function Applied(c: Settings, opts: seq<ServerOption>): Settings
    decreases |opts|
  {
    if opts == [] then c else Set(Applied(c, opts[..|opts| - 1]), opts[|opts| - 1])
  }

  /** The value the last option targeting `f` writes, if any option does. */
  function LastWritten(opts: seq<ServerOption>, f: Field): Option<FieldValue>
    decreases |opts|
  {
    if opts == [] then None
    else if Target(opts[|opts| - 1]) == f then Some(Written(opts[|opts| - 1]))
    else LastWritten(opts[..|opts| - 1], f)
  }

  /**
   * Last one wins: after applyOptions, a field holds the value of the last
   * option that sets it, and keeps the value it had in the input config when
   * no option does (in particular, no options give back the input).
   */
  lemma {:induction false} AppliedFields(c: Settings, opts: seq<ServerOption>, f: Field)
    ensures Get(Applied(c, opts), f) == match LastWritten(opts, f)
      case Some(v) => v
      case None => Get(c, f)
    decreases |opts|
  {
    if opts != [] {
      AppliedFields(c, opts[..|opts| - 1], f);
    }
  }

  /** Applying `a + b` is applying `b` to the result of applying `a`. */
  lemma {:induction false} AppliedConcat(c: Settings, a: seq<ServerOption>, b: seq<ServerOption>)
    ensures Applied(c, a + b) == Applied(Applied(c, a), b)
    decreases |b|
  {
    if b == [] {
      assert a + b == a;
    } else {
      assert (a + b)[..|a + b| - 1] == a + b[..|b| - 1];
      AppliedConcat(c, a, b[..|b| - 1]);
    }
  }

  /** The `*ServerConfig` record a setter writes into. */
  class ServerConfig {
    var shutdownTimer: int
    var port: string
    var indexName: string

    function Value(): Settings
      reads this
    {
      Settings(shutdownTimer, port, indexName)
    }

    /** A fresh record holding `s`, as the composite literal or the copy `*cfg` makes. */
    constructor (s: Settings)
      ensures Value() == s
    {
      shutdownTimer := s.shutdownTimer;
      port := s.port;
      indexName := s.indexName;
    }

    /** `opt(cfg)`: the closure an option constructor returns, run on this record. */
    method Apply(opt: ServerOption)
      modifies this
      ensures Value() == Set(old(Value()), opt)
    {
      match opt
      case ShutdownTimer(d) => shutdownTimer := d;
      case Port(p) => port := p;
      case IndexName(name) => indexName := name;
    }
  }

  /** defaultConfig: a record holding the defaults. */
  method DefaultConfig() returns (cfg: ServerConfig)
    ensures fresh(cfg) && cfg.Value() == Defaults
  {
    cfg := new ServerConfig(Defaults);
  }

  /**
   * applyOptions: copy `cfg`, run the options on the copy from left to
   * right, and return the copy; `cfg` itself is left as it was.
   */
  method ApplyOptions(cfg: ServerConfig, opts: seq<ServerOption>) returns (applied: ServerConfig)
    ensures fresh(applied)
    ensures applied.Value() == Applied(cfg.Value(), opts)
    ensures cfg.Value() == old(cfg.Value())
  {
    applied := new ServerConfig(cfg.Value());
    for i := 0 to |opts|
      invariant applied.Value() == Applied(cfg.Value(), opts[..i])
    {
      assert opts[..i + 1][..i] == opts[..i];
      applied.Apply(opts[i]);
    }
    assert opts[..|opts|] == opts;
  }
}
