/**
 * The index lifecycle manager as an object: the active shard, the search
 * alias, the registry of shards the retention sweep walks, the shards held
 * open and the shard files on disk are fields its methods update in place.
 * Each method is proved against the state machine of module Shards.
 *
 * The world outside is passed in: `stamp` is the local hour `time.Now()`
 * reads, `now` the instant it reads in UTC, `createOk` whether bleve.New
 * succeeds, `opener` how each bleve.Open attempt ends, `undeletable` the
 * files whose removal fails, `outcomes` whether each write to the index
 * succeeds, and `order` the order Go's map iteration happens to take.
 */
module Lifecycle {
  import opened Wrappers
  import opened Errors
  import opened Calendar
  import opened ShardNames
  import opened Records
  import opened Shards

  /** indexWithRetry's budget: three attempts, five seconds apart. */
  const MaxRetries: nat := 3
  const RetryInterval: int := 5 * Second

  /** What one indexWithRetry call does, in order: write attempts and sleeps. */
  datatype Step = Attempt(shard: string, id: string) | Sleep(duration: int)

  class IndexLifecycleManager {
    const baseIndexName: string
    /** The retention window (a `time.Duration`, despite the Go field's name `retentionDays`). */
    const retention: int
    var active: string
    var alias: set<string>
    var registry: set<string>
    var openShards: set<string>
    var disk: set<string>
    /** The shard the constructor made active: searchable without being registered. */
    ghost var pinned: string

    function State(): ShardState
      reads this
    {
      ShardState(active, alias, registry, openShards, disk)
    }

    ghost predicate Valid()
      reads this
    {
      Inv(State(), pinned)
    }

    /** The struct literal, before any shard is opened. */
    constructor Init(baseIndexName: string, retention: int, disk: set<string>)
      ensures this.baseIndexName == baseIndexName && this.retention == retention
      ensures State() == ShardState("", {}, {}, {}, disk)
    {
      this.baseIndexName := baseIndexName;
      this.retention := retention;
      active := "";
      alias := {};
      registry := {};
      openShards := {};
      this.disk := disk;
    }

    /**
     * NewIndexLifecycleManager: open or create the shard of the current hour,
     * make it active and searchable, then recover the shards already on disk.
     * Fails, returning no manager, exactly when the hour's shard cannot be
     * created.
     */
    static method New(baseIndexName: string, retention: int, stamp: HourStamp, disk: set<string>,
                      createOk: bool, opener: string -> OpenOutcome)
      returns (ilm: IndexLifecycleManager?, err: Option<IlmError>)
      ensures var r := Startup(baseIndexName, disk, HourlyName(baseIndexName, stamp), createOk, opener);
        && (ilm == null <==> r.Err?)
        && (err.Some? <==> r.Err?)
        && (r.Err? ==> err == Some(r.error))
        && (r.Ok? ==> ilm != null && fresh(ilm) && ilm.State() == r.value && ilm.Valid()
                      && ilm.baseIndexName == baseIndexName && ilm.retention == retention
                      && ilm.pinned == ilm.active == HourlyName(baseIndexName, stamp))
    {
      var m := new IndexLifecycleManager.Init(baseIndexName, retention, disk);
      var index := m.GetActiveIndex(stamp, createOk);
      if index.Err? {
        return null, Some(index.error);
      }
      m.active := index.value;
      m.alias := m.alias + {index.value};
      m.pinned := index.value;
      m.GetIndexAlias(opener);
      StartupRecovers(baseIndexName, disk, HourlyName(baseIndexName, stamp), createOk, opener);
      return m, None;
    }

    /**
     * getActiveIndex: open the hour's shard if its file exists, otherwise
     * create it; the shard is then open and on disk.
     */
    method GetActiveIndex(stamp: HourStamp, createOk: bool) returns (r: Result<string, IlmError>)
      modifies this
      ensures var name := HourlyName(baseIndexName, stamp);
        var o := OpenOrCreate(old(State()), name, createOk);
        && (r.Ok? <==> o.Ok?)
        && (r.Ok? ==> r.value == name && State() == o.value)
        && (r.Err? ==> r.error == o.error && State() == old(State()))
      ensures pinned == old(pinned)
    {
      var indexPath := HourlyName(baseIndexName, stamp);
      if indexPath !in disk {
        if !createOk {
          return Err(CreateFailed(indexPath));
        }
        disk := disk + {indexPath};
      }
      openShards := openShards + {indexPath};
      return Ok(indexPath);
    }

    /**
     * getIndexAlias: every shard file the glob `<base>*.log` finds is opened
     * with a timeout; the ones that open join the alias and the registry,
     * the others are skipped.
     */
    method GetIndexAlias(opener: string -> OpenOutcome)
      modifies this
      ensures State() == Recover(old(State()), baseIndexName, opener)
      ensures pinned == old(pinned)
    {
      ghost var s0 := State();
      var indexList := FindAllIndexes(baseIndexName, disk);
      ghost var visited: set<string> := {};
      while indexList != {}
        invariant indexList + visited == FindAllIndexes(baseIndexName, s0.disk)
        invariant indexList !! visited
        invariant pinned == old(pinned)
        invariant var found := OpenedAmong(visited, opener);
          State() == s0.(alias := s0.alias + found, registry := s0.registry + found, open := s0.open + found)
        decreases indexList
      {
        var index :| index in indexList;
        OpenedAdd(visited, index, opener);
        var id := OpenIndexWithTimeout(index, opener(index));
        if id.Ok? {
          alias := alias + {id.value};
          registry := registry + {id.value};
          openShards := openShards + {id.value};
        }
        indexList := indexList - {index};
        visited := visited + {index};
      }
    }

    /**
     * indexWithRetry: write the record under its timestamp id to the active
     * shard, at most three times, sleeping five seconds after every failed
     * attempt, the last one included; stop at the first success. `outcomes[i]`
     * says whether attempt `i + 1` succeeds.
     */
    method IndexWithRetry(record: LogRecord, outcomes: seq<bool>)
      returns (trace: seq<Step>, attempts: nat, indexed: bool)
      requires |outcomes| >= MaxRetries
      ensures 1 <= attempts <= MaxRetries
      ensures indexed <==> exists i :: 0 <= i < MaxRetries && outcomes[i]
      ensures indexed ==> outcomes[attempts - 1]
      ensures forall i :: 0 <= i < attempts - 1 ==> !outcomes[i]
      ensures !indexed ==> attempts == MaxRetries
      ensures |trace| == if indexed then 2 * attempts - 1 else 2 * attempts
      ensures forall i :: 0 <= i < |trace| ==>
        trace[i] == if i % 2 == 0 then Attempt(active, DocumentId(record.timestamp)) else Sleep(RetryInterval)
    {
      var id := DocumentId(record.timestamp);
      trace := [];
      var attempt := 1;
      while attempt <= MaxRetries
        invariant 1 <= attempt <= MaxRetries + 1
        invariant |trace| == 2 * (attempt - 1)
        invariant forall i :: 0 <= i < |trace| ==>
          trace[i] == if i % 2 == 0 then Attempt(active, id) else Sleep(RetryInterval)
        invariant forall i :: 0 <= i < attempt - 1 ==> !outcomes[i]
      {
        trace := trace + [Attempt(active, id)];
        if outcomes[attempt - 1] {
          return trace, attempt, true;
        }
        trace := trace + [Sleep(RetryInterval)];
        attempt := attempt + 1;
      }
      return trace, MaxRetries, false;
    }

    /**
     * indexRollover: close the active shard, open or create the shard of the
     * new hour and make it active, searchable and registered. The source
     * dereferences the new handle even when opening failed, so the hour's
     * shard must exist or be creatable.
     */
    method IndexRollover(stamp: HourStamp, createOk: bool)
      requires Valid()
      requires HourlyName(baseIndexName, stamp) in disk || createOk
      modifies this
      ensures Valid() && pinned == old(pinned)
      ensures State() == Rollover(old(State()), HourlyName(baseIndexName, stamp), createOk)
    {
      ghost var s0 := State();
      RolloverKeepsInv(s0, pinned, HourlyName(baseIndexName, stamp), createOk);
      openShards := openShards - {active};
      var newIndex := GetActiveIndex(stamp, createOk);
      active := newIndex.value;
      alias := alias + {newIndex.value};
      registry := registry + {newIndex.value};
    }

    /**
     * indexCleanUp: walk the registry in `order`; a shard older than the
     * retention window leaves the alias, is closed and has its file removed.
     * The first shard whose name holds no date, or whose file cannot be
     * removed, ends the walk with that error.
     */
    method IndexCleanUp(now: int, order: seq<string>, undeletable: set<string>)
      returns (err: Option<IlmError>, effects: seq<Effect>)
      requires Valid()
      requires forall name :: name in order <==> name in registry
      requires forall i, j :: 0 <= i < j < |order| ==> order[i] != order[j]
      modifies this
      ensures Valid() && pinned == old(pinned)
      ensures var r := Sweep(old(State()), order, RetentionSweep(retention, now, undeletable));
        State() == r.state && effects == r.effects && err == r.err
    {
      var p := RetentionSweep(retention, now, undeletable);
      SweepKeepsInv(State(), pinned, order, p);
      err, effects := SweepRegistry(order, p);
    }

    /**
     * The loop of indexCleanUp, for any age test: `p.older` stands for
     * isOlderThan with the manager's window and clock reading.
     */
    method SweepRegistry(order: seq<string>, p: SweepParams)
      returns (err: Option<IlmError>, effects: seq<Effect>)
      modifies this
      ensures pinned == old(pinned)
      ensures var r := Sweep(old(State()), order, p);
        State() == r.state && effects == r.effects && err == r.err
    {
      ghost var s0 := State();
      effects := [];
      var i := 0;
      while i < |order|
        invariant 0 <= i <= |order|
        invariant pinned == old(pinned)
        invariant var r := Sweep(State(), order[i..], p);
          Sweep(s0, order, p) == SweepResult(r.state, effects + r.effects, r.err)
      {
        var name := order[i];
        var delete := p.older(name);
        if delete.Err? {
          return Some(delete.error), effects;
        }
        if delete.value {
          alias := alias - {name};
          effects := effects + [RemoveFromAlias(name)];
          openShards := openShards - {name};
          effects := effects + [CloseShard(name)];
          effects := effects + [RemoveFile(name)];
          if name in p.undeletable {
            return Some(RemoveFailed(name)), effects;
          }
          disk := disk - {name};
        }
        i := i + 1;
      }
      return None, effects;
    }
  }
}
