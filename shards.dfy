/**
 * The shard-set state machine of the index lifecycle manager, on values.
 *
 * A bleve index handle is reduced to the path it was opened from. The state
 * is the active shard, the search alias (the shards searched together), the
 * `indices` registry the retention sweep walks, the shards held open, and
 * the shard files present on disk. Opening, closing, creating and removing
 * are effects on these sets.
 */
module Shards {
  import opened Wrappers
  import opened Errors
  import opened Calendar
  import opened ShardNames

  datatype ShardState = ShardState(
    active: string,
    alias: set<string>,
    registry: set<string>,
    open: set<string>,
    disk: set<string>)

  /**
   * What stays true from construction on. `pinned` is the shard made active
   * by the constructor: it enters the alias without being registered.
   */
  ghost predicate Inv(s: ShardState, pinned: string) {
    s.open <= s.alias && s.alias <= s.registry + {pinned} && s.open <= s.disk
  }

  // ---------------------------------------------------------------------------
  // Opening shards

  /** getActiveIndex on the state: open the file if it exists, else create it (`createOk` says whether bleve.New succeeds). */
  function OpenOrCreate(s: ShardState, name: string, createOk: bool): (r: Result<ShardState, IlmError>)
    ensures r.Err? <==> name !in s.disk && !createOk
    ensures r.Err? ==> r.error == CreateFailed(name)
    ensures r.Ok? ==> r.value == s.(open := s.open + {name}, disk := s.disk + {name})
  {
    if name in s.disk then Ok(s.(open := s.open + {name}))
    else if createOk then Ok(s.(open := s.open + {name}, disk := s.disk + {name}))
    else Err(CreateFailed(name))
  }

  /** How a bleve.Open attempt ended, as openIndexWithTimeout observes it. */
  datatype OpenOutcome = Opened | Failed(message: string) | TimedOut

  const AlreadyOpen: string := "index is already open"

  /** `part` occurs in `text` starting at position `i`. */
  predicate OccursAt(text: string, part: string, i: nat) {
    i + |part| <= |text| && text[i..i + |part|] == part
  }

  lemma OccursAfterFirst(text: string, part: string)
    requires |text| > 0
    ensures forall i: nat :: OccursAt(text[1..], part, i) <==> OccursAt(text, part, i + 1)
  {
    forall i: nat ensures OccursAt(text[1..], part, i) <==> OccursAt(text, part, i + 1) {
      if i + |part| <= |text| - 1 {
        assert text[1..][i..i + |part|] == text[i + 1..i + 1 + |part|];
      }
    }
  }

  /** strings.Contains */
  function Contains(text: string, part: string): (r: bool)
    ensures r <==> exists i: nat :: OccursAt(text, part, i)
    decreases |text|
  {
    if |part| > |text| then false
    else if OccursAt(text, part, 0) then true
    else
      OccursAfterFirst(text, part);
      var rest := Contains(text[1..], part);
      assert rest ==> exists i: nat :: OccursAt(text, part, i) by {
        if rest {
          var i: nat :| OccursAt(text[1..], part, i);
          assert OccursAt(text, part, i + 1);
        }
      }
      assert (exists i: nat :: OccursAt(text, part, i)) ==> rest by {
        if exists i: nat :: OccursAt(text, part, i) {
          var i: nat :| OccursAt(text, part, i);
          assert i != 0;
          assert OccursAt(text[1..], part, i - 1);
        }
      }
      rest
  }

  /** The outcome classification of openIndexWithTimeout: the handle, or busy, another open error, or the timeout. */
  function OpenIndexWithTimeout(path: string, outcome: OpenOutcome): (r: Result<string, IlmError>)
    ensures r.Ok? <==> outcome.Opened?
    ensures r.Ok? ==> r.value == path
    ensures outcome.Failed? && Contains(outcome.message, AlreadyOpen) ==> r == Err(IndexBusy(outcome.message))
    ensures outcome.Failed? && !Contains(outcome.message, AlreadyOpen) ==> r == Err(OpenFailed(outcome.message))
    ensures outcome.TimedOut? ==> r == Err(OpenTimeout)
  {
    match outcome
    case Opened => Ok(path)
    case Failed(message) =>
      if Contains(message, AlreadyOpen) then Err(IndexBusy(message)) else Err(OpenFailed(message))
    case TimedOut => Err(OpenTimeout)
  }

  /** findAllIndexes: the files on disk that `<base>*.log` matches. */
  function FindAllIndexes(base: string, disk: set<string>): set<string> {
    set path | path in disk && GlobMatches(base, path)
  }

  /** The paths among `paths` that open. */
  function OpenedAmong(paths: set<string>, opener: string -> OpenOutcome): set<string> {
    set path | path in paths && OpenIndexWithTimeout(path, opener(path)).Ok?
  }

  /** Trying one more path adds it exactly when it opens. */
  lemma OpenedAdd(paths: set<string>, path: string, opener: string -> OpenOutcome)
    ensures OpenedAmong(paths + {path}, opener)
         == OpenedAmong(paths, opener) + (if opener(path).Opened? then {path} else {})
  {
  }

  /** The files startup recovery manages to open; every other one is skipped. */
  function Recovered(base: string, disk: set<string>, opener: string -> OpenOutcome): set<string> {
    OpenedAmong(FindAllIndexes(base, disk), opener)
  }

  /** getIndexAlias: every file that opens joins the alias and the registry. */
  function Recover(s: ShardState, base: string, opener: string -> OpenOutcome): ShardState {
    var found := Recovered(base, s.disk, opener);
    s.(alias := s.alias + found, registry := s.registry + found, open := s.open + found)
  }

  /** NewIndexLifecycleManager: make the hour's shard active and searchable, then recover the shards on disk. */
  function Startup(base: string, disk: set<string>, name: string, createOk: bool,
                   opener: string -> OpenOutcome): Result<ShardState, IlmError>
  {
    match OpenOrCreate(ShardState("", {}, {}, {}, disk), name, createOk)
    case Err(e) => Err(e)
    case Ok(s) => Ok(Recover(s.(active := name, alias := s.alias + {name}), base, opener))
  }

  /**
   * Startup recovery: construction fails only when the hour's shard is
   * missing and cannot be created. Otherwise the recovered shards are exactly
   * the glob matches that open (busy, failing and timed-out ones are
   * skipped); they are searchable and registered, while the new active shard
   * is searchable but registered only if it was itself reopened.
   */
  lemma StartupRecovers(base: string, disk: set<string>, name: string, createOk: bool,
                        opener: string -> OpenOutcome)
    ensures var r := Startup(base, disk, name, createOk, opener);
      && (r.Err? <==> name !in disk && !createOk)
      && (r.Ok? ==>
        && r.value.active == name
        && r.value.disk == disk + {name}
        && r.value.alias == r.value.registry + {name}
        && r.value.open == r.value.alias
        && Inv(r.value, name)
        && forall path :: path in r.value.registry <==>
             path in disk + {name} && GlobMatches(base, path) && opener(path) == Opened)
  {
  }

  // ---------------------------------------------------------------------------
  // Rollover

  /** indexRollover: close the active shard, open or create the hour's shard and make it active, searchable and registered. */
  function Rollover(s: ShardState, name: string, createOk: bool): ShardState
    requires name in s.disk || createOk
  {
    var next := OpenOrCreate(s.(open := s.open - {s.active}), name, createOk).value;
    next.(active := name, alias := next.alias + {name}, registry := next.registry + {name})
  }

  /** Rollover keeps the invariant; the alias only grows, and the new shard is open, searchable, registered and on disk. */
  lemma RolloverKeepsInv(s: ShardState, pinned: string, name: string, createOk: bool)
    requires name in s.disk || createOk
    requires Inv(s, pinned)
    ensures var r := Rollover(s, name, createOk);
      && Inv(r, pinned)
      && s.alias <= r.alias && s.registry <= r.registry
      && r.active == name && name in r.alias && name in r.registry && name in r.open && name in r.disk
  {
  }

  /**
   * Rolling over from one hour's shard to another's leaves the previous
   * shard closed but still searchable next to the new one.
   */
  lemma RolloverKeepsPreviousSearchable(s: ShardState, base: string, t1: HourStamp, t2: HourStamp, createOk: bool)
    requires WellFormed(t1) && WellFormed(t2) && t1 != t2
    requires s.active == HourlyName(base, t1) && s.active in s.alias
    requires HourlyName(base, t2) in s.disk || createOk
    ensures var r := Rollover(s, HourlyName(base, t2), createOk);
      && s.active in r.alias && s.active !in r.open
      && r.active in r.alias && r.active in r.open && r.active != s.active
  {
    HourlyNameInjective(base, t1, t2);
  }

  // ---------------------------------------------------------------------------
  // Retention sweep

  /**
   * What the sweep consults: the age test it applies to each shard name and
   * the files whose removal fails.
   */
  datatype SweepParams = SweepParams(older: string -> Result<bool, IlmError>, undeletable: set<string>)

  /** The sweep indexCleanUp runs: isOlderThan with the configured retention window and the current clock reading. */
  function RetentionSweep(retention: int, now: int, undeletable: set<string>): (p: SweepParams)
    ensures forall name :: p.older(name) == IsOlderThan(name, retention, now)
  {
    SweepParams(name => IsOlderThan(name, retention, now), undeletable)
  }

  datatype Effect = RemoveFromAlias(shard: string) | CloseShard(shard: string) | RemoveFile(shard: string)

  datatype SweepResult = SweepResult(state: ShardState, effects: seq<Effect>, err: Option<IlmError>)

  /** The shard is older than the retention window. */
  predicate Due(name: string, p: SweepParams) {
    p.older(name) == Ok(true)
  }

  /** Visiting the shard ends the sweep: its date cannot be read, or it is due and its file cannot be removed. */
  predicate Aborts(name: string, p: SweepParams) {
    p.older(name).Err? || (Due(name, p) && name in p.undeletable)
  }

  /** The error the sweep returns when visiting `name` aborts it. */
  function AbortError(name: string, p: SweepParams): IlmError {
    match p.older(name)
    case Err(e) => e
    case Ok(_) => RemoveFailed(name)
  }

  /**
   * indexCleanUp over the registry listed in `order` (the iteration order
   * of the Go map): a due shard is removed from the alias, closed and its file
   * removed; the first shard whose date cannot be read or whose file cannot
   * be removed ends the sweep with that error.
   */
  function Sweep(s: ShardState, order: seq<string>, p: SweepParams): (r: SweepResult)
    ensures r.state.active == s.active && r.state.registry == s.registry
    ensures r.state.alias <= s.alias && r.state.open <= s.open && r.state.disk <= s.disk
    decreases |order|
  {
    if order == [] then SweepResult(s, [], None)
    else
      var name := order[0];
      match p.older(name)
      case Err(e) => SweepResult(s, [], Some(e))
      case Ok(older) =>
        if !older then Sweep(s, order[1..], p)
        else
          var closed := s.(alias := s.alias - {name}, open := s.open - {name});
          var evict := Eviction(name);
          if name in p.undeletable then SweepResult(closed, evict, Some(RemoveFailed(name)))
          else
            var rest := Sweep(closed.(disk := closed.disk - {name}), order[1..], p);
            SweepResult(rest.state, evict + rest.effects, rest.err)
  }

  lemma PrefixAfterHead(order: seq<string>, k: nat)
    requires 1 <= k <= |order|
    ensures order[..k] == [order[0]] + order[1..][..k - 1]
  {
  }

  /** Where the sweep stops: the first aborting position, or the end of `order`. */
  function StopIndex(order: seq<string>, p: SweepParams): (k: nat)
    ensures k <= |order|
    ensures forall i :: 0 <= i < k ==> !Aborts(order[i], p)
    ensures k < |order| ==> Aborts(order[k], p)
    decreases |order|
  {
    if order == [] || Aborts(order[0], p) then 0 else 1 + StopIndex(order[1..], p)
  }

  /** The due shards among `names`. */
  function DueIn(names: seq<string>, p: SweepParams): set<string> {
    set name | name in names && Due(name, p)
  }

  /** The shard the sweep stopped at, when it stopped because that shard's file could not be removed. */
  function Halted(order: seq<string>, p: SweepParams): set<string> {
    var k := StopIndex(order, p);
    if k < |order| && Due(order[k], p) then {order[k]} else {}
  }

  /** The state a sweep continues with after visiting a shard that does not abort it. */
  function AfterVisit(s: ShardState, name: string, p: SweepParams): ShardState {
    if Due(name, p) then s.(alias := s.alias - {name}, open := s.open - {name}, disk := s.disk - {name}) else s
  }

  /** One step of the sweep over a shard that does not abort it. */
  lemma SweepStep(s: ShardState, order: seq<string>, p: SweepParams)
    requires order != [] && !Aborts(order[0], p)
    ensures var r, rest := Sweep(s, order, p), Sweep(AfterVisit(s, order[0], p), order[1..], p);
      r.state == rest.state && r.err == rest.err
      && r.effects == (if Due(order[0], p) then Eviction(order[0]) else []) + rest.effects
    ensures StopIndex(order, p) == 1 + StopIndex(order[1..], p)
    ensures Halted(order, p) == Halted(order[1..], p)
    ensures HaltedSeq(order, p) == HaltedSeq(order[1..], p)
  {
  }

  /** The sweep visiting a shard that aborts it. */
  lemma SweepAbort(s: ShardState, order: seq<string>, p: SweepParams)
    requires order != [] && Aborts(order[0], p)
    ensures var r := Sweep(s, order, p);
      r.effects == (if Due(order[0], p) then Eviction(order[0]) else [])
    ensures StopIndex(order, p) == 0
    ensures Halted(order, p) == (if Due(order[0], p) then {order[0]} else {})
  {
  }

  /** The due shards before the stopping point, one step in. */
  lemma DueInStep(order: seq<string>, p: SweepParams, k: nat)
    requires 1 <= k <= |order|
    ensures DueIn(order[..k], p) == (if Due(order[0], p) then {order[0]} else {}) + DueIn(order[1..][..k - 1], p)
  {
    PrefixAfterHead(order, k);
  }

  /**
   * What a sweep does, in closed form: the due shards before the stopping
   * point leave the alias, the open set and the disk; the shard it stopped at
   * for a failed removal leaves the alias and the open set but stays on disk;
   * shards after it are not examined. The sweep fails exactly when it stops
   * early, with the error of the shard it stopped at.
   */
  lemma {:induction false} SweepOutcome(s: ShardState, order: seq<string>, p: SweepParams)
    ensures var r, k := Sweep(s, order, p), StopIndex(order, p);
      && r.state.alias == s.alias - DueIn(order[..k], p) - Halted(order, p)
      && r.state.open == s.open - DueIn(order[..k], p) - Halted(order, p)
      && r.state.disk == s.disk - DueIn(order[..k], p)
      && (r.err.None? <==> k == |order|)
      && (k < |order| ==> r.err == Some(AbortError(order[k], p)))
    decreases |order|
  {
    if order == [] {
    } else if Aborts(order[0], p) {
      assert StopIndex(order, p) == 0;
      assert order[..0] == [];
    } else {
      var k := StopIndex(order, p);
      SweepStep(s, order, p);
      DueInStep(order, p, k);
      SweepOutcome(AfterVisit(s, order[0], p), order[1..], p);
    }
  }

  /** The error and the effects of a sweep depend on the names visited, never on the state swept. */
  lemma {:induction false} SweepControlIgnoresState(s1: ShardState, s2: ShardState, order: seq<string>, p: SweepParams)
    ensures Sweep(s1, order, p).effects == Sweep(s2, order, p).effects
    ensures Sweep(s1, order, p).err == Sweep(s2, order, p).err
    decreases |order|
  {
    if order != [] && !Aborts(order[0], p) {
      var name := order[0];
      if Due(name, p) {
        SweepControlIgnoresState(
          s1.(alias := s1.alias - {name}, open := s1.open - {name}, disk := s1.disk - {name}),
          s2.(alias := s2.alias - {name}, open := s2.open - {name}, disk := s2.disk - {name}),
          order[1..], p);
      } else {
        SweepControlIgnoresState(s1, s2, order[1..], p);
      }
    }
  }

  /** Sweeping again with the same clock reading changes nothing and reports the same outcome. */
  lemma SweepIdempotent(s: ShardState, order: seq<string>, p: SweepParams)
    ensures var r := Sweep(s, order, p); Sweep(r.state, order, p) == r
  {
    var r := Sweep(s, order, p);
    SweepOutcome(s, order, p);
    SweepOutcome(r.state, order, p);
    SweepControlIgnoresState(s, r.state, order, p);
  }

  /**
   * Rerunning a successful sweep of the whole registry with the same clock
   * reading, in whatever order the map iteration takes this time, evicts
   * nothing more and succeeds again.
   */
  lemma SweepRerunAnyOrder(s: ShardState, order1: seq<string>, order2: seq<string>, p: SweepParams)
    requires forall name :: name in order1 <==> name in s.registry
    requires forall name :: name in order2 <==> name in s.registry
    requires Sweep(s, order1, p).err.None?
    ensures var r := Sweep(s, order1, p);
      Sweep(r.state, order2, p).state == r.state && Sweep(r.state, order2, p).err.None?
  {
    var r := Sweep(s, order1, p);
    SweepOutcome(s, order1, p);
    SweepOutcome(r.state, order2, p);
    forall i | 0 <= i < |order2|
      ensures !Aborts(order2[i], p)
    {
      var name := order2[i];
      assert name in order1;
      var j :| 0 <= j < |order1| && order1[j] == name;
    }
    assert order1[..|order1|] == order1;
    assert order2[..|order2|] == order2;
    assert DueIn(order1, p) == DueIn(order2, p);
  }

  /** The sweep keeps the invariant. */
  lemma SweepKeepsInv(s: ShardState, pinned: string, order: seq<string>, p: SweepParams)
    requires Inv(s, pinned)
    ensures Inv(Sweep(s, order, p).state, pinned)
  {
    SweepOutcome(s, order, p);
  }

  /**
   * Retention eviction, for a sweep over the whole registry that succeeds: a
   * registered shard leaves the alias, the open set and the disk exactly when
   * it is older than the retention window, and a shard that was never
   * registered (such as the one made active by the constructor) is untouched.
   */
  lemma SweepEvictsExactlyDue(s: ShardState, order: seq<string>, p: SweepParams)
    requires forall name :: name in order <==> name in s.registry
    requires Sweep(s, order, p).err.None?
    ensures var r := Sweep(s, order, p).state;
      forall name ::
        && (name in s.registry && Due(name, p) ==> name !in r.alias && name !in r.open && name !in r.disk)
        && (!(name in s.registry && Due(name, p)) ==>
              (name in r.alias <==> name in s.alias) && (name in r.open <==> name in s.open)
              && (name in r.disk <==> name in s.disk))
  {
    SweepOutcome(s, order, p);
    assert order[..|order|] == order;
  }

  /** Whatever its outcome, a sweep over registered names never touches a shard that was never registered. */
  lemma SweepSparesUnregistered(s: ShardState, order: seq<string>, p: SweepParams, name: string)
    requires forall i :: 0 <= i < |order| ==> order[i] in s.registry
    requires name !in s.registry
    ensures var r := Sweep(s, order, p).state;
      (name in r.alias <==> name in s.alias) && (name in r.open <==> name in s.open)
      && (name in r.disk <==> name in s.disk)
  {
    SweepOutcome(s, order, p);
  }

  /**
   * For a base that ends in "index" and holds no date of its own, with a
   * retention window of at least a day, the sweep never evicts the shard of
   * the current hour, provided the clock reading falls on the UTC day the
   * shard is named after.
   */
  lemma SweepSparesCurrentHour(s: ShardState, order: seq<string>, base: string, t: HourStamp,
                               retention: int, now: int, undeletable: set<string>)
    requires WellFormed(t) && EndsWithIndex(base) && forall i: nat :: !MatchesAt(base, i)
    requires s.active == HourlyName(base, t)
    requires retention >= Day
    requires MidnightUtc(t.year, t.month, t.day) <= now < MidnightUtc(t.year, t.month, t.day) + Day
    ensures var r := Sweep(s, order, RetentionSweep(retention, now, undeletable)).state;
      (s.active in r.alias <==> s.active in s.alias) && (s.active in r.open <==> s.active in s.open)
      && (s.active in r.disk <==> s.active in s.disk)
  {
    var p := RetentionSweep(retention, now, undeletable);
    HourlyNameAge(base, t, retention, now);
    assert !Due(s.active, p);
    assert s.active !in DueIn(order[..StopIndex(order, p)], p);
    assert s.active !in Halted(order, p);
    SweepOutcome(s, order, p);
  }


  /** The effects of evicting one shard: out of the alias, closed, file removed. */
  function Eviction(name: string): (e: seq<Effect>)
    ensures |e| == 3 && forall j :: 0 <= j < 3 ==> e[j].shard == name
  {
    [RemoveFromAlias(name), CloseShard(name), RemoveFile(name)]
  }

  /** The evictions of `names`, one after another in that order. */
  function Evictions(names: seq<string>): (e: seq<Effect>)
    ensures |e| == 3 * |names|
  {
    if names == [] then [] else Eviction(names[0]) + Evictions(names[1..])
  }

  /** The due shards among `names`, in order. */
  function DueSeq(names: seq<string>, p: SweepParams): seq<string>
  {
    if names == [] then []
    else (if Due(names[0], p) then [names[0]] else []) + DueSeq(names[1..], p)
  }

  /** The shard the sweep stopped at for a failed removal, if any, as a sequence. */
  function HaltedSeq(order: seq<string>, p: SweepParams): seq<string>
  {
    var k := StopIndex(order, p);
    if k < |order| && Due(order[k], p) then [order[k]] else []
  }

  /** The due shards before the stopping point, one step in, in order. */
  lemma DueSeqStep(order: seq<string>, p: SweepParams, k: nat)
    requires 1 <= k <= |order|
    ensures DueSeq(order[..k], p) == (if Due(order[0], p) then [order[0]] else []) + DueSeq(order[1..][..k - 1], p)
  {
    PrefixAfterHead(order, k);
  }

  /**
   * The order of effects: the sweep evicts the due shards before the
   * stopping point one at a time, in the order given, each with its alias
   * removal, its close and its file removal back to back, followed by the
   * same three effects for the shard it stopped at for a failed removal.
   */
  lemma {:induction false} SweepEffects(s: ShardState, order: seq<string>, p: SweepParams)
    ensures Sweep(s, order, p).effects == Evictions(DueSeq(order[..StopIndex(order, p)], p) + HaltedSeq(order, p))
    decreases |order|
  {
    if order == [] {
    } else if Aborts(order[0], p) {
      SweepAbort(s, order, p);
      assert order[..0] == [];
    } else {
      var s' := AfterVisit(s, order[0], p);
      var k := StopIndex(order, p);
      SweepStep(s, order, p);
      DueSeqStep(order, p, k);
      SweepEffects(s', order[1..], p);
      var rest := DueSeq(order[1..][..k - 1], p) + HaltedSeq(order[1..], p);
      if Due(order[0], p) {
        assert DueSeq(order[..k], p) + HaltedSeq(order, p) == [order[0]] + rest;
        assert ([order[0]] + rest)[1..] == rest;
      } else {
        assert DueSeq(order[..k], p) + HaltedSeq(order, p) == rest;
      }
    }
  }
}
