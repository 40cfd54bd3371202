/** The pool's mutex.  The steps under `p.mu` take effect when their section is left; between entering
    and leaving it, only the steps that need no lock go on.  Waiting for a drain is one of those, so it
    never stands in the way of a release. */
module PoolLock {
  import opened PoolModel
  import opened PoolSafety

  /** Locked for one section of a writer, or by any number of readers of the map. */
  datatype Lock = Readers(names: seq<Name>) | Writer(section: Action)

  datatype LockedState = Locked(pool: State, lock: Lock)

  predicate Writes(a: Action) { a.Release? || a.Begin? || a.Delete? || a.CloseAll? }

  predicate NeedsLock(a: Action) { Writes(a) || a.Lookup? }

  datatype Move =
    | Enter(section: Action)     // Lock, or RLock for a lookup
    | Leave                      // the writer takes its step and unlocks
    | LeaveReader                // so does the reader that came last
    | Unlocked(step: Action)

  predicate Can(s: LockedState, m: Move)
  {
    match m
    case Enter(a) =>
      && NeedsLock(a) && Enabled(s.pool, a)
      && s.lock.Readers? && (Writes(a) ==> s.lock.names == [])
    case Leave => s.lock.Writer? && Enabled(s.pool, s.lock.section)
    case LeaveReader => s.lock.Readers? && s.lock.names != [] && Enabled(s.pool, Lookup(LastName(s.lock.names)))
    case Unlocked(a) => !NeedsLock(a) && Enabled(s.pool, a)
  }

  function LastName(names: seq<Name>): Name
    requires names != []
  {
    names[|names| - 1]
  }

  function Do(s: LockedState, m: Move): LockedState
    requires Can(s, m)
  {
    match m
    case Enter(a) => if a.Lookup? then s.(lock := Readers(s.lock.names + [a.name])) else s.(lock := Writer(a))
    case Leave => Locked(Next(s.pool, s.lock.section), Readers([]))
    case LeaveReader =>
      Locked(Next(s.pool, Lookup(LastName(s.lock.names))), Readers(s.lock.names[..|s.lock.names| - 1]))
    case Unlocked(a) => s.(pool := Next(s.pool, a))
  }

  /** Whoever holds the lock can take its step and leave. */
  predicate HoldersCanLeave(s: LockedState)
  {
    match s.lock
    case Writer(a) => Writes(a) && Enabled(s.pool, a)
    case Readers(names) => forall i :: 0 <= i < |names| ==> names[i] in s.pool.clusters
  }

  /** A step that needs no lock takes nothing away from a section that has been entered. */
  lemma SectionWaits(s: State, step: Action, section: Action)
    requires Enabled(s, step) && !NeedsLock(step) && Enabled(s, section) && NeedsLock(section)
    ensures Enabled(Next(s, step), section)
  {
    assert Next(s, step).clusters == s.clusters && |Next(s, step).entries| == |s.entries|;
  }

  lemma MoveKeepsHolders(s: LockedState, m: Move)
    requires HoldersCanLeave(s) && Can(s, m)
    ensures HoldersCanLeave(Do(s, m))
  {
    if m.Unlocked? {
      assert Next(s.pool, m.step).clusters == s.pool.clusters;
      if s.lock.Writer? { SectionWaits(s.pool, m.step, s.lock.section); }
    }
  }

  predicate Moves(s: LockedState, moves: seq<Move>)
    decreases |moves|
  {
    moves == [] || (Can(s, moves[0]) && Moves(Do(s, moves[0]), moves[1..]))
  }

  function After(s: LockedState, moves: seq<Move>): LockedState
    requires Moves(s, moves)
    decreases |moves|
  {
    if moves == [] then s else After(Do(s, moves[0]), moves[1..])
  }

  lemma {:induction false} MovesKeepHolders(s: LockedState, moves: seq<Move>)
    requires HoldersCanLeave(s) && Moves(s, moves)
    ensures HoldersCanLeave(After(s, moves))
    decreases |moves|
  {
    if moves != [] {
      MoveKeepsHolders(s, moves[0]);
      MovesKeepHolders(Do(s, moves[0]), moves[1..]);
    }
  }

  /** Entering and leaving, and no step of a drain or of a `Get`. */
  predicate Brief(moves: seq<Move>)
  {
    forall i :: 0 <= i < |moves| ==> !moves[i].Unlocked?
  }

  function Holders(l: Lock): nat
  {
    if l.Writer? then 1 else |l.names|
  }

  /** A handle that is out, unless its release is the section under way. */
  predicate IsOut(s: LockedState, k: nat)
  {
    IsGet(s.pool, k, Holding) && s.lock != Writer(Release(k))
  }

  lemma LeavingKeepsOut(s: LockedState, k: nat)
    requires HoldersCanLeave(s) && IsOut(s, k)
    ensures s.lock.Writer? ==> Can(s, Leave) && IsOut(Do(s, Leave), k)
    ensures s.lock.Readers? && s.lock.names != [] ==> Can(s, LeaveReader) && IsOut(Do(s, LeaveReader), k)
  {
  }

  lemma {:induction false} ReleaseGoesThrough(s: LockedState, k: nat) returns (moves: seq<Move>)
    requires HoldersCanLeave(s) && IsOut(s, k)
    ensures Moves(s, moves) && Brief(moves) && |moves| == Holders(s.lock) + 2
    ensures k < |After(s, moves).pool.gets| && After(s, moves).pool.gets[k].phase.Released?
    decreases Holders(s.lock)
  {
    if Holders(s.lock) == 0 {
      var t := Do(s, Enter(Release(k)));
      moves := [Enter(Release(k)), Leave];
      assert moves[1..] == [Leave] && [Leave][1..] == [];
      assert After(t, [Leave]) == Do(t, Leave);
    } else {
      var m := if s.lock.Writer? then Leave else LeaveReader;
      LeavingKeepsOut(s, k);
      MoveKeepsHolders(s, m);
      var rest := ReleaseGoesThrough(Do(s, m), k);
      moves := [m] + rest;
      assert moves[1..] == rest;
    }
  }

  /** However a run of locked sections, drains and `Get`s has gone, a client that holds a handle can give
      it back with no more than the current holders of the lock leaving, which they can: no step of a
      drain, no tick of its clock and no step of a `Get` is needed. */
  lemma ReleaseNeedsNoDrain(cfg: map<Name, Config>, order: seq<Name>, moves: seq<Move>, k: nat)
      returns (rest: seq<Move>)
    requires InitialOrder(cfg, order) && Moves(Locked(Initial(cfg, order), Readers([])), moves)
    requires IsOut(After(Locked(Initial(cfg, order), Readers([])), moves), k)
    ensures var s := After(Locked(Initial(cfg, order), Readers([])), moves);
      && Moves(s, rest) && Brief(rest) && |rest| == Holders(s.lock) + 2
      && k < |After(s, rest).pool.gets| && After(s, rest).pool.gets[k].phase.Released?
  {
    var start := Locked(Initial(cfg, order), Readers([]));
    MovesKeepHolders(start, moves);
    rest := ReleaseGoesThrough(After(start, moves), k);
  }

  /** The steps of a run that reach the pool. */
  function Steps(s: LockedState, moves: seq<Move>): seq<Action>
    requires Moves(s, moves)
    decreases |moves|
  {
    if moves == [] then []
    else
      var rest := Steps(Do(s, moves[0]), moves[1..]);
      match moves[0]
      case Enter(_) => rest
      case Leave => [s.lock.section] + rest
      case LeaveReader => [Lookup(LastName(s.lock.names))] + rest
      case Unlocked(a) => [a] + rest
  }

  /** With the mutex in the picture there are no runs of the pool that the model does not have. */
  lemma {:induction false} LockedRunsAreRuns(s: LockedState, moves: seq<Move>)
    requires Moves(s, moves)
    ensures Runs(s.pool, Steps(s, moves)) && Exec(s.pool, Steps(s, moves)) == After(s, moves).pool
    decreases |moves|
  {
    if moves != [] {
      var t := Do(s, moves[0]);
      LockedRunsAreRuns(t, moves[1..]);
      if !moves[0].Enter? {
        assert Steps(s, moves)[1..] == Steps(t, moves[1..]);
      }
    }
  }
}
