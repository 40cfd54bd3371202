/** Shutdown: `Close` closes every database without setting a closing flag.  Who can still be handed
    one of them. */
module PoolClose {
  import opened PoolModel
  import opened PoolSafety
  import opened PoolDrain

  /** A `Get` on `e` that is past its check, or will pass it. */
  predicate InFlight(s: State, k: nat, e: nat)
  {
    && k < |s.gets| && s.gets[k].entry == e && e < |s.entries|
    && var phase := s.gets[k].phase;
       phase.Passed? || phase.Holding? || (phase.Looked? && !s.entries[e].closing)
  }

  predicate Gone(s: State, e: nat)
  {
    e < |s.entries| && e !in s.clusters.Values
  }

  lemma BeginStaysGone(s: State, cfg: map<Name, Config>, added: seq<Name>, e: nat)
    requires Gone(s, e) && Openable(s, cfg, added)
    ensures Gone(Phase1(s, cfg, added), e)
  {
    var t := Phase1(s, cfg, added);
    forall n | n in t.clusters ensures t.clusters[n] != e {
      Phase1Binds(s, cfg, added, n);
      if n in s.clusters { assert s.clusters[n] in s.clusters.Values; }
    }
  }

  lemma NextStaysGone(s: State, a: Action, e: nat)
    requires Gone(s, e) && Enabled(s, a)
    ensures Gone(Next(s, a), e)
  {
    var t := Next(s, a);
    if a.Begin? {
      BeginStaysGone(s, a.cfg, a.added, e);
    } else {
      if OfUpdate(a) { UpdateStepAdvances(s, a); } else { OtherStepAdvances(s, a); }
      forall n | n in t.clusters ensures t.clusters[n] != e {
        assert n in s.clusters && s.clusters[n] == t.clusters[n];
        assert s.clusters[n] in s.clusters.Values;
      }
    }
  }

  /** No later `Get` reaches an entry that has left the map. */
  lemma NextAdmitsInFlight(s: State, a: Action, e: nat, k: nat)
    requires Gone(s, e) && Enabled(s, a) && InFlight(Next(s, a), k, e)
    ensures InFlight(s, k, e)
  {
    if a.Lookup? { assert s.clusters[a.name] in s.clusters.Values; }
  }

  lemma {:induction false} OnlyThoseInFlight(s: State, actions: seq<Action>, e: nat, k: nat)
    requires Gone(s, e) && Runs(s, actions) && InFlight(Exec(s, actions), k, e)
    ensures InFlight(s, k, e)
    decreases |actions|
  {
    if actions != [] {
      NextStaysGone(s, actions[0], e);
      OnlyThoseInFlight(Next(s, actions[0]), actions[1..], e, k);
      NextAdmitsInFlight(s, actions[0], e, k);
    }
  }

  lemma CloseAllCloses(s: State, e: nat)
    requires Inv(s) && e in s.clusters.Values
    ensures Enabled(s, CloseAll)
    ensures var t := Next(s, CloseAll);
      && Gone(t, e) && t.entries[e] == s.entries[e].(closed := true) && t.gets == s.gets && t.entries[e].closed
  {
  }

  /** The steps an in-flight `Get` has still to take. */
  function Remaining(s: State, k: nat): seq<Action>
    requires k < |s.gets|
  {
    match s.gets[k].phase
    case Looked => [Check(k), Bump(k)]
    case Passed => [Bump(k)]
    case _ => []
  }

  lemma PassedTakes(t: State, k: nat, e: nat)
    requires InFlight(t, k, e) && t.gets[k].phase.Passed? && t.entries[e].closed
    ensures Enabled(t, Bump(k)) && HoldsClosed(Next(t, Bump(k)), k, e)
  {
  }

  lemma LookedPasses(t: State, k: nat, e: nat)
    requires InFlight(t, k, e) && t.gets[k].phase.Looked?
    ensures Enabled(t, Check(k))
    ensures var r := Next(t, Check(k)); InFlight(r, k, e) && r.gets[k].phase.Passed? && r.entries == t.entries
  {
  }

  lemma InFlightTakes(t: State, k: nat, e: nat)
    requires InFlight(t, k, e) && t.entries[e].closed
    ensures TakesClosed(t, Remaining(t, k), k, e)
  {
    match t.gets[k].phase
    case Looked =>
      LookedPasses(t, k, e);
      var r := Next(t, Check(k));
      PassedTakes(r, k, e);
      PassesRun([t, r, Next(r, Bump(k))], [Check(k), Bump(k)]);
    case Passed =>
      PassedTakes(t, k, e);
      PassesRun([t, Next(t, Bump(k))], [Bump(k)]);
    case _ =>
  }

  /** The `Get`s that can hold a database after `Close` has closed it are exactly those in flight on
      it at that moment: holding it, past their check, or with the check still to come on an entry
      that is not closing. */
  lemma CloseHandsOutExactly(s: State, e: nat, k: nat)
    requires Inv(s) && e in s.clusters.Values
    ensures (exists after :: TakesClosed(Next(s, CloseAll), after, k, e)) <==> InFlight(s, k, e)
  {
    CloseAllCloses(s, e);
    var t := Next(s, CloseAll);
    assert InFlight(t, k, e) == InFlight(s, k, e);
    if after :| TakesClosed(t, after, k, e) { OnlyThoseInFlight(t, after, e, k); }
    if InFlight(t, k, e) { InFlightTakes(t, k, e); }
  }

  /** So whatever the pool looks like, a `Get` that has just read the map can be handed a closed
      database of any cluster that is not being drained. */
  lemma CloseHandsOutClosedDb(s: State, name: Name)
    requires Inv(s) && name in s.clusters && !s.entries[s.clusters[name]].closing
    ensures exists after ::
      TakesClosed(Next(Next(s, Lookup(name)), CloseAll), after, |s.gets|, s.clusters[name])
  {
    var looked, e := Next(s, Lookup(name)), s.clusters[name];
    NextKeepsInv(s, Lookup(name));
    assert looked.clusters[name] == e;
    CloseHandsOutExactly(looked, e, |s.gets|);
  }
}
