/** Publication of new rules to the configuration, the checker and the rewriter, one after the
    other, while queries read them.  Rules are known by their generation: 0, 1, 2, ... */
module RulePublication {
  import opened Options

  datatype Stage = ConfigDone | CheckerDone | Done

  /** A call of `UpdateConfig` with non-nil rules of generation `gen`. */
  datatype Publisher = Publisher(gen: nat, stage: Stage)

  /** The generations a query has read so far. */
  datatype Query = Query(checked: Option<nat>, rewritten: Option<nat>, timeout: Option<nat>, maxRows: Option<nat>)

  datatype State = State(config: nat, checker: nat, rewriter: nat, publishers: seq<Publisher>, queries: seq<Query>)

  const START: State := State(0, 0, 0, [], [])

  datatype Action =
    | PublishConfig            // a call begins: the reloadable configuration first
    | Publish(pub: nat)        // its next step: the checker, then the rewriter
    | Ask
    | ReadChecker(query: nat)
    | ReadRewriter(query: nat)
    | ReadTimeout(query: nat)
    | ReadMaxRows(query: nat)

  predicate Enabled(s: State, a: Action)
  {
    match a
    case PublishConfig => true
    case Publish(i) => i < |s.publishers| && !s.publishers[i].stage.Done?
    case Ask => true
    case ReadChecker(q) => q < |s.queries| && s.queries[q].checked.None?
    case ReadRewriter(q) =>
      q < |s.queries| && s.queries[q].checked.Some? && s.queries[q].rewritten.None? && s.queries[q].timeout.None?
    case ReadTimeout(q) => q < |s.queries| && s.queries[q].checked.Some? && s.queries[q].timeout.None?
    case ReadMaxRows(q) => q < |s.queries| && s.queries[q].timeout.Some? && s.queries[q].maxRows.None?
  }

  function SetQuery(s: State, i: nat, q: Query): State
    requires i < |s.queries|
  {
    s.(queries := s.queries[i := q])
  }

  function Next(s: State, a: Action): State
    requires Enabled(s, a)
  {
    match a
    case PublishConfig =>
      var gen := |s.publishers| + 1;
      s.(config := gen, publishers := s.publishers + [Publisher(gen, ConfigDone)])
    case Publish(i) =>
      var p := s.publishers[i];
      if p.stage.ConfigDone? then s.(checker := p.gen, publishers := s.publishers[i := p.(stage := CheckerDone)])
      else s.(rewriter := p.gen, publishers := s.publishers[i := p.(stage := Done)])
    case Ask => s.(queries := s.queries + [Query(None, None, None, None)])
    case ReadChecker(q) => SetQuery(s, q, s.queries[q].(checked := Some(s.checker)))
    case ReadRewriter(q) => SetQuery(s, q, s.queries[q].(rewritten := Some(s.rewriter)))
    case ReadTimeout(q) => SetQuery(s, q, s.queries[q].(timeout := Some(s.config)))
    case ReadMaxRows(q) => SetQuery(s, q, s.queries[q].(maxRows := Some(s.config)))
  }

  // ---- Runs, overlapping as they may ----

  predicate Runs(s: State, actions: seq<Action>)
    decreases |actions|, 0
  {
    actions == [] || (Runs(s, Before(actions)) && Enabled(Exec(s, Before(actions)), Final(actions)))
  }

  function Exec(s: State, actions: seq<Action>): State
    requires Runs(s, actions)
    decreases |actions|, 1
  {
    if actions == [] then s else Next(Exec(s, Before(actions)), Final(actions))
  }

  function Before(actions: seq<Action>): seq<Action>
    requires actions != []
  {
    actions[..|actions| - 1]
  }

  function Final(actions: seq<Action>): Action
    requires actions != []
  {
    actions[|actions| - 1]
  }

  predicate AllDone(s: State)
  {
    forall i :: 0 <= i < |s.publishers| ==> s.publishers[i].stage.Done?
  }

  /** Calls of `UpdateConfig` do not overlap. */
  predicate Serial(s: State, actions: seq<Action>)
    requires Runs(s, actions)
    decreases |actions|
  {
    actions == [] ||
    (Serial(s, Before(actions)) && (Final(actions).PublishConfig? ==> AllDone(Exec(s, Before(actions)))))
  }

  predicate Ordered(s: State)
  {
    s.config >= s.checker >= s.rewriter >= s.config - 1
  }

  predicate OrderedThroughout(s: State, actions: seq<Action>)
    requires Runs(s, actions)
    decreases |actions|
  {
    Ordered(Exec(s, actions)) && (actions != [] ==> OrderedThroughout(s, Before(actions)))
  }

  // ---- What holds in every run ----

  /** The timeout and the row cap are read from the configuration, and never before the check. */
  predicate ReadsForward(s: State, q: Query)
  {
    && (q.checked.Some? ==> q.checked.value <= s.config)
    && (q.timeout.Some? ==> q.checked.Some? && q.checked.value <= q.timeout.value <= s.config)
    && (q.maxRows.Some? ==> q.timeout.Some? && q.timeout.value <= q.maxRows.value <= s.config)
  }

  predicate AnyInv(s: State)
  {
    && s.config == |s.publishers|
    && (forall i :: 0 <= i < |s.publishers| ==> s.publishers[i].gen == i + 1)
    && s.checker <= s.config && s.rewriter <= s.config
    && forall q :: 0 <= q < |s.queries| ==> ReadsForward(s, s.queries[q])
  }

  predicate IsRead(a: Action)
  {
    a.ReadChecker? || a.ReadRewriter? || a.ReadTimeout? || a.ReadMaxRows?
  }

  /** The query after one of its reads. */
  function AfterRead(s: State, a: Action): Query
    requires Enabled(s, a) && IsRead(a)
  {
    Next(s, a).queries[a.query]
  }

  lemma ReadSets(s: State, a: Action)
    requires Enabled(s, a) && IsRead(a)
    ensures Next(s, a) == SetQuery(s, a.query, AfterRead(s, a))
  {
  }

  lemma NextKeepsAnyInv(s: State, a: Action)
    requires AnyInv(s) && Enabled(s, a)
    ensures AnyInv(Next(s, a))
  {
    var t := Next(s, a);
    if IsRead(a) {
      assert ReadsForward(s, s.queries[a.query]);
      ReadSets(s, a);
      assert ReadsForward(s, AfterRead(s, a));
    }
    forall q | 0 <= q < |t.queries| ensures ReadsForward(t, t.queries[q]) {
      if q < |s.queries| { assert ReadsForward(s, s.queries[q]); }
    }
  }

  lemma {:induction false} RunKeepsAnyInv(actions: seq<Action>)
    requires Runs(START, actions)
    ensures AnyInv(Exec(START, actions))
    decreases |actions|
  {
    if actions != [] {
      RunKeepsAnyInv(Before(actions));
      NextKeepsAnyInv(Exec(START, Before(actions)), Final(actions));
    }
  }

  /** In every run, overlaps included, a query's timeout and row cap never come from older rules than
      the ones it was checked under. */
  lemma LimitsAreNeverOlderThanTheCheck(actions: seq<Action>, q: nat)
    requires Runs(START, actions) && q < |Exec(START, actions).queries|
    ensures var r := Exec(START, actions).queries[q];
      && (r.timeout.Some? ==> r.checked.Some? && r.checked.value <= r.timeout.value)
      && (r.maxRows.Some? ==> r.checked.Some? && r.checked.value <= r.maxRows.value)
  {
    RunKeepsAnyInv(actions);
    assert ReadsForward(Exec(START, actions), Exec(START, actions).queries[q]);
  }

  // ---- What holds in serial runs, and only there ----

  /** The rewriter is at most one generation behind the check. */
  predicate QueryOk(s: State, q: Query)
  {
    && (q.checked.Some? ==> q.checked.value <= s.checker)
    && (q.rewritten.Some? ==> q.checked.Some? && q.checked.value - 1 <= q.rewritten.value <= s.rewriter)
  }

  predicate PublishersOk(s: State)
  {
    var n := |s.publishers|;
    && s.config == n
    && (forall i :: 0 <= i < n ==> s.publishers[i].gen == i + 1 && (i < n - 1 ==> s.publishers[i].stage.Done?))
    && (n == 0 ==> s.checker == s.rewriter == 0)
    && (n > 0 ==>
         match s.publishers[n - 1].stage
         case ConfigDone => s.checker == s.rewriter == n - 1
         case CheckerDone => s.checker == n && s.rewriter == n - 1
         case Done => s.checker == s.rewriter == n)
  }

  predicate QueriesOk(s: State)
  {
    forall q :: 0 <= q < |s.queries| ==> QueryOk(s, s.queries[q])
  }

  lemma PublishersKept(s: State, a: Action)
    requires PublishersOk(s) && Enabled(s, a) && (a.PublishConfig? ==> AllDone(s))
    ensures PublishersOk(Next(s, a)) && Ordered(Next(s, a))
    ensures Next(s, a).checker >= s.checker && Next(s, a).rewriter >= s.rewriter
  {
  }

  lemma QueriesKept(s: State, a: Action)
    requires QueriesOk(s) && Enabled(s, a) && !IsRead(a)
    requires Next(s, a).checker >= s.checker && Next(s, a).rewriter >= s.rewriter
    ensures QueriesOk(Next(s, a))
  {
    var t := Next(s, a);
    forall q | 0 <= q < |t.queries| ensures QueryOk(t, t.queries[q]) {
      if q < |s.queries| { assert QueryOk(s, s.queries[q]); }
    }
  }

  lemma ReadKept(s: State, a: Action)
    requires PublishersOk(s) && QueriesOk(s) && Enabled(s, a) && IsRead(a)
    ensures QueriesOk(Next(s, a))
  {
    assert QueryOk(s, s.queries[a.query]);
    ReadSets(s, a);
    var t := Next(s, a);
    assert QueryOk(s, AfterRead(s, a));
    forall q | 0 <= q < |t.queries| ensures QueryOk(t, t.queries[q]) {
      assert q != a.query ==> QueryOk(s, s.queries[q]);
    }
  }

  lemma {:induction false} SerialRunKeepsInv(actions: seq<Action>)
    requires Runs(START, actions) && Serial(START, actions)
    ensures var s := Exec(START, actions); PublishersOk(s) && QueriesOk(s)
    decreases |actions|
  {
    if actions != [] {
      var s, a := Exec(START, Before(actions)), Final(actions);
      SerialRunKeepsInv(Before(actions));
      PublishersKept(s, a);
      if IsRead(a) { ReadKept(s, a); } else { QueriesKept(s, a); }
    }
  }

  /** At every step of a run without overlap config >= checker >= rewriter >= config - 1, a query is
      rewritten under rules at most one generation older than it was checked under, and when no call
      is under way all three agree. */
  lemma GenerationsStayOrdered(actions: seq<Action>, q: nat)
    requires Runs(START, actions) && Serial(START, actions)
    ensures var s := Exec(START, actions);
      && Ordered(s)
      && (AllDone(s) ==> s.config == s.checker == s.rewriter)
      && (q < |s.queries| && s.queries[q].rewritten.Some? ==>
            s.queries[q].checked.Some? && s.queries[q].checked.value - 1 <= s.queries[q].rewritten.value)
  {
    SerialRunKeepsInv(actions);
    var s := Exec(START, actions);
    if q < |s.queries| { assert QueryOk(s, s.queries[q]); }
  }

  /** The order holds at every step of a run exactly when no two calls overlap in it. */
  lemma {:induction false} OrderedExactlyWhenSerial(actions: seq<Action>)
    requires Runs(START, actions)
    ensures OrderedThroughout(START, actions) <==> Serial(START, actions)
    decreases |actions|
  {
    if actions != [] {
      var s, a := Exec(START, Before(actions)), Final(actions);
      OrderedExactlyWhenSerial(Before(actions));
      if Serial(START, Before(actions)) {
        SerialRunKeepsInv(Before(actions));
        if a.PublishConfig? && !AllDone(s) {
          assert !Ordered(Next(s, a));
        } else {
          PublishersKept(s, a);
        }
      }
    }
  }

  // ---- Where overlapping calls end ----

  /** How many of its two steps after the first call number `i` has taken. */
  function Taken(actions: seq<Action>, i: nat): nat
  {
    if actions == [] then 0
    else Taken(Before(actions), i) + if Final(actions) == Publish(i) then 1 else 0
  }

  function StageNumber(st: Stage): nat
  {
    match st
    case ConfigDone => 0
    case CheckerDone => 1
    case Done => 2
  }

  lemma {:induction false} TakenIsStage(actions: seq<Action>, i: nat)
    requires Runs(START, actions)
    ensures var s := Exec(START, actions);
      Taken(actions, i) == if i < |s.publishers| then StageNumber(s.publishers[i].stage) else 0
    decreases |actions|
  {
    if actions != [] { TakenIsStage(Before(actions), i); }
  }

  lemma {:induction false} TakenGrows(actions: seq<Action>, p: nat, i: nat)
    requires p <= |actions|
    ensures Taken(actions[..p], i) <= Taken(actions, i)
    decreases |actions|
  {
    if p < |actions| {
      TakenGrows(Before(actions), p, i);
      assert Before(actions)[..p] == actions[..p];
    } else {
      assert actions[..p] == actions;
    }
  }

  /** At position `p` call `i` takes its checker step (0) or its rewriter step (1). */
  predicate TakesAt(actions: seq<Action>, p: nat, i: nat, step: nat)
  {
    p < |actions| && actions[p] == Publish(i) && Taken(actions[..p], i) == step
  }

  /** Some older call takes the step after call `m` has taken it. */
  predicate Overtaken(actions: seq<Action>, m: nat, step: nat)
  {
    exists p, i :: 0 <= p < |actions| && 0 <= i < m && TakesAt(actions, p, i, step) && Taken(actions[..p], m) > step
  }

  lemma OvertakenLater(actions: seq<Action>, m: nat, step: nat)
    requires actions != []
    ensures Overtaken(actions, m, step) <==>
      Overtaken(Before(actions), m, step) ||
      (Taken(Before(actions), m) > step &&
        exists i :: 0 <= i < m && Final(actions) == Publish(i) && Taken(Before(actions), i) == step)
  {
    var n := |actions| - 1;
    assert actions[..n] == Before(actions);
    forall p, i | 0 <= p < n && 0 <= i < m
      ensures TakesAt(actions, p, i, step) == TakesAt(Before(actions), p, i, step)
      ensures actions[..p] == Before(actions)[..p]
    {
      assert actions[..p] == Before(actions)[..p];
    }
    if i :| 0 <= i < m && Final(actions) == Publish(i) && Taken(Before(actions), i) == step {
      assert TakesAt(actions, n, i, step);
    }
  }

  /** The rules of the checker (0) or of the rewriter (1). */
  function Held(s: State, step: nat): nat
  {
    if step == 0 then s.checker else s.rewriter
  }

  lemma NotOvertakenBefore(actions: seq<Action>, m: nat, step: nat)
    requires Taken(actions, m) <= step
    ensures !Overtaken(actions, m, step)
  {
    if p, i :| 0 <= p < |actions| && 0 <= i < m && TakesAt(actions, p, i, step) && Taken(actions[..p], m) > step {
      TakenGrows(actions, p, m);
    }
  }

  /** Once the newest call has taken its step, its rules stay exactly until it is overtaken. */
  lemma {:induction false} NewestHolds(actions: seq<Action>, m: nat, step: nat)
    requires Runs(START, actions) && step < 2 && |Exec(START, actions).publishers| <= m + 1
    ensures Taken(actions, m) > step ==>
      (Held(Exec(START, actions), step) == m + 1 <==> !Overtaken(actions, m, step))
    decreases |actions|
  {
    if actions != [] {
      var init, a := Before(actions), Final(actions);
      var s := Exec(START, init);
      NewestHolds(init, m, step);
      OvertakenLater(actions, m, step);
      RunKeepsAnyInv(init);
      if a.Publish? {
        TakenIsStage(init, a.pub);
        if Taken(init, m) <= step { NotOvertakenBefore(init, m, step); }
      }
    }
  }

  /** When all calls are done, the checker has the newest rules exactly when no older call reached it
      after the newest call did, and the rewriter likewise. */
  lemma EndsAgreeExactlyWhen(actions: seq<Action>)
    requires Runs(START, actions)
    requires var s := Exec(START, actions); AllDone(s) && s.publishers != []
    ensures var s := Exec(START, actions); var newest := |s.publishers| - 1;
      && (s.checker == s.config <==> !Overtaken(actions, newest, 0))
      && (s.rewriter == s.config <==> !Overtaken(actions, newest, 1))
  {
    var newest := |Exec(START, actions).publishers| - 1;
    RunKeepsAnyInv(actions);
    TakenIsStage(actions, newest);
    NewestHolds(actions, newest, 0);
    NewestHolds(actions, newest, 1);
  }

  // ---- Queries between the two steps ----

  /** Without overlap, a query that now reads the rewriter is rewritten under older rules than it was
      checked under exactly when the newest call has reached the checker and not the rewriter, and the
      query was checked after it did. */
  lemma LagsExactlyWhen(actions: seq<Action>, q: nat)
    requires Runs(START, actions) && Serial(START, actions)
    requires Enabled(Exec(START, actions), ReadRewriter(q))
    ensures var s := Exec(START, actions); var r := Next(s, ReadRewriter(q)).queries[q];
      && r.checked.Some? && r.rewritten.Some?
      && (r.rewritten.value < r.checked.value <==>
            s.publishers != [] && s.publishers[|s.publishers| - 1].stage.CheckerDone? && r.checked == Some(s.checker))
  {
    SerialRunKeepsInv(actions);
    LagsAt(Exec(START, actions), q);
  }

  lemma LagsAt(s: State, q: nat)
    requires PublishersOk(s) && QueriesOk(s) && Enabled(s, ReadRewriter(q))
    ensures var r := Next(s, ReadRewriter(q)).queries[q];
      && r.checked.Some? && r.rewritten.Some?
      && (r.rewritten.value < r.checked.value <==>
            s.publishers != [] && s.publishers[|s.publishers| - 1].stage.CheckerDone? && r.checked == Some(s.checker))
  {
    assert QueryOk(s, s.queries[q]);
  }

  // ---- Three runs ----

  /** So the rewriter really can be one generation behind the check. */
  lemma RewriterLagsBehindCheck()
    ensures var s := Next(Next(Next(START, Ask), PublishConfig), Publish(0));
      Next(Next(s, ReadChecker(0)), ReadRewriter(0)).queries == [Query(Some(1), Some(0), None, None)]
  {
  }

  /** Two overlapping calls with nothing left to do can leave both components on the older rules. */
  lemma OverlapLeavesOldRules()
    ensures var both := Next(Next(START, PublishConfig), PublishConfig);
      var end := Next(Next(Next(Next(both, Publish(1)), Publish(1)), Publish(0)), Publish(0));
      AllDone(end) && end.config == 2 && end.checker == end.rewriter == 1
  {
  }

  /** They can also leave the checker on the newer rules and the rewriter on the older ones. */
  lemma OverlapSplitsTheRules()
    ensures var both := Next(Next(START, PublishConfig), PublishConfig);
      var end := Next(Next(Next(Next(both, Publish(0)), Publish(1)), Publish(1)), Publish(0));
      AllDone(end) && end.config == end.checker == 2 && end.rewriter == 1
  {
  }
}
