/** The server object: the configuration, the checker, the rewriter and the pool, and the order in
    which an update reaches them. */
module Server {
  import opened Options
  import opened Sql
  import PoolModel
  import PoolConvergence
  import Pool
  import Policy
  import Rewriter
  import Query

  /** The part of the configuration file that an update of the pool acts on. */
  datatype Config = Config(clusters: map<PoolModel.Name, PoolModel.Config>)

  class ReloadableConfig {
    var config: Config
    var security: Option<SecurityRules>

    constructor (config: Config, security: Option<SecurityRules>)
      ensures this.config == config && this.security == security
    {
      this.config, this.security := config, security;
    }

    method Update(config: Config, security: Option<SecurityRules>)
      modifies this
      ensures this.config == config && this.security == security
    {
      this.config, this.security := config, security;
    }
  }

  /** The rules each component works with. */
  datatype Rules = Rules(config: Option<SecurityRules>, checker: Option<SecurityRules>, rewriter: Option<SecurityRules>)

  /** An update without rules takes them from the configuration only. */
  function Publish(r: Rules, security: Option<SecurityRules>): Rules
  {
    if security.Some? then Rules(security, security, security) else r.(config := None)
  }

  class Handler {
    var config: ReloadableConfig
    var checker: Policy.Checker
    var rewriter: Rewriter.Rewriter

    constructor (config: ReloadableConfig, checker: Policy.Checker, rewriter: Rewriter.Rewriter)
      ensures this.config == config && this.checker == checker && this.rewriter == rewriter
    {
      this.config, this.checker, this.rewriter := config, checker, rewriter;
    }

    function Published(): Rules
      reads this, config, checker, rewriter
    {
      Rules(config.security, checker.rules, rewriter.rules)
    }

    method UpdateSecurityRules(rules: Option<SecurityRules>)
      modifies checker, rewriter
      ensures checker.rules == rules && rewriter.rules == rules
    {
      checker.UpdateRules(rules);
      rewriter.UpdateRules(rules);
    }

    /** What `executeQuery` does before it executes: check, and rewrite if the check asks for it. */
    method CheckAndRewrite(p: ParsedSQL) returns (sql: Option<string>)
      ensures sql == Query.Executed(checker.rules, rewriter.rules, p)
      ensures checker.rules.None? ==> (sql.Some? <==> !p.kind.Other?)
      ensures checker.rules.Some? ==> (sql.Some? <==> Query.Permitted(checker.rules.value, p.kind))
      ensures sql.Some? && (!(p.kind.Update? || p.kind.Delete?) || p.hasWhere) ==> sql == Some(p.original)
    {
      Query.RunsExactlyWhen(checker.rules, rewriter.rules, p);
      var check := checker.CheckStatement(Some(p));
      if !check.allowed {
        return None;
      }
      sql := Some(p.original);
      if check.autoRewrite {
        var rewritten := rewriter.Rewrite(Some(p));
        sql := Some(rewritten.sql);
      }
    }
  }

  lemma InitialClusters(cfg: map<PoolModel.Name, PoolModel.Config>, order: seq<PoolModel.Name>)
    requires PoolModel.InitialOrder(cfg, order)
    ensures PoolModel.Initial(cfg, order).configs == cfg && PoolModel.Initial(cfg, order).clusters.Keys == cfg.Keys
  {
    PoolModel.BindIs(map[], order, 0);
  }

  class Server {
    var cfg: ReloadableConfig
    var handler: Handler
    var pool: Pool.Pool

    constructor (cfg: ReloadableConfig, handler: Handler, pool: Pool.Pool)
      ensures this.cfg == cfg && this.handler == handler && this.pool == pool
    {
      this.cfg, this.handler, this.pool := cfg, handler, pool;
    }

    /** No update is in progress, and every database ever opened is in the pool or closed. */
    ghost predicate Valid()
      reads this, handler, pool
    {
      handler.config == cfg && Pool.Quiet(pool.View())
    }

    /** A new server's components all start from the rules of its configuration. */
    static method New(cfg: ReloadableConfig, reachable: set<PoolModel.Name>) returns (s: Server?)
      ensures s != null <==> cfg.config.clusters.Keys <= reachable
      ensures s != null ==> fresh(s) && s.Valid() && s.cfg == cfg
      ensures s != null ==> s.handler.Published() == Rules(cfg.security, cfg.security, cfg.security)
      ensures s != null ==> s.pool.configs == cfg.config.clusters && s.pool.clusters.Keys == cfg.config.clusters.Keys
    {
      var pool, order, dropped := Pool.Pool.NewPool(cfg.config.clusters, reachable);
      if pool == null {
        return null;
      }
      InitialClusters(cfg.config.clusters, order);
      var checker := new Policy.Checker(cfg.security);
      var rewriter := new Rewriter.Rewriter(cfg.security);
      var handler := new Handler(cfg, checker, rewriter);
      s := new Server(cfg, handler, pool);
    }

    /** One whole update: the configuration, then the checker and the rewriter if there are rules,
        then the pool. */
    method UpdateConfig(config: Config, security: Option<SecurityRules>, reachable: set<PoolModel.Name>)
      requires Valid()
      modifies cfg, handler.checker, handler.rewriter, pool
      ensures Valid()
      ensures cfg.config == config
      ensures handler.Published() == Publish(old(handler.Published()), security)
      ensures cfg.security == security
      ensures security.Some? ==> handler.checker.rules == security && handler.rewriter.rules == security
      ensures security.None? ==>
        handler.checker.rules == old(handler.checker.rules) && handler.rewriter.rules == old(handler.rewriter.rules)
      ensures handler.config == cfg && handler == old(handler) && cfg == old(cfg) && pool == old(pool)
      ensures pool.configs == config.clusters
      ensures config.clusters.Keys <= reachable ==>
        pool.clusters.Keys == config.clusters.Keys - PoolConvergence.Changed(old(pool.View()), config.clusters)
    {
      cfg.Update(config, security);
      if security.Some? {
        handler.UpdateSecurityRules(security);
      }
      ghost var added, steps := pool.UpdateConfig(config.clusters, reachable);
    }
  }

  // ---- Over any number of updates ----

  function PublishAll(r: Rules, updates: seq<Option<SecurityRules>>): Rules
  {
    if updates == [] then r
    else Publish(PublishAll(r, updates[..|updates| - 1]), updates[|updates| - 1])
  }

  predicate NoRules(updates: seq<Option<SecurityRules>>)
  {
    forall i :: 0 <= i < |updates| ==> updates[i].None?
  }

  /** `rules` are those of the last update that had any, or `start` if none had. */
  predicate LastRules(start: Option<SecurityRules>, updates: seq<Option<SecurityRules>>, rules: Option<SecurityRules>)
  {
    || (NoRules(updates) && rules == start)
    || exists i :: 0 <= i < |updates| && updates[i].Some? && NoRules(updates[i + 1..]) && rules == updates[i]
  }

  lemma LastRulesLater(start: Option<SecurityRules>, updates: seq<Option<SecurityRules>>, rules: Option<SecurityRules>)
    requires updates != [] && updates[|updates| - 1].None?
    requires LastRules(start, updates[..|updates| - 1], rules)
    ensures LastRules(start, updates, rules)
  {
    var before := updates[..|updates| - 1];
    if i :| 0 <= i < |before| && before[i].Some? && NoRules(before[i + 1..]) && rules == before[i] {
      assert updates[i + 1..] == before[i + 1..] + [updates[|updates| - 1]];
      assert updates[i] == before[i];
    }
  }

  /** After any sequence of whole updates of a server that started with `start`, the checker and the
      rewriter hold the rules of the last update that had any, and the configuration holds those of
      the last update, or none if it had none. */
  lemma {:induction false} RulesAfterUpdates(start: Option<SecurityRules>, updates: seq<Option<SecurityRules>>)
    ensures var r := PublishAll(Rules(start, start, start), updates);
      && LastRules(start, updates, r.checker) && LastRules(start, updates, r.rewriter)
      && r.config == if updates == [] then start else updates[|updates| - 1]
  {
    if updates != [] {
      var n := |updates| - 1;
      var r := PublishAll(Rules(start, start, start), updates[..n]);
      RulesAfterUpdates(start, updates[..n]);
      if updates[n].None? {
        LastRulesLater(start, updates, r.checker);
        LastRulesLater(start, updates, r.rewriter);
      } else {
        assert updates[n + 1..] == [];
      }
    }
  }

  /** After any sequence of whole updates of a server that started with `start`, the checker and
      the rewriter hold the same rules; the configuration holds those too exactly when the last
      update had rules or there never were any to lose. */
  lemma {:induction false} RulesAgreeExactlyWhen(start: Option<SecurityRules>, updates: seq<Option<SecurityRules>>)
    ensures var r := PublishAll(Rules(start, start, start), updates);
      && r.checker == r.rewriter
      && (r.config == r.checker <==>
            updates == [] || updates[|updates| - 1].Some? || (start.None? && NoRules(updates)))
      && (r.checker.None? <==> start.None? && NoRules(updates))
  {
    if updates != [] {
      var n := |updates| - 1;
      RulesAgreeExactlyWhen(start, updates[..n]);
      assert NoRules(updates) <==> NoRules(updates[..n]) && updates[n].None?;
    }
  }
}
