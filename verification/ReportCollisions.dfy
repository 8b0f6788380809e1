/**
 What happens without distinct aliases. For a runner who sees every entity a dataset crosses, the
 compiled joins read every leaf where its walk ends, on every database, exactly when no two
 prefixes of the kept paths share an alias.
 */
module ReportCollisions {
  import opened Common
  import opened Paths
  import opened Reports

  // ===== any join list gives one row per base row =====

  /** The row a join finds for one joined row: the referenced one, if it passes the ON clause. */
  function Match(w: World, tables: map<string, string>, j: Join, env: Env): Option<Uuid> {
    var row := if j.parent in env then env[j.parent] else None;
    var table := if j.parent in tables then tables[j.parent] else "";
    var reference := ReadRef(w.db, table, row, j.fk);
    if reference.Some? && OnClause(w.db, w.who, w.tenant, j, reference, reference.value) then reference else None
  }

  function Tables(w: World, joins: seq<Join>, n: nat): map<string, string>
    requires n <= |joins|
  {
    TablesOf(TableAt(w, []), joins, n)
  }

  /** The joined row after `n` joins. */
  function EnvAfter(w: World, joins: seq<Join>, n: nat): Env
    requires n <= |joins|
  {
    if n == 0 then map[BASE := Some(w.row)]
    else
      var env := EnvAfter(w, joins, n - 1);
      env[joins[n - 1].alias := Match(w, Tables(w, joins, n - 1), joins[n - 1], env)]
  }

  lemma OneMatch(w: World, tables: map<string, string>, j: Join, env: Env)
    ensures LeftJoin(w.db, w.who, w.tenant, tables, j, env) == {env[j.alias := Match(w, tables, j, env)]}
  {
    var row := if j.parent in env then env[j.parent] else None;
    var table := if j.parent in tables then tables[j.parent] else "";
    var reference := ReadRef(w.db, table, row, j.fk);
    var matches := set id | id in Rows(w.db, j.table) && OnClause(w.db, w.who, w.tenant, j, reference, id);
    var found := Match(w, tables, j, env);
    assert matches == if found.Some? then {found.value} else {};
  }

  /** A join on a primary key finds at most one row, and a LEFT JOIN keeps the row without one. */
  lemma {:induction false} OneRowEach(w: World, joins: seq<Join>, n: nat)
    requires n <= |joins|
    ensures RunJoins(w.db, w.who, w.tenant, TableAt(w, []), joins, n, w.row) == {EnvAfter(w, joins, n)}
  {
    if n > 0 {
      OneRowEach(w, joins, n - 1);
      OneRowNext(w, joins, n - 1);
    }
  }

  lemma OneRowNext(w: World, joins: seq<Join>, n: nat)
    requires n < |joins|
    requires RunJoins(w.db, w.who, w.tenant, TableAt(w, []), joins, n, w.row) == {EnvAfter(w, joins, n)}
    ensures RunJoins(w.db, w.who, w.tenant, TableAt(w, []), joins, n + 1, w.row) == {EnvAfter(w, joins, n + 1)}
  {
    var env, tables := EnvAfter(w, joins, n), Tables(w, joins, n);
    var next := env[joins[n].alias := Match(w, tables, joins[n], env)];
    OneMatch(w, tables, joins[n], env);
    RunJoinsNext(w.db, w.who, w.tenant, TableAt(w, []), joins, n, w.row, env, next);
  }

  lemma LeafRead(w: World, joins: seq<Join>, segs: seq<string>)
    requires segs != []
    ensures var env := EnvAfter(w, joins, |joins|);
      LeafAtWalk(w, joins, segs) <==> (LeafAlias(segs) in env && env[LeafAlias(segs)] == Walk(w, segs[..|segs| - 1]))
  {
    OneRowEach(w, joins, |joins|);
    var env := EnvAfter(w, joins, |joins|);
    if LeafAtWalk(w, joins, segs) {
      var e :| RunJoins(w.db, w.who, w.tenant, TableAt(w, []), joins, |joins|, w.row) == {e}
        && LeafAlias(segs) in e && e[LeafAlias(segs)] == Walk(w, segs[..|segs| - 1]);
      assert e in {env};
    }
  }

  // ===== the merged joins, whatever the aliases =====

  lemma MergeOneListed(schema: Schema, base: string, joins: seq<Join>, hops: seq<Hop>, ps: seq<seq<string>>,
                       p: seq<string>, join: Join, hop: Hop)
    returns (ps': seq<seq<string>>)
    requires Listed(schema, base, joins, hops, ps) && IsJoinOf(schema, base, p, join, hop)
    ensures Listed(schema, base, if HasAlias(joins, join.alias) then joins else joins + [join],
                   if HasHop(hops, hop.alias) then hops else hops + [hop], ps')
    ensures forall q :: q in ps' ==> q in ps || q == p
  {
    KnownAlias(schema, base, joins, hops, ps, Alias(p));
    ps' := if HasAlias(joins, Alias(p)) then ps else ps + [p];
  }

  lemma {:induction false} MergeListed(
      schema: Schema, base: string, joins: seq<Join>, hops: seq<Hop>, ps: seq<seq<string>>,
      segs: seq<string>, more: seq<Join>, moreHops: seq<Hop>, n: nat)
    returns (ps': seq<seq<string>>)
    requires Listed(schema, base, joins, hops, ps) && n < |segs|
    requires PathJoins(schema, base, segs, |segs| - 1, more, moreHops)
    ensures Listed(schema, base, MergedJoins(joins, more, n), MergedHops(hops, moreHops, n), ps')
    ensures forall p :: p in ps' ==> p in ps || p in PrefixesOf(segs)
  {
    if n == 0 {
      ps' := ps;
    } else {
      var qs := MergeListed(schema, base, joins, hops, ps, segs, more, moreHops, n - 1);
      JoinOfPrefix(schema, base, segs, more, moreHops, n);
      ps' := MergeOneListed(schema, base, MergedJoins(joins, more, n - 1), MergedHops(hops, moreHops, n - 1), qs,
                            segs[..n], more[n - 1], moreHops[n - 1]);
    }
  }

  lemma {:induction false} PlannedListed(
      schema: Schema, base: string, paths: seq<seq<string>>)
    returns (ps: seq<seq<string>>)
    requires AllCrossable(schema, base, paths)
    ensures Listed(schema, base, PlannedJoins(schema, base, paths), PlannedHops(schema, base, paths), ps)
    ensures forall p :: p in ps ==> p in PrefixesOfAll(paths)
    decreases |paths|
  {
    if paths == [] {
      ps := [];
    } else {
      var front, last := paths[..|paths| - 1], paths[|paths| - 1];
      var qs := PlannedListed(schema, base, front);
      JoinsOfPath(schema, base, last);
      ps := MergeListed(schema, base, PlannedJoins(schema, base, front), PlannedHops(schema, base, front), qs,
                        last, JoinsOf(schema, base, last), HopsOf(schema, base, last), |last| - 1);
      PrefixesSplit(paths);
    }
  }

  /** The runner sees every row of every entity the paths cross. */
  ghost predicate SeesAll(schema: Schema, who: Identity, base: string, prefixes: set<seq<string>>) {
    forall p :: p in prefixes ==> Traversable(schema, base, p) && EntityAt(schema, base, p).value in who.broad
  }

  lemma {:induction false} NothingToGuard(joins: seq<Join>, hops: seq<Hop>, who: Identity)
    requires forall i :: 0 <= i < |hops| ==> hops[i].entity in who.broad
    ensures Guarded(joins, hops, who) == joins
    decreases |hops|
  {
    if hops != [] {
      assert GuardedBy(joins, hops[0], who) == joins;
      NothingToGuard(joins, hops[1..], who);
    }
  }

  lemma FrontAndLast<T>(p: seq<T>)
    requires p != []
    ensures p[..|p| - 1] + [p[|p| - 1]] == p
  {
  }

  lemma FrontTaken<T>(p: seq<T>, k: nat)
    requires k <= |p|
    ensures k == |p| ==> p[..k] == p
    ensures k < |p| ==> p[..|p| - 1][..k] == p[..k]
  {
  }

  // ===== a database shaped like the prefixes =====

  /** A number for each of finitely many prefixes. */
  ghost function Numbered(ps: set<seq<string>>): (m: map<seq<string>, Uuid>)
    ensures m.Keys == ps
    ensures forall p :: p in m ==> m[p] <= |ps|
    ensures forall p, q :: p in m && q in m && m[p] == m[q] ==> p == q
  {
    if ps == {} then map[]
    else
      var p :| p in ps;
      Numbered(ps - {p})[p := |ps|]
  }

  /** Closed under dropping the last segment. */
  ghost predicate Tree(nodes: set<seq<string>>) {
    [] in nodes && forall p :: p in nodes && p != [] ==> p[..|p| - 1] in nodes
  }

  ghost function Children(nodes: set<seq<string>>, p: seq<string>): set<string> {
    set q | q in nodes && q != [] && q[..|q| - 1] == p :: q[|q| - 1]
  }

  lemma ChildIsNode(nodes: set<seq<string>>, p: seq<string>, s: string)
    ensures s in Children(nodes, p) <==> p + [s] in nodes
  {
    if p + [s] in nodes {
      assert (p + [s])[..|p|] == p;
    }
    if s in Children(nodes, p) {
      var q :| q in nodes && q != [] && q[..|q| - 1] == p && q[|q| - 1] == s;
      assert q == p + [s];
    }
  }

  /** Numbers that tell the nodes apart. */
  ghost predicate Codes(nodes: set<seq<string>>, code: map<seq<string>, Uuid>) {
    code.Keys == nodes && forall p, q :: p in code && q in code && code[p] == code[q] ==> p == q
  }

  /** The row of a node: a reference to the row of each child. */
  ghost function NodeRow(nodes: set<seq<string>>, code: map<seq<string>, Uuid>, p: seq<string>): Record
    requires Codes(nodes, code)
  {
    Record(0, map s | s in Children(nodes, p) :: (ChildIsNode(nodes, p, s); Some(code[p + [s]])), map[], map[])
  }

  ghost function TableName(schema: Schema, base: string, p: seq<string>): string {
    var entity := EntityAt(schema, base, p);
    if entity.Some? && entity.value in schema then schema[entity.value].table else ""
  }

  ghost function TreeRows(
      schema: Schema, base: string, nodes: set<seq<string>>, code: map<seq<string>, Uuid>, table: string)
    : map<Uuid, Record>
    requires Codes(nodes, code)
  {
    map p | p in nodes && TableName(schema, base, p) == table :: code[p] := NodeRow(nodes, code, p)
  }

  /** A world whose rows are those of the nodes, its base row that of the root. */
  ghost predicate Shaped(w: World, nodes: set<seq<string>>, code: map<seq<string>, Uuid>) {
    && Tree(nodes) && Codes(nodes, code)
    && w.row == code[[]] && w.tenant == 0
    && forall t :: Rows(w.db, t) == TreeRows(w.schema, w.base, nodes, code, t)
  }

  /** Such a world: from one base row every prefix leads to a row of its own. */
  lemma TreeWorld(schema: Schema, who: Identity, base: string, nodes: set<seq<string>>)
    returns (w: World, code: map<seq<string>, Uuid>)
    requires Tree(nodes)
    ensures w == World(schema, w.db, who, base, w.row, w.tenant) && Shaped(w, nodes, code)
  {
    code := Numbered(nodes);
    var db := map t | t in (set p | p in nodes :: TableName(schema, base, p)) :: TreeRows(schema, base, nodes, code, t);
    w := World(schema, db, who, base, code[[]], 0);
    forall t
      ensures Rows(db, t) == TreeRows(schema, base, nodes, code, t)
    {
      if t !in db {
        assert TreeRows(schema, base, nodes, code, t) == map[];
      }
    }
  }

  lemma RowOfNode(w: World, nodes: set<seq<string>>, code: map<seq<string>, Uuid>, p: seq<string>)
    requires Shaped(w, nodes, code) && p in nodes
    ensures code[p] in Rows(w.db, TableAt(w, p)) && Rows(w.db, TableAt(w, p))[code[p]] == NodeRow(nodes, code, p)
  {
    assert Rows(w.db, TableAt(w, p)) == TreeRows(w.schema, w.base, nodes, code, TableAt(w, p));
  }

  lemma NodeOfRow(w: World, nodes: set<seq<string>>, code: map<seq<string>, Uuid>, p: seq<string>, table: string)
    requires Shaped(w, nodes, code) && p in nodes && code[p] in Rows(w.db, table)
    ensures TableAt(w, p) == table
  {
    assert Rows(w.db, table) == TreeRows(w.schema, w.base, nodes, code, table);
    var q :| q in nodes && TableName(w.schema, w.base, q) == table && code[q] == code[p];
  }

  /** `alias.fk` of a node's row is the child's row, if there is such a child. */
  lemma TreeRef(w: World, nodes: set<seq<string>>, code: map<seq<string>, Uuid>, p: seq<string>, fk: string)
    requires Shaped(w, nodes, code) && p in nodes
    ensures ReadRef(w.db, TableAt(w, p), Some(code[p]), fk) == if p + [fk] in nodes then Some(code[p + [fk]]) else None
  {
    RowOfNode(w, nodes, code, p);
    ChildIsNode(nodes, p, fk);
  }

  /** Every prefix walks to its own row. */
  lemma {:induction false} TreeWalk(w: World, nodes: set<seq<string>>, code: map<seq<string>, Uuid>, p: seq<string>)
    requires Shaped(w, nodes, code) && p in nodes && SeesAll(w.schema, w.who, w.base, nodes - {[]})
    ensures Walk(w, p) == Some(code[p])
    decreases |p|
  {
    if p != [] {
      var parent := p[..|p| - 1];
      TreeWalk(w, nodes, code, parent);
      TreeStep(w, nodes, code, parent, p);
    }
  }

  lemma TreeStep(w: World, nodes: set<seq<string>>, code: map<seq<string>, Uuid>, parent: seq<string>, p: seq<string>)
    requires Shaped(w, nodes, code) && p in nodes && p != [] && parent == p[..|p| - 1] && parent in nodes
    requires Walk(w, parent) == Some(code[parent])
    requires Traversable(w.schema, w.base, p) && EntityAt(w.schema, w.base, p).value in w.who.broad
    ensures Walk(w, p) == Some(code[p])
  {
    TreeRef(w, nodes, code, parent, p[|p| - 1]);
    FrontAndLast(p);
    RowOfNode(w, nodes, code, p);
    WalkStep(w, p, code[parent], code[p]);
  }

  lemma WalkStep(w: World, p: seq<string>, above: Uuid, id: Uuid)
    requires p != [] && Walk(w, p[..|p| - 1]) == Some(above)
    requires ReadRef(w.db, TableAt(w, p[..|p| - 1]), Some(above), p[|p| - 1]) == Some(id)
    requires id in Rows(w.db, TableAt(w, p)) && Rows(w.db, TableAt(w, p))[id].tenant == w.tenant
    requires EntityAt(w.schema, w.base, p).Some? && EntityAt(w.schema, w.base, p).value in w.who.broad
    ensures Walk(w, p) == Some(id)
  {
  }

  // ===== reading right at a leaf means reading right all the way =====

  /** `id` is the row of node `x`, of table `table`; only the base alias holds the root. */
  ghost predicate IsNode(
      w: World, nodes: set<seq<string>>, code: map<seq<string>, Uuid>, alias: string, table: string, id: Uuid,
      x: seq<string>)
  {
    x in nodes && x in code && code[x] == id && TableAt(w, x) == table && (alias == BASE <==> x == [])
  }

  /** What a joined row holds under an alias is nothing, or the row of a node in the alias's table. */
  ghost predicate HoldsNode(
      w: World, nodes: set<seq<string>>, code: map<seq<string>, Uuid>, env: Env, tables: map<string, string>,
      alias: string)
  {
    alias in env && env[alias].Some? ==>
      alias in tables && exists x :: IsNode(w, nodes, code, alias, tables[alias], env[alias].value, x)
  }

  /** A match is the child, by the join's column, of the node under the parent alias. */
  lemma MatchIsChild(
      w: World, nodes: set<seq<string>>, code: map<seq<string>, Uuid>, tables: map<string, string>, j: Join, env: Env)
    returns (x: seq<string>)
    requires Shaped(w, nodes, code) && Match(w, tables, j, env).Some?
    requires HoldsNode(w, nodes, code, env, tables, j.parent)
    ensures x in nodes && x + [j.fk] in nodes
    ensures j.parent in env && env[j.parent] == Some(code[x]) && (j.parent == BASE <==> x == [])
    ensures Match(w, tables, j, env) == Some(code[x + [j.fk]]) && TableAt(w, x + [j.fk]) == j.table
  {
    x :| IsNode(w, nodes, code, j.parent, tables[j.parent], env[j.parent].value, x);
    TreeRef(w, nodes, code, x, j.fk);
    NodeOfRow(w, nodes, code, x + [j.fk], j.table);
  }

  ghost predicate NoneBase(joins: seq<Join>) {
    forall i :: 0 <= i < |joins| ==> joins[i].alias != BASE
  }

  /** Each alias holds nothing, or a node's row. */
  ghost predicate HoldsNodes(
      w: World, nodes: set<seq<string>>, code: map<seq<string>, Uuid>, env: Env, tables: map<string, string>)
  {
    forall alias :: HoldsNode(w, nodes, code, env, tables, alias)
  }

  lemma {:induction false} AlwaysNodes(
      w: World, nodes: set<seq<string>>, code: map<seq<string>, Uuid>, joins: seq<Join>, n: nat)
    requires Shaped(w, nodes, code) && n <= |joins| && NoneBase(joins)
    ensures HoldsNodes(w, nodes, code, EnvAfter(w, joins, n), Tables(w, joins, n))
  {
    if n == 0 {
      RootHeld(w, nodes, code, joins);
    } else {
      AlwaysNodes(w, nodes, code, joins, n - 1);
      OneMoreJoin(w, nodes, code, joins, n);
    }
  }

  lemma RootHeld(w: World, nodes: set<seq<string>>, code: map<seq<string>, Uuid>, joins: seq<Join>)
    requires Shaped(w, nodes, code)
    ensures HoldsNodes(w, nodes, code, EnvAfter(w, joins, 0), Tables(w, joins, 0))
  {
    assert IsNode(w, nodes, code, BASE, TableAt(w, []), w.row, []);
  }

  lemma OneMoreJoin(w: World, nodes: set<seq<string>>, code: map<seq<string>, Uuid>, joins: seq<Join>, n: nat)
    requires Shaped(w, nodes, code) && 1 <= n <= |joins| && NoneBase(joins)
    requires HoldsNodes(w, nodes, code, EnvAfter(w, joins, n - 1), Tables(w, joins, n - 1))
    ensures HoldsNodes(w, nodes, code, EnvAfter(w, joins, n), Tables(w, joins, n))
  {
    NodesNext(w, nodes, code, joins[n - 1], EnvAfter(w, joins, n - 1), Tables(w, joins, n - 1));
  }

  lemma NodesNext(
      w: World, nodes: set<seq<string>>, code: map<seq<string>, Uuid>, j: Join, env: Env, tables: map<string, string>)
    requires Shaped(w, nodes, code) && j.alias != BASE && HoldsNodes(w, nodes, code, env, tables)
    ensures HoldsNodes(w, nodes, code, env[j.alias := Match(w, tables, j, env)], tables[j.alias := j.table])
  {
    var env', tables' := env[j.alias := Match(w, tables, j, env)], tables[j.alias := j.table];
    forall alias
      ensures HoldsNode(w, nodes, code, env', tables', alias)
    {
      if alias == j.alias {
        NewNode(w, nodes, code, j, env, tables);
      } else {
        OtherNode(w, nodes, code, j, env, tables, alias);
      }
    }
  }

  lemma OtherNode(
      w: World, nodes: set<seq<string>>, code: map<seq<string>, Uuid>, j: Join, env: Env, tables: map<string, string>,
      alias: string)
    requires HoldsNode(w, nodes, code, env, tables, alias) && alias != j.alias
    ensures HoldsNode(w, nodes, code, env[j.alias := Match(w, tables, j, env)], tables[j.alias := j.table], alias)
  {
    if alias in env && env[alias].Some? {
      var x :| IsNode(w, nodes, code, alias, tables[alias], env[alias].value, x);
      var tables' := tables[j.alias := j.table];
      assert tables'[alias] == tables[alias];
      assert IsNode(w, nodes, code, alias, tables'[alias], env[alias].value, x);
    }
  }

  /** A join adds a node, or nothing, under its alias. */
  lemma NewNode(
      w: World, nodes: set<seq<string>>, code: map<seq<string>, Uuid>, j: Join, env: Env, tables: map<string, string>)
    requires Shaped(w, nodes, code) && j.alias != BASE && HoldsNode(w, nodes, code, env, tables, j.parent)
    ensures HoldsNode(w, nodes, code, env[j.alias := Match(w, tables, j, env)], tables[j.alias := j.table], j.alias)
  {
    if Match(w, tables, j, env).Some? {
      var x := MatchIsChild(w, nodes, code, tables, j, env);
      assert IsNode(w, nodes, code, j.alias, j.table, code[x + [j.fk]], x + [j.fk]);
    }
  }

  /** An alias is bound once: by the base row or by the join that has it. */
  lemma {:induction false} BoundOnce(w: World, joins: seq<Join>, n: nat, m: nat, alias: string)
    requires n <= m <= |joins| && alias in EnvAfter(w, joins, n)
    requires forall i, j :: 0 <= i < j < |joins| ==> joins[i].alias != joins[j].alias
    requires forall i :: 0 <= i < |joins| ==> joins[i].alias != BASE
    ensures alias in EnvAfter(w, joins, m) && EnvAfter(w, joins, m)[alias] == EnvAfter(w, joins, n)[alias]
    decreases m
  {
    if n < m {
      BoundOnce(w, joins, n, m - 1, alias);
      BoundBy(w, joins, n, alias);
    }
  }

  lemma {:induction false} BoundBy(w: World, joins: seq<Join>, n: nat, alias: string)
    requires n <= |joins| && alias in EnvAfter(w, joins, n)
    ensures alias == BASE || exists i :: 0 <= i < n && joins[i].alias == alias
  {
    if n > 0 && alias != joins[n - 1].alias {
      BoundBy(w, joins, n - 1, alias);
    }
  }

  /** Aliases of one last segment agree up to it. */
  lemma SameParents(p: seq<string>, q: seq<string>)
    requires |p| > 1 && |q| > 1 && p[|p| - 1] == q[|q| - 1] && Alias(p) == Alias(q)
    ensures Alias(p[..|p| - 1]) == Alias(q[..|q| - 1])
  {
    var tail := "_" + Sanitized(p[|p| - 1]);
    var a, b := Underscored(p[..|p| - 1]), Underscored(q[..|q| - 1]);
    assert Alias(p)[2..] == Underscored(p) && Alias(q)[2..] == Underscored(q);
    assert Underscored(p) == a + tail && Underscored(q) == b + tail by {
      assert a + "_" + Sanitized(p[|p| - 1]) == a + tail && b + "_" + Sanitized(q[|q| - 1]) == b + tail;
    }
    assert |a| == |b|;
    assert (a + tail)[..|a|] == a && (b + tail)[..|b|] == b;
  }

  /** The joins of a plan or of colliding prefixes alike: one per alias, each of some prefix. */
  ghost predicate JoinsListed(schema: Schema, base: string, joins: seq<Join>, ps: seq<seq<string>>) {
    && |joins| == |ps| && AliasesDiffer(ps)
    && forall i :: 0 <= i < |ps| ==> Traversable(schema, base, ps[i]) && joins[i] == JoinOf(schema, base, ps[i])
  }

  lemma AliasFacts(schema: Schema, base: string, joins: seq<Join>, ps: seq<seq<string>>)
    requires JoinsListed(schema, base, joins, ps)
    ensures forall i, j :: 0 <= i < j < |joins| ==> joins[i].alias != joins[j].alias
    ensures forall i :: 0 <= i < |joins| ==> joins[i].alias == Alias(ps[i]) && joins[i].alias != BASE
  {
    forall i | 0 <= i < |joins|
      ensures joins[i].alias == Alias(ps[i]) && joins[i].alias != BASE
    {
      assert Alias(ps[i])[0] != BASE[0];
    }
  }

  /** After all joins the row of prefix `p` stands under its alias. */
  ghost predicate ReadsRight(w: World, code: map<seq<string>, Uuid>, joins: seq<Join>, alias: string, p: seq<string>) {
    var env := EnvAfter(w, joins, |joins|);
    alias in env && p in code && env[alias] == Some(code[p])
  }

  /** Where a prefix is read right, so is the prefix one shorter. */
  lemma RightAbove(
      w: World, nodes: set<seq<string>>, code: map<seq<string>, Uuid>, joins: seq<Join>, ps: seq<seq<string>>,
      p: seq<string>)
    requires Shaped(w, nodes, code) && JoinsListed(w.schema, w.base, joins, ps) && p in nodes && p != []
    requires ReadsRight(w, code, joins, Alias(p), p)
    ensures ReadsRight(w, code, joins, ParentAlias(p), p[..|p| - 1])
  {
    AliasFacts(w.schema, w.base, joins, ps);
    assert Alias(p)[0] != BASE[0];
    var i := BindingJoin(w, joins, Alias(p));
    AlwaysNodes(w, nodes, code, joins, i);
    assert HoldsNode(w, nodes, code, EnvAfter(w, joins, i), Tables(w, joins, i), joins[i].parent);
    var x := MatchIsChild(w, nodes, code, Tables(w, joins, i), joins[i], EnvAfter(w, joins, i));
    BoundOnce(w, joins, i, |joins|, joins[i].parent);
    assert x + [joins[i].fk] == p;
    ParentOfMatch(w, code, joins, ps, i, p, x);
  }

  /** The join an alias comes from: what it matched is what the alias ends up with. */
  lemma BindingJoin(w: World, joins: seq<Join>, alias: string) returns (i: nat)
    requires alias in EnvAfter(w, joins, |joins|) && alias != BASE && NoneBase(joins)
    requires forall i, j :: 0 <= i < j < |joins| ==> joins[i].alias != joins[j].alias
    ensures i < |joins| && joins[i].alias == alias
    ensures EnvAfter(w, joins, |joins|)[alias] == Match(w, Tables(w, joins, i), joins[i], EnvAfter(w, joins, i))
  {
    BoundBy(w, joins, |joins|, alias);
    i :| 0 <= i < |joins| && joins[i].alias == alias;
    BoundOnce(w, joins, i + 1, |joins|, alias);
  }

  lemma ParentOfMatch(
      w: World, code: map<seq<string>, Uuid>, joins: seq<Join>, ps: seq<seq<string>>, i: nat, p: seq<string>,
      x: seq<string>)
    requires JoinsListed(w.schema, w.base, joins, ps) && i < |joins| && p != []
    requires Alias(ps[i]) == Alias(p) && x + [joins[i].fk] == p && (joins[i].parent == BASE <==> x == [])
    requires ReadsRight(w, code, joins, joins[i].parent, x)
    ensures ReadsRight(w, code, joins, ParentAlias(p), p[..|p| - 1])
  {
    assert x == p[..|p| - 1] && p[|p| - 1] == joins[i].fk;
    ParentAliasAgrees(p, ps[i], x == []);
  }

  /** Whose parent is the base row is one segment long; otherwise the parents share an alias. */
  lemma ParentAliasAgrees(p: seq<string>, r: seq<string>, fromBase: bool)
    requires p != [] && r != [] && Alias(p) == Alias(r) && p[|p| - 1] == r[|r| - 1]
    requires fromBase <==> |p| == 1
    requires fromBase <==> ParentAlias(r) == BASE
    ensures ParentAlias(r) == ParentAlias(p)
  {
    if |r| > 1 {
      assert Alias(r[..|r| - 1])[0] != BASE[0];
      SameParents(p, r);
    }
  }

  lemma {:induction false} RightAllTheWay(
      w: World, nodes: set<seq<string>>, code: map<seq<string>, Uuid>, joins: seq<Join>, ps: seq<seq<string>>,
        p: seq<string>, k: nat)
    requires Shaped(w, nodes, code) && JoinsListed(w.schema, w.base, joins, ps) && p in nodes && 1 <= k <= |p|
    requires ReadsRight(w, code, joins, Alias(p), p)
    ensures ReadsRight(w, code, joins, Alias(p[..k]), p[..k])
    decreases |p|
  {
    FrontTaken(p, k);
    if k < |p| {
      RightAbove(w, nodes, code, joins, ps, p);
      RightAllTheWay(w, nodes, code, joins, ps, p[..|p| - 1], k);
    }
  }

  // ===== the converse =====

  lemma PrefixTree(schema: Schema, base: string, paths: seq<seq<string>>)
    requires AllCrossable(schema, base, paths)
    ensures Tree(PrefixesOfAll(paths) + {[]}) && PrefixesOfAll(paths) + {[]} - {[]} == PrefixesOfAll(paths)
  {
    forall p | p in PrefixesOfAll(paths)
      ensures p != [] && p[..|p| - 1] in PrefixesOfAll(paths) + {[]}
    {
      var i :| 0 <= i < |paths| && p in PrefixesOf(paths[i]);
      var k :| 1 <= k < |paths[i]| && p == paths[i][..k];
      if k > 1 {
        assert p[..|p| - 1] == paths[i][..k - 1];
        assert paths[i][..k - 1] in PrefixesOf(paths[i]);
      }
    }
  }

  /** If every leaf is read right on the tree, no two prefixes share an alias. */
  lemma RightMeansDistinct(schema: Schema, who: Identity, base: string, paths: seq<seq<string>>)
    requires AllCrossable(schema, base, paths) && SeesAll(schema, who, base, PrefixesOfAll(paths))
    requires AllMeanWalk(schema, who, base, paths)
    ensures AliasesDistinct(PrefixesOfAll(paths))
  {
    var nodes, joins := PrefixesOfAll(paths) + {[]}, CompiledJoins(schema, who, base, paths);
    PrefixTree(schema, base, paths);
    var w, code := TreeWorld(schema, who, base, nodes);
    var ps := CompiledListed(schema, who, base, paths);
    forall p | p in PrefixesOfAll(paths)
      ensures ReadsRight(w, code, joins, Alias(p), p)
    {
      var i :| 0 <= i < |paths| && p in PrefixesOf(paths[i]);
      assert MeansWalk(schema, who, base, joins, paths[i]);
      assert LeafAtWalk(World(schema, w.db, who, base, w.row, w.tenant), joins, paths[i]);
      assert PrefixesOf(paths[i]) <= nodes;
      PrefixRight(w, nodes, code, joins, ps, paths[i], p);
    }
  }

  /** A path read right at its leaf is read right at each of its prefixes. */
  lemma PrefixRight(
      w: World, nodes: set<seq<string>>, code: map<seq<string>, Uuid>, joins: seq<Join>, ps: seq<seq<string>>,
      path: seq<string>, p: seq<string>)
    requires Shaped(w, nodes, code) && JoinsListed(w.schema, w.base, joins, ps)
    requires SeesAll(w.schema, w.who, w.base, nodes - {[]})
    requires path != [] && PrefixesOf(path) <= nodes && p in PrefixesOf(path) && LeafAtWalk(w, joins, path)
    ensures ReadsRight(w, code, joins, Alias(p), p)
  {
    var k :| 1 <= k < |path| && p == path[..k];
    var leaf := path[..|path| - 1];
    assert leaf in PrefixesOf(path);
    LeafRight(w, nodes, code, joins, path);
    FrontTaken(path, k);
    RightAllTheWay(w, nodes, code, joins, ps, leaf, k);
  }

  lemma LeafRight(w: World, nodes: set<seq<string>>, code: map<seq<string>, Uuid>, joins: seq<Join>, path: seq<string>)
    requires Shaped(w, nodes, code) && SeesAll(w.schema, w.who, w.base, nodes - {[]})
    requires |path| > 1 && path[..|path| - 1] in nodes && LeafAtWalk(w, joins, path)
    ensures ReadsRight(w, code, joins, Alias(path[..|path| - 1]), path[..|path| - 1])
  {
    LeafRead(w, joins, path);
    TreeWalk(w, nodes, code, path[..|path| - 1]);
  }

  /** With nothing to guard the compiled joins are the merged ones. */
  lemma CompiledListed(
      schema: Schema, who: Identity, base: string, paths: seq<seq<string>>)
    returns (ps: seq<seq<string>>)
    requires AllCrossable(schema, base, paths) && SeesAll(schema, who, base, PrefixesOfAll(paths))
    ensures JoinsListed(schema, base, CompiledJoins(schema, who, base, paths), ps)
  {
    ps := PlannedListed(schema, base, paths);
    var joins, hops := PlannedJoins(schema, base, paths), PlannedHops(schema, base, paths);
    forall i | 0 <= i < |ps|
      ensures Traversable(schema, base, ps[i]) && joins[i] == JoinOf(schema, base, ps[i]) && hops[i].entity in who.broad
    {
      assert ps[i] in ps;
      assert IsJoinOf(schema, base, ps[i], joins[i], hops[i]);
    }
    NothingToGuard(joins, hops, who);
  }

  /** Every leaf is read where its walk ends, on every database and from every base row. */
  ghost predicate AllMeanWalk(schema: Schema, who: Identity, base: string, paths: seq<seq<string>>)
    requires AllCrossable(schema, base, paths)
  {
    forall i :: 0 <= i < |paths| ==>
      paths[i] != [] && MeansWalk(schema, who, base, CompiledJoins(schema, who, base, paths), paths[i])
  }

  /**
   For a runner who sees every crossed entity, the compiled joins read every kept leaf where its
   walk ends, on every database and from every base row, exactly when the prefixes of the kept
   paths have distinct aliases.
   */
  lemma AllRightIffDistinct(schema: Schema, who: Identity, base: string, paths: seq<seq<string>>)
    requires AllCrossable(schema, base, paths) && SeesAll(schema, who, base, PrefixesOfAll(paths))
    ensures AllMeanWalk(schema, who, base, paths) <==> AliasesDistinct(PrefixesOfAll(paths))
  {
    if AliasesDistinct(PrefixesOfAll(paths)) {
      PlannedMeansWalk(schema, who, base, paths);
    }
    if AllMeanWalk(schema, who, base, paths) {
      RightMeansDistinct(schema, who, base, paths);
    }
  }

  // ===== what is shown, whatever the aliases =====

  /** The row found, if any, is of the join's table, of the tenant, and visible to the runner in `entity`. */
  ghost predicate ShowsVisible(w: World, join: Join, entity: string, found: Option<Uuid>) {
    found.Some? ==>
      && found.value in Rows(w.db, join.table) && Rows(w.db, join.table)[found.value].tenant == w.tenant
      && RowVisible(w.who, entity, found.value)
  }

  lemma MatchIsVisible(w: World, tables: map<string, string>, j: Join, env: Env, entity: string)
    requires j.guards == GuardsOf(w.who, entity)
    ensures ShowsVisible(w, j, entity, Match(w, tables, j, env))
  {
    assert entity in w.who.broad || entity in j.guards;
  }

  /** Each join's alias ends up with what that join found. */
  lemma BoundByItsJoin(w: World, joins: seq<Join>, i: nat)
    requires i < |joins| && NoneBase(joins)
    requires forall i, j :: 0 <= i < j < |joins| ==> joins[i].alias != joins[j].alias
    ensures joins[i].alias in EnvAfter(w, joins, |joins|)
    ensures EnvAfter(w, joins, |joins|)[joins[i].alias]
      == Match(w, Tables(w, joins, i), joins[i], EnvAfter(w, joins, i))
  {
    BoundOnce(w, joins, i + 1, |joins|, joins[i].alias);
  }

  /** The compiled joins of the distinct aliases, each guarded for the entity of the prefix it was made for. */
  lemma CompiledGuarded(
      schema: Schema, who: Identity, base: string, paths: seq<seq<string>>)
    returns (ps: seq<seq<string>>)
    requires AllCrossable(schema, base, paths)
    ensures |CompiledJoins(schema, who, base, paths)| == |ps| && AliasesDiffer(ps)
    ensures forall i :: 0 <= i < |ps| ==> ps[i] in PrefixesOfAll(paths)
    ensures forall i :: 0 <= i < |ps| ==>
      GuardedJoinAt(schema, who, base, ps[i], CompiledJoins(schema, who, base, paths)[i])
  {
    ps := PlannedListed(schema, base, paths);
    PlanGuarded(schema, who, base, PlannedJoins(schema, base, paths), PlannedHops(schema, base, paths), ps);
  }

  /** The entity a compiled join enters. */
  ghost predicate EntersVisibly(w: World, join: Join, p: seq<string>, env: Env) {
    && GuardedJoinAt(w.schema, w.who, w.base, p, join)
    && join.alias in env && ShowsVisible(w, join, EntityAt(w.schema, w.base, p).value, env[join.alias])
  }

  /**
   With distinct aliases or not, on every database and for every runner: the one joined row of a
   base row holds under each alias nothing, or a row of the tenant that the runner may see in
   the entity its join enters.
   */
  lemma JoinedRowsVisible(w: World, paths: seq<seq<string>>) returns (ps: seq<seq<string>>)
    requires AllCrossable(w.schema, w.base, paths)
    ensures var joins := CompiledJoins(w.schema, w.who, w.base, paths); var env := EnvAfter(w, joins, |joins|);
      && RunJoins(w.db, w.who, w.tenant, TableAt(w, []), joins, |joins|, w.row) == {env}
      && |ps| == |joins| && env.Keys == {BASE} + (set j | j in joins :: j.alias)
      && (forall i :: 0 <= i < |ps| ==> ps[i] in PrefixesOfAll(paths) && EntersVisibly(w, joins[i], ps[i], env))
  {
    var joins := CompiledJoins(w.schema, w.who, w.base, paths);
    OneRowEach(w, joins, |joins|);
    ps := CompiledGuarded(w.schema, w.who, w.base, paths);
    GuardedAliases(w, joins, ps);
    EnvNames(w, joins, |joins|);
    assert joins[..|joins|] == joins;
    forall i | 0 <= i < |ps|
      ensures EntersVisibly(w, joins[i], ps[i], EnvAfter(w, joins, |joins|))
    {
      BoundByItsJoin(w, joins, i);
      MatchIsVisible(w, Tables(w, joins, i), joins[i], EnvAfter(w, joins, i), EntityAt(w.schema, w.base, ps[i]).value);
    }
  }

  lemma GuardedAliases(w: World, joins: seq<Join>, ps: seq<seq<string>>)
    requires |joins| == |ps| && AliasesDiffer(ps)
    requires forall i :: 0 <= i < |ps| ==> GuardedJoinAt(w.schema, w.who, w.base, ps[i], joins[i])
    ensures NoneBase(joins) && forall i, j :: 0 <= i < j < |joins| ==> joins[i].alias != joins[j].alias
  {
    forall i | 0 <= i < |joins|
      ensures joins[i].alias == Alias(ps[i]) && joins[i].alias != BASE
    {
      assert GuardedJoinAt(w.schema, w.who, w.base, ps[i], joins[i]);
      assert Alias(ps[i])[0] != BASE[0];
    }
  }

  lemma {:induction false} EnvNames(w: World, joins: seq<Join>, n: nat)
    requires n <= |joins|
    ensures EnvAfter(w, joins, n).Keys == {BASE} + (set j | j in joins[..n] :: j.alias)
  {
    if n > 0 {
      EnvNames(w, joins, n - 1);
      assert joins[..n] == joins[..n - 1] + [joins[n - 1]];
    }
  }

  // ----- so is what a leaf reads -----

  lemma {:induction false} MergedKeepsAlias(acc: seq<Join>, more: seq<Join>, n: nat, alias: string)
    requires n <= |more| && (HasAlias(acc, alias) || exists k :: 0 <= k < n && more[k].alias == alias)
    ensures HasAlias(MergedJoins(acc, more, n), alias)
  {
    if n > 0 {
      var front, join := MergedJoins(acc, more, n - 1), more[n - 1];
      if HasAlias(acc, alias) || exists k :: 0 <= k < n - 1 && more[k].alias == alias {
        MergedKeepsAlias(acc, more, n - 1, alias);
        AppendKeepsAlias(front, join, alias);
      } else {
        AppendHasAlias(front, join);
      }
    }
  }

  lemma MergedAddsAlias(acc: seq<Join>, more: seq<Join>, n: nat, k: nat)
    requires k < n <= |more|
    ensures HasAlias(MergedJoins(acc, more, n), more[k].alias)
  {
    MergedKeepsAlias(acc, more, n, more[k].alias);
  }

  lemma AppendKeepsAlias(joins: seq<Join>, join: Join, alias: string)
    requires HasAlias(joins, alias)
    ensures HasAlias(joins + [join], alias)
  {
    var i :| 0 <= i < |joins| && joins[i].alias == alias;
    assert (joins + [join])[i].alias == alias;
  }

  lemma AppendHasAlias(joins: seq<Join>, join: Join)
    ensures HasAlias(joins + [join], join.alias)
  {
    assert (joins + [join])[|joins|].alias == join.alias;
  }

  /** Every prefix's alias is the alias of some planned join. */
  lemma {:induction false} PlannedHasAlias(schema: Schema, base: string, paths: seq<seq<string>>, i: nat, k: nat)
    requires AllCrossable(schema, base, paths) && i < |paths| && 1 <= k < |paths[i]|
    ensures HasAlias(PlannedJoins(schema, base, paths), Alias(paths[i][..k]))
    decreases |paths|
  {
    var alias := Alias(paths[i][..k]);
    if i < |paths| - 1 {
      PlannedHasAlias(schema, base, paths[..|paths| - 1], i, k);
      EarlierAliasesStay(schema, base, paths, alias);
    } else {
      LastAliasesAdded(schema, base, paths, k);
    }
  }

  lemma EarlierAliasesStay(schema: Schema, base: string, paths: seq<seq<string>>, alias: string)
    requires AllCrossable(schema, base, paths) && paths != []
    requires HasAlias(PlannedJoins(schema, base, paths[..|paths| - 1]), alias)
    ensures HasAlias(PlannedJoins(schema, base, paths), alias)
  {
    var before, last := PlannedJoins(schema, base, paths[..|paths| - 1]), paths[|paths| - 1];
    assert PlannedJoins(schema, base, paths) == MergedJoins(before, JoinsOf(schema, base, last), |last| - 1);
    MergedKeepsAlias(before, JoinsOf(schema, base, last), |last| - 1, alias);
  }

  /** The joins of the last path, merged last. */
  lemma LastJoins(schema: Schema, base: string, paths: seq<seq<string>>) returns (acc: seq<Join>, more: seq<Join>)
    requires AllCrossable(schema, base, paths) && paths != []
    ensures |more| == |paths[|paths| - 1]| - 1 && PlannedJoins(schema, base, paths) == MergedJoins(acc, more, |more|)
    ensures more == JoinsOf(schema, base, paths[|paths| - 1])
  {
    acc, more := PlannedJoins(schema, base, paths[..|paths| - 1]), JoinsOf(schema, base, paths[|paths| - 1]);
  }

  lemma LastAliasesAdded(schema: Schema, base: string, paths: seq<seq<string>>, k: nat)
    requires AllCrossable(schema, base, paths) && paths != [] && 1 <= k < |paths[|paths| - 1]|
    ensures HasAlias(PlannedJoins(schema, base, paths), Alias(paths[|paths| - 1][..k]))
  {
    var acc, more := LastJoins(schema, base, paths);
    AliasOfJoin(schema, base, paths[|paths| - 1], k);
    MergedAddsAlias(acc, more, |more|, k - 1);
  }

  lemma AliasOfJoin(schema: Schema, base: string, segs: seq<string>, k: nat)
    requires Crossable(schema, base, segs) && 1 <= k < |segs|
    ensures JoinsOf(schema, base, segs)[k - 1].alias == Alias(segs[..k])
  {
    assert segs[..k - 1 + 1] == segs[..k];
  }

  /** So a kept leaf is read from the base row, or from nothing, or from a row the runner may see. */
  lemma LeafShowsVisible(w: World, paths: seq<seq<string>>, at: nat)
    requires AllCrossable(w.schema, w.base, paths) && at < |paths| && |paths[at]| > 1
    ensures var joins := CompiledJoins(w.schema, w.who, w.base, paths); var env := EnvAfter(w, joins, |joins|);
      exists i, p :: 0 <= i < |joins| && joins[i].alias == LeafAlias(paths[at]) && EntersVisibly(w, joins[i], p, env)
  {
    var joins, planned := CompiledJoins(w.schema, w.who, w.base, paths), PlannedJoins(w.schema, w.base, paths);
    var ps := JoinedRowsVisible(w, paths);
    PlannedHasAlias(w.schema, w.base, paths, at, |paths[at]| - 1);
    var i :| 0 <= i < |planned| && planned[i].alias == LeafAlias(paths[at]);
    SameAliases(planned, PlannedHops(w.schema, w.base, paths), w.who);
    assert EntersVisibly(w, joins[i], ps[i], EnvAfter(w, joins, |joins|));
  }

  /** Guarding changes no alias. */
  lemma {:induction false} SameAliases(joins: seq<Join>, hops: seq<Hop>, who: Identity)
    ensures |Guarded(joins, hops, who)| == |joins|
    ensures forall i :: 0 <= i < |joins| ==> Guarded(joins, hops, who)[i].alias == joins[i].alias
    decreases |hops|
  {
    if hops != [] {
      SameAliases(GuardedBy(joins, hops[0], who), hops[1..], who);
    }
  }

  // ===== two requests that collide =====

  const COLLIDING: Schema := map[
    "order" := EntityDef("orders", {}, [Relationship("a_b", "x", false), Relationship("a", "y", false)]),
    "x" := EntityDef("xs", {"name"}, []),
    "y" := EntityDef("ys", {}, [Relationship("b", "x", false)])]

  const SEES_XY := Identity({"x", "y"}, {}, {"x", "y"}, map[])

  const DIRECT := ["a_b", "name"]
  const BY_WAY_OF_A := ["a", "b", "name"]
  const TWO_REQUESTS := [Request("a_b.name", true), Request("a.b.name", true)]

  lemma SplitDirect()
    ensures Split("a_b.name") == DIRECT
  {
    JoinSplits(DIRECT);
    assert DIRECT[1..] == ["name"] && Dotted(["name"]) == "name";
    assert "a_b" + "." + "name" == "a_b.name";
  }

  lemma SplitByWayOfA()
    ensures Split("a.b.name") == BY_WAY_OF_A
  {
    JoinSplits(BY_WAY_OF_A);
    assert BY_WAY_OF_A[1..] == ["b", "name"] && ["b", "name"][1..] == ["name"] && Dotted(["name"]) == "name";
    assert Dotted(["b", "name"]) == "b" + "." + "name" == "b.name";
    assert "a" + "." + "b.name" == "a.b.name";
  }

  /** A segment that trimming leaves alone. */
  predicate Tight(s: string) {
    s != [] && !IsWhitespace(s[0]) && !IsWhitespace(s[|s| - 1])
  }

  lemma NothingToTrim(s: string)
    requires Tight(s)
    ensures Trim(s) == s
  {
  }

  lemma NothingTrimmed(path: string, segs: seq<string>)
    requires Split(path) == segs && forall i :: 0 <= i < |segs| ==> Tight(segs[i])
    ensures Segments(path) == segs
  {
    forall i | 0 <= i < |segs|
      ensures Segments(path)[i] == segs[i]
    {
      NothingToTrim(segs[i]);
    }
  }

  lemma TightNames()
    ensures Tight("a") && Tight("b") && Tight("a_b") && Tight("name")
  {
  }

  lemma DirectSegments()
    ensures Segments("a_b.name") == DIRECT
  {
    SplitDirect();
    TightNames();
    NothingTrimmed("a_b.name", DIRECT);
  }

  lemma ByWayOfASegments()
    ensures Segments("a.b.name") == BY_WAY_OF_A
  {
    SplitByWayOfA();
    TightNames();
    NothingTrimmed("a.b.name", BY_WAY_OF_A);
  }

  lemma CollidingEntities()
    ensures EntityAt(COLLIDING, "order", ["a_b"]) == Some("x") && EntityAt(COLLIDING, "order", ["a"]) == Some("y")
    ensures EntityAt(COLLIDING, "order", ["a", "b"]) == Some("x")
  {
    var rels := COLLIDING["order"].relationships;
    assert rels[1..] == [rels[1]];
    assert FindRelationship(rels, "a_b") == Some(rels[0]) && FindRelationship(rels, "a") == Some(rels[1]);
    assert ["a_b"][..0] == [] && ["a"][..0] == [] && ["a", "b"][..1] == ["a"];
    assert EntityAt(COLLIDING, "order", []) == Some("order");
  }

  lemma CollidingAliases()
    ensures Alias(["a_b"]) == Alias(["a", "b"]) == "j_a_b" && Alias(["a"]) == "j_a"
  {
    assert Sanitized("a_b") == "a_b" && Sanitized("a") == "a" && Sanitized("b") == "b";
    assert ["a", "b"][..1] == ["a"];
    assert Underscored(["a", "b"]) == Underscored(["a"]) + "_" + "b";
  }

  lemma CollidingCrossable()
    ensures Crossable(COLLIDING, "order", DIRECT) && Crossable(COLLIDING, "order", BY_WAY_OF_A)
    ensures AllCrossable(COLLIDING, "order", [DIRECT, BY_WAY_OF_A])
    ensures DIRECT[..1] == ["a_b"] && BY_WAY_OF_A[..1] == ["a"] && BY_WAY_OF_A[..2] == ["a", "b"]
  {
    CollidingEntities();
    assert DIRECT[..1] == ["a_b"] && BY_WAY_OF_A[..1] == ["a"] && BY_WAY_OF_A[..2] == ["a", "b"];
  }

  lemma CollidingResolvable()
    ensures Resolvable(COLLIDING, "order", DIRECT) && Resolvable(COLLIDING, "order", BY_WAY_OF_A)
  {
    CollidingEntities();
    CollidingCrossable();
    LeafOfX();
  }

  lemma CollidingReadable()
    ensures ReadablePath(COLLIDING, SEES_XY, "order", DIRECT) && ReadablePath(COLLIDING, SEES_XY, "order", BY_WAY_OF_A)
  {
    CollidingEntities();
    CollidingCrossable();
  }

  lemma KeptOneMore(schema: Schema, who: Identity, base: string, requests: seq<Request>, n: nat)
    requires n < |requests| && AllAcceptable(schema, who, base, requests, n)
    requires Resolvable(schema, base, Segments(requests[n].path))
    requires ReadablePath(schema, who, base, Segments(requests[n].path))
    ensures AllAcceptable(schema, who, base, requests, n + 1)
    ensures KeptPaths(schema, who, base, requests, n + 1)
      == KeptPaths(schema, who, base, requests, n) + [Segments(requests[n].path)]
  {
  }

  lemma TwoKept(
      schema: Schema, who: Identity, base: string, requests: seq<Request>, a: seq<string>, b: seq<string>)
    requires |requests| == 2 && Segments(requests[0].path) == a && Segments(requests[1].path) == b
    requires Resolvable(schema, base, a) && ReadablePath(schema, who, base, a)
    requires Resolvable(schema, base, b) && ReadablePath(schema, who, base, b)
    ensures AllAcceptable(schema, who, base, requests, 2) && KeptPaths(schema, who, base, requests, 2) == [a, b]
  {
    KeptOneMore(schema, who, base, requests, 0);
    assert KeptPaths(schema, who, base, requests, 1) == [a];
    KeptOneMore(schema, who, base, requests, 1);
  }

  /** Both requests are kept. */
  lemma CollidingKept()
    ensures AllAcceptable(COLLIDING, SEES_XY, "order", TWO_REQUESTS, 2)
    ensures KeptPaths(COLLIDING, SEES_XY, "order", TWO_REQUESTS, 2) == [DIRECT, BY_WAY_OF_A]
  {
    DirectSegments();
    ByWayOfASegments();
    CollidingResolvable();
    CollidingReadable();
    TwoKept(COLLIDING, SEES_XY, "order", TWO_REQUESTS, DIRECT, BY_WAY_OF_A);
  }

  lemma LeafOfX()
    ensures LeafKind(COLLIDING["x"], "name") == Ok(Scalar)
  {
    assert FindRelationship([], "name") == None;
  }

  /** Merging their joins keeps `a_b` and `a`, and drops `a.b` for sharing the alias of `a_b`. */
  lemma CollidingJoins()
    requires AllCrossable(COLLIDING, "order", [DIRECT, BY_WAY_OF_A])
    ensures PlannedJoins(COLLIDING, "order", [DIRECT, BY_WAY_OF_A])
      == [Join("xs", "j_a_b", BASE, "a_b", []), Join("ys", "j_a", BASE, "a", [])]
  {
    CollidingCrossable();
    CollidingEntities();
    CollidingAliases();
    var first, second := JoinsOf(COLLIDING, "order", DIRECT), JoinsOf(COLLIDING, "order", BY_WAY_OF_A);
    assert first == [Join("xs", "j_a_b", BASE, "a_b", [])];
    assert second[0] == Join("ys", "j_a", BASE, "a", []) && second[1].alias == "j_a_b";
    assert [DIRECT, BY_WAY_OF_A][..1] == [DIRECT] && [DIRECT][..0] == [];
    assert MergedJoins([], first, 1) == first;
    assert PlannedJoins(COLLIDING, "order", [DIRECT]) == first;
    assert !HasAlias(first, "j_a");
    var both := first + [second[0]];
    assert MergedJoins(first, second, 1) == both;
    assert both[0].alias == "j_a_b" && HasAlias(both, "j_a_b");
    assert MergedJoins(first, second, 2) == both;
  }

  /** So compiling the two requests succeeds, and on some database one of them reads the other's row. */
  lemma CollisionMisreads()
    ensures AllAcceptable(COLLIDING, SEES_XY, "order", TWO_REQUESTS, 2)
    ensures KeptPaths(COLLIDING, SEES_XY, "order", TWO_REQUESTS, 2) == [DIRECT, BY_WAY_OF_A]
    ensures AllCrossable(COLLIDING, "order", [DIRECT, BY_WAY_OF_A])
    ensures !AllMeanWalk(COLLIDING, SEES_XY, "order", [DIRECT, BY_WAY_OF_A])
  {
    CollidingKept();
    CollidingCrossable();
    PrefixesCollide();
    PrefixesSeen();
    AllRightIffDistinct(COLLIDING, SEES_XY, "order", [DIRECT, BY_WAY_OF_A]);
  }

  lemma PrefixesCollide()
    ensures !AliasesDistinct(PrefixesOfAll([DIRECT, BY_WAY_OF_A]))
  {
    CollidingPrefixes();
    CollidingAliases();
    assert ["a_b"] in PrefixesOfAll([DIRECT, BY_WAY_OF_A]) && ["a", "b"] in PrefixesOfAll([DIRECT, BY_WAY_OF_A]);
    assert |["a_b"]| != |["a", "b"]|;
  }

  lemma PrefixesSeen()
    ensures SeesAll(COLLIDING, SEES_XY, "order", PrefixesOfAll([DIRECT, BY_WAY_OF_A]))
  {
    CollidingPrefixes();
    CollidingEntities();
  }

  lemma CollidingPrefixes()
    ensures PrefixesOfAll([DIRECT, BY_WAY_OF_A]) == {["a_b"], ["a"], ["a", "b"]}
  {
    CollidingCrossable();
    assert PrefixesOf(DIRECT) == {["a_b"]};
    assert PrefixesOf(BY_WAY_OF_A) == {["a"], ["a", "b"]};
    var paths := [DIRECT, BY_WAY_OF_A];
    forall p
      ensures p in PrefixesOfAll(paths) <==> p in PrefixesOf(DIRECT) || p in PrefixesOf(BY_WAY_OF_A)
    {
      assert paths[0] == DIRECT && paths[1] == BY_WAY_OF_A;
    }
  }
}
