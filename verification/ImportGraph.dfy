/** The module import graph of tools/dependency_map.py and what a cycle in it is, independently of
    the algorithm that looks for one. */
module ImportGraph {
  import opened Ordering

  datatype Module = Module(name: string)

  type Graph = map<Module, set<Module>>

  /** `edges.get(v, ())`: an imported module need not be a key. */
  function Succ(g: Graph, v: Module): set<Module> {
    if v in g then g[v] else {}
  }

  ghost function Vertices(g: Graph): set<Module> {
    g.Keys + set v, w | v in g && w in g[v] :: w
  }

  ghost predicate IsPath(g: Graph, p: seq<Module>) {
    p != [] && forall i :: 0 <= i < |p| - 1 ==> p[i + 1] in Succ(g, p[i])
  }

  ghost predicate Reach(g: Graph, x: Module, y: Module) {
    exists p :: IsPath(g, p) && p[0] == x && p[|p| - 1] == y
  }

  ghost predicate Mutual(g: Graph, x: Module, y: Module) {
    Reach(g, x, y) && Reach(g, y, x)
  }

  /** Reaching follows imports: one module reaches another that it is, or that is reached from one of its
      imports. */
  lemma ReachByImports(g: Graph, x: Module, y: Module)
    ensures Reach(g, x, y) <==> x == y || (x in g && exists z :: z in g[x] && Reach(g, z, y))
  {
    ReachSelf(g, x);
    if p :| IsPath(g, p) && p[0] == x && p[|p| - 1] == y && x != y {
      assert p[1] in Succ(g, x) && IsPath(g, p[1..]);
    }
    if x in g {
      forall z | z in g[x] && Reach(g, z, y) ensures Reach(g, x, y) {
        ReachEdge(g, x, z);
        ReachTrans(g, x, z, y);
      }
    }
  }

  lemma ReachSelf(g: Graph, x: Module)
    ensures Reach(g, x, x)
  {
    assert IsPath(g, [x]);
  }

  lemma ReachEdge(g: Graph, x: Module, y: Module)
    requires y in Succ(g, x)
    ensures Reach(g, x, y)
  {
    assert IsPath(g, [x, y]);
  }

  lemma ReachTrans(g: Graph, x: Module, y: Module, z: Module)
    requires Reach(g, x, y) && Reach(g, y, z)
    ensures Reach(g, x, z)
  {
    var p :| IsPath(g, p) && p[0] == x && p[|p| - 1] == y;
    var q :| IsPath(g, q) && q[0] == y && q[|q| - 1] == z;
    var r := p + q[1..];
    forall i | 0 <= i < |r| - 1 ensures r[i + 1] in Succ(g, r[i]) {
      if i >= |p| - 1 {
        assert r[i] == q[i - |p| + 1] && r[i + 1] == q[i - |p| + 2];
      }
    }
    assert IsPath(g, r) && r[0] == x && r[|r| - 1] == z;
  }

  /** A path that leaves a set of modules does so along some import. */
  lemma Escape(g: Graph, x: Module, y: Module, s: set<Module>) returns (a: Module, b: Module)
    requires Reach(g, x, y) && x in s && y !in s
    ensures a in s && b !in s && b in Succ(g, a) && Reach(g, b, y)
  {
    var p :| IsPath(g, p) && p[0] == x && p[|p| - 1] == y;
    var i := 0;
    while p[i + 1] in s
      invariant 0 <= i < |p| - 1 && p[i] in s
      decreases |p| - i
    {
      i := i + 1;
    }
    a, b := p[i], p[i + 1];
    assert IsPath(g, p[i + 1..]);
  }

  lemma ReachStaysIn(g: Graph, x: Module, y: Module, s: set<Module>)
    requires Reach(g, x, y) && x in s
    requires forall a :: a in s ==> Succ(g, a) <= s
    ensures y in s
  {
    if y !in s {
      var a, b := Escape(g, x, y, s);
    }
  }

  /** Modules that reach something else import something, so they are keys of the graph. */
  lemma MutualIsKey(g: Graph, x: Module, y: Module)
    requires Mutual(g, x, y) && x != y
    ensures x in g && y in g
  {
    var a, b := Escape(g, x, y, {x});
    a, b := Escape(g, y, x, {y});
  }

  // ---- the specification of a cycle listing ----

  predicate ModuleLe(a: Module, b: Module) { StringLe(a.name, b.name) }

  predicate CycleLe(a: seq<Module>, b: seq<Module>) { Lex(ModuleLe, a, b) }

  lemma OrdersAreTotal()
    ensures TotalOrder(ModuleLe) && TotalOrder(CycleLe)
  {
    StringLeIsTotal();
    LexIsTotal(ModuleLe);
    assert forall a: seq<Module>, b: seq<Module> :: CycleLe(a, b) == LexOrder(ModuleLe)(a, b);
  }

  /** Modules are ordered by the first character in which their names differ, cycles that start with
      different modules by these. */
  lemma ListingOrder(a: Module, b: Module, s: seq<Module>, t: seq<Module>)
    ensures ModuleLe(a, b) <==>
      a.name <= b.name || exists i :: DiffersFirst(a.name, b.name, i) && a.name[i] < b.name[i]
    ensures a != b ==> (CycleLe([a] + s, [b] + t) <==> ModuleLe(a, b))
  {
    StringOrder(a.name, b.name);
    OrdersAreTotal();
  }

  /** A strongly connected component with at least two modules, written in order. */
  ghost predicate IsCycle(g: Graph, c: seq<Module>) {
    && |c| >= 2
    && SortedBy(ModuleLe, c) && NoDuplicates(c)
    && forall y :: y in c <==> Mutual(g, c[0], y)
  }

  /** Every such component, each once, in order. */
  ghost predicate IsCycleListing(g: Graph, r: seq<seq<Module>>) {
    && SortedBy(CycleLe, r) && NoDuplicates(r)
    && forall c :: c in r <==> IsCycle(g, c)
  }

  lemma MutualTrans(g: Graph, x: Module, y: Module, z: Module)
    requires Mutual(g, x, y) && Mutual(g, y, z)
    ensures Mutual(g, x, z) && Mutual(g, y, x)
  {
    ReachTrans(g, x, y, z);
    ReachTrans(g, z, y, x);
  }

  /** Two cycles that share a module are the same cycle. */
  lemma CyclesShareNothing(g: Graph, c: seq<Module>, d: seq<Module>, x: Module)
    requires IsCycle(g, c) && IsCycle(g, d) && x in c && x in d
    ensures c == d
  {
    forall y ensures y in c <==> y in d {
      if y in c { MutualTrans(g, d[0], x, c[0]); MutualTrans(g, d[0], c[0], y); }
      if y in d { MutualTrans(g, c[0], x, d[0]); MutualTrans(g, c[0], d[0], y); }
    }
    OrdersAreTotal();
    SortedSetIsUnique(ModuleLe, c, d);
  }

  /** The listing is determined by the graph. */
  lemma ListingIsUnique(g: Graph, r: seq<seq<Module>>, s: seq<seq<Module>>)
    requires IsCycleListing(g, r) && IsCycleListing(g, s)
    ensures r == s
  {
    OrdersAreTotal();
    SortedSetIsUnique(CycleLe, r, s);
  }

  /** What the map prints as "none": no two different modules import each other, however
      indirectly.  A module that imports itself is not a cycle. */
  lemma NoCyclesMeansAcyclic(g: Graph, r: seq<seq<Module>>)
    requires IsCycleListing(g, r)
    ensures r == [] <==> forall x, y :: Mutual(g, x, y) ==> x == y
  {
    if r != [] {
      assert r[0] in r && IsCycle(g, r[0]);
      assert r[0][1] in r[0] && r[0][0] != r[0][1];
    }
    if x, y :| Mutual(g, x, y) && x != y {
      var c := CycleOf(g, x, y);
      assert c in r;
    }
  }

  /** Every module in a mutual import belongs to a listed cycle. */
  lemma CycleOf(g: Graph, x: Module, y: Module) returns (c: seq<Module>)
    requires Mutual(g, x, y) && x != y
    ensures IsCycle(g, c) && x in c && y in c
  {
    var members: set<Module> := set z | z in g.Keys && Mutual(g, x, z);
    MutualIsKey(g, x, y);
    ReachSelf(g, x);
    forall z | Mutual(g, x, z) ensures z in g {
      if z != x { MutualIsKey(g, x, z); }
    }
    OrdersAreTotal();
    var rest, xs := members, [];
    while rest != {}
      invariant rest <= members
      invariant NoDuplicates(xs) && forall z :: z in xs <==> z in members - rest
    {
      var z :| z in rest;
      assert forall i :: 0 <= i < |xs| ==> xs[i] in xs;
      rest, xs := rest - {z}, xs + [z];
    }
    SortDistinct(ModuleLe, xs);
    c := Sort(ModuleLe, xs);
    SortedMembersAreCycle(g, c, x, y, members);
  }

  lemma SortedMembersAreCycle(g: Graph, c: seq<Module>, x: Module, y: Module, members: set<Module>)
    requires x != y && x in members && y in members
    requires forall z :: z in members <==> Mutual(g, x, z)
    requires SortedBy(ModuleLe, c) && NoDuplicates(c) && forall z :: z in c <==> z in members
    ensures IsCycle(g, c)
  {
    var i :| 0 <= i < |c| && c[i] == x;
    var j :| 0 <= j < |c| && c[j] == y;
    assert |c| >= 2;
    assert c[0] in c;
    forall z ensures z in c <==> Mutual(g, c[0], z) {
      if z in c { MutualTrans(g, x, c[0], x); MutualTrans(g, c[0], x, z); }
      if Mutual(g, c[0], z) { MutualTrans(g, x, c[0], z); }
    }
  }
}
