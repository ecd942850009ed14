/** `_cycles` of tools/dependency_map.py: Tarjan's algorithm over mutable dictionaries and a stack,
    proved to return every import cycle exactly once, for every import graph. */
module DependencyMap {
  import opened Ordering
  import opened ImportGraph

  /** The variables `visit` closes over, as one value. */
  datatype Dfs = Dfs(
    index: map<Module, nat>,
    low: map<Module, nat>,
    stack: seq<Module>,
    on: set<Module>,
    counter: nat,
    out: seq<seq<Module>>)
  {
    /** Modules whose component has been completed. */
    ghost function Done(): set<Module> { index.Keys - on }
  }

  // ---- invariant ----

  ghost predicate WellNumbered(s: Dfs) {
    && s.low.Keys == s.index.Keys
    && (forall x :: x in s.on <==> x in s.stack)
    && s.on <= s.index.Keys
    && (forall x :: x in s.index ==> s.index[x] < s.counter)
    && (forall i, j :: 0 <= i < j < |s.stack| ==> s.index[s.stack[i]] < s.index[s.stack[j]])
  }

  /** `gray` holds the modules whose `visit` has not returned. */
  ghost predicate Closed(g: Graph, s: Dfs, gray: set<Module>) {
    && gray <= s.on
    && s.index.Keys <= Vertices(g)
    && (forall x :: x in s.index.Keys - gray ==> Succ(g, x) <= s.index.Keys)
    && (forall x :: x in s.Done() ==> Succ(g, x) <= s.Done())
  }

  ghost predicate ReachesGray(g: Graph, s: Dfs, gray: set<Module>, y: Module)
    requires y in s.index && gray <= s.index.Keys
  {
    exists x :: x in gray && s.index[x] <= s.index[y] && Reach(g, y, x)
  }

  ghost predicate StackLinked(g: Graph, s: Dfs, gray: set<Module>)
    requires gray <= s.on <= s.index.Keys
  {
    StackReaches(g, s) && AllReachGray(g, s, gray)
  }

  ghost predicate StackReaches(g: Graph, s: Dfs) {
    forall i, j :: 0 <= i <= j < |s.stack| ==> Reach(g, s.stack[i], s.stack[j])
  }

  ghost predicate AllReachGray(g: Graph, s: Dfs, gray: set<Module>)
    requires gray <= s.on <= s.index.Keys
  {
    forall y {:trigger ReachesGray(g, s, gray, y)} :: y in s.on ==> ReachesGray(g, s, gray, y)
  }

  /** `out` lists the cycles among the completed modules. */
  ghost predicate Listed(g: Graph, out: seq<seq<Module>>, done: set<Module>) {
    OnlyCycles(g, out, done) && AllCycles(g, out, done) && NoDuplicates(out)
  }

  ghost predicate OnlyCycles(g: Graph, out: seq<seq<Module>>, done: set<Module>) {
    forall c :: c in out ==> IsCycle(g, c) && forall x :: x in c ==> x in done
  }

  ghost predicate AllCycles(g: Graph, out: seq<seq<Module>>, done: set<Module>) {
    forall x, y :: x in done && Mutual(g, x, y) && x != y ==> InSome(out, x)
  }

  predicate InSome(out: seq<seq<Module>>, x: Module) {
    exists c :: c in out && x in c
  }

  ghost predicate Inv(g: Graph, s: Dfs, gray: set<Module>) {
    && WellNumbered(s)
    && Closed(g, s, gray)
    && StackLinked(g, s, gray)
    && Listed(g, s.out, s.Done())
  }

  /** What later states of the search never change. */
  ghost predicate Extends(s: Dfs, t: Dfs) {
    && s.index.Keys <= t.index.Keys && s.low.Keys <= t.low.Keys
    && (forall x :: x in s.index ==> t.index[x] == s.index[x])
    && (forall x :: x in s.low ==> t.low[x] == s.low[x])
    && s.stack <= t.stack && s.on <= t.on
    && s.counter <= t.counter
  }

  /** `low[v]` names a module on the stack that `v` reaches. */
  ghost predicate LowReached(g: Graph, s: Dfs, v: Module)
    requires s.on <= s.index.Keys && v in s.low
  {
    exists y :: y in s.on && s.index[y] == s.low[v] && Reach(g, v, y)
  }

  /** Imports of a completed subtree into the older stack are accounted for in `low`. */
  ghost predicate LowBounds(g: Graph, s: Dfs, low: nat, x: Module, older: set<Module>)
    requires older <= s.index.Keys
  {
    forall b :: b in Succ(g, x) && b in older ==> low <= s.index[b]
  }

  ghost predicate SegmentBounded(g: Graph, s: Dfs, low: nat, from: nat, older: set<Module>)
    requires older <= s.index.Keys && from <= |s.stack|
  {
    forall k :: from <= k < |s.stack| ==> LowBounds(g, s, low, s.stack[k], older)
  }

  /** What one `visit(v)` establishes. */
  ghost predicate Visited(g: Graph, s: Dfs, t: Dfs, gray: set<Module>, v: Module)
    requires WellNumbered(s)
  {
    && Inv(g, t, gray)
    && Extends(s, t)
    && v in t.index && s.counter <= t.index[v]
    && (v in t.on ==> LowReached(g, t, v))
    && (v !in t.on ==> t.low[v] == t.index[v])
    && SegmentBounded(g, t, t.low[v], |s.stack|, s.on)
  }

  /** The state inside `visit(v)`, entered at `s`, with the imports `done` handled. */
  ghost predicate Visiting(g: Graph, s: Dfs, t: Dfs, gray: set<Module>, v: Module, done: set<Module>)
    requires WellNumbered(s)
  {
    && Inv(g, t, gray + {v})
    && Extends(s, t)
    && |s.stack| < |t.stack| && t.stack[|s.stack|] == v
    && t.index[v] == s.counter && t.low[v] <= t.index[v]
    && LowReached(g, t, v)
    && SegmentBounded(g, t, t.low[v], |s.stack| + 1, s.on)
    && done <= t.index.Keys
    && (forall b :: b in done && b in s.on ==> t.low[v] <= t.index[b])
  }

  // ---- the steps of visit ----

  function Push(s: Dfs, v: Module): Dfs {
    s.(index := s.index[v := s.counter], low := s.low[v := s.counter], counter := s.counter + 1,
       stack := s.stack + [v], on := s.on + {v})
  }

  lemma PushNumbered(g: Graph, s: Dfs, v: Module)
    requires WellNumbered(s) && v !in s.index
    ensures WellNumbered(Push(s, v)) && Extends(s, Push(s, v)) && Push(s, v).Done() == s.Done()
  {
    var t := Push(s, v);
    assert forall x :: x in t.stack <==> x in s.stack || x == v;
    forall i, j | 0 <= i < j < |t.stack| ensures t.index[t.stack[i]] < t.index[t.stack[j]] {
      assert s.stack[i] in s.stack;
      if j < |s.stack| { assert s.stack[j] in s.stack; }
    }
  }

  lemma PushLinked(g: Graph, s: Dfs, gray: set<Module>, v: Module)
    requires WellNumbered(s) && gray <= s.on && StackLinked(g, s, gray) && v !in s.index
    requires forall x :: x in gray ==> Reach(g, x, v)
    requires WellNumbered(Push(s, v))
    ensures StackLinked(g, Push(s, v), gray + {v})
  {
    var t := Push(s, v);
    ReachSelf(g, v);
    forall y | y in s.on ensures Reach(g, y, v) && ReachesGray(g, t, gray + {v}, y) {
      assert ReachesGray(g, s, gray, y);
      var x :| x in gray && s.index[x] <= s.index[y] && Reach(g, y, x);
      ReachTrans(g, y, x, v);
      assert x in gray + {v};
    }
    assert v in gray + {v} && ReachesGray(g, t, gray + {v}, v);
    forall i, j | 0 <= i <= j < |t.stack| ensures Reach(g, t.stack[i], t.stack[j]) {
      if i < |s.stack| { assert s.stack[i] in s.on; }
    }
  }

  lemma PushClosed(g: Graph, s: Dfs, gray: set<Module>, v: Module)
    requires Closed(g, s, gray) && v !in s.index && v in Vertices(g)
    ensures Closed(g, Push(s, v), gray + {v})
  {
    hide Vertices, Succ;
    var t := Push(s, v);
    assert t.Done() == s.Done();
  }

  lemma PushVisits(g: Graph, s: Dfs, gray: set<Module>, v: Module)
    requires Inv(g, s, gray) && v !in s.index && v in Vertices(g)
    requires forall x :: x in gray ==> Reach(g, x, v)
    ensures WellNumbered(s) && Visiting(g, s, Push(s, v), gray, v, {})
  {
    PushNumbered(g, s, v);
    PushClosed(g, s, gray, v);
    PushLinked(g, s, gray, v);
    ReachSelf(g, v);
    hide StackLinked, Listed, Reach, Closed, WellNumbered, Extends;
    assert v in Push(s, v).on && Push(s, v).index[v] == Push(s, v).low[v];
  }

  function Lower(s: Dfs, v: Module, n: nat): Dfs
    requires v in s.low
  {
    s.(low := s.low[v := if n < s.low[v] then n else s.low[v]])
  }

  lemma LowerKeeps(g: Graph, s: Dfs, gray: set<Module>, v: Module, n: nat)
    requires v in s.low && Inv(g, s, gray)
    ensures Inv(g, Lower(s, v, n), gray)
  {
    var t := Lower(s, v, n);
    assert t.Done() == s.Done();
    assert WellNumbered(t) by { hide StackLinked, Listed, Closed; }
    assert Closed(g, t, gray) by { hide StackLinked, Listed, WellNumbered; }
    assert StackLinked(g, t, gray) by {
      forall y | y in t.on ensures ReachesGray(g, t, gray, y) { assert ReachesGray(g, s, gray, y); }
    }
  }

  lemma LowerReached(g: Graph, t: Dfs, v: Module, n: nat)
    requires t.on <= t.index.Keys && v in t.low && LowReached(g, t, v)
    requires n < t.low[v] ==> exists y :: y in t.on && t.index[y] == n && Reach(g, v, y)
    ensures LowReached(g, Lower(t, v, n), v)
  {
    hide Reach;
    var u := Lower(t, v, n);
    var y :| y in t.on && t.index[y] == u.low[v] && Reach(g, v, y);
    assert y in u.on;
  }

  lemma LowerSegment(g: Graph, t: Dfs, v: Module, low: nat, n: nat, from: nat, older: set<Module>)
    requires older <= t.index.Keys && from <= |t.stack| && v in t.low && n <= low
    requires SegmentBounded(g, t, low, from, older)
    ensures SegmentBounded(g, Lower(t, v, n), n, from, older)
  {
    forall k | from <= k < |t.stack| ensures LowBounds(g, Lower(t, v, n), n, t.stack[k], older) {
      assert LowBounds(g, t, low, t.stack[k], older);
    }
  }

  /** The `elif w in on` branch, and the silent case of a completed import. */
  lemma SkipVisits(g: Graph, s: Dfs, t: Dfs, gray: set<Module>, v: Module, done: set<Module>, w: Module)
    requires WellNumbered(s) && v !in s.index
    requires Visiting(g, s, t, gray, v, done) && w in Succ(g, v) && w in t.index
    ensures w in t.on ==> Visiting(g, s, Lower(t, v, t.index[w]), gray, v, done + {w})
    ensures w !in t.on ==> Visiting(g, s, t, gray, v, done + {w})
  {
    hide StackLinked, Listed, Reach, Closed, LowReached, SegmentBounded, Vertices, Succ;
    if w in t.on {
      var u := Lower(t, v, t.index[w]);
      LowerKeeps(g, t, gray + {v}, v, t.index[w]);
      ReachEdge(g, v, w);
      LowerReached(g, t, v, t.index[w]);
      LowerSegment(g, t, v, t.low[v], u.low[v], |s.stack| + 1, s.on);
      hide WellNumbered, Inv;
      assert Extends(s, u);
    }
  }

  lemma ChildReached(g: Graph, t: Dfs, u: Dfs, v: Module, w: Module)
    requires t.on <= t.index.Keys && u.on <= u.index.Keys && Extends(t, u)
    requires v in t.index && v in t.low && w in u.index && w in u.low && Reach(g, v, w)
    requires LowReached(g, t, v) && t.low[v] <= t.index[v] < t.counter <= u.index[w]
    requires w in u.on ==> LowReached(g, u, w)
    requires w !in u.on ==> u.low[w] == u.index[w]
    ensures LowReached(g, Lower(u, v, u.low[w]), v)
  {
    hide Reach;
    assert LowReached(g, u, v) by {
      var y :| y in t.on && t.index[y] == t.low[v] && Reach(g, v, y);
      assert y in u.on;
    }
    if u.low[w] < u.low[v] {
      var y :| y in u.on && u.index[y] == u.low[w] && Reach(g, w, y);
      ReachTrans(g, v, w, y);
    }
    LowerReached(g, u, v, u.low[w]);
  }

  lemma ExtendsTrans(s: Dfs, t: Dfs, u: Dfs, v: Module, n: nat)
    requires Extends(s, t) && Extends(t, u) && v in u.low && v !in s.low
    ensures Extends(s, Lower(u, v, n))
  {
  }

  /** The recursive branch: `visit(w)` ran from `t` and left `u`. */
  lemma ChildVisits(g: Graph, s: Dfs, t: Dfs, u: Dfs, gray: set<Module>, v: Module, done: set<Module>, w: Module)
    requires WellNumbered(s) && v !in s.index && WellNumbered(t)
    requires Visiting(g, s, t, gray, v, done) && w in Succ(g, v) && w !in t.index
    requires Visited(g, t, u, gray + {v}, w)
    ensures Visiting(g, s, Lower(u, v, u.low[w]), gray, v, done + {w})
  {
    hide StackLinked, Listed, Reach, Closed, SegmentBounded, Vertices, Succ, LowReached;
    LowerKeeps(g, u, gray + {v}, v, u.low[w]);
    ReachEdge(g, v, w);
    ChildReached(g, t, u, v, w);
    ChildSegment(g, s, t, u, v, w);
    ExtendsTrans(s, t, u, v, u.low[w]);
    hide WellNumbered, Inv;
    assert Lower(u, v, u.low[w]).stack[|s.stack|] == v;
  }

  lemma ChildSegment(g: Graph, s: Dfs, t: Dfs, u: Dfs, v: Module, w: Module)
    requires s.on <= s.index.Keys && v !in s.index && v in t.low && w in u.low && v in u.low
    requires t.on <= t.index.Keys && Extends(s, t) && Extends(t, u) && |s.stack| < |t.stack|
    requires SegmentBounded(g, t, t.low[v], |s.stack| + 1, s.on)
    requires SegmentBounded(g, u, u.low[w], |t.stack|, t.on)
    ensures SegmentBounded(g, Lower(u, v, u.low[w]), Lower(u, v, u.low[w]).low[v], |s.stack| + 1, s.on)
  {
    var r := Lower(u, v, u.low[w]);
    forall k | |s.stack| + 1 <= k < |r.stack| ensures LowBounds(g, r, r.low[v], r.stack[k], s.on) {
      if k < |t.stack| {
        assert LowBounds(g, t, t.low[v], t.stack[k], s.on);
      } else {
        assert LowBounds(g, u, u.low[w], u.stack[k], t.on);
      }
    }
  }

  // ---- completing a component ----

  ghost function Segment(s: Dfs, t: Dfs): set<Module>
    requires |s.stack| <= |t.stack|
  {
    set x | x in t.stack[|s.stack|..]
  }

  /** A module above `v` on the stack that imports one below lowers `low[v]`. */
  lemma EdgeBelowLowers(g: Graph, s: Dfs, t: Dfs, v: Module, a: Module, b: Module)
    requires WellNumbered(s) && v !in s.index && WellNumbered(t) && Extends(s, t)
    requires |s.stack| < |t.stack| && t.stack[|s.stack|] == v
    requires SegmentBounded(g, t, t.low[v], |s.stack| + 1, s.on)
    requires forall x :: x in Succ(g, v) && x in s.on ==> t.low[v] <= t.index[x]
    requires a in Segment(s, t) && b in Succ(g, a) && b in t.on && b !in Segment(s, t)
    ensures t.low[v] < t.index[v]
  {
    var n := |s.stack|;
    assert t.stack == s.stack + t.stack[n..];
    var k :| 0 <= k < n && s.stack[k] == b;
    assert t.stack[k] == b && b in s.on && t.index[b] < t.index[v];
    var i :| 0 <= i < |t.stack[n..]| && t.stack[n..][i] == a;
    if i > 0 { assert LowBounds(g, t, t.low[v], t.stack[n + i], s.on); }
  }

  lemma SegmentReachesBack(g: Graph, s: Dfs, t: Dfs, gray: set<Module>, v: Module, y: Module)
    requires WellNumbered(s) && gray <= s.on && Extends(s, t) && gray + {v} <= t.on <= t.index.Keys
    requires |s.stack| < |t.stack| && t.stack[|s.stack|] == v && StackLinked(g, t, gray + {v})
    requires forall x :: x in t.stack ==> x in t.on
    requires y in Segment(s, t)
    ensures Mutual(g, v, y) && y in t.on
  {
    ReachedFromBottom(g, s, t, v, y);
    hide Reach, Extends, WellNumbered;
    assert ReachesGray(g, t, gray + {v}, y);
    var x :| x in gray + {v} && t.index[x] <= t.index[y] && Reach(g, y, x);
    if x != v {
      OldReachesNew(g, s, t, v, x);
      ReachTrans(g, y, x, v);
    }
  }

  lemma ReachedFromBottom(g: Graph, s: Dfs, t: Dfs, v: Module, y: Module)
    requires |s.stack| < |t.stack| && t.stack[|s.stack|] == v && y in Segment(s, t)
    requires forall i, j :: 0 <= i <= j < |t.stack| ==> Reach(g, t.stack[i], t.stack[j])
    ensures Reach(g, v, y) && y in t.stack
  {
    hide Reach;
    var i :| 0 <= i < |t.stack[|s.stack|..]| && t.stack[|s.stack|..][i] == y;
    assert Reach(g, t.stack[|s.stack|], t.stack[|s.stack| + i]);
  }

  lemma OldReachesNew(g: Graph, s: Dfs, t: Dfs, v: Module, x: Module)
    requires WellNumbered(s) && Extends(s, t) && |s.stack| < |t.stack| && t.stack[|s.stack|] == v
    requires forall i, j :: 0 <= i <= j < |t.stack| ==> Reach(g, t.stack[i], t.stack[j])
    requires x in s.on
    ensures Reach(g, x, v)
  {
    var j :| 0 <= j < |s.stack| && s.stack[j] == x;
    assert t.stack[j] == x;
  }

  lemma GrayBelow(s: Dfs, t: Dfs, v: Module, x: Module)
    requires WellNumbered(s) && WellNumbered(t) && Extends(s, t) && x in s.on && |s.stack| < |t.stack|
    ensures x !in Segment(s, t)
  {
    var j :| 0 <= j < |s.stack| && s.stack[j] == x;
    assert t.stack[j] == x;
  }

  /** When `low[v] == index[v]` the stack from `v` up is exactly the component of `v`, and every
      import of it stays inside or leads to a completed module. */
  lemma SegmentIsComponent(g: Graph, s: Dfs, t: Dfs, gray: set<Module>, v: Module)
    requires WellNumbered(s) && gray <= s.on && v !in s.index
    requires Visiting(g, s, t, gray, v, Succ(g, v)) && t.low[v] == t.index[v]
    ensures forall y :: y in Segment(s, t) <==> Mutual(g, v, y)
    ensures forall a :: a in Segment(s, t) ==> a in t.on && Succ(g, a) <= t.Done() + Segment(s, t)
  {
    hide StackLinked, Listed, LowReached, Mutual, Extends;
    assert forall x :: x in t.on <==> x in t.stack;
    hide WellNumbered;
    var segment := Segment(s, t);
    assert v == t.stack[|s.stack|..][0];
    forall a | a in segment ensures Mutual(g, v, a) && a in t.on && Succ(g, a) <= t.Done() + segment {
      SegmentReachesBack(g, s, t, gray, v, a);
      if a in gray { GrayBelow(s, t, v, a); }
      forall b | b in Succ(g, a) ensures b in t.Done() + segment {
        assert b in t.index;
        if b in t.on && b !in segment { EdgeBelowLowers(g, s, t, v, a, b); }
      }
    }
    forall y | Mutual(g, v, y) ensures y in segment { ComponentInside(g, v, y, segment, t.Done()); }
  }

  lemma ComponentInside(g: Graph, v: Module, y: Module, segment: set<Module>, done: set<Module>)
    requires v in segment && v !in done && Mutual(g, v, y)
    requires forall a :: a in segment ==> Succ(g, a) <= done + segment
    requires forall a :: a in done ==> Succ(g, a) <= done
    ensures y in segment
  {
    if y !in segment {
      var a, b := Escape(g, v, y, segment);
      ReachTrans(g, b, y, v);
      ReachStaysIn(g, b, v, done);
    }
  }

  /** The state when `visit(v)` returns having popped `comp`. */
  function Completed(s: Dfs, t: Dfs, comp: seq<Module>): Dfs {
    t.(stack := s.stack, on := s.on, out := if |comp| > 1 then t.out + [Sort(ModuleLe, comp)] else t.out)
  }

  lemma PoppedStack(s: Dfs, t: Dfs, v: Module)
    requires WellNumbered(s) && WellNumbered(t) && Extends(s, t) && |s.stack| < |t.stack|
    ensures t.on - Segment(s, t) == s.on
  {
    forall x | x in s.on ensures x !in Segment(s, t) { GrayBelow(s, t, v, x); }
    assert t.stack == s.stack + t.stack[|s.stack|..];
    forall x | x in t.on ensures x in s.on || x in Segment(s, t) { assert x in t.stack; }
  }

  lemma ComponentIsCycle(g: Graph, v: Module, comp: seq<Module>)
    requires |comp| > 1 && NoDuplicates(comp) && forall y :: y in comp <==> Mutual(g, v, y)
    ensures IsCycle(g, Sort(ModuleLe, comp)) && forall y :: y in Sort(ModuleLe, comp) <==> y in comp
  {
    OrdersAreTotal();
    SortDistinct(ModuleLe, comp);
    SortedMembersAreCycle(g, Sort(ModuleLe, comp), comp[0], comp[1], set y | y in comp) by {
      forall y ensures y in comp <==> Mutual(g, comp[0], y) {
        assert comp[0] in comp;
        if y in comp { MutualTrans(g, v, comp[0], v); MutualTrans(g, comp[0], v, y); }
        if Mutual(g, comp[0], y) { MutualTrans(g, v, comp[0], y); }
      }
    }
  }

  lemma AppendCovers(g: Graph, out: seq<seq<Module>>, done: set<Module>, v: Module, comp: seq<Module>, x: Module,
      y: Module)
    requires AllCycles(g, out, done) && NoDuplicates(comp)
    requires forall y :: y in comp <==> Mutual(g, v, y)
    requires (x in done || x in comp) && Mutual(g, x, y) && x != y
    ensures InSome(if |comp| > 1 then out + [Sort(ModuleLe, comp)] else out, x)
  {
    hide Mutual, IsCycle, NoDuplicates, Sort;
    if x in done {
      assert InSome(out, x);
      var d :| d in out && x in d;
      assert d in out + [Sort(ModuleLe, comp)];
    } else {
      MutualTrans(g, v, x, y);
      assert x in comp && y in comp;
      ComponentIsCycle(g, v, comp);
      assert Sort(ModuleLe, comp) in out + [Sort(ModuleLe, comp)];
    }
  }

  lemma AppendListed(g: Graph, out: seq<seq<Module>>, done: set<Module>, v: Module, comp: seq<Module>)
    requires Listed(g, out, done) && NoDuplicates(comp)
    requires forall y :: y in comp <==> Mutual(g, v, y)
    requires forall y :: y in comp ==> y !in done
    ensures Listed(g, if |comp| > 1 then out + [Sort(ModuleLe, comp)] else out, done + set y | y in comp)
  {
    hide Mutual, InSome, Sort, Reach;
    var c := Sort(ModuleLe, comp);
    if |comp| > 1 { ComponentIsCycle(g, v, comp); assert c[0] in c; }
    forall x, y | x in done + (set y | y in comp) && Mutual(g, x, y) && x != y
      ensures InSome(if |comp| > 1 then out + [c] else out, x)
    {
      AppendCovers(g, out, done, v, comp, x, y);
    }
    assert OnlyCycles(g, if |comp| > 1 then out + [c] else out, done + set y | y in comp) by {
      hide IsCycle, AllCycles, NoDuplicates;
    }
    hide IsCycle, AllCycles;
    if |comp| > 1 {
      forall i | 0 <= i < |out| ensures out[i] != c { assert out[i] in out; }
    }
  }

  lemma CompletedLinked(g: Graph, s: Dfs, t: Dfs, gray: set<Module>, comp: seq<Module>)
    requires Extends(s, t) && gray <= s.on <= s.index.Keys && StackLinked(g, s, gray)
    ensures s.on <= t.index.Keys && StackLinked(g, Completed(s, t, comp), gray)
  {
    hide Reach;
    var r := Completed(s, t, comp);
    forall y | y in r.on ensures ReachesGray(g, r, gray, y) { assert ReachesGray(g, s, gray, y); }
  }

  lemma CompletedClosed(g: Graph, s: Dfs, t: Dfs, gray: set<Module>, v: Module, comp: seq<Module>)
    requires gray <= s.on <= t.index.Keys && Closed(g, t, gray + {v}) && Succ(g, v) <= t.index.Keys
    requires |s.stack| <= |t.stack| && t.on - Segment(s, t) == s.on && t.on <= t.index.Keys
    requires forall a :: a in Segment(s, t) ==> a in t.on && Succ(g, a) <= t.Done() + Segment(s, t)
    ensures Completed(s, t, comp).Done() == t.Done() + Segment(s, t)
    ensures Closed(g, Completed(s, t, comp), gray)
  {
    hide Vertices, Succ;
    assert Completed(s, t, comp).Done() == t.Done() + Segment(s, t);
  }

  lemma CompletedInv(g: Graph, s: Dfs, t: Dfs, gray: set<Module>, v: Module, comp: seq<Module>)
    requires Inv(g, s, gray) && v !in s.index
    requires Visiting(g, s, t, gray, v, Succ(g, v)) && t.low[v] == t.index[v]
    requires NoDuplicates(comp) && forall y :: y in comp <==> y in Segment(s, t)
    ensures Inv(g, Completed(s, t, comp), gray)
  {
    hide StackReaches, AllReachGray, OnlyCycles, AllCycles, NoDuplicates, LowReached, Mutual, SegmentBounded;
    var r := Completed(s, t, comp);
    SegmentIsComponent(g, s, t, gray, v);
    PoppedStack(s, t, v);
    assert WellNumbered(r) by { hide Closed; }
    hide WellNumbered;
    CompletedLinked(g, s, t, gray, comp);
    CompletedClosed(g, s, t, gray, v, comp);
    AppendListed(g, t.out, t.Done(), v, comp);
    assert Segment(s, t) == set y | y in comp;
  }

  lemma CompletedVisits(g: Graph, s: Dfs, t: Dfs, gray: set<Module>, v: Module, comp: seq<Module>)
    requires Inv(g, s, gray) && v !in s.index
    requires Visiting(g, s, t, gray, v, Succ(g, v)) && t.low[v] == t.index[v]
    requires NoDuplicates(comp) && forall y :: y in comp <==> y in Segment(s, t)
    ensures Visited(g, s, Completed(s, t, comp), gray, v)
  {
    hide StackLinked, Listed, LowReached, Closed;
    assert SegmentBounded(g, Completed(s, t, comp), t.low[v], |s.stack|, s.on);
    hide SegmentBounded;
    assert v !in s.on && s.counter <= t.index[v];
    CompletedInv(g, s, t, gray, v, comp);
    hide WellNumbered, Inv, Visiting;
    assert Extends(s, Completed(s, t, comp));
  }

  lemma KeptLinked(g: Graph, t: Dfs, gray: set<Module>, v: Module)
    requires gray <= t.on <= t.index.Keys && v in t.on && v in t.low && AllReachGray(g, t, gray + {v})
    requires LowReached(g, t, v) && t.low[v] < t.index[v]
    ensures AllReachGray(g, t, gray)
  {
    hide Reach;
    var z :| z in t.on && t.index[z] == t.low[v] && Reach(g, v, z);
    assert ReachesGray(g, t, gray + {v}, z);
    var x :| x in gray + {v} && t.index[x] <= t.index[z] && Reach(g, z, x);
    ReachTrans(g, v, z, x);
    forall y | y in t.on ensures ReachesGray(g, t, gray, y) {
      assert ReachesGray(g, t, gray + {v}, y);
      var w :| w in gray + {v} && t.index[w] <= t.index[y] && Reach(g, y, w);
      if w == v { ReachTrans(g, y, v, x); }
    }
  }

  lemma KeptSegment(g: Graph, s: Dfs, t: Dfs, v: Module)
    requires s.on <= t.index.Keys && |s.stack| < |t.stack| && t.stack[|s.stack|] == v && v in t.low
    requires SegmentBounded(g, t, t.low[v], |s.stack| + 1, s.on)
    requires LowBounds(g, t, t.low[v], v, s.on)
    ensures SegmentBounded(g, t, t.low[v], |s.stack|, s.on)
  {
  }

  /** `low[v] < index[v]`: the component is still open and stays on the stack. */
  lemma KeptVisits(g: Graph, s: Dfs, t: Dfs, gray: set<Module>, v: Module)
    requires Inv(g, s, gray) && v !in s.index
    requires Visiting(g, s, t, gray, v, Succ(g, v)) && t.low[v] != t.index[v]
    ensures Visited(g, s, t, gray, v)
  {
    hide StackReaches, AllReachGray, Listed, LowReached, SegmentBounded, Vertices;
    assert v in t.on by { assert v in t.stack; }
    hide WellNumbered;
    KeptLinked(g, t, gray, v);
    KeptSegment(g, s, t, v);
    assert Closed(g, t, gray) by { hide Extends; }
    hide Closed, Extends;
  }

  // ---- the search ----

  lemma ImportReachable(g: Graph, gray: set<Module>, v: Module, w: Module)
    requires w in Succ(g, v) && forall x :: x in gray ==> Reach(g, x, v)
    ensures w in Vertices(g) && forall x :: x in gray + {v} ==> Reach(g, x, w)
  {
    ReachEdge(g, v, w);
    hide Reach;
    forall x | x in gray ensures Reach(g, x, w) { ReachTrans(g, x, v, w); }
  }

  lemma VisitingFacts(g: Graph, s: Dfs, t: Dfs, gray: set<Module>, v: Module, done: set<Module>)
    requires WellNumbered(s) && Visiting(g, s, t, gray, v, done)
    ensures Inv(g, t, gray + {v}) && WellNumbered(t) && s.index.Keys <= t.index.Keys && v in t.index
    ensures t.low.Keys == t.index.Keys && done <= t.index.Keys
  {
  }

  lemma VisitedFacts(g: Graph, s: Dfs, t: Dfs, gray: set<Module>, v: Module)
    requires WellNumbered(s) && Visited(g, s, t, gray, v)
    ensures Inv(g, t, gray) && WellNumbered(t) && t.low.Keys == t.index.Keys && s.index.Keys <= t.index.Keys
      && v in t.index
  {
  }

  lemma SplitAt(s: seq<Module>, k: nat)
    requires k < |s| && NoDuplicates(s)
    ensures s[k..] == [s[k]] + s[k + 1..] && s[k] !in s[k + 1..] && s[..k + 1][..k] == s[..k]
  {
  }

  lemma StackDistinct(s: Dfs)
    requires WellNumbered(s)
    ensures NoDuplicates(s.stack)
  {
    forall i, j | 0 <= i < j < |s.stack| ensures s.stack[i] != s.stack[j] {
      assert s.stack[i] in s.stack && s.stack[j] in s.stack;
    }
  }

  lemma EmptyGrayReachesNothing(g: Graph, s: Dfs, y: Module)
    requires s.on <= s.index.Keys && AllReachGray(g, s, {})
    ensures y !in s.on
  {
    if y in s.index { assert !ReachesGray(g, s, {}, y); }
  }

  /** With no `visit` in progress the stack is empty, so every visited module is completed. */
  lemma AllListed(g: Graph, s: Dfs)
    requires Inv(g, s, {}) && g.Keys <= s.index.Keys
    ensures IsCycleListing(g, Sort(CycleLe, s.out))
  {
    assert s.on == {} by {
      if y :| y in s.on { EmptyGrayReachesNothing(g, s, y); }
    }
    hide StackLinked, Closed, WellNumbered, Reach, Mutual;
    OrdersAreTotal();
    SortDistinct(CycleLe, s.out);
    forall c | IsCycle(g, c) ensures c in s.out {
      assert c[0] in c && c[1] in c;
      MutualIsKey(g, c[0], c[1]);
      assert InSome(s.out, c[0]);
      var d :| d in s.out && c[0] in d;
      CyclesShareNothing(g, c, d, c[0]);
    }
  }

  class CycleSearch {
    const edges: Graph
    var index: map<Module, nat>
    var low: map<Module, nat>
    var stack: seq<Module>
    var on: set<Module>
    var counter: nat
    var out: seq<seq<Module>>

    ghost function State(): Dfs
      reads this
    {
      Dfs(index, low, stack, on, counter, out)
    }

    constructor (edges: Graph)
      ensures this.edges == edges && State() == Dfs(map[], map[], [], {}, 0, [])
    {
      this.edges := edges;
      index, low, stack, on, counter, out := map[], map[], [], {}, 0, [];
    }

    /** The pop loop of `visit`: everything above and including `v`. */
    method PopComponent(v: Module, ghost n: nat) returns (comp: seq<Module>)
      requires n < |stack| && stack[n] == v && NoDuplicates(stack)
      modifies `stack, `on
      ensures stack == old(stack)[..n] && on == old(on) - set x | x in old(stack)[n..]
      ensures NoDuplicates(comp) && forall x :: x in comp <==> x in old(stack)[n..]
    {
      comp := [];
      ghost var full, k := stack, |stack|;
      while true
        invariant n < k <= |full| && stack == full[..k]
        invariant NoDuplicates(comp) && forall x :: x in comp <==> x in full[k..]
        invariant on == old(on) - set x | x in full[k..]
        decreases k
      {
        SplitAt(full, k - 1);
        k := k - 1;
        var w := stack[|stack| - 1];
        stack := stack[..|stack| - 1];
        on := on - {w};
        assert forall i :: 0 <= i < |comp| ==> comp[i] in comp;
        comp := comp + [w];
        if w == v {
          assert k == n;
          break;
        }
      }
    }

    /** The end of `visit(v)`, entered at `entry`, once every import of `v` is handled. */
    method Finish(v: Module, ghost entry: Dfs, ghost gray: set<Module>)
      requires Inv(edges, entry, gray) && v !in entry.index
      requires Visiting(edges, entry, State(), gray, v, Succ(edges, v))
      modifies this
      ensures Visited(edges, entry, State(), gray, v)
    {
      hide Reach, Vertices, Closed, StackLinked, Listed, LowReached, SegmentBounded;
      ghost var full := State();
      VisitingFacts(edges, entry, full, gray, v, Succ(edges, v));
      StackDistinct(full);
      PoppedStack(entry, full, v);
      hide WellNumbered, Inv, NoDuplicates;
      if low[v] == index[v] {
        var comp := PopComponent(v, |entry.stack|);
        CompletedVisits(edges, entry, full, gray, v, comp);
        if |comp| > 1 {
          out := out + [Sort(ModuleLe, comp)];
        }
        assert State() == Completed(entry, full, comp);
      } else {
        KeptVisits(edges, entry, full, gray, v);
      }
    }

    method Visit(v: Module, ghost gray: set<Module>)
      requires Inv(edges, State(), gray) && v !in index && v in Vertices(edges)
      requires forall x :: x in gray ==> Reach(edges, x, v)
      modifies this
      ensures Visited(edges, old(State()), State(), gray, v)
      decreases Vertices(edges) - index.Keys
    {
      hide Inv, Reach, Vertices, Visiting, Visited, WellNumbered, SortedBy, NoDuplicates, Succ;
      ghost var entry := State();
      PushVisits(edges, entry, gray, v);
      index, low := index[v := counter], low[v := counter];
      counter := counter + 1;
      stack := stack + [v];
      on := on + {v};
      OrdersAreTotal();
      var imports := SortSet(ModuleLe, Succ(edges, v));
      assert State() == Push(entry, v);
      ghost var handled: set<Module> := {};
      for i := 0 to |imports|
        invariant Visiting(edges, entry, State(), gray, v, handled)
        invariant forall x :: x in handled <==> x in imports[..i]
        invariant v in index && entry.index.Keys <= index.Keys
      {
        var w := imports[i];
        ghost var before := State();
        VisitingFacts(edges, entry, before, gray, v, handled);
        assert w in imports;
        if w !in index {
          ImportReachable(edges, gray, v, w);
          Visit(w, gray + {v});
          VisitedFacts(edges, before, State(), gray + {v}, w);
          ChildVisits(edges, entry, before, State(), gray, v, handled, w);
          low := low[v := if low[w] < low[v] then low[w] else low[v]];
        } else if w in on {
          SkipVisits(edges, entry, before, gray, v, handled, w);
          low := low[v := if index[w] < low[v] then index[w] else low[v]];
        } else {
          SkipVisits(edges, entry, before, gray, v, handled, w);
        }
        handled := handled + {w};
        assert imports[..i + 1] == imports[..i] + [w];
      }
      assert imports[..|imports|] == imports && handled == Succ(edges, v);
      Finish(v, entry, gray);
    }

    /** Every import cycle of the graph, each once, in order. */
    method Cycles() returns (r: seq<seq<Module>>)
      requires State() == Dfs(map[], map[], [], {}, 0, [])
      modifies this
      ensures IsCycleListing(edges, r)
    {
      hide Inv, Reach, Visited, WellNumbered, SortedBy, NoDuplicates;
      EmptySearch(edges);
      OrdersAreTotal();
      var roots := SortSet(ModuleLe, edges.Keys);
      for i := 0 to |roots|
        invariant WellNumbered(State()) && Inv(edges, State(), {})
        invariant forall k :: 0 <= k < i ==> roots[k] in index
      {
        assert roots[i] in roots;
        if roots[i] !in index {
          ghost var before := State();
          Visit(roots[i], {});
          VisitedFacts(edges, before, State(), {}, roots[i]);
        }
      }
      AllListed(edges, State());
      r := Sort(CycleLe, out);
    }
  }

  /** `_cycles(edges)`. */
  method FindCycles(edges: Graph) returns (r: seq<seq<Module>>)
    ensures IsCycleListing(edges, r)
    ensures r == [] <==> forall x, y :: Mutual(edges, x, y) ==> x == y
  {
    var search := new CycleSearch(edges);
    r := search.Cycles();
    NoCyclesMeansAcyclic(edges, r);
  }

  lemma EmptySearch(g: Graph)
    ensures WellNumbered(Dfs(map[], map[], [], {}, 0, [])) && Inv(g, Dfs(map[], map[], [], {}, 0, []), {})
  {
  }
}
