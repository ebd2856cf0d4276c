/** Public imports: which files a file may use symbols from. */
module Imports {
  import opened Wrappers
  import opened Descriptors

  type Memory = map<Addr, FileDescriptor>

  /** The files that a file imports publicly, NULL imports aside. */
  function PublicImports(m: Memory, a: Addr): seq<Option<Addr>> {
    if a in m then
      var f := m[a];
      seq(|f.publicDependencies|, i requires 0 <= i < |f.publicDependencies| =>
        if f.publicDependencies[i] < |f.dependencies| then f.dependencies[f.publicDependencies[i]] else None)
    else []
  }

  /** Every import points into memory. */
  ghost predicate Complete(m: Memory) {
    forall a, d :: a in m && d in m[a].dependencies && d.Some? ==> d.value in m
  }

  lemma CompleteEdges(m: Memory, f: Addr)
    requires Complete(m)
    ensures forall d :: d in PublicImports(m, f) && d.Some? ==> d.value in m
  {
  }

  ghost predicate Edge(m: Memory, a: Addr, b: Addr) {
    Some(b) in PublicImports(m, a)
  }

  /** A chain of public imports. */
  ghost predicate Chain(m: Memory, path: seq<Addr>) {
    |path| > 0 && forall i :: 0 <= i < |path| - 1 ==> Edge(m, path[i], path[i + 1])
  }

  ghost predicate Reachable(m: Memory, roots: set<Addr>, a: Addr) {
    exists path :: Chain(m, path) && path[0] in roots && path[|path| - 1] == a
  }

  /** The non-NULL elements of an import list. */
  function Present(ds: seq<Option<Addr>>): set<Addr> {
    set d | d in ds && d.Some? :: d.value
  }

  /** All successors of the members of `inner` are in `outer`. */
  ghost predicate ClosedInto(m: Memory, inner: set<Addr>, outer: set<Addr>) {
    forall a, b :: a in inner && Edge(m, a, b) ==> b in outer
  }

  /** What was added to `before` is closed, up to the file itself, and reachable from the file. */
  ghost predicate Descending(m: Memory, before: set<Addr>, f: Addr, now: set<Addr>) {
    && before + {f} <= now <= m.Keys
    && ClosedInto(m, now - before - {f}, now)
    && forall a :: a in now && a !in before ==> Reachable(m, {f}, a)
  }

  /** What a whole descent from an import adds. */
  ghost predicate Descended(m: Memory, before: set<Addr>, root: Option<Addr>, now: set<Addr>) {
    && before <= now <= m.Keys
    && (root.Some? ==> root.value in now)
    && ClosedInto(m, now - before, now)
    && (root.None? ==> now == before)
    && forall a :: a in now && a !in before ==> root.Some? && Reachable(m, {root.value}, a)
  }

  lemma Descend(m: Memory, before: set<Addr>, f: Addr)
    requires before <= m.Keys && f in m && f !in before
    ensures Descending(m, before, f, before + {f})
  {
    ReachableRoot(m, {f}, f);
  }

  lemma DescendMore(m: Memory, before: set<Addr>, f: Addr, mid: set<Addr>, root: Option<Addr>, now: set<Addr>)
    requires Descending(m, before, f, mid) && Descended(m, mid, root, now) && root in PublicImports(m, f)
    ensures Descending(m, before, f, now)
  {
    hide Reachable;
    forall a, b | a in now - before - {f} && Edge(m, a, b) ensures b in now {
      if a in mid {
        assert a in mid - before - {f};
      } else {
        assert a in now - mid;
      }
    }
    forall a | a in now && a !in before ensures Reachable(m, {f}, a) {
      if a !in mid {
        ReachableThrough(m, f, root.value, a);
      }
    }
  }

  lemma DescendEnd(m: Memory, before: set<Addr>, f: Addr, now: set<Addr>)
    requires Descending(m, before, f, now) && f !in before
    requires forall d :: d in PublicImports(m, f) && d.Some? ==> d.value in now
    ensures Descended(m, before, Some(f), now)
  {
  }

  lemma ReachableThrough(m: Memory, f: Addr, g: Addr, b: Addr)
    requires Edge(m, f, g) && Reachable(m, {g}, b)
    ensures Reachable(m, {f}, b)
  {
    var path :| Chain(m, path) && path[0] in {g} && path[|path| - 1] == b;
    var longer := [f] + path;
    forall i | 0 <= i < |longer| - 1 ensures Edge(m, longer[i], longer[i + 1]) {
      if i > 0 {
        assert Edge(m, path[i - 1], path[i]);
      }
    }
    assert Chain(m, longer) && longer[0] in {f} && longer[|longer| - 1] == b;
  }

  lemma ReachableFrom(m: Memory, some: set<Addr>, roots: set<Addr>, a: Addr)
    requires Reachable(m, some, a) && some <= roots
    ensures Reachable(m, roots, a)
  {
  }

  lemma ClosedTogether(m: Memory, before: set<Addr>, after: set<Addr>)
    requires ClosedInto(m, before, before) && before <= after && ClosedInto(m, after - before, after)
    ensures ClosedInto(m, after, after)
  {
  }

  lemma ReachableRoot(m: Memory, roots: set<Addr>, a: Addr)
    requires a in roots
    ensures Reachable(m, roots, a)
  {
    assert Chain(m, [a]) && [a][0] in roots && [a][|[a]| - 1] == a;
  }

  /** A set that holds the roots and is closed under public imports holds everything reachable. */
  lemma {:induction false} ClosedHoldsReachable(m: Memory, s: set<Addr>, path: seq<Addr>)
    requires Chain(m, path) && path[0] in s && ClosedInto(m, s, s)
    ensures path[|path| - 1] in s
  {
    if |path| > 1 {
      assert Edge(m, path[0], path[1]);
      assert Chain(m, path[1..]) by {
        forall i | 0 <= i < |path[1..]| - 1 ensures Edge(m, path[1..][i], path[1..][i + 1]) {
          assert Edge(m, path[i + 1], path[i + 2]);
        }
      }
      ClosedHoldsReachable(m, s, path[1..]);
    }
  }

  /** The least closed set over the roots is exactly what is reachable. */
  lemma ClosureIsReachable(m: Memory, roots: set<Addr>, s: set<Addr>)
    requires roots <= s && ClosedInto(m, s, s)
    requires forall a :: a in s ==> Reachable(m, roots, a)
    ensures forall a :: a in s <==> Reachable(m, roots, a)
  {
    forall a | Reachable(m, roots, a) ensures a in s {
      var path :| Chain(m, path) && path[0] in roots && path[|path| - 1] == a;
      ClosedHoldsReachable(m, s, path);
    }
  }
}
