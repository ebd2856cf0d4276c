/** Scoped name resolution: what the in-place lookup loop of the builder computes. */
module Lookup {
  import opened Wrappers
  import opened Names
  import opened Descriptors

  /** A symbol table as seen by a lookup. */
  type Finder = string -> Option<Symbol>

  predicate Compound(name: string) {
    FirstPart(name) != name
  }

  /** Whether what was found for the first part of a name ends the search. */
  predicate Stops(s: Option<Symbol>, name: string, typesOnly: bool) {
    s.Some? && if Compound(name) then s.value.IsAggregate() else typesOnly ==> s.value.IsType()
  }

  /** The symbol that the first part of a name denotes right inside the first `depth` components of a scope. */
  function FirstAt(find: Finder, scope: seq<string>, depth: nat, name: string): Option<Symbol>
    requires 0 < depth <= |scope|
  {
    find(Join(scope[..depth]) + "." + FirstPart(name))
  }

  /** Resolution from the innermost enclosing scope outwards; a scope is the list of its dotted components. */
  function Resolve(find: Finder, scope: seq<string>, name: string, typesOnly: bool): Option<Symbol>
    requires |scope| > 0
    decreases |scope|
  {
    if |scope| == 1 then find(name)
    else
      var outer := scope[..|scope| - 1];
      var s := find(Join(outer) + "." + FirstPart(name));
      if !Stops(s, name, typesOnly) then Resolve(find, outer, name, typesOnly)
      else if Compound(name) then find(Join(outer) + "." + name)
      else s
  }

  /** One turn of resolution, with the scope held as the dotted string that is chopped. */
  lemma ResolveChopped(find: Finder, scope: seq<string>, name: string, typesOnly: bool)
    requires Components(scope)
    ensures var dot := LastDot(Join(scope));
            if dot < 0 then Resolve(find, scope, name, typesOnly) == find(name)
            else
              |scope| > 1 &&
              var outer, s := scope[..|scope| - 1], find(Join(scope)[..dot] + "." + FirstPart(name));
              && Components(outer) && Join(scope)[..dot] == Join(outer)
              && Resolve(find, scope, name, typesOnly)
                 == if !Stops(s, name, typesOnly) then Resolve(find, outer, name, typesOnly)
                    else if Compound(name) then find(Join(outer) + "." + name)
                    else s
  {
    hide Stops, FirstPart, LastDot;
    JoinChop(scope);
  }

  /** The innermost scope whose first part stops the search decides the answer, even when the rest of a compound
      name is then missing; without such a scope the name is looked up from the root. */
  lemma {:induction false} ResolveDecided(find: Finder, scope: seq<string>, name: string,
                                          typesOnly: bool, depth: nat)
    requires depth < |scope|
    requires forall i :: depth < i < |scope| ==> !Stops(FirstAt(find, scope, i, name), name, typesOnly)
    requires depth > 0 ==> Stops(FirstAt(find, scope, depth, name), name, typesOnly)
    ensures Resolve(find, scope, name, typesOnly)
            == if depth == 0 then find(name)
               else if Compound(name) then find(Join(scope[..depth]) + "." + name)
               else FirstAt(find, scope, depth, name)
    decreases |scope|
  {
    var n := |scope| - 1;
    if n > 0 && depth < n {
      var outer := scope[..n];
      assert outer == scope[..n];
      assert !Stops(FirstAt(find, scope, n, name), name, typesOnly);
      forall i | 0 < i <= n ensures outer[..i] == scope[..i] {}
      forall i | depth < i < |outer| ensures !Stops(FirstAt(find, outer, i, name), name, typesOnly) {
        assert FirstAt(find, outer, i, name) == FirstAt(find, scope, i, name);
      }
      ResolveDecided(find, outer, name, typesOnly, depth);
    }
  }

  // ---------- resolution while the table grows ----------

  /** What was found before is found after. */
  ghost predicate Grown(before: Finder, after: Finder) {
    forall q :: before(q).Some? ==> after(q) == before(q)
  }

  /** An answer at some time between the two: what was there before is found, and what is found is there after. */
  ghost predicate Between(r: Option<Symbol>, q: string, before: Finder, after: Finder) {
    && (before(q).Some? ==> r == before(q))
    && (r.Some? ==> r == after(q))
  }

  lemma GrownTrans(a: Finder, b: Finder, c: Finder)
    requires Grown(a, b) && Grown(b, c)
    ensures Grown(a, c)
  {
  }

  lemma BetweenWider(r: Option<Symbol>, q: string, a: Finder, b: Finder, c: Finder, d: Finder)
    requires Grown(a, b) && Between(r, q, b, c) && Grown(c, d)
    ensures Between(r, q, a, d)
  {
  }

  /** The first part of the name can be passed over in a scope. */
  ghost predicate MayPass(before: Finder, after: Finder, scope: string, name: string, typesOnly: bool) {
    exists s :: Between(s, scope + "." + FirstPart(name), before, after) && !Stops(s, name, typesOnly)
  }

  /** The first part of the name can decide in a scope, with this answer. */
  ghost predicate MayDecide(before: Finder, after: Finder, scope: string, name: string, typesOnly: bool,
                            r: Option<Symbol>)
  {
    exists s ::
      && Between(s, scope + "." + FirstPart(name), before, after) && Stops(s, name, typesOnly)
      && if Compound(name) then Between(r, scope + "." + name, before, after) else r == s
  }

  /** From the innermost scope out to `depth` components, the first part can be passed over. */
  ghost predicate MayReach(before: Finder, after: Finder, scope: seq<string>, name: string, typesOnly: bool, depth: nat)
  {
    forall i :: depth <= i < |scope| && i > 0 ==> MayPass(before, after, Join(scope[..i]), name, typesOnly)
  }

  /** A resolution each of whose lookups happens at some time between the two. */
  ghost predicate MayResolve(before: Finder, after: Finder, scope: seq<string>, name: string, typesOnly: bool,
                             r: Option<Symbol>)
  {
    exists depth: nat :: ResolvesAt(before, after, scope, name, typesOnly, depth, r)
  }

  ghost predicate ResolvesAt(before: Finder, after: Finder, scope: seq<string>, name: string, typesOnly: bool,
                             depth: nat, r: Option<Symbol>)
  {
    && depth < |scope| && MayReach(before, after, scope, name, typesOnly, depth + 1)
    && if depth == 0 then Between(r, name, before, after)
       else MayDecide(before, after, Join(scope[..depth]), name, typesOnly, r)
  }

  lemma MayReachLater(a: Finder, b: Finder, c: Finder, scope: seq<string>, name: string, typesOnly: bool, depth: nat)
    requires MayReach(a, b, scope, name, typesOnly, depth) && Grown(b, c)
    ensures MayReach(a, c, scope, name, typesOnly, depth)
  {
    hide Stops, Grown, Join, Between, FirstPart;
    forall i | depth <= i < |scope| && i > 0 ensures MayPass(a, c, Join(scope[..i]), name, typesOnly) {
      assert MayPass(a, b, Join(scope[..i]), name, typesOnly);
      var q := Join(scope[..i]) + "." + FirstPart(name);
      var s :| Between(s, q, a, b) && !Stops(s, name, typesOnly);
      GrownRefl(a);
      BetweenWider(s, q, a, a, b, c);
    }
  }

  lemma GrownRefl(f: Finder)
    ensures Grown(f, f)
  {
  }

  lemma MayReachNext(a: Finder, b: Finder, scope: seq<string>, name: string, typesOnly: bool, depth: nat)
    requires MayReach(a, b, scope, name, typesOnly, depth + 1)
    requires depth > 0 && depth <= |scope| && MayPass(a, b, Join(scope[..depth]), name, typesOnly)
    ensures MayReach(a, b, scope, name, typesOnly, depth)
  {
    hide MayPass, Join;
  }

  lemma BetweenSame(r: Option<Symbol>, q: string, f: Finder)
    ensures Between(r, q, f, f) <==> r == f(q)
  {
  }

  /** When nothing is loaded in between, this is resolution. */
  lemma MayResolveSame(find: Finder, scope: seq<string>, name: string, typesOnly: bool, r: Option<Symbol>)
    requires |scope| > 0
    ensures MayResolve(find, find, scope, name, typesOnly, r) <==> r == Resolve(find, scope, name, typesOnly)
  {
    hide Stops, Join, Between, Resolve;
    forall depth: nat | ResolvesAt(find, find, scope, name, typesOnly, depth, r)
      ensures r == Resolve(find, scope, name, typesOnly)
    {
      DecidedSame(find, scope, name, typesOnly, depth, r);
    }
    var depth := Deciding(find, scope, name, typesOnly);
    DecidesSame(find, scope, name, typesOnly, depth);
  }

  /** The number of components of the scope that decides. */
  ghost function Deciding(find: Finder, scope: seq<string>, name: string, typesOnly: bool): (depth: nat)
    requires |scope| > 0
    ensures depth < |scope|
    ensures forall i :: depth < i < |scope| ==> !Stops(FirstAt(find, scope, i, name), name, typesOnly)
    ensures depth > 0 ==> Stops(FirstAt(find, scope, depth, name), name, typesOnly)
  {
    DecidingFrom(find, scope, name, typesOnly, |scope| - 1)
  }

  ghost function DecidingFrom(find: Finder, scope: seq<string>, name: string, typesOnly: bool, k: nat): (depth: nat)
    requires k < |scope|
    requires forall i :: k < i < |scope| ==> !Stops(FirstAt(find, scope, i, name), name, typesOnly)
    ensures depth < |scope|
    ensures forall i :: depth < i < |scope| ==> !Stops(FirstAt(find, scope, i, name), name, typesOnly)
    ensures depth > 0 ==> Stops(FirstAt(find, scope, depth, name), name, typesOnly)
  {
    if k == 0 || Stops(FirstAt(find, scope, k, name), name, typesOnly) then k
    else DecidingFrom(find, scope, name, typesOnly, k - 1)
  }

  lemma DecidedSame(find: Finder, scope: seq<string>, name: string, typesOnly: bool, depth: nat, r: Option<Symbol>)
    requires ResolvesAt(find, find, scope, name, typesOnly, depth, r)
    ensures r == Resolve(find, scope, name, typesOnly)
  {
    hide Stops, Join, Between, Resolve;
    forall i | depth < i < |scope| ensures !Stops(FirstAt(find, scope, i, name), name, typesOnly) {
      assert MayPass(find, find, Join(scope[..i]), name, typesOnly);
      PassSame(find, Join(scope[..i]), name, typesOnly);
    }
    if depth > 0 {
      DecideSame(find, Join(scope[..depth]), name, typesOnly, r);
    } else {
      BetweenSame(r, name, find);
    }
    ResolveDecided(find, scope, name, typesOnly, depth);
  }

  lemma PassSame(find: Finder, scope: string, name: string, typesOnly: bool)
    ensures MayPass(find, find, scope, name, typesOnly)
            <==> !Stops(find(scope + "." + FirstPart(name)), name, typesOnly)
  {
    var q := scope + "." + FirstPart(name);
    hide Stops, FirstPart;
    assert Between(find(q), q, find, find);
  }

  lemma DecideSame(find: Finder, scope: string, name: string, typesOnly: bool, r: Option<Symbol>)
    ensures MayDecide(find, find, scope, name, typesOnly, r)
            <==> Stops(find(scope + "." + FirstPart(name)), name, typesOnly)
                 && r == if Compound(name) then find(scope + "." + name) else find(scope + "." + FirstPart(name))
  {
    var q := scope + "." + FirstPart(name);
    hide Stops, FirstPart;
    assert Between(find(q), q, find, find);
    BetweenSame(r, scope + "." + name, find);
  }

  lemma DecidesSame(find: Finder, scope: seq<string>, name: string, typesOnly: bool, depth: nat)
    requires depth < |scope|
    requires forall i :: depth < i < |scope| ==> !Stops(FirstAt(find, scope, i, name), name, typesOnly)
    requires depth > 0 ==> Stops(FirstAt(find, scope, depth, name), name, typesOnly)
    ensures ResolvesAt(find, find, scope, name, typesOnly, depth, Resolve(find, scope, name, typesOnly))
  {
    hide Stops, Join, Between, Resolve, MayPass, MayDecide;
    ResolveDecided(find, scope, name, typesOnly, depth);
    forall i | depth + 1 <= i < |scope| ensures MayPass(find, find, Join(scope[..i]), name, typesOnly) {
      assert !Stops(FirstAt(find, scope, i, name), name, typesOnly);
      PassSame(find, Join(scope[..i]), name, typesOnly);
    }
    if depth > 0 {
      DecideSame(find, Join(scope[..depth]), name, typesOnly, Resolve(find, scope, name, typesOnly));
    } else {
      BetweenSame(find(name), name, find);
    }
  }

  // ---------- the loop ----------

  lemma NothingPassed(find: Finder, scope: seq<string>, name: string, typesOnly: bool)
    ensures MayReach(find, find, scope, name, typesOnly, |scope|)
  {
  }

  /** At the root the whole name is looked up. */
  lemma ResolvedAtRoot(first: Finder, before: Finder, after: Finder, scope: seq<string>, n: nat, name: string,
                       typesOnly: bool, r: Option<Symbol>)
    requires n == 1 <= |scope| && MayReach(first, before, scope, name, typesOnly, n)
    requires Grown(first, before) && Grown(before, after) && Between(r, name, before, after)
    ensures MayResolve(first, after, scope, name, typesOnly, r)
  {
    hide MayReach, Grown, Between, MayPass;
    MayReachLater(first, before, after, scope, name, typesOnly, 1);
    GrownRefl(after);
    BetweenWider(r, name, first, before, after, after);
    assert ResolvesAt(first, after, scope, name, typesOnly, 0, r);
  }

  /** One scope either decides or is passed over. */
  lemma ScopeTried(first: Finder, before: Finder, after: Finder, scope: seq<string>, n: nat, name: string,
                   typesOnly: bool, done: bool, r: Option<Symbol>)
    requires 0 < n < |scope| && MayReach(first, before, scope, name, typesOnly, n + 1)
    requires Grown(first, before) && Grown(before, after)
    requires if done then MayDecide(before, after, Join(scope[..n]), name, typesOnly, r)
             else MayPass(before, after, Join(scope[..n]), name, typesOnly)
    ensures if done then MayResolve(first, after, scope, name, typesOnly, r)
            else MayReach(first, after, scope, name, typesOnly, n)
  {
    hide MayReach, Grown, Between, Stops, Join, FirstPart, Compound;
    MayReachLater(first, before, after, scope, name, typesOnly, n + 1);
    GrownRefl(after);
    var at := Join(scope[..n]);
    var q := at + "." + FirstPart(name);
    if done {
      var s :| Between(s, q, before, after) && Stops(s, name, typesOnly)
               && if Compound(name) then Between(r, at + "." + name, before, after) else r == s;
      BetweenWider(s, q, first, before, after, after);
      if Compound(name) {
        BetweenWider(r, at + "." + name, first, before, after, after);
      }
      assert MayDecide(first, after, at, name, typesOnly, r);
      assert ResolvesAt(first, after, scope, name, typesOnly, n, r);
    } else {
      var s :| Between(s, q, before, after) && !Stops(s, name, typesOnly);
      BetweenWider(s, q, first, before, after, after);
      assert MayPass(first, after, at, name, typesOnly);
      MayReachNext(first, after, scope, name, typesOnly, n);
    }
  }

  /** Two lookups one after the other both lie between the beginning and the end. */
  lemma TwoLookups(s: Option<Symbol>, r: Option<Symbol>, p: string, q: string, a: Finder, b: Finder, c: Finder)
    requires Between(s, p, a, b) && Between(r, q, b, c) && Grown(a, b) && Grown(b, c)
    ensures Between(s, p, a, c) && Between(r, q, a, c) && Grown(a, c)
  {
    GrownRefl(a);
    GrownRefl(c);
    BetweenWider(s, p, a, a, b, c);
    BetweenWider(r, q, a, b, c, c);
  }
}
