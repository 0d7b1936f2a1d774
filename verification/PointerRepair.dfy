/**
 * What the reconciler's pointer repair works with, on values: how its copies relate to the stored
 * objects, what one visited instance may lose and gain, and when every share is back where it points.
 */
module PointerRepair {
  import opened Objects

  // What relates the round's copies to the stored objects.

  /** Every copied share is the stored one as it was when copied. */
  ghost predicate InStep(ls: map<Name, ShareInfo>, shares: map<Name, ShareInfo>) {
    forall s | s in ls :: Tracks(ls[s], s, shares)
  }

  /** Every copied instance is the stored one: nobody else writes InstanceInfo objects. */
  ghost predicate Mirrors(li: map<Uri, InstanceInfo>, instances: map<Uri, InstanceInfo>) {
    forall u | u in li :: u in instances && li[u] == instances[u]
  }

  ghost predicate Tidy(li: map<Uri, InstanceInfo>) {
    "" !in li && forall u | u in li :: Distinct(li[u].Names())
  }

  /** The invariant as a copied share reflects it. */
  ghost predicate CopySafe(s: Name, a: ShareInfo, instances: map<Uri, InstanceInfo>, g: Pools) {
    && (a.PhaseNow() == Deleted ==> a.deleting)
    && ShareInPool(s, a, g)
    && (!a.deleting && a.Handle() != "" ==> Lists(instances, a.Handle(), s))
  }

  ghost predicate CopiesSafe(ls: map<Name, ShareInfo>, instances: map<Uri, InstanceInfo>, g: Pools) {
    forall s | s in ls :: CopySafe(s, ls[s], instances, g)
  }

  /** Stored handles are only ever set on shares that had none. */
  ghost predicate HandlesKept(before: map<Name, ShareInfo>, after: map<Name, ShareInfo>) {
    && after.Keys == before.Keys
    && forall s | s in before ::
         after[s] == before[s]
         || (before[s].Handle() == "" && after[s].Handle() != "" && after[s] == before[s].WithHandle(after[s].Handle()))
  }

  lemma HandlesKeptTransitive(a: map<Name, ShareInfo>, b: map<Name, ShareInfo>, c: map<Name, ShareInfo>)
    requires HandlesKept(a, b) && HandlesKept(b, c)
    ensures HandlesKept(a, c)
  {
  }

  /** A live share assigned to an instance that has no object, in a pool that has no StorageClass. */
  ghost predicate Stranded(a: ShareInfo, known: set<Uri>, g: Pools) {
    !a.deleting && a.Handle() != "" && a.Handle() !in known && !g.HasClass(a.tag)
  }

  /** Each share the instance lists points back to it, or is stranded. */
  ghost predicate PointsBack(li: map<Uri, InstanceInfo>, ls: map<Name, ShareInfo>, u: Uri, known: set<Uri>, g: Pools)
    requires u in li
  {
    forall n | n in li[u].Names() :: MayStay(n, u, ls, known, g)
  }

  /** This live share points to the instance, and its pool's StorageClass allows the object to be created. */
  ghost predicate Calls(s: Name, u: Uri, ls: map<Name, ShareInfo>, g: Pools) {
    s in ls && !ls[s].deleting && ls[s].Handle() == u && g.HasClass(ls[s].tag)
  }

  /** An instance lists a share that calls for this one. */
  ghost predicate Called(u: Uri, li: map<Uri, InstanceInfo>, ls: map<Name, ShareInfo>, g: Pools) {
    exists w, s :: Lists(li, w, s) && Calls(s, u, ls, g)
  }

  /**
   * While an instance with these names was visited, another one lost no share and gained, at the end of
   * its list, only shares that point to it; if it is new then one of the names calls for it.
   */
  ghost predicate GainedOwn(v: Uri, before: map<Uri, InstanceInfo>, after: map<Uri, InstanceInfo>, ls: map<Name, ShareInfo>,
                            names: seq<Name>, g: Pools) {
    && v in after
    && (if v in before then before[v].Names() <= after[v].Names() else exists s :: s in names && Calls(s, v, ls, g))
    && forall n | n in after[v].Names() :: (v in before && n in before[v].Names()) || (n in ls && ls[n].Handle() == v)
  }

  /** Instances other than the visited one gained only shares that point to them. */
  ghost predicate OnlyReturns(before: map<Uri, InstanceInfo>, after: map<Uri, InstanceInfo>, ls: map<Name, ShareInfo>, u: Uri,
                              names: seq<Name>, g: Pools) {
    before.Keys <= after.Keys && forall v | v in after && v != u :: GainedOwn(v, before, after, ls, names, g)
  }

  lemma CallsStays(s: Name, u: Uri, ls: map<Name, ShareInfo>, ls': map<Name, ShareInfo>, g: Pools)
    requires HandlesKept(ls, ls') && u != ""
    ensures Calls(s, u, ls, g) ==> Calls(s, u, ls', g)
  {
  }

  lemma OnlyReturnsTransitive(a: map<Uri, InstanceInfo>, b: map<Uri, InstanceInfo>, c: map<Uri, InstanceInfo>,
                              ls1: map<Name, ShareInfo>, ls2: map<Name, ShareInfo>, u: Uri, names: seq<Name>, g: Pools)
    requires OnlyReturns(a, b, ls1, u, names, g) && OnlyReturns(b, c, ls2, u, names, g) && HandlesKept(ls1, ls2) && "" !in c
    ensures OnlyReturns(a, c, ls2, u, names, g)
  {
    forall v | v in c && v != u ensures GainedOwn(v, a, c, ls2, names, g) {
      assert GainedOwn(v, b, c, ls2, names, g);
      if v in b {
        assert GainedOwn(v, a, b, ls1, names, g);
        if v !in a {
          var s :| s in names && Calls(s, v, ls1, g);
          CallsStays(s, v, ls1, ls2, g);
        }
      }
    }
  }

  /** The share points back, or could not be sent home because its instance has no object and cannot get one. */
  ghost predicate MayStay(n: Name, u: Uri, ls: map<Name, ShareInfo>, known: set<Uri>, g: Pools) {
    n in ls ==> ls[n].Handle() == u || Stranded(ls[n], known, g)
  }

  /** A share may be dropped here: it points to another instance, one that has an object if the share is live. */
  ghost predicate Elsewhere(n: Name, u: Uri, ls: map<Name, ShareInfo>, homes: set<Uri>) {
    n in ls && ls[n].Handle() != "" && ls[n].Handle() != u && (ls[n].deleting || ls[n].Handle() in homes)
  }

  /** The shares the clone no longer lists all belong elsewhere. */
  ghost predicate Dropped(names: seq<Name>, kept: seq<Name>, u: Uri, ls: map<Name, ShareInfo>, homes: set<Uri>) {
    && Distinct(kept) && |kept| <= |names| && (forall n | n in kept :: n in names)
    && forall n | n in names && n !in kept :: Elsewhere(n, u, ls, homes)
  }

  /** The inner loop after i shares: those still to come are kept, those gone belong elsewhere. */
  ghost predicate Visited(names: seq<Name>, i: nat, kept: seq<Name>, u: Uri, ls: map<Name, ShareInfo>, homes: set<Uri>)
    requires i <= |names|
  {
    Dropped(names, kept, u, ls, homes) && forall j | i <= j < |names| :: names[j] in kept
  }

  ghost predicate Examined(names: seq<Name>, i: nat, kept: seq<Name>, u: Uri, ls: map<Name, ShareInfo>, known: set<Uri>, g: Pools)
    requires i <= |names|
  {
    forall j | 0 <= j < i && names[j] in kept :: MayStay(names[j], u, ls, known, g)
  }

  /** Handles once set stay set, so earlier findings stand while the next share is visited. */
  lemma VisitStep(a: map<Name, ShareInfo>, b: map<Name, ShareInfo>, c: map<Name, ShareInfo>, homes: set<Uri>, homes': set<Uri>,
                  names: seq<Name>, i: nat, kept: seq<Name>, kept': seq<Name>, u: Uri)
    requires i < |names| && Distinct(names) && u != ""
    requires HandlesKept(a, b) && HandlesKept(b, c) && homes <= homes' && Visited(names, i, kept, u, b, homes)
    requires kept' == kept || (kept' == Without(kept, names[i]) && Elsewhere(names[i], u, c, homes'))
    ensures HandlesKept(a, c) && Visited(names, i + 1, kept', u, c, homes')
  {
    WithoutDistinct(kept, names[i]);
    forall n | n in names && n !in kept' ensures Elsewhere(n, u, c, homes') {
      assert n != names[i] ==> Elsewhere(n, u, b, homes);
    }
  }

  /** Dropping shares that all point elsewhere keeps the invariant, and what the copies say of it. */
  lemma DropSharesKeeps(w: World, g: Pools, ls: map<Name, ShareInfo>, u: Uri, clone: InstanceInfo, homes: set<Uri>)
    requires Safe(w, g) && CopiesSafe(ls, w.instances, g) && InStep(ls, w.shares)
    requires u in w.instances && clone == w.instances[u].WithNames(clone.Names())
    requires Dropped(w.instances[u].Names(), clone.Names(), u, ls, homes)
    ensures Safe(w.(instances := w.instances[u := clone]), g)
    ensures CopiesSafe(ls, w.instances[u := clone], g)
  {
    forall n | n in w.instances[u].Names() && n !in clone.Names() ensures Droppable(w, u, n) {
      assert Elsewhere(n, u, ls, homes) && Tracks(ls[n], n, w.shares);
      assert ObservedShare(w, n, u) ==> w.shares[n].Handle() == u;
    }
    InstanceChangeKeeps(w, g, u, clone);
    forall s | s in ls ensures CopySafe(s, ls[s], w.instances[u := clone], g) {
      assert CopySafe(s, ls[s], w.instances, g);
    }
  }

  /** Instances that lose no name leave the copies safe. */
  lemma CopiesStaySafe(ls: map<Name, ShareInfo>, before: map<Uri, InstanceInfo>, after: map<Uri, InstanceInfo>, u: Uri, g: Pools)
    requires CopiesSafe(ls, before, g)
    requires forall v | v in before :: v in after && (v != u ==> after[v] == before[v])
    requires u in before ==> forall n | n in before[u].Names() :: n in after[u].Names()
    ensures CopiesSafe(ls, after, g)
  {
    forall s | s in ls ensures CopySafe(s, ls[s], after, g) {
      assert CopySafe(s, ls[s], before, g);
    }
  }

  /**
   * What became of an instance: a share it listed is listed still or belongs elsewhere, a share it did
   * not list points to it, and if it is new then a share listed in the first place called for it.
   */
  ghost predicate AccountedAt(v: Uri, first: map<Uri, InstanceInfo>, li: map<Uri, InstanceInfo>, ls: map<Name, ShareInfo>, g: Pools) {
    && v in li
    && (if v in first then forall n | n in first[v].Names() :: n in li[v].Names() || Elsewhere(n, v, ls, li.Keys)
        else Called(v, first, ls, g))
    && forall n | n in li[v].Names() :: (v in first && n in first[v].Names()) || (n in ls && ls[n].Handle() == v)
  }

  ghost predicate Accounted(first: map<Uri, InstanceInfo>, li: map<Uri, InstanceInfo>, ls: map<Name, ShareInfo>, g: Pools) {
    first.Keys <= li.Keys && forall v | v in li :: AccountedAt(v, first, li, ls, g)
  }

  lemma AccountedStep(first: map<Uri, InstanceInfo>, li: map<Uri, InstanceInfo>, ls: map<Name, ShareInfo>,
                      li': map<Uri, InstanceInfo>, ls': map<Name, ShareInfo>, u: Uri, g: Pools)
    requires Accounted(first, li, ls, g) && HandlesKept(ls, ls') && "" !in li'
    requires u in li && AccountedAt(u, li, li', ls', g) && OnlyReturns(li, li', ls', u, li[u].Names(), g)
    ensures Accounted(first, li', ls', g)
  {
    forall v | v in li' ensures AccountedAt(v, first, li', ls', g) {
      if v in li {
        OldAccounted(v, first, li, ls, li', ls', u, g);
      } else {
        NewAccounted(v, first, li, ls, li', ls', u, g);
      }
    }
  }

  lemma OldAccounted(v: Uri, first: map<Uri, InstanceInfo>, li: map<Uri, InstanceInfo>, ls: map<Name, ShareInfo>,
                     li': map<Uri, InstanceInfo>, ls': map<Name, ShareInfo>, u: Uri, g: Pools)
    requires AccountedAt(v, first, li, ls, g) && HandlesKept(ls, ls') && "" !in li' && v in li' && li.Keys <= li'.Keys
    requires u in li
    requires if v == u then AccountedAt(u, li, li', ls', g) else GainedOwn(v, li, li', ls', li[u].Names(), g)
    ensures AccountedAt(v, first, li', ls', g)
  {
    if v in first {
      forall n | n in first[v].Names() ensures n in li'[v].Names() || Elsewhere(n, v, ls', li'.Keys) {
        if n !in li[v].Names() { assert Elsewhere(n, v, ls, li.Keys); }
      }
    } else {
      var w, s :| Lists(first, w, s) && Calls(s, v, ls, g);
      CallsStays(s, v, ls, ls', g);
    }
  }

  lemma NewAccounted(v: Uri, first: map<Uri, InstanceInfo>, li: map<Uri, InstanceInfo>, ls: map<Name, ShareInfo>,
                     li': map<Uri, InstanceInfo>, ls': map<Name, ShareInfo>, u: Uri, g: Pools)
    requires first.Keys <= li.Keys && u in li && AccountedAt(u, first, li, ls, g) && HandlesKept(ls, ls') && "" !in li'
    requires u != "" && v in li' && v !in li && GainedOwn(v, li, li', ls', li[u].Names(), g)
    ensures AccountedAt(v, first, li', ls', g)
  {
    var s :| s in li[u].Names() && Calls(s, v, ls', g);
    assert Lists(first, u, s);
  }

  /** The shares that got a handle are listed by this instance, which is the one they got. */
  ghost predicate Claims(before: map<Name, ShareInfo>, after: map<Name, ShareInfo>, u: Uri, names: seq<Name>)
    requires before.Keys == after.Keys
  {
    forall s | s in before && before[s].Handle() == "" && after[s].Handle() != "" :: after[s].Handle() == u && s in names
  }

  /** A share that got a handle got that of an instance which listed it in the first place. */
  ghost predicate ClaimedWhereListed(first: map<Uri, InstanceInfo>, before: map<Name, ShareInfo>, after: map<Name, ShareInfo>)
    requires before.Keys == after.Keys
  {
    forall s | s in before && before[s].Handle() == "" && after[s].Handle() != "" :: Lists(first, after[s].Handle(), s)
  }

  lemma ClaimStep(first: map<Uri, InstanceInfo>, li: map<Uri, InstanceInfo>, u: Uri, g: Pools,
                  a: map<Name, ShareInfo>, b: map<Name, ShareInfo>, c: map<Name, ShareInfo>)
    requires HandlesKept(a, b) && HandlesKept(b, c) && u in li && u != ""
    requires ClaimedWhereListed(first, a, b) && Claims(b, c, u, li[u].Names()) && AccountedAt(u, first, li, b, g)
    ensures HandlesKept(a, c) && ClaimedWhereListed(first, a, c)
  {
  }

  /** The instances visited so far, and those created on the way, point back. */
  ghost predicate BackSoFar(li: map<Uri, InstanceInfo>, ls: map<Name, ShareInfo>, visited: seq<Uri>, known: set<Uri>, g: Pools) {
    forall u | u in li && (u !in known || u in visited) :: PointsBack(li, ls, u, known, g)
  }

  lemma BackStep(li: map<Uri, InstanceInfo>, ls: map<Name, ShareInfo>, li': map<Uri, InstanceInfo>, ls': map<Name, ShareInfo>,
                 visited: seq<Uri>, v: Uri, names: seq<Name>, known: set<Uri>, g: Pools)
    requires "" !in li' && HandlesKept(ls, ls') && v in li' && OnlyReturns(li, li', ls', v, names, g)
    requires BackSoFar(li, ls, visited, known, g) && known <= li.Keys && PointsBack(li', ls', v, known, g)
    ensures BackSoFar(li', ls', visited + [v], known, g)
  {
    forall u | u in li' && (u !in known || u in visited + [v]) ensures PointsBack(li', ls', u, known, g) {
      if u != v {
        assert GainedOwn(u, li, li', ls', names, g);
        PointsBackStays(li, ls, li', ls', u, names, known, g);
      }
    }
  }

  /** An instance that gains only its own shares keeps pointing back. */
  lemma PointsBackStays(li: map<Uri, InstanceInfo>, ls: map<Name, ShareInfo>, li': map<Uri, InstanceInfo>, ls': map<Name, ShareInfo>,
                        v: Uri, names: seq<Name>, known: set<Uri>, g: Pools)
    requires v != "" && HandlesKept(ls, ls') && GainedOwn(v, li, li', ls', names, g)
    requires v in li ==> PointsBack(li, ls, v, known, g)
    ensures PointsBack(li', ls', v, known, g)
  {
    forall n | n in li'[v].Names() ensures MayStay(n, v, ls', known, g) {
      if v in li && n in li[v].Names() {
        assert MayStay(n, v, ls, known, g);
      }
    }
  }

  lemma WithNamesTwice(i: InstanceInfo, a: seq<Name>, b: seq<Name>)
    ensures i.WithNames(b).Names() == b && i.WithNames(a).WithNames(b) == i.WithNames(b)
  {
  }

  function Without(names: seq<Name>, s: Name): (r: seq<Name>)
    ensures |r| <= |names|
    ensures forall n :: n in r <==> n in names && n != s
  {
    if names == [] then []
    else if names[0] == s then Without(names[1..], s)
    else [names[0]] + Without(names[1..], s)
  }

  lemma {:induction false} WithoutDistinct(names: seq<Name>, s: Name)
    requires Distinct(names)
    ensures Distinct(Without(names, s))
  {
    if names != [] {
      WithoutDistinct(names[1..], s);
      assert names[0] !in names[1..];
      assert names[0] !in Without(names[1..], s);
    }
  }

  lemma WithoutSnoc(names: seq<Name>, n: Name, s: Name)
    ensures Without(names + [n], s) == Without(names, s) + if n == s then [] else [n]
  {
    if names != [] {
      assert (names + [n])[1..] == names[1..] + [n];
      WithoutSnoc(names[1..], n, s);
    }
  }
}
