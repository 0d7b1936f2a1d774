/**
 * The pointer repair as a function of the copies and of the order in which instances are visited, for
 * the case that no call fails; and, for all orders at once, when it leaves every listed share pointing
 * back and when a second repair would find nothing to do.
 */
module RepairRun {
  import opened Wrappers
  import opened Objects
  import opened Capacity
  import opened PointerRepair
  import opened Placement

  /** The round's copies of the objects. */
  datatype Copies = Copies(ls: map<Name, ShareInfo>, li: map<Uri, InstanceInfo>)

  /** The instance a share points to, made up if it has no object. */
  function Home(li: map<Uri, InstanceInfo>, a: ShareInfo): InstanceInfo {
    if a.Handle() in li then li[a.Handle()] else NewFor(a)
  }

  function SentHome(li: map<Uri, InstanceInfo>, s: Name, a: ShareInfo): map<Uri, InstanceInfo> {
    li[a.Handle() := WithShare(Home(li, a), s)]
  }

  /** The share can be sent back to the instance it points to. */
  predicate HasHome(li: map<Uri, InstanceInfo>, a: ShareInfo, g: Pools) {
    a.Handle() in li || g.HasClass(a.tag)
  }

  // One visited share.

  /** It belongs elsewhere, and can be sent there or is going anyway. */
  predicate Leaves(c: Copies, u: Uri, n: Name, g: Pools) {
    n in c.ls && c.ls[n].Handle() != "" && c.ls[n].Handle() != u && (c.ls[n].deleting || HasHome(c.li, c.ls[n], g))
  }

  function Visit(c: Copies, u: Uri, n: Name, g: Pools): Copies {
    if n !in c.ls then c
    else if c.ls[n].Handle() == "" then c.(ls := c.ls[n := c.ls[n].WithHandle(u)])
    else if Leaves(c, u, n, g) && !c.ls[n].deleting then c.(li := SentHome(c.li, n, c.ls[n]))
    else c
  }

  /** A visit half way: the copies, and what the visited instance is to list. */
  datatype Half = Half(now: Copies, kept: seq<Name>)

  function VisitNext(h: Half, u: Uri, n: Name, g: Pools): Half {
    Half(Visit(h.now, u, n, g), if Leaves(h.now, u, n, g) then Without(h.kept, n) else h.kept)
  }

  /** How things stand when the first i shares that an instance lists have been visited, whatever fails. */
  ghost predicate Visiting(first: Copies, u: Uri, i: nat, h: Half, g: Pools) {
    && u in first.li && i <= |first.li[u].Names()|
    && var names := first.li[u].Names();
    && Tidy(h.now.li) && u in h.now.li && h.now.li[u] == first.li[u]
    && HandlesKept(first.ls, h.now.ls) && Claims(first.ls, h.now.ls, u, names)
    && OnlyReturns(first.li, h.now.li, h.now.ls, u, names, g)
    && Visited(names, i, h.kept, u, h.now.ls, h.now.li.Keys)
  }

  lemma VisitingStart(first: Copies, u: Uri, g: Pools)
    requires Tidy(first.li) && u in first.li
    ensures Visiting(first, u, 0, Half(first, first.li[u].Names()), g)
  {
  }

  /** A visited share is dealt with, or left for the next round when a call fails. */
  lemma VisitingStep(first: Copies, u: Uri, i: nat, h: Half, h': Half, g: Pools)
    requires Visiting(first, u, i, h, g) && i < |first.li[u].Names()|
    requires h' == h || h' == VisitNext(h, u, first.li[u].Names()[i], g)
    ensures Visiting(first, u, i + 1, h', g) && HandlesKept(h.now.ls, h'.now.ls)
  {
    var names := first.li[u].Names();
    NextReturns(h, u, names, names[i], g);
    OnlyReturnsTransitive(first.li, h.now.li, h'.now.li, h.now.ls, h'.now.ls, u, names, g);
    VisitStep(first.ls, h.now.ls, h'.now.ls, h.now.li.Keys, h'.now.li.Keys, names, i, h.kept, h'.kept, u);
  }

  lemma NextReturns(h: Half, u: Uri, names: seq<Name>, n: Name, g: Pools)
    requires Tidy(h.now.li) && u in h.now.li && n in names
    ensures var h' := VisitNext(h, u, n, g);
            && Tidy(h'.now.li) && u in h'.now.li && h'.now.li[u] == h.now.li[u]
            && HandlesKept(h.now.ls, h'.now.ls) && OnlyReturns(h.now.li, h'.now.li, h'.now.ls, u, names, g)
            && (h'.kept == h.kept || (h'.kept == Without(h.kept, n) && Elsewhere(n, u, h'.now.ls, h'.now.li.Keys)))
            && forall s | s in h.now.ls && h.now.ls[s].Handle() == "" && h'.now.ls[s].Handle() != "" ::
                 s == n && h'.now.ls[s].Handle() == u
  {
    var c, c' := h.now, VisitNext(h, u, n, g).now;
    if c'.li != c.li {
      SentHomeReturns(c.li, n, c.ls, u, names, g);
    }
  }

  lemma SentHomeReturns(li: map<Uri, InstanceInfo>, n: Name, ls: map<Name, ShareInfo>, u: Uri, names: seq<Name>, g: Pools)
    requires Tidy(li) && n in names && n in ls && HasHome(li, ls[n], g) && !ls[n].deleting && ls[n].Handle() != "" && ls[n].Handle() != u
    ensures var li' := SentHome(li, n, ls[n]);
            Tidy(li') && OnlyReturns(li, li', ls, u, names, g) && (u in li ==> li'[u] == li[u])
  {
    var li' := SentHome(li, n, ls[n]);
    forall v | v in li' && v != u ensures GainedOwn(v, li, li', ls, names, g) {
      assert v !in li ==> Calls(n, v, ls, g);
    }
  }

  /** What the visit of one instance comes to, whatever fails. */
  ghost predicate Fixed(c: Copies, u: Uri, c': Copies, g: Pools) {
    && u in c.li && Tidy(c'.li)
    && HandlesKept(c.ls, c'.ls) && Claims(c.ls, c'.ls, u, c.li[u].Names())
    && OnlyReturns(c.li, c'.li, c'.ls, u, c.li[u].Names(), g)
    && AccountedAt(u, c.li, c'.li, c'.ls, g)
  }

  /** Whether or not the names that leave are written back. */
  lemma VisitingDone(first: Copies, u: Uri, h: Half, g: Pools)
    requires u in first.li && Visiting(first, u, |first.li[u].Names()|, h, g)
    ensures Fixed(first, u, h.now, g) && Fixed(first, u, h.now.(li := h.now.li[u := first.li[u].WithNames(h.kept)]), g)
  {
    var c' := h.now.(li := h.now.li[u := first.li[u].WithNames(h.kept)]);
    forall v | v in c'.li && v != u ensures GainedOwn(v, first.li, c'.li, c'.ls, first.li[u].Names(), g) {
      assert GainedOwn(v, first.li, h.now.li, h.now.ls, first.li[u].Names(), g);
    }
  }

  /** What became of the objects since the repair began, whatever fails. */
  ghost predicate Repairing(first: Copies, c: Copies, g: Pools) {
    && Tidy(c.li) && HandlesKept(first.ls, c.ls) && ClaimedWhereListed(first.li, first.ls, c.ls)
    && Accounted(first.li, c.li, c.ls, g)
  }

  lemma RepairingStep(first: Copies, c: Copies, u: Uri, c': Copies, g: Pools)
    requires Repairing(first, c, g) && Fixed(c, u, c', g)
    ensures Repairing(first, c', g)
  {
    ClaimStep(first.li, c.li, u, g, first.ls, c.ls, c'.ls);
    AccountedStep(first.li, c.li, c.ls, c'.li, c'.ls, u, g);
  }

  // One visited instance.

  /** The visit of an instance after the first i shares it lists. */
  function VisitFirst(c: Copies, u: Uri, i: nat, g: Pools): Half
    requires u in c.li && i <= |c.li[u].Names()|
  {
    if i == 0 then Half(c, c.li[u].Names())
    else VisitNext(VisitFirst(c, u, i - 1, g), u, c.li[u].Names()[i - 1], g)
  }

  function RepairOne(c: Copies, u: Uri, g: Pools): Copies
    requires u in c.li
  {
    var names := c.li[u].Names();
    if names == [] then c
    else
      var h := VisitFirst(c, u, |names|, g);
      h.now.(li := h.now.li[u := c.li[u].WithNames(h.kept)])
  }

  /** The instances in this order; a name in it that has no object by then is passed over. */
  function RepairAll(c: Copies, order: seq<Uri>, g: Pools): Copies {
    if order == [] then c
    else
      var d, u := RepairAll(c, order[..|order| - 1], g), order[|order| - 1];
      if u in d.li then RepairOne(d, u, g) else d
  }

  lemma {:induction false} VisitFirstIsVisiting(c: Copies, u: Uri, i: nat, h: Half, g: Pools)
    requires Tidy(c.li) && u in c.li && i <= |c.li[u].Names()| && h == VisitFirst(c, u, i, g)
    ensures Visiting(c, u, i, h, g)
  {
    if i == 0 {
      VisitingStart(c, u, g);
    } else {
      var before := VisitFirst(c, u, i - 1, g);
      VisitFirstIsVisiting(c, u, i - 1, before, g);
      VisitingStep(c, u, i - 1, before, h, g);
    }
  }

  /** Of the first i shares, those that stay point back or are stranded. */
  ghost predicate StayersExamined(c: Copies, u: Uri, i: nat, h: Half, known: set<Uri>, g: Pools) {
    u in c.li && i <= |c.li[u].Names()| && Examined(c.li[u].Names(), i, h.kept, u, h.now.ls, known, g)
  }

  lemma {:induction false} VisitFirstExamines(c: Copies, u: Uri, i: nat, h: Half, known: set<Uri>, g: Pools)
    requires Tidy(c.li) && u in c.li && i <= |c.li[u].Names()| && known <= c.li.Keys && h == VisitFirst(c, u, i, g)
    ensures StayersExamined(c, u, i, h, known, g)
  {
    if i > 0 {
      var before := VisitFirst(c, u, i - 1, g);
      VisitFirstExamines(c, u, i - 1, before, known, g);
      VisitFirstIsVisiting(c, u, i - 1, before, g);
      ExaminedNext(c, u, i - 1, before, h, known, g);
    }
  }

  lemma ExaminedNext(c: Copies, u: Uri, i: nat, h: Half, h': Half, known: set<Uri>, g: Pools)
    requires Visiting(c, u, i, h, g) && i < |c.li[u].Names()| && known <= c.li.Keys && StayersExamined(c, u, i, h, known, g)
    requires h' == VisitNext(h, u, c.li[u].Names()[i], g)
    ensures StayersExamined(c, u, i + 1, h', known, g)
  {
    var names := c.li[u].Names();
    NextReturns(h, u, names, names[i], g);
    StayerMayStay(h, u, names[i], known, g);
    ExaminedStep(names, i, h.kept, h'.kept, u, h.now.ls, h'.now.ls, known, g);
  }

  /** A visited share that stays points back, or is stranded. */
  lemma StayerMayStay(h: Half, u: Uri, n: Name, known: set<Uri>, g: Pools)
    requires known <= h.now.li.Keys
    ensures var h' := VisitNext(h, u, n, g); n in h'.kept ==> MayStay(n, u, h'.now.ls, known, g)
  {
  }

  lemma ExaminedStep(names: seq<Name>, i: nat, kept: seq<Name>, kept': seq<Name>, u: Uri, ls: map<Name, ShareInfo>, ls': map<Name, ShareInfo>,
                     known: set<Uri>, g: Pools)
    requires i < |names| && u != "" && HandlesKept(ls, ls') && Examined(names, i, kept, u, ls, known, g)
    requires (forall n | n in kept' :: n in kept) && (names[i] in kept' ==> MayStay(names[i], u, ls', known, g))
    ensures Examined(names, i + 1, kept', u, ls', known, g)
  {
    forall j | 0 <= j < i + 1 && names[j] in kept' ensures MayStay(names[j], u, ls', known, g) {
      if j < i { assert MayStay(names[j], u, ls, known, g); }
    }
  }

  lemma RepairOneIsFixed(c: Copies, u: Uri, known: set<Uri>, g: Pools)
    requires Tidy(c.li) && u in c.li && known <= c.li.Keys
    ensures Fixed(c, u, RepairOne(c, u, g), g)
    ensures PointsBack(RepairOne(c, u, g).li, RepairOne(c, u, g).ls, u, known, g)
  {
    var names := c.li[u].Names();
    VisitFirstIsVisiting(c, u, |names|, VisitFirst(c, u, |names|, g), g);
    VisitFirstExamines(c, u, |names|, VisitFirst(c, u, |names|, g), known, g);
    VisitingDone(c, u, VisitFirst(c, u, |names|, g), g);
  }

  /** The first i shares that the instance lists stay where they are. */
  ghost predicate FirstStay(c: Copies, u: Uri, i: nat, g: Pools) {
    && u in c.li && i <= |c.li[u].Names()|
    && forall j | 0 <= j < i :: MayStay(c.li[u].Names()[j], u, c.ls, c.li.Keys, g)
  }

  lemma FirstStayAll(c: Copies, u: Uri, g: Pools)
    requires u in c.li
    ensures FirstStay(c, u, |c.li[u].Names()|, g) <==> PointsBack(c.li, c.ls, u, c.li.Keys, g)
  {
  }

  lemma NothingListed(c: Copies, u: Uri, g: Pools)
    requires Tidy(c.li) && u in c.li && c.li[u].Names() == []
    ensures Fixed(c, u, c, g) && RepairOne(c, u, g) == c && PointsBack(c.li, c.ls, u, c.li.Keys, g)
  {
  }

  /** The end of a visit, whether or not the names that are left are written back. */
  lemma VisitEnds(c: Copies, u: Uri, h: Half, exact: bool, g: Pools)
    requires u in c.li && c.li[u].status.Some? && Visiting(c, u, |c.li[u].Names()|, h, g)
    requires exact ==> h == VisitFirst(c, u, |c.li[u].Names()|, g)
    ensures var d := h.now.(li := h.now.li[u := c.li[u].WithNames(h.kept)]);
            Fixed(c, u, h.now, g) && Fixed(c, u, d, g)
            && (exact ==> RepairOne(c, u, g) == d && (h.kept == c.li[u].Names() ==> d == h.now))
  {
    VisitingDone(c, u, h, g);
    if c.li[u].Names() == [] { assert h.kept == []; }
    if h.kept == c.li[u].Names() { SameNames(h.now.li, u); }
  }

  lemma SameNames(li: map<Uri, InstanceInfo>, u: Uri)
    requires u in li && li[u].status.Some?
    ensures li[u := li[u].WithNames(li[u].Names())] == li
  {
  }

  // All of them, in any order.

  /** The repair after these visits: nothing is lost, and what was visited points back or is stranded. */
  ghost predicate RepairedSoFar(first: Copies, visited: seq<Uri>, c: Copies, g: Pools) {
    Repairing(first, c, g) && BackSoFar(c.li, c.ls, visited, first.li.Keys, g)
  }

  lemma {:induction false} RepairAllRepairs(c: Copies, order: seq<Uri>, d: Copies, g: Pools)
    requires Tidy(c.li) && d == RepairAll(c, order, g)
    ensures RepairedSoFar(c, order, d, g)
  {
    if order != [] {
      var before := RepairAll(c, order[..|order| - 1], g);
      RepairAllRepairs(c, order[..|order| - 1], before, g);
      RepairNext(c, order[..|order| - 1], before, order[|order| - 1], g);
      assert order == order[..|order| - 1] + [order[|order| - 1]];
    }
  }

  /** Once every instance that was there has been visited, what is listed points back or is stranded. */
  lemma RepairEnds(c: Copies, order: seq<Uri>, g: Pools)
    requires Tidy(c.li) && AnyOrder(c, order)
    ensures var d := RepairAll(c, order, g);
            Repairing(c, d, g) && forall u | u in d.li :: PointsBack(d.li, d.ls, u, c.li.Keys, g)
  {
    RepairAllRepairs(c, order, RepairAll(c, order, g), g);
  }

  /** The repair changes nothing of an instance but what it lists. */
  lemma {:induction false} VisitKeepsStatus(c: Copies, u: Uri, i: nat, g: Pools)
    requires u in c.li && i <= |c.li[u].Names()|
    ensures StatusKept(c.li, VisitFirst(c, u, i, g).now.li)
  {
    if i > 0 {
      VisitKeepsStatus(c, u, i - 1, g);
    }
  }

  lemma {:induction false} RepairKeepsStatus(c: Copies, order: seq<Uri>, g: Pools)
    ensures StatusKept(c.li, RepairAll(c, order, g).li)
  {
    if order != [] {
      var d, u := RepairAll(c, order[..|order| - 1], g), order[|order| - 1];
      RepairKeepsStatus(c, order[..|order| - 1], g);
      if u in d.li { VisitKeepsStatus(d, u, |d.li[u].Names()|, g); }
    }
  }

  lemma RepairNext(first: Copies, visited: seq<Uri>, c: Copies, u: Uri, g: Pools)
    requires RepairedSoFar(first, visited, c, g)
    ensures RepairedSoFar(first, visited + [u], if u in c.li then RepairOne(c, u, g) else c, g)
  {
    if u in c.li {
      var d := RepairOne(c, u, g);
      RepairOneIsFixed(c, u, first.li.Keys, g);
      RepairingStep(first, c, u, d, g);
      BackStep(c.li, c.ls, d.li, d.ls, visited, u, c.li[u].Names(), first.li.Keys, g);
    }
  }

  // Where the listed shares end up.

  /** The instance a share points to lists it. */
  ghost predicate AtHome(n: Name, c: Copies) {
    n in c.ls && Lists(c.li, c.ls[n].Handle(), n)
  }

  /** In a visit: a live share points here and stays, is listed by another instance that it points to, or is stranded. */
  ghost predicate StaysOrSent(n: Name, h: Half, u: Uri, known: set<Uri>, g: Pools) {
    n in h.now.ls && !h.now.ls[n].deleting ==>
      || (h.now.ls[n].Handle() == u && n in h.kept) || (h.now.ls[n].Handle() != u && AtHome(n, h.now))
      || Stranded(h.now.ls[n], known, g)
  }

  lemma VisitedStaysOrSent(h: Half, u: Uri, n: Name, known: set<Uri>, g: Pools)
    requires n in h.kept && u in h.now.li && known <= h.now.li.Keys
    ensures StaysOrSent(n, VisitNext(h, u, n, g), u, known, g)
  {
  }

  lemma OtherStaysOrSent(h: Half, u: Uri, n: Name, other: Name, known: set<Uri>, g: Pools)
    requires StaysOrSent(other, h, u, known, g) && other != n
    ensures StaysOrSent(other, VisitNext(h, u, n, g), u, known, g)
  {
  }

  /** So it is with the first i shares. */
  ghost predicate FirstSent(c: Copies, u: Uri, i: nat, h: Half, known: set<Uri>, g: Pools) {
    && u in c.li && i <= |c.li[u].Names()|
    && forall j | 0 <= j < i :: StaysOrSent(c.li[u].Names()[j], h, u, known, g)
  }

  lemma {:induction false} VisitSends(c: Copies, u: Uri, i: nat, h: Half, known: set<Uri>, g: Pools)
    requires Tidy(c.li) && u in c.li && i <= |c.li[u].Names()| && known <= c.li.Keys && h == VisitFirst(c, u, i, g)
    ensures FirstSent(c, u, i, h, known, g)
  {
    if i > 0 {
      var before := VisitFirst(c, u, i - 1, g);
      VisitSends(c, u, i - 1, before, known, g);
      VisitFirstIsVisiting(c, u, i - 1, before, g);
      FirstSentNext(c, u, i - 1, before, h, known, g);
    }
  }

  lemma FirstSentNext(c: Copies, u: Uri, i: nat, h: Half, h': Half, known: set<Uri>, g: Pools)
    requires Visiting(c, u, i, h, g) && i < |c.li[u].Names()| && Distinct(c.li[u].Names()) && known <= c.li.Keys
    requires FirstSent(c, u, i, h, known, g) && h' == VisitNext(h, u, c.li[u].Names()[i], g)
    ensures FirstSent(c, u, i + 1, h', known, g)
  {
    var names := c.li[u].Names();
    VisitedStaysOrSent(h, u, names[i], known, g);
    forall j | 0 <= j < i ensures StaysOrSent(names[j], h', u, known, g) {
      OtherStaysOrSent(h, u, names[i], names[j], known, g);
    }
  }

  ghost predicate HomeOrStranded(n: Name, c: Copies, known: set<Uri>, g: Pools) {
    n in c.ls && !c.ls[n].deleting ==> AtHome(n, c) || Stranded(c.ls[n], known, g)
  }

  lemma RepairOneSends(c: Copies, u: Uri, n: Name, known: set<Uri>, g: Pools)
    requires Tidy(c.li) && Lists(c.li, u, n) && known <= c.li.Keys
    ensures HomeOrStranded(n, RepairOne(c, u, g), known, g)
  {
    var names := c.li[u].Names();
    var j :| 0 <= j < |names| && names[j] == n;
    var h := VisitFirst(c, u, |names|, g);
    VisitSends(c, u, |names|, h, known, g);
    SentWhenDone(c, u, n, h, known, g);
  }

  lemma SentWhenDone(c: Copies, u: Uri, n: Name, h: Half, known: set<Uri>, g: Pools)
    requires u in c.li && StaysOrSent(n, h, u, known, g)
    ensures HomeOrStranded(n, h.now.(li := h.now.li[u := c.li[u].WithNames(h.kept)]), known, g)
  {
  }

  /** A visit sends no share away from home. */
  lemma HomeStays(c: Copies, u: Uri, c': Copies, n: Name, known: set<Uri>, g: Pools)
    requires Fixed(c, u, c', g) && HomeOrStranded(n, c, known, g) && "" !in c.li && u != ""
    ensures HomeOrStranded(n, c', known, g)
  {
    if n in c.ls && AtHome(n, c) && c.ls[n].Handle() != u {
      assert GainedOwn(c.ls[n].Handle(), c.li, c'.li, c'.ls, c.li[u].Names(), g);
    }
  }

  /** What was listed at first, by an instance visited already, is home or stranded; any other instance lists it still. */
  ghost predicate SentSoFar(first: Copies, visited: seq<Uri>, c: Copies, g: Pools) {
    forall u, n | Lists(first.li, u, n) ::
      if u in visited then HomeOrStranded(n, c, first.li.Keys, g) else Lists(c.li, u, n)
  }

  lemma SentNext(first: Copies, visited: seq<Uri>, c: Copies, v: Uri, g: Pools)
    requires Repairing(first, c, g) && SentSoFar(first, visited, c, g)
    ensures SentSoFar(first, visited + [v], if v in c.li then RepairOne(c, v, g) else c, g)
  {
    if v in c.li {
      var d := RepairOne(c, v, g);
      RepairOneIsFixed(c, v, first.li.Keys, g);
      forall u, n | Lists(first.li, u, n)
        ensures if u in visited + [v] then HomeOrStranded(n, d, first.li.Keys, g) else Lists(d.li, u, n)
      {
        if u in visited {
          HomeStays(c, v, d, n, first.li.Keys, g);
        } else if u == v {
          RepairOneSends(c, v, n, first.li.Keys, g);
        } else {
          assert GainedOwn(u, c.li, d.li, d.ls, c.li[v].Names(), g);
        }
      }
    }
  }

  lemma {:induction false} RepairAllSends(c: Copies, order: seq<Uri>, g: Pools)
    requires Tidy(c.li)
    ensures SentSoFar(c, order, RepairAll(c, order, g), g)
  {
    if order != [] {
      var rest := order[..|order| - 1];
      RepairAllSends(c, rest, g);
      RepairAllRepairs(c, rest, RepairAll(c, rest, g), g);
      SentNext(c, rest, RepairAll(c, rest, g), order[|order| - 1], g);
      assert order == rest + [order[|order| - 1]];
    }
  }

  /**
   * After the repair, in whatever order, every live share that some instance listed is listed by the instance
   * it points to, unless it is stranded.
   */
  lemma RepairSendsHome(c: Copies, order: seq<Uri>, g: Pools)
    requires Tidy(c.li) && AnyOrder(c, order)
    ensures var d := RepairAll(c, order, g);
            forall u, n | Lists(c.li, u, n) && n in d.ls && !d.ls[n].deleting ::
              Lists(d.li, d.ls[n].Handle(), n) || Stranded(d.ls[n], c.li.Keys, g)
  {
    RepairAllSends(c, order, g);
    var d := RepairAll(c, order, g);
    forall u, n | Lists(c.li, u, n) && n in d.ls && !d.ls[n].deleting
      ensures Lists(d.li, d.ls[n].Handle(), n) || Stranded(d.ls[n], c.li.Keys, g)
    {
      assert HomeOrStranded(n, d, c.li.Keys, g);
    }
  }

  /** Of the instances in this order, those that were there at first had nothing to repair. */
  ghost predicate SettledIn(c: Copies, order: seq<Uri>, g: Pools) {
    forall u | u in order && u in c.li :: PointsBack(c.li, c.ls, u, c.li.Keys, g)
  }

  lemma RepairAllNext(c: Copies, visited: seq<Uri>, u: Uri, g: Pools)
    ensures var d := RepairAll(c, visited, g); RepairAll(c, visited + [u], g) == if u in d.li then RepairOne(d, u, g) else d
    ensures SettledIn(c, visited + [u], g) <==> SettledIn(c, visited, g) && (u in c.li ==> PointsBack(c.li, c.ls, u, c.li.Keys, g))
  {
    assert (visited + [u])[..|visited|] == visited;
  }

  lemma RepairStart(c: Copies, g: Pools)
    requires Tidy(c.li)
    ensures Repairing(c, c, g) && RepairAll(c, [], g) == c && SettledIn(c, [], g)
  {
  }

  lemma {:induction false} RepairAllAppend(c: Copies, a: seq<Uri>, b: seq<Uri>, g: Pools)
    ensures RepairAll(c, a + b, g) == RepairAll(RepairAll(c, a, g), b, g)
  {
    if b == [] {
      assert a + b == a;
    } else {
      assert (a + b)[..|a + b| - 1] == a + b[..|b| - 1];
      RepairAllAppend(c, a, b[..|b| - 1], g);
    }
  }

  lemma RepairFirst(c: Copies, u: Uri, rest: seq<Uri>, g: Pools)
    requires u in c.li
    ensures RepairAll(c, [u] + rest, g) == RepairAll(RepairOne(c, u, g), rest, g)
  {
    RepairAllAppend(c, [u], rest, g);
    assert [u][..0] == [];
  }

  /** An instance that was not visited has only gained names, at the end. */
  lemma {:induction false} UnvisitedGrows(c: Copies, order: seq<Uri>, w: Uri, d: Copies, g: Pools)
    requires Tidy(c.li) && w in c.li && w !in order && d == RepairAll(c, order, g)
    ensures w in d.li && c.li[w].Names() <= d.li[w].Names() && HandlesKept(c.ls, d.ls)
  {
    if order != [] {
      var order', u := order[..|order| - 1], order[|order| - 1];
      var before := RepairAll(c, order', g);
      UnvisitedGrows(c, order', w, before, g);
      RepairAllRepairs(c, order', before, g);
      if u in before.li {
        RepairOneIsFixed(before, u, {}, g);
        assert GainedOwn(w, before.li, d.li, d.ls, before.li[u].Names(), g);
      }
    }
  }

  /** Whoever no longer lists a share that points elsewhere does not get it back. */
  lemma {:induction false} GoneStaysGone(c: Copies, order: seq<Uri>, w: Uri, n: Name, d: Copies, g: Pools)
    requires Tidy(c.li) && d == RepairAll(c, order, g)
    requires n in c.ls && c.ls[n].Handle() != "" && c.ls[n].Handle() != w && !Lists(c.li, w, n)
    ensures !Lists(d.li, w, n)
  {
    if order != [] {
      var order', u := order[..|order| - 1], order[|order| - 1];
      var before := RepairAll(c, order', g);
      GoneStaysGone(c, order', w, n, before, g);
      RepairAllRepairs(c, order', before, g);
      if u in before.li {
        RepairOneIsFixed(before, u, {}, g);
        assert d.ls[n].Handle() == c.ls[n].Handle();
        if w in d.li {
          if w != u { assert GainedOwn(w, before.li, d.li, d.ls, before.li[u].Names(), g); }
        }
      }
    }
  }

  // The visit of one list, share by share.

  /** The k-th share that an instance lists calls for the instance that the j-th one points to. */
  ghost predicate CallsFor(c: Copies, w: Uri, k: nat, h: Uri, g: Pools) {
    w in c.li && k < |c.li[w].Names()| && Calls(c.li[w].Names()[k], h, c.ls, g)
  }

  /** No handle changes on the way, and what is still to come is still listed. */
  lemma SoFar(c: Copies, w: Uri, i: nat, h: Half, g: Pools)
    requires Tidy(c.li) && w in c.li && i <= |c.li[w].Names()| && h == VisitFirst(c, w, i, g)
    ensures HandlesKept(c.ls, h.now.ls) && forall j | i <= j < |c.li[w].Names()| :: c.li[w].Names()[j] in h.kept
    ensures forall s | s in c.ls && c.ls[s].Handle() == "" && h.now.ls[s].Handle() != "" :: h.now.ls[s].Handle() == w
  {
    VisitFirstIsVisiting(c, w, i, h, g);
  }

  /** Once a share that calls for an instance has been visited, the instance has an object. */
  lemma {:induction false} CallOpens(c: Copies, w: Uri, k: nat, i: nat, v: Uri, h: Half, g: Pools)
    requires Tidy(c.li) && CallsFor(c, w, k, v, g) && v != "" && v != w
    requires k < i <= |c.li[w].Names()| && h == VisitFirst(c, w, i, g)
    ensures v in h.now.li
  {
    var before, n := VisitFirst(c, w, i - 1, g), c.li[w].Names()[i - 1];
    if k < i - 1 {
      CallOpens(c, w, k, i - 1, v, before, g);
      VisitKeepsKeys(before.now, w, n, g);
    } else {
      SoFar(c, w, k, before, g);
      CallsStays(n, v, c.ls, before.now.ls, g);
      VisitCaller(before.now, w, n, v, g);
    }
  }

  lemma VisitCaller(c: Copies, w: Uri, n: Name, v: Uri, g: Pools)
    requires Calls(n, v, c.ls, g) && v != "" && v != w
    ensures v in Visit(c, w, n, g).li
  {
  }

  /** Only a share that calls for an instance has its object created. */
  lemma VisitKeepsKeys(c: Copies, w: Uri, n: Name, g: Pools)
    ensures c.li.Keys <= Visit(c, w, n, g).li.Keys
    ensures forall v | v in Visit(c, w, n, g).li && v !in c.li :: Calls(n, v, c.ls, g)
  {
  }

  lemma {:induction false} LeftStaysOut(c: Copies, w: Uri, n: Name, i: nat, j: nat, g: Pools)
    requires w in c.li && i <= j <= |c.li[w].Names()| && n !in VisitFirst(c, w, i, g).kept
    ensures n !in VisitFirst(c, w, j, g).kept
  {
    if i < j { LeftStaysOut(c, w, n, i, j - 1, g); }
  }

  /** A live share points to another instance, which has no object and which its own pool cannot create. */
  ghost predicate StrandedAt(c: Copies, w: Uri, j: nat, g: Pools) {
    && w in c.li && j < |c.li[w].Names()| && c.li[w].Names()[j] in c.ls
    && Stranded(c.ls[c.li[w].Names()[j]], c.li.Keys, g)
  }

  function HandleAt(c: Copies, w: Uri, j: nat): Uri
    requires w in c.li && j < |c.li[w].Names()| && c.li[w].Names()[j] in c.ls
  {
    c.ls[c.li[w].Names()[j]].Handle()
  }

  /** The instance it points to is called for by a share that comes before it in the same list. */
  ghost predicate CalledEarlier(c: Copies, w: Uri, j: nat, g: Pools)
    requires StrandedAt(c, w, j, g)
  {
    exists k | 0 <= k < j :: CallsFor(c, w, k, HandleAt(c, w, j), g)
  }

  /** Visited after a share that calls for its instance, a share is sent there. */
  lemma LeavesWhenCalled(c: Copies, w: Uri, k: nat, j: nat, g: Pools)
    requires Tidy(c.li) && w in c.li && k < j < |c.li[w].Names()|
    requires var n := c.li[w].Names()[j]; n in c.ls && c.ls[n].Handle() != "" && c.ls[n].Handle() != w
    requires CallsFor(c, w, k, HandleAt(c, w, j), g)
    ensures c.li[w].Names()[j] !in RepairOne(c, w, g).li[w].Names()
  {
    var names := c.li[w].Names();
    var h := VisitFirst(c, w, j, g);
    SoFar(c, w, j, h, g);
    CallOpens(c, w, k, j, HandleAt(c, w, j), h, g);
    assert Leaves(h.now, w, names[j], g);
    assert VisitFirst(c, w, j + 1, g) == VisitNext(h, w, names[j], g);
    LeftStaysOut(c, w, names[j], j + 1, |names|, g);
  }

  lemma {:induction false} NotOpened(c: Copies, w: Uri, i: nat, v: Uri, h: Half, g: Pools)
    requires Tidy(c.li) && w in c.li && i <= |c.li[w].Names()| && h == VisitFirst(c, w, i, g)
    requires v !in c.li && v != "" && forall k | 0 <= k < i :: !CallsFor(c, w, k, v, g)
    ensures v !in h.now.li
  {
    if i > 0 {
      var before, n := VisitFirst(c, w, i - 1, g), c.li[w].Names()[i - 1];
      SoFar(c, w, i - 1, before, g);
      NotOpened(c, w, i - 1, v, before, g);
      VisitKeepsKeys(before.now, w, n, g);
      assert !CallsFor(c, w, i - 1, v, g);
      assert !Calls(n, v, before.now.ls, g);
    }
  }

  lemma {:induction false} StillKept(c: Copies, w: Uri, j: nat, i: nat, g: Pools)
    requires Tidy(c.li) && w in c.li && j < i <= |c.li[w].Names()|
    requires c.li[w].Names()[j] in VisitFirst(c, w, j + 1, g).kept
    ensures c.li[w].Names()[j] in VisitFirst(c, w, i, g).kept
  {
    if j + 1 < i {
      StillKept(c, w, j, i - 1, g);
      assert c.li[w].Names()[i - 1] != c.li[w].Names()[j];
    }
  }

  /** Not called for by an earlier one, a stranded share stays. */
  lemma StaysWhenUncalled(c: Copies, w: Uri, j: nat, g: Pools)
    requires Tidy(c.li) && StrandedAt(c, w, j, g) && !CalledEarlier(c, w, j, g)
    ensures c.li[w].Names()[j] in RepairOne(c, w, g).li[w].Names()
  {
    var names, v := c.li[w].Names(), HandleAt(c, w, j);
    var h := VisitFirst(c, w, j, g);
    SoFar(c, w, j, h, g);
    NotOpened(c, w, j, v, h, g);
    assert !Leaves(h.now, w, names[j], g);
    StillKept(c, w, j, |names|, g);
  }

  // The theorems.

  /** A range over the instances: every one that was there is visited, others may be. */
  ghost predicate AnyOrder(c: Copies, order: seq<Uri>) {
    Distinct(order) && forall u | u in c.li :: u in order
  }

  /** Every listed share that has an object points back. */
  ghost predicate AllPointBack(c: Copies) {
    forall u, n | Lists(c.li, u, n) && n in c.ls :: c.ls[n].Handle() == u
  }

  /** Every stranded share comes after one in the same list that calls for its instance. */
  ghost predicate NoneStrandedForGood(c: Copies, g: Pools) {
    forall w, j: nat | StrandedAt(c, w, j, g) :: CalledEarlier(c, w, j, g)
  }

  /** Every stranded share does, or nobody at all who is listed calls for its instance. */
  ghost predicate Settling(c: Copies, g: Pools) {
    forall w, j: nat | StrandedAt(c, w, j, g) :: CalledEarlier(c, w, j, g) || !Called(HandleAt(c, w, j), c.li, c.ls, g)
  }

  /** The visit of one instance within an order: it still lists what it did, in the same places. */
  lemma InOrder(c: Copies, order: seq<Uri>, w: Uri, g: Pools) returns (d: Copies, after: seq<Uri>)
    requires Tidy(c.li) && w in c.li && Distinct(order) && w in order
    ensures Tidy(d.li) && w in d.li && c.li[w].Names() <= d.li[w].Names() && HandlesKept(c.ls, d.ls)
    ensures RepairAll(c, order, g) == RepairAll(RepairOne(d, w, g), after, g)
  {
    var before;
    before, after := SplitAt(order, w);
    d := RepairAll(c, before, g);
    UnvisitedGrows(c, before, w, d, g);
    RepairAllRepairs(c, before, d, g);
    RepairAllAppend(c, before, [w] + after, g);
    RepairFirst(d, w, after, g);
  }

  lemma SplitAt(order: seq<Uri>, w: Uri) returns (before: seq<Uri>, after: seq<Uri>)
    requires Distinct(order) && w in order
    ensures order == before + ([w] + after) && w !in before
  {
    var i :| 0 <= i < |order| && order[i] == w;
    before, after := order[..i], order[i + 1..];
  }

  /** In the end a stranded share that comes after one that calls for its instance is no longer listed there. */
  lemma CalledLeaves(c: Copies, order: seq<Uri>, w: Uri, j: nat, g: Pools)
    requires Tidy(c.li) && AnyOrder(c, order) && StrandedAt(c, w, j, g) && CalledEarlier(c, w, j, g)
    ensures !Lists(RepairAll(c, order, g).li, w, c.li[w].Names()[j])
  {
    var k :| 0 <= k < j && CallsFor(c, w, k, HandleAt(c, w, j), g);
    var n := c.li[w].Names()[j];
    var d, after := InOrder(c, order, w, g);
    LeavesWhenCalled(d, w, k, j, g);
    RepairOneIsFixed(d, w, {}, g);
    GoneStaysGone(RepairOne(d, w, g), after, w, n, RepairAll(c, order, g), g);
  }

  /** In the end an instance that a listed share calls for has an object. */
  lemma CalledOpens(c: Copies, order: seq<Uri>, v: Uri, g: Pools)
    requires Tidy(c.li) && AnyOrder(c, order) && Called(v, c.li, c.ls, g) && v != ""
    ensures v in RepairAll(c, order, g).li
  {
    var w, s :| Lists(c.li, w, s) && Calls(s, v, c.ls, g);
    var k :| 0 <= k < |c.li[w].Names()| && c.li[w].Names()[k] == s;
    var d, after := InOrder(c, order, w, g);
    CallsStays(s, v, c.ls, d.ls, g);
    RepairOneIsFixed(d, w, {}, g);
    RepairAllRepairs(RepairOne(d, w, g), after, RepairAll(c, order, g), g);
    if v != w {
      CallOpens(d, w, k, |d.li[w].Names()|, v, VisitFirst(d, w, |d.li[w].Names()|, g), g);
    }
  }

  /** An order in which this instance comes first. */
  lemma {:induction false} OrderFrom(w: Uri, others: set<Uri>) returns (rest: seq<Uri>)
    requires w !in others
    ensures Distinct([w] + rest) && forall u :: u in rest <==> u in others
  {
    if others == {} {
      rest := [];
    } else {
      var u :| u in others;
      var rest' := OrderFrom(w, others - {u});
      rest := rest' + [u];
      assert [w] + rest == ([w] + rest') + [u];
    }
  }

  /** Visited first, an instance keeps a stranded share that no earlier one calls for, to the end. */
  lemma UncalledStays(c: Copies, w: Uri, j: nat, g: Pools) returns (order: seq<Uri>)
    requires Tidy(c.li) && StrandedAt(c, w, j, g) && !CalledEarlier(c, w, j, g)
    ensures AnyOrder(c, order) && Lists(RepairAll(c, order, g).li, w, c.li[w].Names()[j])
    ensures HandlesKept(c.ls, RepairAll(c, order, g).ls)
  {
    var rest := OrderFrom(w, c.li.Keys - {w});
    order := [w] + rest;
    assert order[0] == w && forall i | 0 <= i < |rest| :: order[i + 1] == rest[i];
    RepairFirst(c, w, rest, g);
    StaysWhenUncalled(c, w, j, g);
    RepairOneIsFixed(c, w, {}, g);
    UnvisitedGrows(RepairOne(c, w, g), rest, w, RepairAll(c, order, g), g);
    RepairAllRepairs(c, order, RepairAll(c, order, g), g);
  }

  /** A listed share that does not point back in the end was stranded from the start, and is where it was. */
  lemma LeftoverWasStranded(c: Copies, order: seq<Uri>, u: Uri, n: Name, g: Pools) returns (j: nat)
    requires Tidy(c.li) && AnyOrder(c, order)
    requires var d := RepairAll(c, order, g); Lists(d.li, u, n) && n in d.ls && d.ls[n].Handle() != u
    ensures StrandedAt(c, u, j, g) && c.li[u].Names()[j] == n && RepairAll(c, order, g).ls[n] == c.ls[n]
  {
    var d := RepairAll(c, order, g);
    RepairAllRepairs(c, order, d, g);
    assert PointsBack(d.li, d.ls, u, c.li.Keys, g);
    assert MayStay(n, u, d.ls, c.li.Keys, g) && AccountedAt(u, c.li, d.li, d.ls, g);
    j :| 0 <= j < |c.li[u].Names()| && c.li[u].Names()[j] == n;
  }

  /**
   * The repair is complete, in whatever order the instances are visited, exactly when every listed share
   * that is stranded comes after one in the same list that calls for its instance.
   */
  lemma RepairedIff(c: Copies, g: Pools)
    requires Tidy(c.li)
    ensures (forall order | AnyOrder(c, order) :: AllPointBack(RepairAll(c, order, g))) <==> NoneStrandedForGood(c, g)
  {
    if NoneStrandedForGood(c, g) {
      forall order | AnyOrder(c, order) ensures AllPointBack(RepairAll(c, order, g)) {
        var d := RepairAll(c, order, g);
        forall u, n | Lists(d.li, u, n) && n in d.ls ensures d.ls[n].Handle() == u {
          if d.ls[n].Handle() != u {
            var j := LeftoverWasStranded(c, order, u, n, g);
            CalledLeaves(c, order, u, j, g);
          }
        }
      }
    } else {
      var w, j: nat :| StrandedAt(c, w, j, g) && !CalledEarlier(c, w, j, g);
      var order := UncalledStays(c, w, j, g);
    }
  }

  /**
   * A second repair finds nothing to do, in whatever order the first one visited the instances, exactly
   * when every listed share that is stranded comes after one in the same list that calls for its
   * instance, or no listed share calls for that instance.
   */
  lemma SettlesIff(c: Copies, g: Pools)
    requires Tidy(c.li)
    ensures (forall order | AnyOrder(c, order) :: Settled(RepairAll(c, order, g), g)) <==> Settling(c, g)
  {
    if Settling(c, g) {
      forall order | AnyOrder(c, order) ensures Settled(RepairAll(c, order, g), g) {
        SettlingSettles(c, order, g);
      }
    } else {
      var w, j: nat :| StrandedAt(c, w, j, g) && !CalledEarlier(c, w, j, g) && Called(HandleAt(c, w, j), c.li, c.ls, g);
      var order := UncalledStays(c, w, j, g);
      CalledOpens(c, order, HandleAt(c, w, j), g);
      var d := RepairAll(c, order, g);
      assert !MayStay(c.li[w].Names()[j], w, d.ls, d.li.Keys, g);
      assert !PointsBack(d.li, d.ls, w, d.li.Keys, g);
    }
  }

  ghost predicate Settled(c: Copies, g: Pools) {
    AllSettled(c.li, c.ls, g)
  }

  lemma SettlingSettles(c: Copies, order: seq<Uri>, g: Pools)
    requires Tidy(c.li) && AnyOrder(c, order) && Settling(c, g)
    ensures Settled(RepairAll(c, order, g), g)
  {
    var d := RepairAll(c, order, g);
    RepairAllRepairs(c, order, d, g);
    forall u | u in d.li ensures PointsBack(d.li, d.ls, u, d.li.Keys, g) {
      forall n | n in d.li[u].Names() ensures MayStay(n, u, d.ls, d.li.Keys, g) {
        if n in d.ls && d.ls[n].Handle() != u {
          var j := LeftoverWasStranded(c, order, u, n, g);
          if CalledEarlier(c, u, j, g) {
            CalledLeaves(c, order, u, j, g);
          } else if d.ls[n].Handle() in d.li {
            OpenedWasCalled(c, d, HandleAt(c, u, j), g);
          }
        }
      }
    }
  }

  /** An instance created on the way was called for. */
  lemma OpenedWasCalled(c: Copies, d: Copies, v: Uri, g: Pools)
    requires Repairing(c, d, g) && v in d.li && v !in c.li
    ensures Called(v, c.li, c.ls, g)
  {
    assert AccountedAt(v, c.li, d.li, d.ls, g);
    var w, s :| Lists(c.li, w, s) && Calls(s, v, d.ls, g);
    assert c.ls[s].Handle() == "" ==> Lists(c.li, v, s);
    assert Calls(s, v, c.ls, g);
  }

  // Two orders of one repair.

  function Up(names: seq<Name>): InstanceInfo {
    InstanceInfo(false, 1, "", Absent, MIN_INSTANCE, Some(InstanceStatus(names, 0, Ready, 0, "", "")))
  }

  function On(u: Uri, tag: Tag): ShareInfo {
    ShareInfo(false, tag, Absent, GB, Some(ShareStatus(u, 0, Unset, "")))
  }

  /** `r`, listed by `a`, and `s`, listed by `b`, point to `v`; only the pool of `s` has a StorageClass. */
  datatype Scene = Scene(a: Uri, b: Uri, v: Uri, r: Name, s: Name, bare: Tag, pool: Tag)
  {
    ghost predicate Valid(g: Pools) {
      && a != "" && b != "" && v != "" && a != b && a != v && b != v
      && r != s && !g.HasClass(bare) && g.HasClass(pool)
    }

    function Shares(): map<Name, ShareInfo> {
      map[r := On(v, bare), s := On(v, pool)]
    }

    /** `v` has no object. */
    function Start(): Copies {
      Copies(Shares(), map[a := Up([r]), b := Up([s])])
    }

    /** `v` has been created for `s`. */
    function Then(listedByA: seq<Name>, listedByV: seq<Name>): Copies {
      Copies(Shares(), map[a := Up(listedByA), b := Up([]), v := NewFor(On(v, pool)).WithNames(listedByV)])
    }
  }

  /**
   * Two shares point to a missing instance, and only one of them can have it created. If the other one's
   * list is visited first, the repair leaves that share where it is although the instance is created right
   * after, and a second repair would move it; in the other order both are sent there.
   */
  lemma MixedExample(x: Scene, g: Pools)
    requires x.Valid(g)
    ensures AnyOrder(x.Start(), [x.a, x.b]) && AnyOrder(x.Start(), [x.b, x.a])
    ensures RepairAll(x.Start(), [x.a, x.b], g) == x.Then([x.r], [x.s]) && !Settled(x.Then([x.r], [x.s]), g)
    ensures RepairAll(x.Start(), [x.b, x.a], g) == x.Then([], [x.s, x.r]) && Settled(x.Then([], [x.s, x.r]), g)
  {
    BothOrders(x.Start(), x.a, x.b);
    StuckOrder(x, g);
    HomeOrder(x, g);
    OneSettled(x, g);
  }

  lemma BothOrders(c: Copies, u: Uri, v: Uri)
    requires c.li.Keys == {u, v} && u != v
    ensures AnyOrder(c, [u, v]) && AnyOrder(c, [v, u])
  {
    assert [u, v][0] == u && [v, u][0] == v;
  }

  lemma StuckOrder(x: Scene, g: Pools)
    requires x.Valid(g)
    ensures RepairAll(x.Start(), [x.a, x.b], g) == x.Then([x.r], [x.s])
  {
    VisitStuck(x, g);
    VisitSecond(x, g);
    TwoVisits(x.Start(), x.a, x.b, g);
  }

  lemma HomeOrder(x: Scene, g: Pools)
    requires x.Valid(g)
    ensures RepairAll(x.Start(), [x.b, x.a], g) == x.Then([], [x.s, x.r])
  {
    VisitSecond(x, g);
    VisitAgain(x, g);
    TwoVisits(x.Start(), x.b, x.a, g);
  }

  lemma VisitStuck(x: Scene, g: Pools)
    requires x.Valid(g)
    ensures RepairOne(x.Start(), x.a, g) == x.Start()
  {
    OneName(x.Start(), x.a, x.r, g);
    assert RepairOne(x.Start(), x.a, g).li == x.Start().li;
  }

  lemma VisitSecond(x: Scene, g: Pools)
    requires x.Valid(g)
    ensures RepairOne(x.Start(), x.b, g) == x.Then([x.r], [x.s])
  {
    OneReturned(x.Start(), x.b, x.s, g);
    assert WithShare(NewFor(On(x.v, x.pool)), x.s) == NewFor(On(x.v, x.pool)).WithNames([x.s]) by { assert [] + [x.s] == [x.s]; }
    TwoUpdates(x.a, x.b, x.v, Up([x.r]), Up([x.s]), Up([]), NewFor(On(x.v, x.pool)).WithNames([x.s]));
  }

  lemma TwoUpdates(a: Uri, b: Uri, v: Uri, i: InstanceInfo, j: InstanceInfo, k: InstanceInfo, n: InstanceInfo)
    requires a != b && a != v && b != v
    ensures map[a := i, b := j][v := n][b := k] == map[a := i, b := k, v := n]
  {
  }

  lemma VisitAgain(x: Scene, g: Pools)
    requires x.Valid(g)
    ensures RepairOne(x.Then([x.r], [x.s]), x.a, g) == x.Then([], [x.s, x.r])
  {
    var c, d := x.Then([x.r], [x.s]), x.Then([], [x.s, x.r]);
    OneReturned(c, x.a, x.r, g);
    assert WithShare(c.li[x.v], x.r) == d.li[x.v] by { assert [x.s] + [x.r] == [x.s, x.r]; }
    assert c.li[x.a].WithNames([]) == d.li[x.a];
    assert c.li[x.v := d.li[x.v]][x.a := d.li[x.a]] == d.li;
  }

  /** The only share an instance lists is sent away. */
  lemma OneReturned(c: Copies, u: Uri, n: Name, g: Pools)
    requires u in c.li && c.li[u].Names() == [n] && Leaves(c, u, n, g) && !c.ls[n].deleting
    ensures var a := c.ls[n];
            RepairOne(c, u, g) == Copies(c.ls, c.li[a.Handle() := WithShare(Home(c.li, a), n)][u := c.li[u].WithNames([])])
  {
    OneName(c, u, n, g);
  }

  lemma OneSettled(x: Scene, g: Pools)
    requires x.Valid(g)
    ensures !Settled(x.Then([x.r], [x.s]), g) && Settled(x.Then([], [x.s, x.r]), g)
  {
    var d := x.Then([x.r], [x.s]);
    assert x.r in d.li[x.a].Names() && !MayStay(x.r, x.a, d.ls, d.li.Keys, g);
    assert !PointsBack(d.li, d.ls, x.a, d.li.Keys, g);
  }

  lemma OneName(c: Copies, u: Uri, n: Name, g: Pools)
    requires u in c.li && c.li[u].Names() == [n]
    ensures var d := Visit(c, u, n, g);
            RepairOne(c, u, g) == d.(li := d.li[u := c.li[u].WithNames(if Leaves(c, u, n, g) then [] else [n])])
  {
    assert VisitFirst(c, u, 1, g) == VisitNext(VisitFirst(c, u, 0, g), u, n, g);
    assert [n][1..] == [];
  }

  lemma TwoVisits(c: Copies, u: Uri, v: Uri, g: Pools)
    requires u in c.li && v in RepairOne(c, u, g).li
    ensures RepairAll(c, [u, v], g) == RepairOne(RepairOne(c, u, g), v, g)
  {
    RepairFirst(c, u, [v], g);
    assert [u] + [v] == [u, v] && [v] + [] == [v];
    RepairFirst(RepairOne(c, u, g), v, [], g);
  }
}
