/** Resource names: instance and share URIs, the operation-target tests, and volume ids. */
module Uris {
  import opened Text

  /** The identity of a multishare instance. */
  datatype Instance = Instance(project: string, location: string, name: string)

  /** The identity of a share: its host and its own name. */
  datatype Share = Share(parent: Instance, name: string)

  /** A path segment as Filestore allows it: not empty and without a slash. */
  predicate Segment(s: string) {
    s != "" && '/' !in s
  }

  predicate ValidInstance(i: Instance) {
    Segment(i.project) && Segment(i.location) && Segment(i.name)
  }

  function InstanceUri(i: Instance): string {
    "projects" + "/" + i.project + "/" + "locations" + "/" + i.location + "/" + "instances" + "/" + i.name
  }

  function ShareUri(s: Share): string {
    InstanceUri(s.parent) + "/" + "shares" + "/" + s.name
  }

  /** The pieces of an instance URI. */
  function InstancePieces(i: Instance): seq<string> {
    ["projects", i.project, "locations", i.location, "instances", i.name]
  }

  /** The regular expression for an instance target. */
  predicate IsInstanceTarget(target: string) {
    var p := Split(target, '/');
    && |p| == 6
    && p[0] == "projects" && p[2] == "locations" && p[4] == "instances"
    && p[1] != "" && p[3] != "" && p[5] != ""
  }

  /** The regular expression for a share target. */
  predicate IsShareTarget(target: string) {
    var p := Split(target, '/');
    && |p| == 8
    && p[0] == "projects" && p[2] == "locations" && p[4] == "instances" && p[6] == "shares"
    && p[1] != "" && p[3] != "" && p[5] != "" && p[7] != ""
  }

  /** The test the ops manager uses for "this operation is on the instance or on one of its shares". */
  predicate TargetsInstance(target: string, i: Instance) {
    target == InstanceUri(i) || Contains(target, InstanceUri(i) + "/")
  }

  /** What the test is meant to say. */
  ghost predicate BelongsTo(target: string, i: Instance) {
    || target == InstanceUri(i)
    || exists s | Segment(s) :: target == ShareUri(Share(i, s))
  }

  /**
   * The one way to be fooled: the instance is project "locations", location "instances", name
   * "shares", and the target is a share whose own project ends in "projects" and whose location and
   * instance are called "locations" and "instances".
   */
  ghost predicate Mimics(target: string, i: Instance) {
    && i == Instance("locations", "instances", "shares")
    && exists x, s | '/' !in x && Segment(s) ::
         target == ShareUri(Share(Instance(x + "projects", "locations", "instances"), s))
  }

  lemma InstanceUriJoins(i: Instance)
    ensures InstanceUri(i) == Join(InstancePieces(i), '/')
  {
    var p := InstancePieces(i);
    assert Join(p[4..], '/') == "instances" + "/" + i.name by { assert p[4..][1..] == [i.name]; }
    assert Join(p[2..], '/') == "locations" + "/" + (i.location + "/" + Join(p[4..], '/')) by {
      assert p[2..][1..] == p[3..] && p[3..][1..] == p[4..];
    }
    assert p[1..][1..] == p[2..];
  }

  lemma SplitInstanceUri(i: Instance)
    requires '/' !in i.project && '/' !in i.location && '/' !in i.name
    ensures Split(InstanceUri(i), '/') == InstancePieces(i)
  {
    InstanceUriJoins(i);
    SplitJoin(InstancePieces(i), '/');
  }

  lemma SplitShareUri(s: Share)
    requires '/' !in s.parent.project && '/' !in s.parent.location && '/' !in s.parent.name && '/' !in s.name
    ensures Split(ShareUri(s), '/') == InstancePieces(s.parent) + ["shares", s.name]
  {
    SplitInstanceUri(s.parent);
    TwoMorePieces(InstanceUri(s.parent), "shares", s.name);
  }

  lemma TwoMorePieces(a: string, b: string, c: string)
    requires '/' !in b && '/' !in c
    ensures Split(a + "/" + b + "/" + c, '/') == Split(a, '/') + [b, c]
  {
    SplitFree(b, '/');
    SplitFree(c, '/');
    SplitAppend(b, c, '/');
    SplitAppend(a, b + ['/'] + c, '/');
    assert a + "/" + b + "/" + c == a + ['/'] + (b + ['/'] + c);
  }

  /** Two targets with the same pieces are the same target. */
  lemma SamePieces(a: string, b: string)
    requires Split(a, '/') == Split(b, '/')
    ensures a == b
  {
    JoinSplit(a, '/');
    JoinSplit(b, '/');
  }

  /** The pieces of anything that contains the URI and a slash after it. */
  lemma PiecesAround(i: Instance, before: string, after: string)
    requires ValidInstance(i)
    ensures Split(before + InstanceUri(i) + "/" + after, '/')
         == Split(before + "projects", '/') + InstancePieces(i)[1..] + Split(after, '/')
  {
    InstanceUriJoins(i);
    assert InstancePieces(i) == ["projects"] + InstancePieces(i)[1..];
    JoinedAround(before, "projects", InstancePieces(i)[1..], after);
  }

  lemma JoinedAround(before: string, first: string, tail: seq<string>, after: string)
    requires tail != [] && forall p | p in tail :: '/' !in p
    ensures Split(before + Join([first] + tail, '/') + "/" + after, '/') == Split(before + first, '/') + tail + Split(after, '/')
  {
    var rest := Join(tail, '/');
    SplitJoin(tail, '/');
    assert Join([first] + tail, '/') == first + ['/'] + rest by { assert ([first] + tail)[1..] == tail; }
    SplitAppend(rest, after, '/');
    SplitAppend(before + first, rest + ['/'] + after, '/');
    Regroup(before, first, rest, after);
  }

  lemma Regroup(before: string, first: string, rest: string, after: string)
    ensures before + (first + ['/'] + rest) + "/" + after == (before + first) + ['/'] + (rest + ['/'] + after)
  {
  }

  /** A share target is the URI of the share that its pieces name. */
  lemma ShareFromPieces(target: string, s: Share)
    requires IsShareTarget(target)
    requires var p := Split(target, '/'); s == Share(Instance(p[1], p[3], p[5]), p[7])
    ensures target == ShareUri(s) && ValidInstance(s.parent) && Segment(s.name)
  {
    var p := Split(target, '/');
    SplitPiecesFree(target, '/');
    assert p[1] in p && p[3] in p && p[5] in p && p[7] in p;
    SplitShareUri(s);
    EightPieces(p);
    SamePieces(target, ShareUri(s));
  }

  lemma EightPieces(p: seq<string>)
    requires |p| == 8
    ensures p == [p[0], p[1], p[2], p[3], p[4], p[5]] + [p[6], p[7]]
  {
  }

  /** The URI starts at the front of the target: the target is one of the instance's shares. */
  lemma AlignedOccurrence(target: string, i: Instance, before: string, after: string)
    requires IsShareTarget(target)
    requires Split(target, '/') == Split(before + "projects", '/') + InstancePieces(i)[1..] + Split(after, '/')
    requires |Split(before + "projects", '/')| == 1
    ensures BelongsTo(target, i)
  {
    var p := Split(target, '/');
    var tail := InstancePieces(i)[1..];
    assert p[1] == tail[0] && p[3] == tail[2] && p[5] == tail[4];
    ShareFromPieces(target, Share(i, p[7]));
  }

  /** The URI starts inside the target's project: every later piece is then forced. */
  lemma ShiftedOccurrence(target: string, i: Instance, before: string, after: string)
    requires IsShareTarget(target)
    requires Split(target, '/') == Split(before + "projects", '/') + InstancePieces(i)[1..] + Split(after, '/')
    requires |Split(before + "projects", '/')| == 2
    ensures Mimics(target, i)
  {
    var p := Split(target, '/');
    var tail := InstancePieces(i)[1..];
    assert p[2] == tail[0] && p[3] == tail[1] && p[4] == tail[2] && p[5] == tail[3] && p[6] == tail[4];
    ShareFromPieces(target, Share(Instance(p[1], p[3], p[5]), p[7]));
    assert Split(before + "projects", '/') == [p[0], p[1]];
    EndsWith(before, p[1]);
    var x := p[1][..|p[1]| - 8];
    assert p[1] == x + "projects";
  }

  /** When "…projects" splits into "projects" and one more piece, that piece ends in "projects". */
  lemma EndsWith(before: string, last: string)
    requires Split(before + "projects", '/') == ["projects", last]
    ensures |last| >= 8 && last[|last| - 8..] == "projects"
  {
    JoinSplit(before + "projects", '/');
    var whole := before + "projects";
    assert ["projects", last][1..] == [last];
    assert whole == "projects" + ['/'] + last;
    assert forall k | |before| <= k < |whole| :: whole[k] != '/';
    assert whole[8] == '/';
    assert whole[|whole| - 8..] == "projects";
    assert whole[|whole| - 8..] == last[|last| - 8..];
  }

  /** What a target that contains the URI and a slash can be. */
  lemma ContainingTarget(target: string, i: Instance)
    requires ValidInstance(i)
    requires IsInstanceTarget(target) || IsShareTarget(target)
    requires Contains(target, InstanceUri(i) + "/")
    ensures BelongsTo(target, i) || Mimics(target, i)
  {
    var u := InstanceUri(i) + "/";
    var k :| 0 <= k <= |target| - |u| && OccursAt(target, u, k);
    var before, after := target[..k], target[k + |u|..];
    assert target == before + InstanceUri(i) + "/" + after by { assert target == before + u + after; }
    PiecesAround(i, before, after);
    if |Split(before + "projects", '/')| == 1 {
      AlignedOccurrence(target, i, before, after);
    } else {
      ShiftedOccurrence(target, i, before, after);
    }
  }

  lemma OwnShareContains(i: Instance, name: string)
    ensures Contains(ShareUri(Share(i, name)), InstanceUri(i) + "/")
  {
    ContainsMiddle("", InstanceUri(i) + "/", "shares" + "/" + name);
    assert ShareUri(Share(i, name)) == "" + (InstanceUri(i) + "/") + ("shares" + "/" + name);
  }

  /** An instance URI pushed one place to the right, and the pieces of the result. */
  lemma PushedUri(i: Instance, x: string, name: string) returns (whole: string)
    requires ValidInstance(i) && '/' !in x && '/' !in name
    ensures Contains(whole, InstanceUri(i) + "/")
    ensures Split(whole, '/') == ["projects", x + "projects"] + InstancePieces(i)[1..] + [name]
  {
    var before := "projects" + "/" + x;
    whole := before + InstanceUri(i) + "/" + name;
    ContainsMiddle(before, InstanceUri(i) + "/", name);
    assert whole == before + (InstanceUri(i) + "/") + name;
    PiecesAround(i, before, name);
    SplitFree(name, '/');
    TwoPieces("projects", x, "projects");
  }

  lemma TwoPieces(a: string, x: string, b: string)
    requires '/' !in a && '/' !in x && '/' !in b
    ensures Split(a + "/" + x + b, '/') == [a, x + b]
  {
    SplitFree(a, '/');
    SplitFree(x + b, '/');
    SplitAppend(a, x + b, '/');
    assert a + "/" + x + b == a + ['/'] + (x + b);
  }

  lemma MimicContains(x: string, name: string)
    requires '/' !in x && '/' !in name
    ensures Contains(ShareUri(Share(Instance(x + "projects", "locations", "instances"), name)),
                     InstanceUri(Instance("locations", "instances", "shares")) + "/")
  {
    var mimic := Share(Instance(x + "projects", "locations", "instances"), name);
    var whole := PushedUri(Instance("locations", "instances", "shares"), x, name);
    SplitShareUri(mimic);
    ShiftedPieces("projects", x + "projects", "locations", "instances", "shares", name);
    SamePieces(whole, ShareUri(mimic));
  }

  lemma ShiftedPieces(p: string, project: string, l: string, i: string, s: string, name: string)
    ensures [p, project] + [p, l, l, i, i, s][1..] + [name] == [p, project, l, l, i, i] + [s, name]
  {
  }

  /** For every operation target, the substring test is exact but for the one mimicking family. */
  lemma SubstringTestExact(target: string, i: Instance)
    requires ValidInstance(i)
    requires IsInstanceTarget(target) || IsShareTarget(target)
    ensures TargetsInstance(target, i) <==> (BelongsTo(target, i) || Mimics(target, i))
  {
    if Contains(target, InstanceUri(i) + "/") {
      ContainingTarget(target, i);
    } else if target != InstanceUri(i) {
      forall s | Segment(s) ensures target != ShareUri(Share(i, s)) {
        OwnShareContains(i, s);
      }
      forall x, s | '/' !in x && Segment(s)
        ensures !(i == Instance("locations", "instances", "shares")
                  && target == ShareUri(Share(Instance(x + "projects", "locations", "instances"), s)))
      {
        MimicContains(x, s);
      }
    }
  }

  /** A share's own URI, and its instance's, belong to that instance and to no other. */
  lemma TargetsOwnInstance(i: Instance, j: Instance, name: string)
    requires ValidInstance(i) && ValidInstance(j) && Segment(name)
    ensures IsInstanceTarget(InstanceUri(i)) && IsShareTarget(ShareUri(Share(i, name)))
    ensures BelongsTo(InstanceUri(i), j) <==> i == j
    ensures BelongsTo(ShareUri(Share(i, name)), j) <==> i == j
  {
    GeneratedTargets(i, name);
    InstanceUriIsNoShare(j, i, name);
    if s :| Segment(s) && ShareUri(Share(i, name)) == ShareUri(Share(j, s)) {
      ShareUriInjective(Share(i, name), Share(j, s));
    }
    if s :| Segment(s) && InstanceUri(i) == ShareUri(Share(j, s)) {
      InstanceUriIsNoShare(i, j, s);
    }
    if InstanceUri(i) == InstanceUri(j) {
      InstanceUriInjective(i, j);
    }
  }

  lemma GeneratedTargets(i: Instance, name: string)
    requires ValidInstance(i) && Segment(name)
    ensures IsInstanceTarget(InstanceUri(i)) && IsShareTarget(ShareUri(Share(i, name)))
  {
    SplitInstanceUri(i);
    SplitShareUri(Share(i, name));
  }

  lemma InstanceUriInjective(i: Instance, j: Instance)
    requires ValidInstance(i) && ValidInstance(j)
    ensures InstanceUri(i) == InstanceUri(j) <==> i == j
  {
    SplitInstanceUri(i);
    SplitInstanceUri(j);
    if InstanceUri(i) == InstanceUri(j) {
      var p := Split(InstanceUri(i), '/');
      assert p[1] == j.project && p[3] == j.location && p[5] == j.name;
    }
  }

  lemma InstanceUriIsNoShare(i: Instance, j: Instance, s: string)
    requires ValidInstance(i) && '/' !in j.project && '/' !in j.location && '/' !in j.name && '/' !in s
    ensures InstanceUri(i) != ShareUri(Share(j, s))
  {
    SplitInstanceUri(i);
    SplitShareUri(Share(j, s));
  }

  /**
   * The test as the ops manager needs it: on the targets of real operations it says "same instance",
   * for every instance but the one named locations/instances/shares.
   */
  lemma TestIsOwnership(i: Instance, j: Instance, name: string)
    requires ValidInstance(i) && ValidInstance(j) && Segment(name)
    ensures i == j ==> TargetsInstance(InstanceUri(i), j) && TargetsInstance(ShareUri(Share(i, name)), j)
    ensures TargetsInstance(InstanceUri(i), j) ==> i == j
    ensures j != Instance("locations", "instances", "shares") && TargetsInstance(ShareUri(Share(i, name)), j) ==> i == j
  {
    TargetsOwnInstance(i, j, name);
    SubstringTestExact(InstanceUri(i), j);
    SubstringTestExact(ShareUri(Share(i, name)), j);
    InstanceNeverMimics(i, j);
  }

  lemma InstanceNeverMimics(i: Instance, j: Instance)
    requires ValidInstance(i)
    ensures !Mimics(InstanceUri(i), j)
  {
    forall x, s | '/' !in x && Segment(s)
      ensures InstanceUri(i) != ShareUri(Share(Instance(x + "projects", "locations", "instances"), s))
    {
      InstanceUriIsNoShare(i, Instance(x + "projects", "locations", "instances"), s);
    }
  }

  /** The side condition is needed: shares of unrelated instances pass the test, say one of project "my-projects". */
  lemma MimicExample(x: string, name: string)
    requires '/' !in x && Segment(name)
    ensures
      var victim := Instance("locations", "instances", "shares");
      var target := ShareUri(Share(Instance(x + "projects", "locations", "instances"), name));
      TargetsInstance(target, victim) && !BelongsTo(target, victim)
  {
    assert (x + "projects")[|x|] == 'p';
    assert x + "projects" != "locations";
    TargetsOwnInstance(Instance(x + "projects", "locations", "instances"), Instance("locations", "instances", "shares"), name);
    MimicContains(x, name);
  }

  /** Whether a share target equals another share's URI decides whether they are the same share. */
  lemma ShareUriInjective(s: Share, t: Share)
    requires ValidInstance(s.parent) && ValidInstance(t.parent) && Segment(s.name) && Segment(t.name)
    ensures ShareUri(s) == ShareUri(t) <==> s == t
  {
    SplitShareUri(s);
    SplitShareUri(t);
    if ShareUri(s) == ShareUri(t) {
      var p := Split(ShareUri(s), '/');
      assert p[1] == t.parent.project && p[3] == t.parent.location && p[5] == t.parent.name && p[7] == t.name;
    }
  }
}
