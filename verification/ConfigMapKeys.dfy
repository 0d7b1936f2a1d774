/** Keys of the lock-info ConfigMaps: six dot-separated parts, the node's IP with underscores. */
module ConfigMapKeys {
  import opened Text
  import opened Wrappers

  datatype Entry = Entry(
    project: string, location: string, filestore: string, share: string, nodeId: string, nodeIp: string)

  function Fields(e: Entry): seq<string> {
    [e.project, e.location, e.filestore, e.share, e.nodeId, Replace(e.nodeIp, '.', '_')]
  }

  function GenerateKey(e: Entry): string {
    Join(Fields(e), '.')
  }

  /** `isIp` stands for net.ParseIP succeeding. */
  function ParseKey(key: string, isIp: string -> bool): Result<Entry> {
    var tokens := Split(key, '.');
    if |tokens| != 6 then Err
    else
      var ip := Replace(tokens[5], '_', '.');
      if !isIp(ip) then Err
      else if tokens[0] == "" || tokens[1] == "" || tokens[2] == "" || tokens[3] == "" || tokens[4] == "" || ip == "" then Err
      else Ok(Entry(tokens[0], tokens[1], tokens[2], tokens[3], tokens[4], ip))
  }

  predicate DotFree(e: Entry) {
    '.' !in e.project && '.' !in e.location && '.' !in e.filestore && '.' !in e.share && '.' !in e.nodeId
  }

  predicate NonEmpty(e: Entry) {
    e.project != "" && e.location != "" && e.filestore != "" && e.share != "" && e.nodeId != "" && e.nodeIp != ""
  }

  lemma SplitKey(e: Entry)
    requires DotFree(e)
    ensures Split(GenerateKey(e), '.') == Fields(e)
  {
    assert '.' !in Replace(e.nodeIp, '.', '_');
    SplitJoin(Fields(e), '.');
  }

  /** Parsing a generated key gives all six parts back. */
  lemma ParseGenerated(e: Entry, isIp: string -> bool)
    requires DotFree(e) && '_' !in e.nodeIp
    ensures ParseKey(GenerateKey(e), isIp) == if NonEmpty(e) && isIp(e.nodeIp) then Ok(e) else Err
  {
    SplitKey(e);
    ReplaceRoundTrip(e.nodeIp, '.', '_');
  }

  /** Exactly these entries are what their keys say. */
  lemma ParseGeneratedExact(e: Entry, isIp: string -> bool)
    ensures ParseKey(GenerateKey(e), isIp) == Ok(e) <==> DotFree(e) && '_' !in e.nodeIp && NonEmpty(e) && isIp(e.nodeIp)
  {
    if ParseKey(GenerateKey(e), isIp) == Ok(e) {
      var tokens := Split(GenerateKey(e), '.');
      SplitPiecesFree(GenerateKey(e), '.');
      assert forall k | 0 <= k < 6 :: tokens[k] in tokens;
    } else if DotFree(e) && '_' !in e.nodeIp {
      ParseGenerated(e, isIp);
    }
  }

  /** Every key that parses is regenerated unchanged, whatever kind of address its last part is. */
  lemma RegenerateParsed(key: string, isIp: string -> bool)
    requires ParseKey(key, isIp).Ok?
    ensures GenerateKey(ParseKey(key, isIp).value) == key
  {
    var tokens := Split(key, '.');
    SplitPiecesFree(key, '.');
    assert tokens[5] in tokens;
    ReplaceRoundTrip(tokens[5], '_', '.');
    assert Fields(ParseKey(key, isIp).value) == tokens;
    JoinSplit(key, '.');
  }

  /** The key of an entry whose parts have no dot is the key of no other entry. */
  lemma GenerateInjective(a: Entry, b: Entry)
    requires DotFree(a) && '_' !in a.nodeIp && '_' !in b.nodeIp
    requires GenerateKey(a) == GenerateKey(b)
    ensures a == b
  {
    SplitKey(a);
    PiecesOfJoin(Fields(b), '.');
    assert forall k | 0 <= k < 6 :: Fields(b)[k] in Fields(b);
    SplitKey(b);
    ReplaceRoundTrip(a.nodeIp, '.', '_');
    ReplaceRoundTrip(b.nodeIp, '.', '_');
    assert Fields(a)[0] == Fields(b)[0] && Fields(a)[1] == Fields(b)[1] && Fields(a)[2] == Fields(b)[2];
    assert Fields(a)[3] == Fields(b)[3] && Fields(a)[4] == Fields(b)[4] && Fields(a)[5] == Fields(b)[5];
  }

  /** A joined string has more pieces than parts when a part holds the separator. */
  lemma {:induction false} PiecesOfJoin(parts: seq<string>, c: char)
    requires parts != []
    ensures |Split(Join(parts, c), c)| >= |parts|
    ensures |Split(Join(parts, c), c)| == |parts| ==> forall p | p in parts :: c !in p
  {
    SomePieces(parts[0], c);
    if |parts| > 1 {
      PiecesOfJoin(parts[1..], c);
      SplitAppend(parts[0], Join(parts[1..], c), c);
    }
  }

  lemma {:induction false} SomePieces(s: string, c: char)
    ensures |Split(s, c)| == 1 ==> c !in s
  {
    if s != "" { SomePieces(s[1..], c); }
  }

  /** A dot inside any of the five names is what breaks it: another entry has the same key. */
  lemma DotsCollide(e: Entry) returns (other: Entry)
    requires !DotFree(e)
    ensures other != e && other.nodeIp == e.nodeIp && GenerateKey(other) == GenerateKey(e)
  {
    var Entry(p, l, f, s, n, ip) := e;
    var r := Replace(ip, '.', '_');
    if '.' in p {
      var x, y := CutAtDot(p);
      other := Entry(x, y + "." + l, f, s, n, ip);
      MoveDot([], x, y, l, [f, s, n, r], Fields(e), Fields(other));
    } else if '.' in l {
      var x, y := CutAtDot(l);
      other := Entry(p, x, y + "." + f, s, n, ip);
      MoveDot([p], x, y, f, [s, n, r], Fields(e), Fields(other));
    } else if '.' in f {
      var x, y := CutAtDot(f);
      other := Entry(p, l, x, y + "." + s, n, ip);
      MoveDot([p, l], x, y, s, [n, r], Fields(e), Fields(other));
    } else if '.' in s {
      var x, y := CutAtDot(s);
      other := Entry(p, l, f, x, y + "." + n, ip);
      MoveDot([p, l, f], x, y, n, [r], Fields(e), Fields(other));
    } else {
      var x, y := CutAtDot(n);
      other := Entry(p, l, f, s + "." + x, y, ip);
      MoveDot([p, l, f], s, x, y, [r], Fields(other), Fields(e));
    }
  }

  /** Exactly the entries without a dot in their names have a key of their own. */
  lemma OwnKeyIff(e: Entry)
    requires '_' !in e.nodeIp
    ensures (forall other: Entry | '_' !in other.nodeIp && GenerateKey(other) == GenerateKey(e) :: other == e) <==> DotFree(e)
  {
    if DotFree(e) {
      forall other: Entry | '_' !in other.nodeIp && GenerateKey(other) == GenerateKey(e) ensures other == e {
        GenerateInjective(e, other);
      }
    } else {
      var other := DotsCollide(e);
    }
  }

  lemma CutAtDot(s: string) returns (x: string, y: string)
    requires '.' in s
    ensures s == x + "." + y && |x| < |s| && |y| < |s|
  {
    var i :| 0 <= i < |s| && s[i] == '.';
    x, y := s[..i], s[i + 1..];
  }

  /** A dot at the seam of two parts may belong to either. */
  lemma MoveDot(before: seq<string>, x: string, y: string, z: string, after: seq<string>, a: seq<string>, b: seq<string>)
    requires a == before + ([x + "." + y, z] + after) && b == before + ([x, y + "." + z] + after) && after != []
    ensures Join(a, '.') == Join(b, '.')
  {
    JoinTwo(x + "." + y, z, after);
    JoinTwo(x, y + "." + z, after);
    Regroup(x, y, z, Join(after, '.'));
    JoinBehind(before, [x + "." + y, z] + after, [x, y + "." + z] + after);
  }

  lemma {:induction false} JoinBehind(before: seq<string>, a: seq<string>, b: seq<string>)
    requires a != [] && b != [] && Join(a, '.') == Join(b, '.')
    ensures Join(before + a, '.') == Join(before + b, '.')
  {
    if before == [] {
      assert before + a == a && before + b == b;
    } else {
      JoinBehind(before[1..], a, b);
      JoinOne(before[0], before[1..] + a);
      JoinOne(before[0], before[1..] + b);
      assert before + a == [before[0]] + (before[1..] + a) && before + b == [before[0]] + (before[1..] + b);
    }
  }

  lemma JoinTwo(x: string, y: string, rest: seq<string>)
    requires rest != []
    ensures Join([x, y] + rest, '.') == x + ['.'] + (y + ['.'] + Join(rest, '.'))
  {
    JoinOne(y, rest);
    JoinOne(x, [y] + rest);
    assert [x, y] + rest == [x] + ([y] + rest);
  }

  lemma JoinOne(part: string, rest: seq<string>)
    requires rest != []
    ensures Join([part] + rest, '.') == part + ['.'] + Join(rest, '.')
  {
    assert ([part] + rest)[1..] == rest;
  }

  lemma Regroup(x: string, y: string, z: string, tail: string)
    ensures x + "." + y + ['.'] + (z + ['.'] + tail) == x + ['.'] + (y + "." + z + ['.'] + tail)
  {
  }
}
