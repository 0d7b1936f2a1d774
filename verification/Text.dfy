/** The few operations of Go's strings package that the driver's names and URIs rely on. */
module Text {

  /** strings.Split for a one-character separator. */
  function Split(s: string, c: char): (parts: seq<string>)
    ensures |parts| >= 1
  {
    if s == "" then [""]
    else
      var rest := Split(s[1..], c);
      if s[0] == c then [""] + rest else [[s[0]] + rest[0]] + rest[1..]
  }

  /** strings.Join for a one-character separator. */
  function Join(parts: seq<string>, c: char): string {
    if |parts| == 0 then ""
    else if |parts| == 1 then parts[0]
    else parts[0] + [c] + Join(parts[1..], c)
  }

  /** strings.Contains. */
  predicate Contains(s: string, t: string) {
    exists i | 0 <= i <= |s| - |t| :: OccursAt(s, t, i)
  }

  predicate OccursAt(s: string, t: string, i: nat)
    requires i <= |s| - |t|
  {
    s[i..i + |t|] == t
  }

  /** A string with something around it contains it. */
  lemma ContainsMiddle(a: string, t: string, b: string)
    ensures Contains(a + t + b, t)
  {
    assert OccursAt(a + t + b, t, |a|);
  }

  /** strings.ReplaceAll, one character for another. */
  function Replace(s: string, from: char, to: char): (r: string)
    ensures |r| == |s|
    ensures forall i | 0 <= i < |s| :: r[i] == if s[i] == from then to else s[i]
  {
    seq(|s|, i requires 0 <= i < |s| => if s[i] == from then to else s[i])
  }

  /** A separator cuts a string into the pieces of its two sides. */
  lemma {:induction false} SplitAppend(a: string, b: string, c: char)
    ensures Split(a + [c] + b, c) == Split(a, c) + Split(b, c)
  {
    var whole := a + [c] + b;
    if a == "" {
      assert whole == [c] + b;
      assert whole[1..] == b;
    } else {
      assert whole[1..] == a[1..] + [c] + b;
      SplitAppend(a[1..], b, c);
    }
  }

  /** A string without the separator is its own only piece. */
  lemma {:induction false} SplitFree(s: string, c: char)
    requires c !in s
    ensures Split(s, c) == [s]
  {
    if s != "" {
      SplitFree(s[1..], c);
      assert [s[0]] + s[1..] == s;
    }
  }

  lemma {:induction false} SplitPiecesFree(s: string, c: char)
    ensures forall p | p in Split(s, c) :: c !in p
  {
    if s != "" {
      SplitPiecesFree(s[1..], c);
      var rest := Split(s[1..], c);
      forall p | p in Split(s, c) ensures c !in p {
        if s[0] != c && p == [s[0]] + rest[0] {
          assert rest[0] in rest;
        }
      }
    }
  }

  /** Joining what was split gives the string back. */
  lemma {:induction false} JoinSplit(s: string, c: char)
    ensures Join(Split(s, c), c) == s
  {
    if s != "" {
      JoinSplit(s[1..], c);
      var rest := Split(s[1..], c);
      if s[0] == c {
        assert ([""] + rest)[1..] == rest;
        assert s == [c] + s[1..];
      } else {
        assert ([[s[0]] + rest[0]] + rest[1..])[1..] == rest[1..];
        assert s == [s[0]] + s[1..];
        assert Join(Split(s, c), c) == [s[0]] + Join(rest, c);
      }
    }
  }

  /** Splitting what was joined gives the pieces back, when none holds the separator. */
  lemma {:induction false} SplitJoin(parts: seq<string>, c: char)
    requires |parts| >= 1
    requires forall p | p in parts :: c !in p
    ensures Split(Join(parts, c), c) == parts
  {
    if |parts| == 1 {
      SplitFree(parts[0], c);
    } else {
      SplitJoin(parts[1..], c);
      SplitAppend(parts[0], Join(parts[1..], c), c);
      SplitFree(parts[0], c);
      assert Join(parts, c) == parts[0] + [c] + Join(parts[1..], c);
      assert Split(Join(parts, c), c) == [parts[0]] + parts[1..];
    }
  }

  /** Replacing a character and replacing it back is the identity exactly on strings without the stand-in. */
  lemma ReplaceRoundTrip(s: string, from: char, to: char)
    requires from != to
    ensures Replace(Replace(s, from, to), to, from) == s <==> to !in s
  {
    var back := Replace(Replace(s, from, to), to, from);
    if to in s {
      var i :| 0 <= i < |s| && s[i] == to;
      assert back[i] == from;
    }
  }
}
