/** Resource tags parentID/tagKey/tagValue: in-place de-duplication and merging. */
module Tags {

  /** The byte order that sort.Strings uses. */
  predicate Le(a: string, b: string) {
    if a == "" then true
    else if b == "" then false
    else if a[0] != b[0] then a[0] < b[0]
    else Le(a[1..], b[1..])
  }

  /** One string comes before another where they first differ, or as its beginning. */
  lemma {:induction false} LeExact(a: string, b: string)
    ensures Le(a, b) <==> a <= b || exists k: nat :: LessAt(a, b, k)
  {
    if a != "" && b != "" {
      if a[0] == b[0] {
        LeExact(a[1..], b[1..]);
        assert a == [a[0]] + a[1..] && b == [b[0]] + b[1..];
        assert a <= b <==> a[1..] <= b[1..];
        if k: nat :| LessAt(a[1..], b[1..], k) {
          assert a[..k + 1] == [a[0]] + a[1..][..k] && b[..k + 1] == [b[0]] + b[1..][..k];
          assert LessAt(a, b, k + 1);
        }
        if k: nat :| LessAt(a, b, k) {
          assert k > 0 && a[1..][..k - 1] == a[..k][1..] && b[1..][..k - 1] == b[..k][1..];
          assert LessAt(a[1..], b[1..], k - 1);
        }
      } else {
        assert a[0] < b[0] ==> LessAt(a, b, 0);
        assert forall k: nat | LessAt(a, b, k) :: k == 0 || a[..k][0] == b[..k][0];
      }
    }
  }

  /** The strings agree before this place, where the first has the lesser character. */
  predicate LessAt(a: string, b: string, k: nat) {
    k < |a| && k < |b| && a[..k] == b[..k] && a[k] < b[k]
  }

  lemma {:induction false} LeTotal(a: string, b: string)
    ensures Le(a, b) || Le(b, a)
    ensures Le(a, b) && Le(b, a) ==> a == b
  {
    if a != "" && b != "" && a[0] == b[0] {
      LeTotal(a[1..], b[1..]);
      assert a == [a[0]] + a[1..] && b == [b[0]] + b[1..];
    }
  }

  lemma {:induction false} LeTransitive(a: string, b: string, c: string)
    requires Le(a, b) && Le(b, c)
    ensures Le(a, c)
  {
    if a != "" && a[0] == b[0] == c[0] {
      LeTransitive(a[1..], b[1..], c[1..]);
    }
  }

  /** strings.LastIndex of the delimiter; -1 when there is none. */
  function LastSlash(s: string): (i: int)
    ensures -1 <= i < |s|
    ensures i >= 0 ==> s[i] == '/' && '/' !in s[i + 1..]
    ensures i == -1 <==> '/' !in s
  {
    if s == "" then -1
    else if s[|s| - 1] == '/' then |s| - 1
    else
      var front := s[..|s| - 1];
      assert s == front + [s[|s| - 1]];
      var i := LastSlash(front);
      assert i >= 0 ==> s[i + 1..] == front[i + 1..] + [s[|s| - 1]];
      i
  }

  /** Tags reach the merge vetted: they contain the delimiter. */
  predicate Vetted(tags: set<string>) {
    forall t | t in tags :: '/' in t
  }

  function KeyOf(tag: string): string
    requires '/' in tag
  {
    tag[..LastSlash(tag)]
  }

  function ValueOf(tag: string): string
    requires '/' in tag
  {
    tag[LastSlash(tag) + 1..]
  }

  lemma TagFromParts(tag: string)
    requires '/' in tag
    ensures tag == KeyOf(tag) + "/" + ValueOf(tag) && '/' !in ValueOf(tag)
  {
  }

  /** The least tag of its parent and key. */
  ghost predicate LeastOfKey(t: string, tags: set<string>)
    requires Vetted(tags)
  {
    t in tags && forall u | u in tags && KeyOf(u) == KeyOf(t) :: Le(t, u)
  }

  ghost function Dedup(tags: set<string>): (r: set<string>)
    requires Vetted(tags)
    ensures r <= tags
    ensures Vetted(r)
  {
    set t | t in tags && LeastOfKey(t, tags)
  }

  ghost function Merge(a: set<string>, b: set<string>): set<string>
    requires Vetted(a) && Vetted(b)
  {
    Dedup(a + b)
  }

  /** Every parent and key that occurs has a least tag. */
  lemma {:induction false} LeastExists(tags: set<string>, tag: string) returns (least: string)
    requires Vetted(tags) && tag in tags
    ensures LeastOfKey(least, tags) && KeyOf(least) == KeyOf(tag) && Le(least, tag)
    decreases tags
  {
    var rest := tags - {tag};
    least := tag;
    LeTotal(tag, tag);
    if u :| u in rest && KeyOf(u) == KeyOf(tag) {
      var other := LeastExists(rest, u);
      LeTotal(tag, other);
      least := if Le(tag, other) then tag else other;
      forall v | v in tags && KeyOf(v) == KeyOf(least) ensures Le(least, v) {
        if v != tag && Le(tag, other) { LeTransitive(tag, other, v); }
      }
    }
  }

  /** De-duplication keeps every parent and key, with exactly one tag for each. */
  lemma DedupKeepsKeys(tags: set<string>, tag: string)
    requires Vetted(tags) && tag in tags
    ensures exists t | t in Dedup(tags) :: KeyOf(t) == KeyOf(tag)
    ensures forall t, u | t in Dedup(tags) && u in Dedup(tags) && KeyOf(t) == KeyOf(u) :: t == u
  {
    var least := LeastExists(tags, tag);
    assert least in Dedup(tags);
    forall t, u | t in Dedup(tags) && u in Dedup(tags) && KeyOf(t) == KeyOf(u) ensures t == u {
      LeTotal(t, u);
    }
  }

  lemma DedupIdempotent(tags: set<string>)
    requires Vetted(tags)
    ensures Dedup(Dedup(tags)) == Dedup(tags)
  {
  }

  /** De-duplicating one side first changes nothing. */
  lemma DedupAbsorbed(a: set<string>, b: set<string>)
    requires Vetted(a) && Vetted(b)
    ensures Dedup(Dedup(a) + b) == Dedup(a + b)
  {
    forall t | t in Dedup(Dedup(a) + b) ensures t in Dedup(a + b) {
      forall u | u in a + b && KeyOf(u) == KeyOf(t) ensures Le(t, u) {
        if u in a {
          var least := LeastExists(a, u);
          assert least in Dedup(a);
          LeTransitive(t, least, u);
        }
      }
    }
    forall t | t in Dedup(a + b) ensures t in Dedup(Dedup(a) + b) {
      assert t in a ==> LeastOfKey(t, a);
    }
  }

  /** Merging is a semilattice join on de-duplicated sets. */
  lemma MergeIsJoin(a: set<string>, b: set<string>, c: set<string>)
    requires Vetted(a) && Vetted(b) && Vetted(c)
    ensures Merge(a, b) == Merge(b, a)
    ensures Merge(Merge(a, b), c) == Merge(a, Merge(b, c))
    ensures Dedup(a) == a ==> Merge(a, a) == a
    ensures Dedup(Merge(a, b)) == Merge(a, b)
  {
    assert a + b == b + a;
    assert a + a == a;
    calc {
      Merge(Merge(a, b), c);
      { DedupAbsorbed(a + b, c); }
      Dedup((a + b) + c);
      { assert (a + b) + c == (b + c) + a; }
      Dedup((b + c) + a);
      { DedupAbsorbed(b + c, a); }
      Dedup(Dedup(b + c) + a);
      { assert Dedup(b + c) + a == a + Dedup(b + c); }
      Merge(a, Merge(b, c));
    }
    DedupIdempotent(a + b);
  }

  /** Strictly ascending. */
  ghost predicate Ascending(s: seq<string>) {
    forall i, j | 0 <= i < j < |s| :: s[i] != s[j] && Le(s[i], s[j])
  }

  lemma {:induction false} LeastOfSet(tags: set<string>) returns (least: string)
    requires tags != {}
    ensures least in tags && forall t | t in tags :: Le(least, t)
    decreases tags
  {
    least :| least in tags;
    LeTotal(least, least);
    var rest := tags - {least};
    if rest == {} {
      assert tags == {least};
    } else {
      var other := LeastOfSet(rest);
      LeTotal(least, other);
      var first := least;
      if !Le(first, other) { least := other; }
      forall t | t in tags ensures Le(least, t) {
        if t != first && Le(first, other) { LeTransitive(first, other, t); }
      }
    }
  }

  /** The tags as a sorted slice. */
  method SortStrings(tags: set<string>) returns (s: seq<string>)
    ensures Ascending(s)
    ensures forall t :: t in s <==> t in tags
  {
    s := [];
    var rest := tags;
    while rest != {}
      invariant rest <= tags
      invariant forall t :: t in s <==> t in tags && t !in rest
      invariant Ascending(s)
      invariant forall i, t | 0 <= i < |s| && t in rest :: Le(s[i], t)
    {
      ghost var least := LeastOfSet(rest);
      var t :| t in rest && forall u | u in rest :: Le(t, u);
      s := s + [t];
      rest := rest - {t};
    }
  }

  /** No earlier tag of the slice has this one's key. */
  ghost predicate FirstOfKey(slice: seq<string>, j: nat)
    requires j < |slice| && forall t | t in slice :: '/' in t
  {
    forall h | 0 <= h < j :: KeyOf(slice[h]) != KeyOf(slice[j])
  }

  /** The tags among the first n that are not the first of their key. */
  ghost function Dropped(slice: seq<string>, n: nat): set<string>
    requires n <= |slice| && forall t | t in slice :: '/' in t
  {
    set j | 0 <= j < n && !FirstOfKey(slice, j) :: slice[j]
  }

  /** The tags left when the first n of the slice have been looked at. */
  ghost function Left(tags: set<string>, slice: seq<string>, n: nat): set<string>
    requires n <= |slice| && forall t | t in slice :: '/' in t
  {
    tags - Dropped(slice, n)
  }

  lemma LeftStep(tags: set<string>, slice: seq<string>, n: nat)
    requires n < |slice| && forall t | t in slice :: '/' in t
    ensures FirstOfKey(slice, n) ==> Left(tags, slice, n + 1) == Left(tags, slice, n)
    ensures !FirstOfKey(slice, n) ==> Left(tags, slice, n + 1) == Left(tags, slice, n) - {slice[n]}
  {
    assert Dropped(slice, n + 1) == Dropped(slice, n) + if FirstOfKey(slice, n) then {} else {slice[n]};
  }

  /** The map of seen keys after n tags: each key with the value of a tag among them. */
  ghost predicate Records(keys: seq<string>, values: seq<string>, n: nat, unique: map<string, string>)
    requires n <= |keys| == |values|
  {
    && (forall j | 0 <= j < n :: keys[j] in unique)
    && (forall k | k in unique :: exists j :: 0 <= j < n && keys[j] == k && values[j] == unique[k])
  }

  lemma RecordsStep(keys: seq<string>, values: seq<string>, n: nat, unique: map<string, string>)
    requires n < |keys| == |values| && Records(keys, values, n, unique)
    requires forall h | 0 <= h < n :: keys[h] != keys[n] || values[h] != values[n]
    ensures keys[n] !in unique <==> forall h | 0 <= h < n :: keys[h] != keys[n]
    ensures keys[n] in unique ==> unique[keys[n]] != values[n] && Records(keys, values, n + 1, unique)
    ensures keys[n] !in unique ==> Records(keys, values, n + 1, unique[keys[n] := values[n]])
  {
  }

  /** A tag is determined by its key and value. */
  lemma SameTag(a: string, b: string)
    requires '/' in a && '/' in b
    ensures KeyOf(a) == KeyOf(b) && ValueOf(a) == ValueOf(b) ==> a == b
  {
    TagFromParts(a);
    TagFromParts(b);
  }

  ghost function Keys(slice: seq<string>): seq<string>
    requires forall t | t in slice :: '/' in t
  {
    seq(|slice|, i requires 0 <= i < |slice| => KeyOf(slice[i]))
  }

  ghost function Values(slice: seq<string>): seq<string>
    requires forall t | t in slice :: '/' in t
  {
    seq(|slice|, i requires 0 <= i < |slice| => ValueOf(slice[i]))
  }

  /** Two tags of a sorted slice with the same key have different values. */
  lemma KeysDecide(slice: seq<string>, n: nat)
    requires n < |slice| && Ascending(slice) && forall t | t in slice :: '/' in t
    ensures FirstOfKey(slice, n) <==> forall h | 0 <= h < n :: Keys(slice)[h] != Keys(slice)[n]
    ensures forall h | 0 <= h < n :: Keys(slice)[h] != Keys(slice)[n] || Values(slice)[h] != Values(slice)[n]
  {
    forall h | 0 <= h < n ensures Keys(slice)[h] != Keys(slice)[n] || Values(slice)[h] != Values(slice)[n] {
      SameTag(slice[h], slice[n]);
    }
    if forall h | 0 <= h < n :: Keys(slice)[h] != Keys(slice)[n] {
      forall h | 0 <= h < n ensures KeyOf(slice[h]) != KeyOf(slice[n]) {
        assert Keys(slice)[h] != Keys(slice)[n];
      }
    }
  }

  /** One turn of the loop: a tag of a new key is recorded, any other is to be removed. */
  lemma VisitTag(all: set<string>, slice: seq<string>, n: nat, tags: set<string>, unique: map<string, string>)
    requires n < |slice| && Looked(all, slice, n, tags, unique)
    ensures '/' in slice[n]
    ensures var key, value := KeyOf(slice[n]), ValueOf(slice[n]);
            if key in unique then unique[key] != value && Looked(all, slice, n + 1, tags - {slice[n]}, unique)
            else Looked(all, slice, n + 1, tags, unique[key := value])
  {
    KeysDecide(slice, n);
    RecordsStep(Keys(slice), Values(slice), n, unique);
    LeftStep(all, slice, n);
  }

  lemma LookStarts(all: set<string>, slice: seq<string>)
    requires Ascending(slice) && forall t | t in slice :: '/' in t
    ensures Looked(all, slice, 0, all, map[])
  {
  }

  /** The loop after n tags: what is left, and the keys seen. */
  ghost predicate Looked(all: set<string>, slice: seq<string>, n: nat, tags: set<string>, unique: map<string, string>) {
    && n <= |slice| && Ascending(slice) && (forall t | t in slice :: '/' in t)
    && tags == Left(all, slice, n) && Records(Keys(slice), Values(slice), n, unique)
  }

  class ResourceTags {
    var tags: set<string>

    constructor (tags: set<string>)
      ensures this.tags == tags
    {
      this.tags := tags;
    }

    /** Removes, in sorted order, every tag whose parent and key were seen before. */
    method RemoveDuplicateTags()
      requires Vetted(tags)
      modifies this
      ensures tags == Dedup(old(tags))
    {
      var slice := SortStrings(tags);
      LookStarts(tags, slice);
      var unique: map<string, string> := map[];
      for i := 0 to |slice|
        invariant Looked(old(tags), slice, i, tags, unique)
      {
        VisitTag(old(tags), slice, i, tags, unique);
        var tag := slice[i];
        var key, value := KeyOf(tag), ValueOf(tag);
        if key !in unique {
          unique := unique[key := value];
        } else {
          if value != unique[key] {
            tags := tags - {tag};
          }
        }
      }
      SortedFirstIsLeast(slice, old(tags));
    }

    /** Adds the receiver's tags to the destination and de-duplicates the destination. */
    method MergeTags(dst: ResourceTags)
      requires Vetted(tags) && Vetted(dst.tags)
      modifies dst
      ensures dst.tags == Merge(old(tags), old(dst.tags))
    {
      dst.tags := dst.tags + tags;
      assert dst.tags == old(tags) + old(dst.tags);
      dst.RemoveDuplicateTags();
    }
  }

  /** In a sorted slice, the first tag of a key is its least. */
  lemma SortedFirstIsLeast(slice: seq<string>, tags: set<string>)
    requires Vetted(tags) && Ascending(slice) && forall t :: t in slice <==> t in tags
    ensures Left(tags, slice, |slice|) == Dedup(tags)
  {
    forall j | 0 <= j < |slice| ensures slice[j] in Dedup(tags) <==> FirstOfKey(slice, j) {
      assert slice[j] in tags;
      if FirstOfKey(slice, j) {
        forall u | u in tags && KeyOf(u) == KeyOf(slice[j]) ensures Le(slice[j], u) {
          var h :| 0 <= h < |slice| && slice[h] == u;
          LeTotal(u, u);
        }
      } else {
        var h :| 0 <= h < j && KeyOf(slice[h]) == KeyOf(slice[j]);
        assert slice[h] in tags;
        LeTotal(slice[h], slice[j]);
      }
    }
    forall t | t in tags ensures t in Dropped(slice, |slice|) <==> t !in Dedup(tags) {
      var j :| 0 <= j < |slice| && slice[j] == t;
    }
  }
}
