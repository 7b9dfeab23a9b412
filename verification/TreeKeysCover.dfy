/**
 What a key of `tree_keys.py` covers. It covers the bytes of every header reachable through
 includes if no two distinct headers include each other, directly or not; and if two do, there is
 an order of queries for which it does not.
 */
module TreeKeysCover {
  import opened TreeKeys
  import opened Sequences

  // ------------------------------------------------------------------ reachability

  ghost predicate IsPath(w: World, p: seq<Header>)
    decreases |p|
  {
    p != [] && p[0] in w.includes && (|p| > 1 ==> p[1] in w.includes[p[0]] && IsPath(w, p[1..]))
  }

  ghost predicate PathFrom(w: World, p: seq<Header>, x: Header, y: Header) {
    IsPath(w, p) && p[0] == x && p[|p| - 1] == y
  }

  ghost predicate Reaches(w: World, x: Header, y: Header) {
    exists p :: PathFrom(w, p, x, y)
  }

  /** The closure of `x`: everything it includes, itself among them. */
  ghost function Reach(w: World, x: Header): set<Header> {
    set y | y in w.includes && Reaches(w, x, y)
  }

  /** No two distinct headers include each other. A header that includes itself is harmless. */
  ghost predicate Acyclic(w: World) {
    forall x, y {:trigger Reaches(w, x, y), Reaches(w, y, x)} :: Reaches(w, x, y) && Reaches(w, y, x) ==> x == y
  }

  lemma ReachesSelf(w: World, x: Header)
    requires x in w.includes
    ensures Reaches(w, x, x)
  {
    assert PathFrom(w, [x], x, x);
  }

  lemma ReachesStep(w: World, x: Header, c: Header, y: Header)
    requires x in w.includes && c in w.includes[x] && Reaches(w, c, y)
    ensures Reaches(w, x, y)
  {
    var p :| PathFrom(w, p, c, y);
    assert ([x] + p)[1..] == p;
    assert PathFrom(w, [x] + p, x, y);
  }

  lemma {:induction false} PathInside(w: World, p: seq<Header>)
    requires IsPath(w, p)
    ensures p[|p| - 1] in w.includes
    decreases |p|
  {
    if |p| > 1 {
      PathInside(w, p[1..]);
    }
  }

  lemma {:induction false} ReachesAlong(w: World, p: seq<Header>, z: Header)
    requires IsPath(w, p) && Reaches(w, p[|p| - 1], z)
    ensures Reaches(w, p[0], z)
    decreases |p|
  {
    if |p| > 1 {
      ReachesAlong(w, p[1..], z);
      ReachesStep(w, p[0], p[1], z);
    }
  }

  lemma ReachesTransitive(w: World, x: Header, y: Header, z: Header)
    requires Reaches(w, x, y) && Reaches(w, y, z)
    ensures Reaches(w, x, z)
  {
    var p :| PathFrom(w, p, x, y);
    ReachesAlong(w, p, z);
  }

  lemma {:induction false} FirstStepAlong(w: World, p: seq<Header>) returns (c: Header)
    requires IsPath(w, p) && p[0] != p[|p| - 1]
    ensures c != p[0] && c in w.includes[p[0]] && Reaches(w, c, p[|p| - 1])
    decreases |p|
  {
    if p[1] == p[0] {
      c := FirstStepAlong(w, p[1..]);
    } else {
      c := p[1];
      assert PathFrom(w, p[1..], c, p[|p| - 1]);
    }
  }

  /** Whatever else a header reaches, it reaches through another header that it includes. */
  lemma FirstStep(w: World, x: Header, y: Header) returns (c: Header)
    requires Reaches(w, x, y) && x != y
    ensures x in w.includes && c != x && c in w.includes[x] && Reaches(w, c, y)
  {
    var p :| PathFrom(w, p, x, y);
    c := FirstStepAlong(w, p);
  }

  /** In an acyclic world an included header reaches strictly less. */
  lemma ReachShrinks(w: World, x: Header, c: Header)
    requires w.Valid() && Acyclic(w) && x in w.includes && c in w.includes[x] && c != x
    ensures |Reach(w, c)| < |Reach(w, x)|
  {
    forall y | y in Reach(w, c)
      ensures y in Reach(w, x)
    {
      ReachesStep(w, x, c, y);
    }
    ReachesSelf(w, x);
    ReachesSelf(w, c);
    ReachesStep(w, x, c, c);
    assert x !in Reach(w, c);
    SubsetSize(Reach(w, c), Reach(w, x));
  }

  // ------------------------------------------------------------------ the plain key

  /** The key by plain recursion, without memo and without a set of headers being walked. */
  ghost function Key(w: World, hash: string -> string, x: Header): string
    requires w.Valid() && Acyclic(w) && x in w.includes
    decreases |Reach(w, x)|, 1, 0
  {
    hash(Text(w, hash, x))
  }

  /** The text that the key of `x` is the hash of. */
  ghost function Text(w: World, hash: string -> string, x: Header): string
    requires w.Valid() && Acyclic(w) && x in w.includes
    decreases |Reach(w, x)|, 0, |w.includes[x]| + 1
  {
    Join(Sorted([w.digests[x]] + ChildKeys(w, hash, x, 0)))
  }

  /** The keys of the headers that `x` includes, from the `i`-th on. */
  ghost function ChildKeys(w: World, hash: string -> string, x: Header, i: nat): (r: seq<string>)
    requires w.Valid() && Acyclic(w) && x in w.includes && i <= |w.includes[x]|
    ensures |r| == |w.includes[x]| - i
    decreases |Reach(w, x)|, 0, |w.includes[x]| - i
  {
    if i == |w.includes[x]| then [] else
    [ChildKey(w, hash, x, i)] + ChildKeys(w, hash, x, i + 1)
  }

  ghost function ChildKey(w: World, hash: string -> string, x: Header, i: nat): string
    requires w.Valid() && Acyclic(w) && x in w.includes && i < |w.includes[x]|
    decreases |Reach(w, x)|, 0, 0
  {
    var c := w.includes[x][i];
    if c == x then "" else
    ReachShrinks(w, x, c);
    Key(w, hash, c)
  }

  // ------------------------------------------------------------------ the memo holds the plain keys

  ghost predicate Faithful(w: World, hash: string -> string, reached: map<Header, string>)
    requires w.Valid() && Acyclic(w)
  {
    forall x :: x in reached ==> x in w.includes && reached[x] == Key(w, hash, x)
  }

  /** Everything being walked is above `x`. */
  ghost predicate Above(w: World, walking: set<Header>, x: Header) {
    forall a :: a in walking ==> Reaches(w, a, x)
  }

  lemma {:induction false} ClosureIsKey(
    w: World, hash: string -> string, x: Header, walking: set<Header>, reached: map<Header, string>)
    requires w.Valid() && Acyclic(w) && x in w.includes && walking <= w.includes.Keys
    requires Faithful(w, hash, reached) && reached.Keys !! walking && Above(w, walking, x) && x !in walking
    ensures var walk := Closure(w, hash, x, walking, reached);
      walk.key == Key(w, hash, x) && Faithful(w, hash, walk.reached) && walk.reached.Keys !! walking
    decreases w.includes.Keys - walking, 0
  {
    if x !in reached {
      ReachesSelf(w, x);
      assert w.includes[x][0..] == w.includes[x];
      ClosuresAreKeys(w, hash, x, 0, walking + {x}, reached);
    }
  }

  lemma {:induction false} ClosuresAreKeys(
    w: World, hash: string -> string, x: Header, i: nat, walking: set<Header>, reached: map<Header, string>)
    requires w.Valid() && Acyclic(w) && x in w.includes && i <= |w.includes[x]| && x in walking
             && walking <= w.includes.Keys
    requires Faithful(w, hash, reached) && reached.Keys !! walking && Above(w, walking, x)
    ensures var walks := Closures(w, hash, w.includes[x][i..], walking, reached);
      walks.keys == ChildKeys(w, hash, x, i) && Faithful(w, hash, walks.reached) && walks.reached.Keys !! walking
    decreases w.includes.Keys - walking, 1 + |w.includes[x]| - i
  {
    if i < |w.includes[x]| {
      var c := w.includes[x][i];
      ClosuresNext(w, hash, w.includes[x], i, walking, reached);
      if c != x {
        ChildIsNew(w, x, c, walking);
        ClosureIsKey(w, hash, c, walking, reached);
      }
      ClosuresAreKeys(w, hash, x, i + 1, walking, Closure(w, hash, c, walking, reached).reached);
    }
  }

  /** In an acyclic world no included header but the header itself is being walked already. */
  lemma ChildIsNew(w: World, x: Header, c: Header, walking: set<Header>)
    requires w.Valid() && Acyclic(w) && x in w.includes && c in w.includes[x] && c != x && Above(w, walking, x)
    ensures c !in walking && Above(w, walking, c)
  {
    ReachesSelf(w, c);
    ReachesStep(w, x, c, c);
    forall a | a in walking
      ensures Reaches(w, a, c)
    {
      ReachesTransitive(w, a, x, c);
    }
  }

  /** The memo after a list of queries, each with a fresh set of headers being walked. */
  ghost function Memo(w: World, hash: string -> string, queries: seq<Header>): map<Header, string>
    requires w.Valid() && forall i :: 0 <= i < |queries| ==> queries[i] in w.includes
  {
    if queries == [] then map[]
    else Closure(w, hash, queries[|queries| - 1], {}, Memo(w, hash, queries[..|queries| - 1])).reached
  }

  /** The key that is printed for `x` after the given queries. */
  ghost function Printed(w: World, hash: string -> string, queries: seq<Header>, x: Header): string
    requires w.Valid() && x in w.includes && forall i :: 0 <= i < |queries| ==> queries[i] in w.includes
  {
    Closure(w, hash, x, {}, Memo(w, hash, queries)).key
  }

  lemma {:induction false} MemoFaithful(w: World, hash: string -> string, queries: seq<Header>)
    requires w.Valid() && Acyclic(w) && forall i :: 0 <= i < |queries| ==> queries[i] in w.includes
    ensures Faithful(w, hash, Memo(w, hash, queries))
  {
    if queries != [] {
      var init := queries[..|queries| - 1];
      MemoFaithful(w, hash, init);
      ClosureIsKey(w, hash, queries[|queries| - 1], {}, Memo(w, hash, init));
    }
  }

  /** In an acyclic world the memoised walk prints the plain key, whatever was asked before. */
  lemma PrintedIsKey(w: World, hash: string -> string, queries: seq<Header>, x: Header)
    requires w.Valid() && Acyclic(w) && x in w.includes && forall i :: 0 <= i < |queries| ==> queries[i] in w.includes
    ensures Printed(w, hash, queries, x) == Key(w, hash, x)
  {
    MemoFaithful(w, hash, queries);
    ClosureIsKey(w, hash, x, {}, Memo(w, hash, queries));
  }

  // ------------------------------------------------------------------ what the hashed text determines

  lemma {:induction false} InsertMembers(s: string, sorted: seq<string>, e: string)
    ensures e in Insert(s, sorted) <==> e == s || e in sorted
  {
    if !(sorted == [] || AtMost(s, sorted[0])) {
      InsertMembers(s, sorted[1..], e);
    }
  }

  lemma {:induction false} SortedMembers(parts: seq<string>, e: string)
    ensures e in Sorted(parts) <==> e in parts
  {
    if parts != [] {
      SortedMembers(parts[1..], e);
      InsertMembers(parts[0], Sorted(parts[1..]), e);
    }
  }

  /** Hexadecimal digests of one length, or nothing where a walk stopped. */
  ghost predicate Uniform(parts: seq<string>) {
    forall e :: e in parts ==> |e| == HEX_LENGTH || e == ""
  }

  /** Parts of one length can be read back from their concatenation. */
  lemma {:induction false} JoinMembers(a: seq<string>, b: seq<string>, e: string)
    requires Uniform(a) && Uniform(b) && Join(a) == Join(b) && e in a && e != ""
    ensures e in b
    decreases |a| + |b|
  {
    if a[0] == "" {
      assert Join(a) == Join(a[1..]);
      JoinMembers(a[1..], b, e);
    } else {
      assert |Join(a)| >= HEX_LENGTH by { assert a[0] in a; }
      if b[0] == "" {
        assert Join(b) == Join(b[1..]);
        JoinMembers(a, b[1..], e);
      } else {
        assert a[0] in a && b[0] in b;
        assert a[0] == Join(a)[..HEX_LENGTH] && b[0] == Join(b)[..HEX_LENGTH];
        assert Join(a[1..]) == Join(a)[HEX_LENGTH..] && Join(b[1..]) == Join(b)[HEX_LENGTH..];
        if e != a[0] {
          JoinMembers(a[1..], b[1..], e);
        }
      }
    }
  }

  ghost function Parts(w: World, hash: string -> string, x: Header): seq<string>
    requires w.Valid() && Acyclic(w) && x in w.includes
  {
    [w.digests[x]] + ChildKeys(w, hash, x, 0)
  }

  lemma {:induction false} ChildKeyAt(w: World, hash: string -> string, x: Header, i: nat, j: nat)
    requires w.Valid() && Acyclic(w) && x in w.includes && i <= j < |w.includes[x]|
    ensures ChildKeys(w, hash, x, i)[j - i] == ChildKey(w, hash, x, j)
    decreases j - i
  {
    if i < j {
      ChildKeyAt(w, hash, x, i + 1, j);
    }
  }

  /** A part other than the header's own digest is the key of a header it includes, or nothing. */
  lemma PartIsChild(w: World, hash: string -> string, x: Header, e: string) returns (j: nat)
    requires w.Valid() && Acyclic(w) && x in w.includes && e in Parts(w, hash, x) && e != w.digests[x]
    ensures j < |w.includes[x]| && e == ChildKey(w, hash, x, j)
  {
    var k :| 0 <= k < |Parts(w, hash, x)| && Parts(w, hash, x)[k] == e;
    j := k - 1;
    ChildKeyAt(w, hash, x, 0, j);
  }

  lemma ChildIsPart(w: World, hash: string -> string, x: Header, c: Header)
    requires w.Valid() && Acyclic(w) && x in w.includes && c in w.includes[x] && c != x
    ensures Key(w, hash, c) in Parts(w, hash, x)
  {
    var j :| 0 <= j < |w.includes[x]| && w.includes[x][j] == c;
    ChildKeyAt(w, hash, x, 0, j);
    assert Parts(w, hash, x)[j + 1] == Key(w, hash, c);
  }

  // ------------------------------------------------------------------ equal keys, equal contents

  /** Digests and keys are 40 hexadecimal digits. */
  ghost predicate Hexadecimal(w: World, hash: string -> string)
    requires w.Valid() && Acyclic(w)
  {
    forall x :: x in w.includes ==> |w.digests[x]| == HEX_LENGTH && |Key(w, hash, x)| == HEX_LENGTH
  }

  /** Among the texts that occur in the two worlds there is no collision, nor between a file and a text. */
  ghost predicate NoCollision(v: World, w: World, hash: string -> string)
    requires v.Valid() && Acyclic(v) && w.Valid() && Acyclic(w)
  {
    forall x, y :: x in v.includes && y in w.includes ==>
      && (Key(v, hash, x) == Key(w, hash, y) ==> Text(v, hash, x) == Text(w, hash, y))
      && v.digests[x] != Key(w, hash, y) && w.digests[y] != Key(v, hash, x)
  }

  lemma PartsUniform(w: World, hash: string -> string, x: Header)
    requires w.Valid() && Acyclic(w) && x in w.includes && Hexadecimal(w, hash)
    ensures Uniform(Sorted(Parts(w, hash, x)))
  {
    forall e | e in Sorted(Parts(w, hash, x))
      ensures |e| == HEX_LENGTH || e == ""
    {
      SortedMembers(Parts(w, hash, x), e);
      if e != w.digests[x] {
        var j := PartIsChild(w, hash, x, e);
      }
    }
  }

  lemma SameText(v: World, w: World, hash: string -> string, x: Header, y: Header, e: string)
    requires v.Valid() && Acyclic(v) && w.Valid() && Acyclic(w) && Hexadecimal(v, hash) && Hexadecimal(w, hash)
    requires x in v.includes && y in w.includes && Text(v, hash, x) == Text(w, hash, y)
    requires e in Parts(v, hash, x) && e != ""
    ensures e in Parts(w, hash, y)
  {
    PartsUniform(v, hash, x);
    PartsUniform(w, hash, y);
    SortedMembers(Parts(v, hash, x), e);
    SortedMembers(Parts(w, hash, y), e);
    JoinMembers(Sorted(Parts(v, hash, x)), Sorted(Parts(w, hash, y)), e);
  }

  ghost predicate Comparable(v: World, w: World, hash: string -> string) {
    && v.Valid() && Acyclic(v) && w.Valid() && Acyclic(w)
    && Hexadecimal(v, hash) && Hexadecimal(w, hash) && NoCollision(v, w, hash)
  }

  /** Equal keys: whatever is in the one closure has a counterpart with the same bytes in the other. */
  lemma {:induction false} CoversOneWay(
    v: World, w: World, hash: string -> string, x: Header, y: Header, n: Header) returns (m: Header)
    requires Comparable(v, w, hash) && x in v.includes && y in w.includes
    requires Key(v, hash, x) == Key(w, hash, y) && n in Reach(v, x)
    ensures m in Reach(w, y) && w.digests[m] == v.digests[n]
    decreases |Reach(v, x)|
  {
    if n == x {
      m := y;
      ReachesSelf(w, y);
      assert v.digests[x] == Parts(v, hash, x)[0];
      SameText(v, w, hash, x, y, v.digests[x]);
      if v.digests[x] != w.digests[y] {
        var j := PartIsChild(w, hash, y, v.digests[x]);
      }
    } else {
      var c := FirstStep(v, x, n);
      ChildIsPart(v, hash, x, c);
      SameText(v, w, hash, x, y, Key(v, hash, c));
      var j := PartIsChild(w, hash, y, Key(v, hash, c));
      var d := w.includes[y][j];
      ReachShrinks(v, x, c);
      m := CoversOneWay(v, w, hash, c, d, n);
      ReachesStep(w, y, d, m);
    }
  }

  lemma ComparableSymmetric(v: World, w: World, hash: string -> string)
    requires Comparable(v, w, hash)
    ensures Comparable(w, v, hash)
  {
  }

  /** The bytes in the closure of a header, as digests. */
  ghost function Contents(w: World, x: Header): set<string>
    requires w.Valid()
  {
    set n | n in Reach(w, x) :: w.digests[n]
  }

  /**
   Acyclic worlds: if the keys printed for two headers are equal -- in one world or in two, say before
   and after an edit, and whatever was asked before -- then the two closures hold the same bytes.
   */
  lemma EqualKeysEqualContents(
    v: World, w: World, hash: string -> string, x: Header, y: Header, asked: seq<Header>, again: seq<Header>)
    requires Comparable(v, w, hash) && x in v.includes && y in w.includes
    requires (forall i :: 0 <= i < |asked| ==> asked[i] in v.includes)
             && forall i :: 0 <= i < |again| ==> again[i] in w.includes
    requires Printed(v, hash, asked, x) == Printed(w, hash, again, y)
    ensures Contents(v, x) == Contents(w, y)
  {
    PrintedIsKey(v, hash, asked, x);
    PrintedIsKey(w, hash, again, y);
    forall d | d in Contents(v, x)
      ensures d in Contents(w, y)
    {
      var n :| n in Reach(v, x) && v.digests[n] == d;
      var m := CoversOneWay(v, w, hash, x, y, n);
    }
    ComparableSymmetric(v, w, hash);
    forall d | d in Contents(w, y)
      ensures d in Contents(v, x)
    {
      var n :| n in Reach(w, y) && w.digests[n] == d;
      var m := CoversOneWay(w, v, hash, y, x, n);
    }
  }

  // ------------------------------------------------------------------ with a cycle, a key misses bytes

  /** The same includes, with other bytes in one header. */
  ghost function Edited(w: World, x: Header, digest: string): World
    requires w.Valid() && x in w.includes
    ensures Edited(w, x, digest).Valid()
  {
    World(w.includes, w.digests[x := digest])
  }

  /** While a header is being walked, nothing that is computed depends on its bytes. */
  lemma {:induction false} WalkIgnoresWalked(
    w: World, hash: string -> string, x: Header, digest: string, y: Header, walking: set<Header>,
    reached: map<Header, string>)
    requires w.Valid() && x in w.includes && y in w.includes && walking <= w.includes.Keys && x in walking
    ensures Closure(Edited(w, x, digest), hash, y, walking, reached) == Closure(w, hash, y, walking, reached)
    decreases w.includes.Keys - walking, 0
  {
    if y !in reached && y !in walking {
      WalksIgnoreWalked(w, hash, x, digest, w.includes[y], walking + {y}, reached);
    }
  }

  lemma {:induction false} WalksIgnoreWalked(
    w: World, hash: string -> string, x: Header, digest: string, ys: seq<Header>, walking: set<Header>,
    reached: map<Header, string>)
    requires w.Valid() && x in w.includes && walking <= w.includes.Keys && x in walking
             && forall i :: 0 <= i < |ys| ==> ys[i] in w.includes
    ensures Closures(Edited(w, x, digest), hash, ys, walking, reached) == Closures(w, hash, ys, walking, reached)
    decreases w.includes.Keys - walking, 1 + |ys|
  {
    if ys != [] {
      WalkIgnoresWalked(w, hash, x, digest, ys[0], walking, reached);
      WalksIgnoreWalked(w, hash, x, digest, ys[1..], walking, Closure(w, hash, ys[0], walking, reached).reached);
    }
  }

  /** Whatever a memoised header includes is memoised or being walked. */
  ghost predicate Settled(w: World, walking: set<Header>, reached: map<Header, string>) {
    forall x, c :: x in reached && x in w.includes && c in w.includes[x] ==> c in reached || c in walking
  }

  lemma {:induction false} WalkSettles(
    w: World, hash: string -> string, x: Header, walking: set<Header>, reached: map<Header, string>)
    requires w.Valid() && x in w.includes && walking <= w.includes.Keys && Settled(w, walking, reached)
    ensures var after := Closure(w, hash, x, walking, reached).reached;
      Settled(w, walking, after) && reached.Keys <= after.Keys && (x in after || x in walking)
    decreases w.includes.Keys - walking, 0
  {
    if x !in reached && x !in walking {
      WalksSettle(w, hash, w.includes[x], walking + {x}, reached);
    }
  }

  lemma {:induction false} WalksSettle(
    w: World, hash: string -> string, xs: seq<Header>, walking: set<Header>, reached: map<Header, string>)
    requires w.Valid() && walking <= w.includes.Keys && Settled(w, walking, reached)
             && forall i :: 0 <= i < |xs| ==> xs[i] in w.includes
    ensures var after := Closures(w, hash, xs, walking, reached).reached;
      Settled(w, walking, after) && reached.Keys <= after.Keys
      && forall i :: 0 <= i < |xs| ==> xs[i] in after || xs[i] in walking
    decreases w.includes.Keys - walking, 1 + |xs|
  {
    if xs != [] {
      WalkSettles(w, hash, xs[0], walking, reached);
      var first := Closure(w, hash, xs[0], walking, reached).reached;
      WalksSettle(w, hash, xs[1..], walking, first);
      var after := Closures(w, hash, xs, walking, reached).reached;
      forall i | 0 <= i < |xs|
        ensures xs[i] in after || xs[i] in walking
      {
        if i > 0 {
          assert xs[1..][i - 1] == xs[i];
        }
      }
    }
  }

  lemma {:induction false} SettledAlong(w: World, root: Header, reached: map<Header, string>, p: seq<Header>)
    requires IsPath(w, p) && Settled(w, {root}, reached) && (p[0] in reached || p[0] == root)
    requires root in w.includes && forall c :: c in w.includes[root] ==> c in reached || c == root
    ensures p[|p| - 1] in reached || p[|p| - 1] == root
    decreases |p|
  {
    if |p| > 1 {
      SettledAlong(w, root, reached, p[1..]);
    }
  }

  /** Walking a header memoises everything else it reaches, from the walk of what it includes. */
  lemma WalkMemoises(w: World, hash: string -> string, x: Header, y: Header)
    requires w.Valid() && x in w.includes && Reaches(w, x, y) && y != x
    ensures y in Closures(w, hash, w.includes[x], {x}, map[]).reached
  {
    WalksSettle(w, hash, w.includes[x], {x}, map[]);
    var p :| PathFrom(w, p, x, y);
    SettledAlong(w, x, Closures(w, hash, w.includes[x], {x}, map[]).reached, p);
  }

  /**
   Two distinct headers that include each other: ask for one, then for the other. The key printed for
   the other is the same whatever the bytes of the first are, although its closure holds them.
   */
  lemma CyclicKeyMisses(w: World, hash: string -> string, x: Header, y: Header, digest: string)
    requires w.Valid() && x in w.includes && x != y && Reaches(w, x, y) && Reaches(w, y, x)
    ensures y in w.includes && x in Reach(w, y)
    ensures Printed(Edited(w, x, digest), hash, [x], y) == Printed(w, hash, [x], y)
  {
    var p :| PathFrom(w, p, x, y);
    PathInside(w, p);
    var v := Edited(w, x, digest);
    WalkMemoises(w, hash, x, y);
    WalksIgnoreWalked(w, hash, x, digest, w.includes[x], {x}, map[]);
    assert {} + {x} == {x};
    assert [x][..0] == [];
    assert Memo(w, hash, [x]) == Closure(w, hash, x, {}, map[]).reached;
    assert Memo(v, hash, [x]) == Closure(v, hash, x, {}, map[]).reached;
  }

  // ------------------------------------------------------------------ exactly when an edit is noticed

  ghost predicate Askable(w: World, queries: seq<Header>) {
    forall i :: 0 <= i < |queries| ==> queries[i] in w.includes
  }

  /** Editing `x` changes the key printed for `y`, whenever `x` is in its closure and after any queries. */
  ghost predicate Noticed(w: World, hash: string -> string, digest: string, x: Header, y: Header, queries: seq<Header>)
    requires w.Valid()
  {
    x in w.includes && y in w.includes && x in Reach(w, y) && Askable(w, queries) ==>
      Printed(Edited(w, x, digest), hash, queries, y) != Printed(w, hash, queries, y)
  }

  lemma {:induction false} PathEdited(v: World, w: World, p: seq<Header>)
    requires v.includes == w.includes
    ensures IsPath(v, p) == IsPath(w, p)
    decreases |p|
  {
    if |p| > 1 {
      PathEdited(v, w, p[1..]);
    }
  }

  /** An edit changes no include, hence no closure. */
  lemma ReachesEdited(v: World, w: World, x: Header, y: Header)
    requires v.includes == w.includes && Reaches(v, x, y)
    ensures Reaches(w, x, y)
  {
    var p :| PathFrom(v, p, x, y);
    PathEdited(v, w, p);
    assert PathFrom(w, p, x, y);
  }

  lemma AcyclicNotices(w: World, hash: string -> string, digest: string, x: Header, y: Header, queries: seq<Header>)
    requires w.Valid() && Acyclic(w) && x in w.includes && y in w.includes && x in Reach(w, y) && Askable(w, queries)
    requires digest !in w.digests.Values && Comparable(w, Edited(w, x, digest), hash)
    ensures Printed(Edited(w, x, digest), hash, queries, y) != Printed(w, hash, queries, y)
  {
    var v := Edited(w, x, digest);
    ReachesEdited(w, v, y, x);
    assert v.digests[x] in Contents(v, y);
    assert digest !in Contents(w, y);
    if Printed(v, hash, queries, y) == Printed(w, hash, queries, y) {
      EqualKeysEqualContents(w, v, hash, y, y, queries, queries);
    }
  }

  /**
   A fresh edit of any header is noticed by the key of every header that reaches it, after any
   queries, if and only if no two distinct headers include each other.
   */
  lemma EditsNoticedIffAcyclic(w: World, hash: string -> string, digest: string)
    requires w.Valid() && digest !in w.digests.Values
    requires Acyclic(w) ==> forall x :: x in w.includes ==> Comparable(w, Edited(w, x, digest), hash)
    ensures Acyclic(w) <==> forall x, y, queries :: Noticed(w, hash, digest, x, y, queries)
  {
    if Acyclic(w) {
      forall x, y, queries
        ensures Noticed(w, hash, digest, x, y, queries)
      {
        if x in w.includes && y in w.includes && x in Reach(w, y) && Askable(w, queries) {
          AcyclicNotices(w, hash, digest, x, y, queries);
        }
      }
    } else {
      var x, y :| Reaches(w, x, y) && Reaches(w, y, x) && x != y;
      CyclicKeyMisses(w, hash, x, y, digest);
      assert !Noticed(w, hash, digest, x, y, [x]);
    }
  }

  // ------------------------------------------------------------------ the order of the includes

  /** The same headers with the same bytes, each including the same headers in any order. */
  ghost predicate Reordered(v: World, w: World) {
    && v.includes.Keys == w.includes.Keys && v.digests == w.digests
    && forall x :: x in v.includes ==> multiset(v.includes[x]) == multiset(w.includes[x])
  }

  lemma SameMembers<T>(a: seq<T>, b: seq<T>, x: T)
    requires multiset(a) == multiset(b)
    ensures x in a <==> x in b
  {
    assert x in multiset(a) <==> x in multiset(b);
  }

  lemma {:induction false} PathReordered(v: World, w: World, p: seq<Header>)
    requires Reordered(v, w)
    ensures IsPath(v, p) <==> IsPath(w, p)
    decreases |p|
  {
    if |p| > 1 && p[0] in v.includes {
      PathReordered(v, w, p[1..]);
      SameMembers(v.includes[p[0]], w.includes[p[0]], p[1]);
    }
  }

  lemma ReachesReordered(v: World, w: World, x: Header, y: Header)
    requires Reordered(v, w)
    ensures Reaches(v, x, y) <==> Reaches(w, x, y)
  {
    if p :| PathFrom(v, p, x, y) {
      PathReordered(v, w, p);
      assert PathFrom(w, p, x, y);
    }
    if p :| PathFrom(w, p, x, y) {
      PathReordered(v, w, p);
      assert PathFrom(v, p, x, y);
    }
  }

  lemma AcyclicReordered(v: World, w: World)
    requires Reordered(v, w) && Acyclic(v)
    ensures Acyclic(w)
  {
    forall x, y | Reaches(w, x, y) && Reaches(w, y, x)
      ensures x == y
    {
      ReachesReordered(v, w, x, y);
      ReachesReordered(v, w, y, x);
    }
  }

  /** The keys that a list of headers has, given the key of each. */
  ghost function KeysOf(keys: map<Header, string>, xs: seq<Header>): seq<string>
    requires forall x :: x in xs ==> x in keys
  {
    if xs == [] then [] else [keys[xs[0]]] + KeysOf(keys, xs[1..])
  }

  lemma {:induction false} KeysOfSplit(keys: map<Header, string>, a: seq<Header>, b: seq<Header>)
    requires forall x :: x in a + b ==> x in keys
    ensures (forall x :: x in a ==> x in keys) && (forall x :: x in b ==> x in keys)
    ensures KeysOf(keys, a + b) == KeysOf(keys, a) + KeysOf(keys, b)
  {
    assert forall x :: x in a || x in b ==> x in a + b;
    if a == [] {
      assert a + b == b;
    } else {
      assert (a + b)[1..] == a[1..] + b && a + b == [a[0]] + (a[1..] + b);
      KeysOfSplit(keys, a[1..], b);
    }
  }

  /** One header taken out of a list. */
  lemma KeysOfTakeOut(keys: map<Header, string>, ys: seq<Header>, x: Header) returns (rest: seq<Header>)
    requires x in ys && forall y :: y in ys ==> y in keys
    ensures multiset(rest) == multiset(ys) - multiset{x} && forall y :: y in rest ==> y in keys
    ensures multiset(KeysOf(keys, ys)) == multiset(KeysOf(keys, rest)) + multiset{keys[x]}
  {
    var i :| 0 <= i < |ys| && ys[i] == x;
    var before, one, after := ys[..i], [x], ys[i + 1..];
    rest := before + after;
    WithoutOne(ys, i);
    assert ys == before + (one + after) && one[1..] == [];
    KeysOfSplit(keys, before, one + after);
    KeysOfSplit(keys, one, after);
    KeysOfSplit(keys, before, after);
    assert KeysOf(keys, one) == [keys[x]];
  }

  lemma {:induction false} KeysOfReordered(keys: map<Header, string>, xs: seq<Header>, ys: seq<Header>)
    requires multiset(xs) == multiset(ys) && forall x :: x in xs ==> x in keys
    ensures forall y :: y in ys ==> y in keys
    ensures multiset(KeysOf(keys, xs)) == multiset(KeysOf(keys, ys))
  {
    forall y | y in ys
      ensures y in keys
    {
      SameMembers(xs, ys, y);
    }
    assert |xs| == |multiset(xs)| && |ys| == |multiset(ys)|;
    if xs != [] {
      SameMembers(xs, ys, xs[0]);
      WithoutFirst(xs);
      var rest := KeysOfTakeOut(keys, ys, xs[0]);
      KeysOfReordered(keys, xs[1..], rest);
    }
  }

  /** What `x` gets from each header it includes. */
  ghost function ChildMap(w: World, hash: string -> string, x: Header): map<Header, string>
    requires w.Valid() && Acyclic(w) && x in w.includes
  {
    map c | c in w.includes[x] :: if c == x then "" else (ReachShrinks(w, x, c); Key(w, hash, c))
  }

  lemma {:induction false} ChildKeysOf(w: World, hash: string -> string, x: Header, i: nat)
    requires w.Valid() && Acyclic(w) && x in w.includes && i <= |w.includes[x]|
    ensures ChildKeys(w, hash, x, i) == KeysOf(ChildMap(w, hash, x), w.includes[x][i..])
    decreases |w.includes[x]| - i
  {
    if i < |w.includes[x]| {
      ChildKeysOf(w, hash, x, i + 1);
      assert w.includes[x][i..] == [w.includes[x][i]] + w.includes[x][i + 1..];
      assert w.includes[x][i..][1..] == w.includes[x][i + 1..];
    }
  }

  /** Without include cycles, the plain key of a header does not depend on the order of any includes. */
  lemma {:induction false} KeyIgnoresOrder(v: World, w: World, hash: string -> string, x: Header)
    requires v.Valid() && w.Valid() && Acyclic(v) && Acyclic(w) && Reordered(v, w) && x in v.includes
    ensures Key(v, hash, x) == Key(w, hash, x)
    decreases |Reach(v, x)|
  {
    forall c | c in v.includes[x] && c != x
      ensures Key(v, hash, c) == Key(w, hash, c)
    {
      ReachShrinks(v, x, c);
      KeyIgnoresOrder(v, w, hash, c);
    }
    forall c
      ensures c in v.includes[x] <==> c in w.includes[x]
    {
      SameMembers(v.includes[x], w.includes[x], c);
    }
    var keys := ChildMap(v, hash, x);
    assert keys == ChildMap(w, hash, x);
    ChildKeysOf(v, hash, x, 0);
    ChildKeysOf(w, hash, x, 0);
    assert v.includes[x][0..] == v.includes[x] && w.includes[x][0..] == w.includes[x];
    KeysOfReordered(keys, v.includes[x], w.includes[x]);
    SortedIgnoresOrder([v.digests[x]] + ChildKeys(v, hash, x, 0), [w.digests[x]] + ChildKeys(w, hash, x, 0));
  }

  /** So what is printed for a header, after any queries, does not depend on the order of the `#include` lines. */
  lemma PrintedIgnoresOrder(
    v: World, w: World, hash: string -> string, x: Header, asked: seq<Header>, again: seq<Header>)
    requires v.Valid() && w.Valid() && Acyclic(v) && Reordered(v, w) && x in v.includes
    requires Askable(v, asked) && Askable(w, again)
    ensures Printed(v, hash, asked, x) == Printed(w, hash, again, x)
  {
    AcyclicReordered(v, w);
    PrintedIsKey(v, hash, asked, x);
    PrintedIsKey(w, hash, again, x);
    KeyIgnoresOrder(v, w, hash, x);
  }
}
