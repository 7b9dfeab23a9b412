/**
 `scripts/tree_keys.py`: one cache key per header over its own bytes and everything it includes,
 computed by a memoised walk that stops at a header it is already inside of.
 */
module TreeKeys {
  import opened Sequences

  datatype Header = Header(path: string)

  /** The headers, what each includes (resolved, in order), and the digest of each one's own bytes. */
  datatype World = World(includes: map<Header, seq<Header>>, digests: map<Header, string>) {
    ghost predicate Valid() {
      && digests.Keys == includes.Keys
      && forall x, i :: x in includes && 0 <= i < |includes[x]| ==> includes[x][i] in includes
    }
  }

  const HEX_LENGTH := 40

  // ------------------------------------------------------------------ "".join(sorted(parts))

  predicate AtMost(a: string, b: string) {
    if a == "" then true
    else if b == "" then false
    else a[0] < b[0] || (a[0] == b[0] && AtMost(a[1..], b[1..]))
  }

  function Insert(s: string, sorted: seq<string>): seq<string> {
    if sorted == [] || AtMost(s, sorted[0]) then [s] + sorted else [sorted[0]] + Insert(s, sorted[1..])
  }

  function Sorted(parts: seq<string>): seq<string> {
    if parts == [] then [] else Insert(parts[0], Sorted(parts[1..]))
  }

  function Join(parts: seq<string>): string {
    if parts == [] then "" else parts[0] + Join(parts[1..])
  }

  /** Up to where they part, the strings agree; there `a` ends or has the lower character. */
  predicate PartAt(a: string, b: string, n: nat) {
    n <= |a| && n <= |b| && a[..n] == b[..n] && (n == |a| || (n < |b| && a[n] < b[n]))
  }

  /** `AtMost` is the order of the dictionary. */
  lemma {:induction false} AtMostIsLexicographic(a: string, b: string)
    ensures AtMost(a, b) <==> exists n :: PartAt(a, b, n)
  {
    if a == "" {
      assert PartAt(a, b, 0);
    } else if b != "" {
      AtMostIsLexicographic(a[1..], b[1..]);
      if a[0] < b[0] {
        assert PartAt(a, b, 0);
      }
      if n: nat :| PartAt(a[1..], b[1..], n) && a[0] == b[0] {
        assert a[..n + 1] == [a[0]] + a[1..][..n] && b[..n + 1] == [b[0]] + b[1..][..n];
        assert PartAt(a, b, n + 1);
      }
      if n: nat :| PartAt(a, b, n) && n > 0 {
        assert a[1..][..n - 1] == a[..n][1..] && b[1..][..n - 1] == b[..n][1..];
        assert a[0] == a[..n][0] == b[..n][0] == b[0];
        assert PartAt(a[1..], b[1..], n - 1);
      }
    }
  }

  /** `AtMost` is a total order. */
  lemma {:induction false} AtMostTotal(a: string, b: string)
    ensures AtMost(a, a) && (AtMost(a, b) || AtMost(b, a))
    ensures AtMost(a, b) && AtMost(b, a) ==> a == b
  {
    if a != "" {
      AtMostTotal(a[1..], if b == "" then b else b[1..]);
      assert b != "" && a[0] == b[0] && a[1..] == b[1..] ==> a == b by {
        assert a == [a[0]] + a[1..] && (b != "" ==> b == [b[0]] + b[1..]);
      }
    }
  }

  lemma {:induction false} AtMostTransitive(a: string, b: string, c: string)
    requires AtMost(a, b) && AtMost(b, c)
    ensures AtMost(a, c)
  {
    if a != "" {
      if a[0] == b[0] == c[0] {
        AtMostTransitive(a[1..], b[1..], c[1..]);
      }
    }
  }

  ghost predicate InOrder(parts: seq<string>) {
    forall i, j :: 0 <= i < j < |parts| ==> AtMost(parts[i], parts[j])
  }

  lemma {:induction false} InsertIsSorted(s: string, sorted: seq<string>)
    requires InOrder(sorted)
    ensures InOrder(Insert(s, sorted)) && multiset(Insert(s, sorted)) == multiset(sorted) + multiset{s}
  {
    if sorted == [] {
    } else if AtMost(s, sorted[0]) {
      assert Insert(s, sorted) == [s] + sorted;
      forall j | 0 <= j < |sorted|
        ensures AtMost(s, sorted[j])
      {
        if j > 0 {
          AtMostTransitive(s, sorted[0], sorted[j]);
        }
      }
    } else {
      AtMostTotal(s, sorted[0]);
      var rest := Insert(s, sorted[1..]);
      InsertIsSorted(s, sorted[1..]);
      assert sorted == [sorted[0]] + sorted[1..];
      forall x | x in rest
        ensures AtMost(sorted[0], x)
      {
        assert x in multiset(rest);
        assert x == s || x in sorted[1..];
      }
      assert forall j :: 0 <= j < |rest| ==> rest[j] in rest;
    }
  }

  /** `sorted` sorts: the same parts, in order. */
  lemma {:induction false} SortedIsSorted(parts: seq<string>)
    ensures InOrder(Sorted(parts)) && multiset(Sorted(parts)) == multiset(parts)
  {
    if parts != [] {
      SortedIsSorted(parts[1..]);
      InsertIsSorted(parts[0], Sorted(parts[1..]));
      assert parts == [parts[0]] + parts[1..];
    }
  }

  lemma FirstAtMost(a: seq<string>, b: seq<string>)
    requires InOrder(a) && a != [] && b != [] && multiset(a) == multiset(b)
    ensures AtMost(a[0], b[0])
  {
    assert b[0] in multiset(b);
    var i :| 0 <= i < |a| && a[i] == b[0];
    AtMostTotal(a[0], a[0]);
  }

  lemma SameFirst(a: seq<string>, b: seq<string>)
    requires InOrder(a) && InOrder(b) && a != [] && b != [] && multiset(a) == multiset(b)
    ensures a[0] == b[0]
  {
    FirstAtMost(a, b);
    FirstAtMost(b, a);
    AtMostTotal(a[0], b[0]);
  }

  lemma SameTails(a: seq<string>, b: seq<string>)
    requires a != [] && b != [] && a[0] == b[0] && a[1..] == b[1..]
    ensures a == b
  {
    assert a == [a[0]] + a[1..] && b == [b[0]] + b[1..];
  }

  /** There is only one order to put the same parts in. */
  lemma {:induction false} OneOrder(a: seq<string>, b: seq<string>)
    requires InOrder(a) && InOrder(b) && multiset(a) == multiset(b)
    ensures a == b
  {
    assert |a| == |multiset(a)| && |b| == |multiset(b)|;
    if a != [] {
      SameFirst(a, b);
      WithoutFirst(a);
      WithoutFirst(b);
      OneOrder(a[1..], b[1..]);
      SameTails(a, b);
    }
  }

  /** So what is hashed does not depend on the order of the parts. */
  lemma SortedIgnoresOrder(a: seq<string>, b: seq<string>)
    requires multiset(a) == multiset(b)
    ensures Sorted(a) == Sorted(b)
  {
    SortedIsSorted(a);
    SortedIsSorted(b);
    OneOrder(Sorted(a), Sorted(b));
  }

  /** Nothing stands between the parts. */
  lemma {:induction false} JoinConcat(a: seq<string>, b: seq<string>)
    ensures Join(a + b) == Join(a) + Join(b) && (|a| == 1 ==> Join(a) == a[0])
  {
    if a == [] {
      assert a + b == b;
    } else {
      JoinConcat(a[1..], b);
      assert (a + b)[1..] == a[1..] + b;
      assert |a| == 1 ==> a[1..] == [];
    }
  }

  // ------------------------------------------------------------------ the walk

  /** A key and the memo `reached` afterwards. */
  datatype Walk = Walk(key: string, reached: map<Header, string>)
  datatype Walks = Walks(keys: seq<string>, reached: map<Header, string>)

  function Closure(
    w: World, hash: string -> string, x: Header, walking: set<Header>, reached: map<Header, string>): Walk
    requires w.Valid() && x in w.includes && walking <= w.includes.Keys
    decreases w.includes.Keys - walking, 0
  {
    if x in reached then Walk(reached[x], reached)
    else if x in walking then Walk("", reached)
    else
      var children := Closures(w, hash, w.includes[x], walking + {x}, reached);
      var key := hash(Join(Sorted([w.digests[x]] + children.keys)));
      Walk(key, children.reached[x := key])
  }

  function Closures(
    w: World, hash: string -> string, xs: seq<Header>, walking: set<Header>, reached: map<Header, string>): Walks
    requires w.Valid() && walking <= w.includes.Keys && forall i :: 0 <= i < |xs| ==> xs[i] in w.includes
    decreases w.includes.Keys - walking, 1 + |xs|
  {
    if xs == [] then Walks([], reached) else
    var first := Closure(w, hash, xs[0], walking, reached);
    var others := Closures(w, hash, xs[1..], walking, first.reached);
    Walks([first.key] + others.keys, others.reached)
  }

  /** One turn of the loop over the includes. */
  lemma ClosuresNext(
    w: World, hash: string -> string, xs: seq<Header>, i: nat, walking: set<Header>, reached: map<Header, string>)
    requires w.Valid() && walking <= w.includes.Keys && (forall j :: 0 <= j < |xs| ==> xs[j] in w.includes) && i < |xs|
    ensures var first := Closure(w, hash, xs[i], walking, reached);
      var others := Closures(w, hash, xs[i + 1..], walking, first.reached);
      Closures(w, hash, xs[i..], walking, reached) == Walks([first.key] + others.keys, others.reached)
  {
    assert xs[i..][0] == xs[i] && xs[i..][1..] == xs[i + 1..];
  }

  /** After `i` of the includes, with `parts` computed, the others make up the rest of `all`. */
  ghost predicate Remain(
    w: World, hash: string -> string, xs: seq<Header>, i: nat, walking: set<Header>, reached: map<Header, string>,
    parts: seq<string>, all: Walks)
    requires w.Valid() && walking <= w.includes.Keys && (forall j :: 0 <= j < |xs| ==> xs[j] in w.includes) && i <= |xs|
  {
    var rest := Closures(w, hash, xs[i..], walking, reached);
    all.keys == parts + rest.keys && all.reached == rest.reached
  }

  lemma RemainNext(
    w: World, hash: string -> string, xs: seq<Header>, i: nat, walking: set<Header>, reached: map<Header, string>,
    parts: seq<string>, all: Walks)
    requires w.Valid() && walking <= w.includes.Keys && (forall j :: 0 <= j < |xs| ==> xs[j] in w.includes) && i < |xs|
    requires Remain(w, hash, xs, i, walking, reached, parts, all)
    ensures var first := Closure(w, hash, xs[i], walking, reached);
      Remain(w, hash, xs, i + 1, walking, first.reached, parts + [first.key], all)
  {
    ClosuresNext(w, hash, xs, i, walking, reached);
    var first := Closure(w, hash, xs[i], walking, reached);
    var others := Closures(w, hash, xs[i + 1..], walking, first.reached);
    assert parts + ([first.key] + others.keys) == parts + [first.key] + others.keys;
  }

  /** The memo dictionaries of `main` and the set of headers being walked. */
  class Keys {
    const w: World
    const hash: string -> string
    var own: map<Header, string>
    var reached: map<Header, string>
    var walking: set<Header>

    constructor (w: World, hash: string -> string)
      requires w.Valid()
      ensures this.w == w && this.hash == hash && reached == map[] && walking == {} && Valid()
    {
      this.w, this.hash, own, reached, walking := w, hash, map[], map[], {};
    }

    ghost predicate Valid()
      reads this
    {
      w.Valid() && walking <= w.includes.Keys && forall x :: x in own ==> x in w.digests && own[x] == w.digests[x]
    }

    method Digest(x: Header) returns (r: string)
      requires Valid() && x in w.digests
      modifies this`own
      ensures Valid() && r == w.digests[x]
    {
      if x !in own {
        own := own[x := w.digests[x]];
      }
      r := own[x];
    }

    method Key(x: Header) returns (key: string)
      requires Valid() && x in w.includes
      modifies this
      ensures Valid() && walking == old(walking)
      ensures Walk(key, reached) == Closure(w, hash, x, old(walking), old(reached))
      decreases w.includes.Keys - walking, 0
    {
      if x in reached {
        return reached[x];
      }
      if x in walking {
        return "";
      }
      ghost var before := walking;
      walking := walking + {x};
      var digest := Digest(x);
      var parts := ChildKeys(w.includes[x]);
      walking := walking - {x};
      assert walking == before;
      key := hash(Join(Sorted([digest] + parts)));
      reached := reached[x := key];
    }

    /** The loop over the includes. */
    method ChildKeys(children: seq<Header>) returns (parts: seq<string>)
      requires Valid() && forall i :: 0 <= i < |children| ==> children[i] in w.includes
      modifies this
      ensures Valid() && walking == old(walking)
      ensures Walks(parts, reached) == Closures(w, hash, children, old(walking), old(reached))
      decreases w.includes.Keys - walking, |children| + 1
    {
      parts := [];
      ghost var all := Closures(w, hash, children, walking, reached);
      assert children[0..] == children;
      for i := 0 to |children|
        invariant Valid() && walking == old(walking)
        invariant Remain(w, hash, children, i, walking, reached, parts, all)
      {
        ghost var before := reached;
        var part := Key(children[i]);
        RemainNext(w, hash, children, i, walking, before, parts, all);
        parts := parts + [part];
      }
      assert children[|children|..] == [];
    }
  }
}
