/**
 `scripts/unity_groups.py`: assigning generated sources to stable, bounded unity groups by
 recursive splitting on the bits of a digest.
 */
module UnityGroups {
  import opened Numerals
  import opened Sequences

  // ------------------------------------------------------------------ bits

  const DIGEST_BITS := 256

  /** `(n >> depth) & 1`. */
  function Bit(n: nat, depth: nat): nat {
    if depth == 0 then n % 2 else Bit(n / 2, depth - 1)
  }

  predicate SameBelow(a: nat, b: nat, depth: nat) {
    forall i :: 0 <= i < depth ==> Bit(a, i) == Bit(b, i)
  }

  /** A number is its bits. */
  lemma {:induction false} BitsDetermine(a: nat, b: nat, width: nat)
    requires a < Power2(width) && b < Power2(width) && SameBelow(a, b, width)
    ensures a == b
  {
    if width > 0 {
      forall i | 0 <= i < width - 1
        ensures Bit(a / 2, i) == Bit(b / 2, i)
      {
        assert Bit(a, i + 1) == Bit(a / 2, i) && Bit(b, i + 1) == Bit(b / 2, i);
      }
      BitsDetermine(a / 2, b / 2, width - 1);
      assert Bit(a, 0) == Bit(b, 0);
    }
  }

  lemma DivideTwice(n: nat, p: nat)
    requires p > 0
    ensures (n / 2) / p == n / (2 * p)
  {
    var q := (n / 2) / p;
    var low := (n / 2) % p;
    assert n / 2 == q * p + low;
    assert n == q * (2 * p) + (2 * low + n % 2);
    QuotientIs(n, 2 * p, q, 2 * low + n % 2);
  }

  lemma QuotientIs(n: nat, p: nat, q: nat, low: nat)
    requires p > 0 && low < p && n == q * p + low
    ensures n / p == q
  {
    var r := n / p;
    assert n == r * p + n % p;
    assert (r - q) * p == low - n % p;
    MultipleGrows(r - q, p);
  }

  lemma MultipleGrows(k: int, p: nat)
    ensures k >= 1 ==> k * p >= p
    ensures k <= -1 ==> k * p + p <= 0
  {
    if k >= 1 {
      assert k * p == (k - 1) * p + p && (k - 1) * p >= 0;
    } else if k <= -1 {
      assert k * p == (k + 1) * p - p && (k + 1) * p <= 0;
    }
  }

  /** `n >> depth` is the quotient by a power of two, `& 1` its parity. */
  lemma {:induction false} BitIsShift(n: nat, depth: nat)
    ensures Bit(n, depth) == (n / Power2(depth)) % 2
  {
    if depth > 0 {
      BitIsShift(n / 2, depth - 1);
      DivideTwice(n, Power2(depth - 1));
    }
  }

  // ------------------------------------------------------------------ inputs

  /** A generated source, known by its path. */
  datatype Source = Source(path: string)

  /** The two digests of a source: `_digest(b"root\0", s)` and `_digest(b"split\0", s)`. */
  datatype Digests = Digests(root: Source -> nat, split: Source -> nat)

  datatype Outcome = Assigned(groups: map<Source, Group>) | Rejected(why: Rejection)
  datatype Rejection = GroupSizeNotPositive | DuplicateSource | RootCountNotPositive

  /** The parameters of a run. */
  datatype Grouping = Grouping(digests: Digests, rootGroups: int, maxSize: int) {
    predicate Valid() {
      rootGroups >= 1 && maxSize >= 1
    }

    /** `stable_root`. */
    function Root(source: Source): nat
      requires rootGroups >= 1
    {
      digests.root(source) % rootGroups
    }

    function Key(source: Source): nat {
      digests.split(source)
    }

    /** The sources of `entries` whose digest has bit `depth` equal to `bit`. */
    function Side(entries: set<Source>, depth: nat, bit: nat): set<Source> {
      set s | s in entries && Bit(Key(s), depth) == bit
    }

    /** The sources that agree with `x` on every bit below `depth`. */
    function Cell(entries: set<Source>, x: Source, depth: nat): set<Source> {
      set s | s in entries && Alike(s, x, depth)
    }

    /** The sources of `sources` with root `root`. */
    function Rooted(sources: set<Source>, root: nat): set<Source>
      requires rootGroups >= 1
    {
      set s | s in sources && Root(s) == root
    }

    /**
     No more sources of one root agree on all 256 digest bits than a group may hold; with distinct
     digests this always is so. Otherwise the splitting would not end.
     */
    ghost predicate Separable(entries: set<Source>) {
      forall s {:trigger TwinsFit(entries, s)} :: s in entries ==> TwinsFit(entries, s)
    }

    predicate TwinsFit(entries: set<Source>, s: Source) {
      |Cell(entries, s, DIGEST_BITS)| <= maxSize
    }

    ghost predicate SeparableSources(sources: set<Source>)
      requires rootGroups >= 1
    {
      forall s :: s in sources ==> Separable(Rooted(sources, Root(s)))
    }

    /** All entries agree below `depth`, as they do wherever the splitting gets to. */
    ghost predicate Agreed(entries: set<Source>, depth: nat) {
      forall s, t {:trigger Alike(s, t, depth)} :: s in entries && t in entries ==> Alike(s, t, depth)
    }

    predicate Alike(s: Source, t: Source, depth: nat) {
      SameBelow(Key(s), Key(t), depth)
    }

    /** The suffix that the splitting of `entries` from `depth` on gives `x`. */
    ghost function Tail(entries: set<Source>, x: Source, depth: nat): string
      decreases DIGEST_BITS - depth
    {
      if |entries| <= maxSize || depth >= DIGEST_BITS then ""
      else if Side(entries, depth, 0) == {} || Side(entries, depth, 1) == {} then Tail(entries, x, depth + 1)
      else if Bit(Key(x), depth) == 1 then "1" + Tail(Side(entries, depth, 1), x, depth + 1)
      else "0" + Tail(Side(entries, depth, 0), x, depth + 1)
    }

    /** The group of `x` among `sources`. */
    ghost function GroupOf(sources: set<Source>, x: Source): Group
      requires rootGroups >= 1
    {
      Group(Root(x), Tail(Rooted(sources, Root(x)), x, 0))
    }
  }

  // ------------------------------------------------------------------ names

  /** `f"{root:03d}"`. */
  function Padded(root: nat): string {
    var digits := Decimal(root);
    if |digits| == 1 then "00" + digits else if |digits| == 2 then "0" + digits else digits
  }

  /** A group, whose name is `f"stable/{root:03d}/{suffix or 'root'}"`. */
  datatype Group = Group(root: nat, suffix: string) {
    function Name(): string {
      "stable/" + Padded(root) + "/" + OrRoot(suffix)
    }
  }

  lemma {:induction false} LeadingZero(digits: string)
    ensures Value("0" + digits) == Value(digits)
  {
    if digits == "" {
      assert ("0" + digits)[..0] == "";
    } else {
      LeadingZero(digits[..|digits| - 1]);
      assert ("0" + digits)[..|digits|] == "0" + digits[..|digits| - 1];
    }
  }

  lemma PaddedValue(root: nat)
    ensures Value(Padded(root)) == root && '/' !in Padded(root)
  {
    DecimalValue(root);
    LeadingZero(Decimal(root));
    LeadingZero("0" + Decimal(root));
    assert "00" + Decimal(root) == "0" + ("0" + Decimal(root));
  }

  predicate Bits(suffix: string) {
    forall i :: 0 <= i < |suffix| ==> suffix[i] == '0' || suffix[i] == '1'
  }

  /** What stands before the first slash. */
  function BeforeSlash(s: string): string {
    if s == "" || s[0] == '/' then "" else [s[0]] + BeforeSlash(s[1..])
  }

  lemma {:induction false} BeforeSlashOf(a: string, rest: string)
    requires '/' !in a
    ensures BeforeSlash(a + ("/" + rest)) == a
  {
    if a != "" {
      BeforeSlashOf(a[1..], rest);
      assert (a + ("/" + rest))[1..] == a[1..] + ("/" + rest);
    }
  }

  lemma PartsDetermined(p: string, q: string, t: string, w: string)
    requires '/' !in p && '/' !in q && "stable/" + p + "/" + t == "stable/" + q + "/" + w
    ensures p == q && t == w
  {
    var x, y := p + ("/" + t), q + ("/" + w);
    assert ("stable/" + p + "/" + t)[7..] == x && ("stable/" + q + "/" + w)[7..] == y;
    BeforeSlashOf(p, t);
    BeforeSlashOf(q, w);
    assert x[|p| + 1..] == t && y[|q| + 1..] == w;
  }

  function OrRoot(suffix: string): string {
    if suffix == "" then "root" else suffix
  }

  lemma OrRootDetermined(u: string, v: string)
    requires Bits(u) && Bits(v) && OrRoot(u) == OrRoot(v)
    ensures u == v
  {
    assert OrRoot(u)[0] == 'r' <==> u == "";
    assert OrRoot(v)[0] == 'r' <==> v == "";
  }

  /** Two groups with the same name are the same group. */
  lemma NamesDiffer(a: Group, b: Group)
    requires a.Name() == b.Name() && Bits(a.suffix) && Bits(b.suffix)
    ensures a == b
  {
    PaddedValue(a.root);
    PaddedValue(b.root);
    PartsDetermined(Padded(a.root), Padded(b.root), OrRoot(a.suffix), OrRoot(b.suffix));
    OrRootDetermined(a.suffix, b.suffix);
  }

  /** Three digits at least, and `root` for want of a suffix. */
  lemma NamesAre()
    ensures Group(7, "").Name() == "stable/007/root" && Group(42, "01").Name() == "stable/042/01"
    ensures Group(895, "1").Name() == "stable/895/1" && Group(1234, "").Name() == "stable/1234/root"
  {
    assert Decimal(7) == "7";
    assert Decimal(42) == Decimal(4) + "2" == "42";
    assert Decimal(895) == Decimal(89) + "5" == "895" by {
      assert Decimal(89) == Decimal(8) + "9" == "89";
    }
    assert Decimal(1234) == Decimal(123) + "4" == "1234" by {
      assert Decimal(123) == Decimal(12) + "3" == "123" by {
        assert Decimal(12) == Decimal(1) + "2" == "12";
      }
    }
  }

  /** The root is the remainder of the root digest by the number of root groups. */
  lemma RootIsRemainder(g: Grouping, source: Source, times: nat)
    requires g.rootGroups >= 1
    ensures 0 <= g.Root(source) < g.rootGroups
    ensures times * g.rootGroups <= g.digests.root(source) < (times + 1) * g.rootGroups ==>
              g.Root(source) == g.digests.root(source) - times * g.rootGroups
  {
    var digest := g.digests.root(source);
    if times * g.rootGroups <= digest < (times + 1) * g.rootGroups {
      QuotientIs(digest, g.rootGroups, times, digest - times * g.rootGroups);
      assert digest == (digest / g.rootGroups) * g.rootGroups + digest % g.rootGroups;
    }
  }

  // ------------------------------------------------------------------ the splitting

  lemma SeparableSubset(g: Grouping, entries: set<Source>, part: set<Source>)
    requires g.Separable(entries) && part <= entries
    ensures g.Separable(part)
  {
    forall s | s in part
      ensures g.TwinsFit(part, s)
    {
      assert g.TwinsFit(entries, s);
      SubsetSize(g.Cell(part, s, DIGEST_BITS), g.Cell(entries, s, DIGEST_BITS));
    }
  }

  /** Distinct digests of 256 bits are separable, whatever the group size. */
  lemma DistinctDigestsSeparable(g: Grouping, entries: set<Source>, width: nat)
    requires width == DIGEST_BITS && g.maxSize >= 1
    requires forall s :: s in entries ==> g.Key(s) < Power2(width)
    requires forall s, t :: s in entries && t in entries && g.Key(s) == g.Key(t) ==> s == t
    ensures g.Separable(entries)
  {
    forall s | s in entries
      ensures g.TwinsFit(entries, s)
    {
      forall t | t in g.Cell(entries, s, width)
        ensures t == s
      {
        BitsDetermine(g.Key(t), g.Key(s), width);
      }
      SubsetSize(g.Cell(entries, s, width), {s});
    }
  }

  /** Entries that agree on all bits fit into one group. */
  lemma AgreedFits(g: Grouping, entries: set<Source>)
    requires g.Separable(entries) && g.Agreed(entries, DIGEST_BITS) && g.maxSize >= 0
    ensures |entries| <= g.maxSize
  {
    if x :| x in entries {
      assert g.TwinsFit(entries, x);
      assert g.Cell(entries, x, DIGEST_BITS) == entries;
    }
  }

  lemma BitIsBinary(n: nat, depth: nat)
    ensures Bit(n, depth) == 0 || Bit(n, depth) == 1
  {
  }

  /** A part of the entries that also agrees on bit `depth`. */
  lemma AgreedFurther(g: Grouping, entries: set<Source>, part: set<Source>, depth: nat)
    requires g.Agreed(entries, depth) && part <= entries
    requires forall s, t :: s in part && t in part ==> Bit(g.Key(s), depth) == Bit(g.Key(t), depth)
    ensures g.Agreed(part, depth + 1)
  {
    forall s, t | s in part && t in part
      ensures g.Alike(s, t, depth + 1)
    {
      assert g.Alike(s, t, depth);
    }
  }

  /** The two sides part the entries, and each agrees one bit further. */
  lemma SidesPart(g: Grouping, entries: set<Source>, depth: nat)
    requires g.Agreed(entries, depth)
    ensures g.Side(entries, depth, 0) + g.Side(entries, depth, 1) == entries
    ensures g.Agreed(g.Side(entries, depth, 0), depth + 1) && g.Agreed(g.Side(entries, depth, 1), depth + 1)
    ensures g.Side(entries, depth, 0) == {} || g.Side(entries, depth, 1) == {} ==> g.Agreed(entries, depth + 1)
  {
    forall s | s in entries
      ensures s in g.Side(entries, depth, 0) || s in g.Side(entries, depth, 1)
    {
      BitIsBinary(g.Key(s), depth);
    }
    AgreedFurther(g, entries, g.Side(entries, depth, 0), depth);
    AgreedFurther(g, entries, g.Side(entries, depth, 1), depth);
    assert g.Side(entries, depth, 0) == {} ==> g.Side(entries, depth, 1) == entries;
    assert g.Side(entries, depth, 1) == {} ==> g.Side(entries, depth, 0) == entries;
  }

  /** The suffixes that the splitting of `entries` gives from `depth` on. */
  ghost function Tails(g: Grouping, entries: set<Source>, depth: nat): map<Source, string> {
    map x | x in entries :: g.Tail(entries, x, depth)
  }

  /** From `before` to `after`, exactly the sources of `tails` were assigned, each its group of this root. */
  ghost predicate Fills(before: map<Source, Group>, after: map<Source, Group>,
                        root: nat, suffix: string, tails: map<Source, string>) {
    && after.Keys == before.Keys + tails.Keys
    && (forall x :: x in tails ==> after[x] == Group(root, suffix + tails[x]))
    && (forall x :: x in before.Keys - tails.Keys ==> after[x] == before[x])
  }

  /** Both halves are assigned, one behind the other. */
  lemma FillsBoth(
    before: map<Source, Group>, middle: map<Source, Group>, after: map<Source, Group>, root: nat, suffix: string,
    zero: map<Source, string>, one: map<Source, string>, tails: map<Source, string>)
    requires Fills(before, middle, root, suffix + "0", zero) && Fills(middle, after, root, suffix + "1", one)
    requires Joins(zero, one, tails)
    ensures Fills(before, after, root, suffix, tails)
  {
    forall x | x in tails
      ensures after[x] == Group(root, suffix + tails[x])
    {
      if x in one {
        Associates(suffix, "1", one[x]);
      } else {
        Associates(suffix, "0", zero[x]);
      }
    }
  }

  lemma Associates(a: string, b: string, c: string)
    ensures a + (b + c) == a + b + c
  {
  }

  ghost predicate Joins(zero: map<Source, string>, one: map<Source, string>, tails: map<Source, string>) {
    && tails.Keys == zero.Keys + one.Keys && zero.Keys !! one.Keys
    && (forall x :: x in zero ==> tails[x] == "0" + zero[x])
    && (forall x :: x in one ==> tails[x] == "1" + one[x])
  }

  lemma TailsJoin(g: Grouping, entries: set<Source>, depth: nat, zero: set<Source>, one: set<Source>)
    requires |entries| > g.maxSize && depth < DIGEST_BITS
    requires zero == g.Side(entries, depth, 0) != {} && one == g.Side(entries, depth, 1) != {} && zero + one == entries
    ensures Joins(Tails(g, zero, depth + 1), Tails(g, one, depth + 1), Tails(g, entries, depth))
  {
  }

  lemma TailsSkip(g: Grouping, entries: set<Source>, depth: nat)
    requires |entries| > g.maxSize && depth < DIGEST_BITS
    requires g.Side(entries, depth, 0) == {} || g.Side(entries, depth, 1) == {}
    ensures Tails(g, entries, depth) == Tails(g, entries, depth + 1)
  {
  }

  lemma FillsLeaf(
    g: Grouping, before: map<Source, Group>, after: map<Source, Group>, root: nat, entries: set<Source>, depth: nat,
    suffix: string)
    requires |entries| <= g.maxSize && after == before + map x | x in entries :: Group(root, suffix)
    ensures Fills(before, after, root, suffix, Tails(g, entries, depth))
  {
    assert suffix + "" == suffix;
  }

  /** The loop of `split` that deals the entries to `zero` and `one`. */
  method Deal(g: Grouping, entries: seq<Source>, depth: nat) returns (zero: seq<Source>, one: seq<Source>)
    requires Distinct(entries)
    ensures Distinct(zero) && Elements(zero) == g.Side(Elements(entries), depth, 0)
    ensures Distinct(one) && Elements(one) == g.Side(Elements(entries), depth, 1)
  {
    zero, one := [], [];
    for i := 0 to |entries|
      invariant Distinct(zero) && Distinct(one)
      invariant Elements(zero) == g.Side(Elements(entries[..i]), depth, 0)
      invariant Elements(one) == g.Side(Elements(entries[..i]), depth, 1)
    {
      assert Elements(entries[..i + 1]) == Elements(entries[..i]) + {entries[i]};
      assert entries[i] !in Elements(entries[..i]);
      BitIsBinary(g.Key(entries[i]), depth);
      if Bit(g.Key(entries[i]), depth) == 1 {
        assert Elements(one + [entries[i]]) == Elements(one) + {entries[i]};
        one := one + [entries[i]];
      } else {
        assert Elements(zero + [entries[i]]) == Elements(zero) + {entries[i]};
        zero := zero + [entries[i]];
      }
    }
    assert entries[..|entries|] == entries;
  }

  /** The dictionary `assigned`, here `groups`, and the recursion that fills it. */
  class Splitter {
    var groups: map<Source, Group>

    constructor ()
      ensures groups == map[]
    {
      groups := map[];
    }

    /** The leaf case: one group for all entries. */
    method Assign(entries: seq<Source>, group: Group)
      modifies this
      ensures groups == old(groups) + map x | x in Elements(entries) :: group
    {
      for i := 0 to |entries|
        invariant groups == old(groups) + map x | x in Elements(entries[..i]) :: group
      {
        assert Elements(entries[..i + 1]) == Elements(entries[..i]) + {entries[i]};
        groups := groups[entries[i] := group];
      }
      assert entries[..|entries|] == entries;
    }

    method Split(g: Grouping, root: nat, entries: seq<Source>, depth: nat, suffix: string)
      requires g.maxSize >= 1 && Distinct(entries) && g.Separable(Elements(entries))
      requires depth <= DIGEST_BITS && g.Agreed(Elements(entries), depth)
      modifies this
      ensures Fills(old(groups), groups, root, suffix, Tails(g, Elements(entries), depth))
      decreases DIGEST_BITS - depth
    {
      ghost var all := Elements(entries);
      CountDistinct(entries);
      if |entries| <= g.maxSize {
        Assign(entries, Group(root, suffix));
        FillsLeaf(g, old(groups), groups, root, all, depth, suffix);
        return;
      }
      if depth == DIGEST_BITS {
        AgreedFits(g, all);
      }
      SidesPart(g, all, depth);
      var zero, one := Deal(g, entries, depth);
      if zero == [] || one == [] {
        TailsSkip(g, all, depth);
        Split(g, root, entries, depth + 1, suffix);
      } else {
        SplitBoth(g, root, entries, depth, suffix, zero, one);
      }
    }

    method SplitBoth(g: Grouping, root: nat, ghost entries: seq<Source>, depth: nat, suffix: string,
                     zero: seq<Source>, one: seq<Source>)
      requires g.maxSize >= 1 && |Elements(entries)| > g.maxSize && g.Separable(Elements(entries))
      requires depth < DIGEST_BITS && g.Agreed(Elements(entries), depth)
      requires zero != [] && Distinct(zero) && Elements(zero) == g.Side(Elements(entries), depth, 0)
      requires one != [] && Distinct(one) && Elements(one) == g.Side(Elements(entries), depth, 1)
      modifies this
      ensures Fills(old(groups), groups, root, suffix, Tails(g, Elements(entries), depth))
      decreases DIGEST_BITS - depth, 0
    {
      ghost var all := Elements(entries);
      SidesPart(g, all, depth);
      SeparableSubset(g, all, Elements(zero));
      SeparableSubset(g, all, Elements(one));
      assert zero[0] in Elements(zero) && one[0] in Elements(one);
      TailsJoin(g, all, depth, Elements(zero), Elements(one));
      ghost var zeros, ones := Tails(g, Elements(zero), depth + 1), Tails(g, Elements(one), depth + 1);
      Split(g, root, zero, depth + 1, suffix + "0");
      ghost var middle := groups;
      Split(g, root, one, depth + 1, suffix + "1");
      FillsBoth(old(groups), middle, groups, root, suffix, zeros, ones, Tails(g, all, depth));
    }
  }

  // ------------------------------------------------------------------ the whole assignment

  /** The dictionary `roots`, and its keys in order of insertion. */
  ghost predicate Collected(g: Grouping, sources: set<Source>, roots: map<nat, seq<Source>>, order: seq<nat>)
    requires g.rootGroups >= 1
  {
    && (forall r :: r in order <==> r in roots)
    && (forall i, j :: 0 <= i < j < |order| ==> order[i] != order[j])
    && (forall s :: s in sources ==> g.Root(s) in roots)
    && (forall r :: r in roots ==> Distinct(roots[r]) && Elements(roots[r]) == g.Rooted(sources, r))
  }

  method CollectRoots(g: Grouping, sources: seq<Source>) returns (roots: map<nat, seq<Source>>, order: seq<nat>)
    requires g.rootGroups >= 1 && Distinct(sources)
    ensures Collected(g, Elements(sources), roots, order)
  {
    roots, order := map[], [];
    for i := 0 to |sources|
      invariant Collected(g, Elements(sources[..i]), roots, order)
    {
      var s, r := sources[i], g.Root(sources[i]);
      ghost var before, after := Elements(sources[..i]), Elements(sources[..i + 1]);
      assert after == before + {s} && s !in before;
      forall q
        ensures g.Rooted(after, q) == if q == r then g.Rooted(before, q) + {s} else g.Rooted(before, q)
      {
      }
      if r in roots {
        assert Elements(roots[r] + [s]) == Elements(roots[r]) + {s};
        roots := roots[r := roots[r] + [s]];
      } else {
        assert g.Rooted(before, r) == {};
        assert Elements([s]) == {s};
        roots := roots[r := [s]];
        order := order + [r];
      }
    }
    assert sources[..|sources|] == sources;
  }

  /** Exactly the sources of the given roots are assigned, each the group that is its own. */
  ghost predicate Placed(g: Grouping, sources: set<Source>, roots: set<nat>, groups: map<Source, Group>)
    requires g.rootGroups >= 1
  {
    && (forall x :: x in groups <==> x in sources && g.Root(x) in roots)
    && (forall x :: x in groups ==> groups[x] == g.GroupOf(sources, x))
  }

  lemma PlacedNext(
    g: Grouping, sources: set<Source>, roots: set<nat>, root: nat, before: map<Source, Group>,
    after: map<Source, Group>)
    requires g.rootGroups >= 1 && root !in roots && Placed(g, sources, roots, before)
    requires Fills(before, after, root, "", Tails(g, g.Rooted(sources, root), 0))
    ensures Placed(g, sources, roots + {root}, after)
  {
    forall x | x in after
      ensures after[x] == g.GroupOf(sources, x)
    {
      if x in g.Rooted(sources, root) {
        assert "" + g.Tail(g.Rooted(sources, root), x, 0) == g.Tail(g.Rooted(sources, root), x, 0);
      }
    }
  }

  ghost function First(order: seq<nat>, n: nat): set<nat>
    requires n <= |order|
  {
    set i | 0 <= i < n :: order[i]
  }

  /**
   `group_sources`. What it assigns depends on the set of sources alone, not on their order.
   The precondition is the assumption on the hash without which the splitting does not end.
   */
  method GroupSources(g: Grouping, sources: seq<Source>) returns (r: Outcome)
    requires g.Valid() ==> g.SeparableSources(Elements(sources))
    ensures g.maxSize < 1 ==> r == Rejected(GroupSizeNotPositive)
    ensures g.maxSize >= 1 && !Distinct(sources) ==> r == Rejected(DuplicateSource)
    ensures g.maxSize >= 1 && Distinct(sources) && g.rootGroups < 1 ==>
      r == if sources == [] then Assigned(map[]) else Rejected(RootCountNotPositive)
    ensures g.Valid() && Distinct(sources) ==>
      && r.Assigned? && r.groups.Keys == Elements(sources)
      && forall x :: x in sources ==> r.groups[x] == g.GroupOf(Elements(sources), x)
  {
    if g.maxSize < 1 {
      return Rejected(GroupSizeNotPositive);
    }
    CountDistinct(sources);
    var unique := set s | s in sources;
    if |sources| != |unique| {
      return Rejected(DuplicateSource);
    }
    if g.rootGroups < 1 {
      return if sources == [] then Assigned(map[]) else Rejected(RootCountNotPositive);
    }
    ghost var all := Elements(sources);
    var roots, order := CollectRoots(g, sources);
    var splitter := new Splitter();
    for i := 0 to |order|
      invariant Placed(g, all, First(order, i), splitter.groups)
    {
      var root := order[i];
      ghost var before := splitter.groups;
      assert g.Separable(Elements(roots[root]));
      assert g.Agreed(Elements(roots[root]), 0);
      splitter.Split(g, root, roots[root], 0, "");
      PlacedNext(g, all, First(order, i), root, before, splitter.groups);
      assert First(order, i + 1) == First(order, i) + {root};
    }
    assert forall x :: x in all ==> g.Root(x) in First(order, |order|);
    assert splitter.groups.Keys == all;
    return Assigned(splitter.groups);
  }

  // ------------------------------------------------------------------ who shares a group with whom

  /** The lowest bit from `depth` on in which two digests differ, or 256. */
  ghost function LowestDifference(a: nat, b: nat, depth: nat): nat
    decreases DIGEST_BITS - depth
  {
    if depth >= DIGEST_BITS || Bit(a, depth) != Bit(b, depth) then depth else LowestDifference(a, b, depth + 1)
  }

  lemma {:induction false} LowestDifferenceStep(a: nat, b: nat, depth: nat)
    requires SameBelow(a, b, depth) && depth <= DIGEST_BITS
    ensures var low := LowestDifference(a, b, depth);
      && depth <= low <= DIGEST_BITS && SameBelow(a, b, low) && low == LowestDifference(a, b, 0)
      && (low < DIGEST_BITS ==> Bit(a, low) != Bit(b, low))
    decreases DIGEST_BITS - depth
  {
    LowestDifferenceFrom(a, b, depth);
    if depth < DIGEST_BITS && Bit(a, depth) == Bit(b, depth) {
      LowestDifferenceStep(a, b, depth + 1);
    }
  }

  lemma {:induction false} LowestDifferenceFrom(a: nat, b: nat, depth: nat)
    requires SameBelow(a, b, depth) && depth <= DIGEST_BITS
    ensures LowestDifference(a, b, depth) == LowestDifference(a, b, 0)
    decreases depth
  {
    if depth > 0 {
      assert Bit(a, depth - 1) == Bit(b, depth - 1);
      LowestDifferenceFrom(a, b, depth - 1);
    }
  }

  lemma {:induction false} TailBits(g: Grouping, entries: set<Source>, x: Source, depth: nat)
    ensures Bits(g.Tail(entries, x, depth))
    decreases DIGEST_BITS - depth
  {
    if |entries| > g.maxSize && depth < DIGEST_BITS {
      TailBits(g, entries, x, depth + 1);
      TailBits(g, g.Side(entries, depth, 0), x, depth + 1);
      TailBits(g, g.Side(entries, depth, 1), x, depth + 1);
    }
  }

  /** Below the bit that parts them, two entries stay together as long as the crowd around them is too large. */
  lemma {:induction false} TailsAgree(g: Grouping, entries: set<Source>, x: Source, y: Source, depth: nat, low: nat)
    requires g.maxSize >= 1 && g.Separable(entries) && g.Agreed(entries, depth) && x in entries && y in entries
    requires depth <= low <= DIGEST_BITS && g.Alike(x, y, low)
    requires low < DIGEST_BITS ==> Bit(g.Key(x), low) != Bit(g.Key(y), low)
    ensures g.Tail(entries, x, depth) == g.Tail(entries, y, depth) <==> |g.Cell(entries, x, low)| <= g.maxSize
    decreases DIGEST_BITS - depth
  {
    if |entries| <= g.maxSize {
      SubsetSize(g.Cell(entries, x, low), entries);
    } else if depth == DIGEST_BITS {
      AgreedFits(g, entries);
    } else if depth == low {
      PartedHere(g, entries, x, y, depth);
    } else {
      var bit := Bit(g.Key(x), depth);
      var side := g.Side(entries, depth, bit);
      assert Bit(g.Key(y), depth) == bit;
      BitIsBinary(g.Key(x), depth);
      SidesPart(g, entries, depth);
      if g.Side(entries, depth, 0) == {} || g.Side(entries, depth, 1) == {} {
        TailsAgree(g, entries, x, y, depth + 1, low);
      } else {
        SeparableSubset(g, entries, side);
        TailsAgree(g, side, x, y, depth + 1, low);
        SideHoldsCell(g, entries, x, depth, low);
        TailOfSide(g, entries, x, depth);
        TailOfSide(g, entries, y, depth);
        if g.Tail(entries, x, depth) == g.Tail(entries, y, depth) {
          SameHeadSameTail(g.Tail(entries, x, depth), bit, g.Tail(side, x, depth + 1), bit, g.Tail(side, y, depth + 1));
        }
      }
    }
  }

  lemma TailOfSide(g: Grouping, entries: set<Source>, x: Source, depth: nat)
    requires |entries| > g.maxSize && depth < DIGEST_BITS && x in entries
    requires g.Side(entries, depth, 0) != {} && g.Side(entries, depth, 1) != {}
    ensures var bit := Bit(g.Key(x), depth);
      g.Tail(entries, x, depth) == (if bit == 1 then "1" else "0") + g.Tail(g.Side(entries, depth, bit), x, depth + 1)
  {
    BitIsBinary(g.Key(x), depth);
  }

  lemma SideHoldsCell(g: Grouping, entries: set<Source>, x: Source, depth: nat, low: nat)
    requires depth < low
    ensures g.Cell(g.Side(entries, depth, Bit(g.Key(x), depth)), x, low) == g.Cell(entries, x, low)
  {
  }

  lemma PartedHere(g: Grouping, entries: set<Source>, x: Source, y: Source, depth: nat)
    requires |entries| > g.maxSize && g.Agreed(entries, depth) && x in entries && y in entries && depth < DIGEST_BITS
    requires Bit(g.Key(x), depth) != Bit(g.Key(y), depth)
    ensures g.Tail(entries, x, depth) != g.Tail(entries, y, depth) && g.Cell(entries, x, depth) == entries
  {
    forall s | s in entries
      ensures g.Alike(s, x, depth)
    {
    }
    BitIsBinary(g.Key(x), depth);
    BitIsBinary(g.Key(y), depth);
    assert x in g.Side(entries, depth, Bit(g.Key(x), depth)) && y in g.Side(entries, depth, Bit(g.Key(y), depth));
    TailOfSide(g, entries, x, depth);
    TailOfSide(g, entries, y, depth);
    if g.Tail(entries, x, depth) == g.Tail(entries, y, depth) {
      var b, c := Bit(g.Key(x), depth), Bit(g.Key(y), depth);
      SameHeadSameTail(g.Tail(entries, x, depth), b, g.Tail(g.Side(entries, depth, b), x, depth + 1),
                       c, g.Tail(g.Side(entries, depth, c), y, depth + 1));
    }
  }

  /**
   Bit `depth` divides the entries around `x`: too many for a group agree with it below, and one of
   them differs from it there.
   */
  ghost predicate Divides(g: Grouping, entries: set<Source>, x: Source, depth: nat) {
    && |g.Cell(entries, x, depth)| > g.maxSize
    && exists y :: y in g.Cell(entries, x, depth) && Bit(g.Key(y), depth) != Bit(g.Key(x), depth)
  }

  /** The bits of `x` at the dividing depths, from `depth` on, in order. */
  ghost function DividingBits(g: Grouping, entries: set<Source>, x: Source, depth: nat): string
    decreases DIGEST_BITS - depth
  {
    if depth >= DIGEST_BITS then "" else
    (if Divides(g, entries, x, depth) then (if (g.Key(x) / Power2(depth)) % 2 == 1 then "1" else "0") else "")
    + DividingBits(g, entries, x, depth + 1)
  }

  lemma {:induction false} NothingDivides(g: Grouping, entries: set<Source>, x: Source, depth: nat)
    requires |g.Cell(entries, x, depth)| <= g.maxSize
    ensures DividingBits(g, entries, x, depth) == ""
    decreases DIGEST_BITS - depth
  {
    if depth < DIGEST_BITS {
      SubsetSize(g.Cell(entries, x, depth + 1), g.Cell(entries, x, depth));
      NothingDivides(g, entries, x, depth + 1);
    }
  }

  lemma CellNext(g: Grouping, entries: set<Source>, x: Source, depth: nat)
    ensures g.Cell(entries, x, depth + 1) == g.Side(g.Cell(entries, x, depth), depth, Bit(g.Key(x), depth))
  {
  }

  /** The suffix of a source consists of its own digest bits at the depths that divide the entries around it. */
  lemma {:induction false} TailIsDividingBits(g: Grouping, entries: set<Source>, x: Source, depth: nat)
    requires x in entries
    ensures g.Tail(g.Cell(entries, x, depth), x, depth) == DividingBits(g, entries, x, depth)
    decreases DIGEST_BITS - depth
  {
    var cell := g.Cell(entries, x, depth);
    if |cell| <= g.maxSize {
      NothingDivides(g, entries, x, depth);
    } else if depth < DIGEST_BITS {
      var bit := Bit(g.Key(x), depth);
      BitIsBinary(g.Key(x), depth);
      BitIsShift(g.Key(x), depth);
      CellNext(g, entries, x, depth);
      TailIsDividingBits(g, entries, x, depth + 1);
      assert x in g.Side(cell, depth, bit);
      if g.Side(cell, depth, 1 - bit) == {} {
        forall y | y in cell
          ensures Bit(g.Key(y), depth) == bit
        {
          BitIsBinary(g.Key(y), depth);
          assert y !in g.Side(cell, depth, 1 - bit);
        }
        assert g.Side(cell, depth, bit) == cell;
      } else {
        var y :| y in g.Side(cell, depth, 1 - bit);
        assert Divides(g, entries, x, depth);
      }
    }
  }

  lemma SuffixIsDividingBits(g: Grouping, sources: set<Source>, x: Source)
    requires g.rootGroups >= 1 && x in sources
    ensures g.GroupOf(sources, x).suffix == DividingBits(g, g.Rooted(sources, g.Root(x)), x, 0)
  {
    var entries := g.Rooted(sources, g.Root(x));
    assert g.Cell(entries, x, 0) == entries;
    TailIsDividingBits(g, entries, x, 0);
  }

  /** How crowded it is around `x` on the bits it shares with `y`. */
  ghost function Crowd(g: Grouping, sources: set<Source>, x: Source, y: Source): set<Source>
    requires g.rootGroups >= 1
  {
    g.Cell(g.Rooted(sources, g.Root(x)), x, LowestDifference(g.Key(x), g.Key(y), 0))
  }

  /**
   Two sources are given the same group name exactly when they have the same root and at most a
   group's worth of that root's sources agree with them on every digest bit below the lowest one in
   which they differ.
   */
  lemma SharesGroupIffCrowdFits(g: Grouping, sources: set<Source>, x: Source, y: Source)
    requires g.Valid() && g.SeparableSources(sources) && x in sources && y in sources
    ensures g.GroupOf(sources, x).Name() == g.GroupOf(sources, y).Name() <==>
      g.Root(x) == g.Root(y) && |Crowd(g, sources, x, y)| <= g.maxSize
  {
    var entries := g.Rooted(sources, g.Root(x));
    TailBits(g, entries, x, 0);
    TailBits(g, g.Rooted(sources, g.Root(y)), y, 0);
    if g.GroupOf(sources, x).Name() == g.GroupOf(sources, y).Name() {
      NamesDiffer(g.GroupOf(sources, x), g.GroupOf(sources, y));
    }
    if g.Root(x) == g.Root(y) {
      LowestDifferenceStep(g.Key(x), g.Key(y), 0);
      TailsAgree(g, entries, x, y, 0, LowestDifference(g.Key(x), g.Key(y), 0));
    }
  }

  /** Adding a source never merges two groups. */
  lemma AddingNeverMerges(g: Grouping, sources: set<Source>, more: set<Source>, x: Source, y: Source)
    requires g.Valid() && sources <= more && g.SeparableSources(sources) && g.SeparableSources(more)
    requires x in sources && y in sources
    requires g.GroupOf(more, x).Name() == g.GroupOf(more, y).Name()
    ensures g.GroupOf(sources, x).Name() == g.GroupOf(sources, y).Name()
  {
    SharesGroupIffCrowdFits(g, sources, x, y);
    SharesGroupIffCrowdFits(g, more, x, y);
    SubsetSize(Crowd(g, sources, x, y), Crowd(g, more, x, y));
  }

  /** Sources of other roots leave the exact name of a source alone. */
  lemma OtherRootsKeepNames(g: Grouping, sources: set<Source>, more: set<Source>, x: Source)
    requires g.Valid() && sources <= more && forall s :: s in more - sources ==> g.Root(s) != g.Root(x)
    ensures g.GroupOf(more, x) == g.GroupOf(sources, x)
  {
    assert g.Rooted(more, g.Root(x)) == g.Rooted(sources, g.Root(x));
  }

  /** The sources that are given the very name of `x`. */
  ghost function Companions(g: Grouping, sources: set<Source>, x: Source): set<Source>
    requires g.rootGroups >= 1
  {
    set y | y in sources && g.GroupOf(sources, y).Name() == g.GroupOf(sources, x).Name()
  }

  /** The entries with the suffix of `x`. */
  ghost function Leaf(g: Grouping, entries: set<Source>, x: Source, depth: nat): set<Source> {
    set y | y in entries && g.Tail(entries, y, depth) == g.Tail(entries, x, depth)
  }

  /** The entries with the suffix of `x` fit into one group. */
  lemma {:induction false} LeafFits(g: Grouping, entries: set<Source>, x: Source, depth: nat)
    requires g.maxSize >= 1 && g.Separable(entries) && g.Agreed(entries, depth) && x in entries && depth <= DIGEST_BITS
    ensures |Leaf(g, entries, x, depth)| <= g.maxSize
    decreases DIGEST_BITS - depth
  {
    if |entries| <= g.maxSize {
      SubsetSize(Leaf(g, entries, x, depth), entries);
    } else if depth == DIGEST_BITS {
      AgreedFits(g, entries);
    } else {
      SidesPart(g, entries, depth);
      if g.Side(entries, depth, 0) == {} || g.Side(entries, depth, 1) == {} {
        LeafFits(g, entries, x, depth + 1);
        assert Leaf(g, entries, x, depth) == Leaf(g, entries, x, depth + 1);
      } else {
        LeafInSide(g, entries, x, depth);
      }
    }
  }

  lemma {:induction false} LeafInSide(g: Grouping, entries: set<Source>, x: Source, depth: nat)
    requires g.maxSize >= 1 && g.Separable(entries) && g.Agreed(entries, depth) && x in entries && depth < DIGEST_BITS
    requires |entries| > g.maxSize && g.Side(entries, depth, 0) != {} && g.Side(entries, depth, 1) != {}
    ensures |Leaf(g, entries, x, depth)| <= g.maxSize
    decreases DIGEST_BITS - depth, 0
  {
    var bit := Bit(g.Key(x), depth);
    var side := g.Side(entries, depth, bit);
    SidesPart(g, entries, depth);
    BitIsBinary(g.Key(x), depth);
    SeparableSubset(g, entries, side);
    TailOfSide(g, entries, x, depth);
    forall y | y in Leaf(g, entries, x, depth)
      ensures y in Leaf(g, side, x, depth + 1)
    {
      TailOfSide(g, entries, y, depth);
      BitIsBinary(g.Key(y), depth);
      SameHeadSameTail(g.Tail(entries, x, depth), Bit(g.Key(x), depth), g.Tail(side, x, depth + 1),
                       Bit(g.Key(y), depth), g.Tail(g.Side(entries, depth, Bit(g.Key(y), depth)), y, depth + 1));
    }
    LeafFits(g, side, x, depth + 1);
    SubsetSize(Leaf(g, entries, x, depth), Leaf(g, side, x, depth + 1));
  }

  lemma SameHeadSameTail(whole: string, b: nat, s: string, c: nat, t: string)
    requires b < 2 && c < 2
    requires whole == (if b == 1 then "1" else "0") + s && whole == (if c == 1 then "1" else "0") + t
    ensures b == c && s == t
  {
    assert whole[0] == (if b == 1 then '1' else '0') && whole[0] == (if c == 1 then '1' else '0');
    assert whole[1..] == s && whole[1..] == t;
  }

  /** No group name is given to more sources than the limit allows. */
  lemma GroupsAreBounded(g: Grouping, sources: set<Source>, x: Source)
    requires g.Valid() && g.SeparableSources(sources) && x in sources
    ensures |Companions(g, sources, x)| <= g.maxSize
  {
    var entries := g.Rooted(sources, g.Root(x));
    TailBits(g, entries, x, 0);
    LeafFits(g, entries, x, 0);
    forall y | y in Companions(g, sources, x)
      ensures y in Leaf(g, entries, x, 0)
    {
      TailBits(g, g.Rooted(sources, g.Root(y)), y, 0);
      NamesDiffer(g.GroupOf(sources, y), g.GroupOf(sources, x));
    }
    SubsetSize(Companions(g, sources, x), Leaf(g, entries, x, 0));
  }
}
