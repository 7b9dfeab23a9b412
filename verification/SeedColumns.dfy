/**
 `seed_demo.matched`: pairing the columns of the demo database with the columns of the transpiled
 schema, by what SQL Server would have called them.
 */
module SeedColumns {
  import opened Outcomes
  import opened Sequences

  datatype Name = Name(text: string)

  predicate Unsafe(c: char) {
    c in {'.', '/', '\\', '"', '\'', '%', '[', ']', ':'}
  }

  /** `folded`: every character SQL Server will not take becomes an underscore. */
  function Folded(n: Name): Name {
    Name(seq(|n.text|, i requires 0 <= i < |n.text| => if Unsafe(n.text[i]) then '_' else n.text[i]))
  }

  const UNSAFE: string := "./\\\"'%[]:"

  /** `str.replace` of one character by an underscore. */
  function Underscored(text: string, c: char): (r: string)
    ensures |r| == |text|
    ensures forall i :: 0 <= i < |r| ==> r[i] == if text[i] == c then '_' else text[i]
  {
    seq(|text|, i requires 0 <= i < |text| => if text[i] == c then '_' else text[i])
  }

  /** `folded`: its nine replacements, one behind the other. */
  method Fold(n: Name) returns (r: Name)
    ensures r == Folded(n)
  {
    var text := n.text;
    for k := 0 to |UNSAFE|
      invariant |text| == |n.text|
      invariant forall i :: 0 <= i < |text| ==> text[i] == if n.text[i] in UNSAFE[..k] then '_' else n.text[i]
    {
      assert UNSAFE[..k + 1] == UNSAFE[..k] + [UNSAFE[k]];
      assert '_' !in UNSAFE[..k + 1];
      text := Underscored(text, UNSAFE[k]);
    }
    assert UNSAFE[..|UNSAFE|] == UNSAFE;
    UnsafeAre();
    r := Name(text);
  }

  lemma UnsafeAre()
    ensures forall c :: Unsafe(c) <==> c in UNSAFE
  {
    var u := UNSAFE;
    assert u[0] == '.' && u[1] == '/' && u[2] == '\\' && u[3] == '"' && u[4] == '\'' && u[5] == '%' && u[6] == '['
        && u[7] == ']' && u[8] == ':';
    forall c | Unsafe(c)
      ensures c in u
    {
    }
  }

  /** A dictionary from lower-case names to system fields. */
  type Fields = map<string, Name>

  const SYSTEM: Fields := map[
    "$systemid" := Name("SystemId"), "$systemcreatedat" := Name("SystemCreatedAt"),
    "$systemcreatedby" := Name("SystemCreatedBy"), "$systemmodifiedat" := Name("SystemModifiedAt"),
    "$systemmodifiedby" := Name("SystemModifiedBy")]

  function SystemField(system: Fields, n: Name): Option<Name> {
    var lower := Lower(n.text);
    if lower in system then Some(system[lower]) else None
  }

  /** Two of our columns fold to `key`. */
  predicate Ambiguous(ours: seq<Name>, key: Name) {
    exists i, j :: 0 <= i < j < |ours| && Folded(ours[i]) == key && Folded(ours[j]) == key
  }

  /** Their column `n` means `target`: by the system table, or else by the fold. */
  predicate Denotes(system: Fields, n: Name, target: Name) {
    match SystemField(system, n)
    case Some(field) => target == field
    case None => Folded(target) == n
  }

  /** `n` is paired with our column `target`: it means it, and nothing else of ours folds alike. */
  predicate Partner(system: Fields, ours: seq<Name>, n: Name, target: Name) {
    target in ours && !Ambiguous(ours, Folded(target)) && Denotes(system, n, target)
  }

  lemma PartnerUnique(system: Fields, ours: seq<Name>, n: Name, s: Name, t: Name)
    requires Partner(system, ours, n, s) && Partner(system, ours, n, t)
    ensures s == t
  {
    var i :| 0 <= i < |ours| && ours[i] == s;
    var j :| 0 <= j < |ours| && ours[j] == t;
    assert SystemField(system, n).None? ==> Folded(ours[i]) == n && Folded(ours[j]) == n;
  }

  datatype Pair = Pair(theirs: Name, ours: Name)

  /** The first loop: our columns by fold, and the folds that are not one-to-one. */
  method FoldOurs(ours: seq<Name>) returns (byFold: map<Name, Name>, ambiguous: set<Name>)
    ensures forall key :: key in byFold ==> byFold[key] in ours && Folded(byFold[key]) == key
    ensures forall i :: 0 <= i < |ours| ==> Folded(ours[i]) in byFold
    ensures forall key :: key in ambiguous <==> Ambiguous(ours, key)
  {
    byFold, ambiguous := map[], {};
    for n := 0 to |ours|
      invariant forall key :: key in byFold ==> byFold[key] in ours && Folded(byFold[key]) == key
      invariant forall key :: key in byFold <==> exists i :: 0 <= i < n && Folded(ours[i]) == key
      invariant forall key :: key in ambiguous <==> Ambiguous(ours[..n], key)
    {
      var key := Folded(ours[n]);
      AmbiguousNext(ours, n);
      if key in byFold {
        ambiguous := ambiguous + {key};
      }
      byFold := byFold[key := ours[n]];
    }
    assert ours[..|ours|] == ours;
  }

  lemma AmbiguousNext(ours: seq<Name>, n: nat)
    requires n < |ours|
    ensures forall key :: Ambiguous(ours[..n + 1], key) <==>
      Ambiguous(ours[..n], key) || (key == Folded(ours[n]) && exists i :: 0 <= i < n && Folded(ours[i]) == key)
  {
    var before, after := ours[..n], ours[..n + 1];
    forall key
      ensures Ambiguous(after, key) <==>
        Ambiguous(before, key) || (key == Folded(ours[n]) && exists i :: 0 <= i < n && Folded(ours[i]) == key)
    {
      if Ambiguous(before, key) {
        var i, j :| 0 <= i < j < |before| && Folded(before[i]) == key && Folded(before[j]) == key;
        assert Folded(after[i]) == key && Folded(after[j]) == key;
      }
      if Ambiguous(after, key) {
        var i, j :| 0 <= i < j < |after| && Folded(after[i]) == key && Folded(after[j]) == key;
        if j < n {
          assert Folded(before[i]) == key && Folded(before[j]) == key;
        }
      }
      if i :| key == Folded(ours[n]) && 0 <= i < n && Folded(ours[i]) == key {
        assert Folded(after[i]) == key && Folded(after[n]) == key;
      }
    }
  }

  /** Each of their columns that has a partner is paired with it, once, and no other is paired. */
  ghost predicate Matches(system: Fields, theirs: seq<Name>, ours: seq<Name>, pairs: seq<Pair>) {
    && (forall k :: 0 <= k < |pairs| ==>
          pairs[k].theirs in theirs && Partner(system, ours, pairs[k].theirs, pairs[k].ours))
    && (forall n, t :: n in theirs && Partner(system, ours, n, t) ==> Pair(n, t) in pairs)
    && (forall j, k :: 0 <= j < k < |pairs| ==> pairs[j].theirs != pairs[k].theirs)
  }

  method Match(system: Fields, theirs: seq<Name>, ours: seq<Name>) returns (pairs: seq<Pair>)
    requires Distinct(theirs)
    ensures Matches(system, theirs, ours, pairs)
  {
    var byFold, ambiguous := FoldOurs(ours);
    pairs := [];
    for n := 0 to |theirs|
      invariant Matches(system, theirs[..n], ours, pairs)
    {
      var name := theirs[n];
      assert theirs[..n + 1] == theirs[..n] + [name];
      assert name !in theirs[..n];
      var found := SystemField(system, name);
      if found.None? {
        found := if name in byFold then Some(byFold[name]) else None;
      }
      FoundIsPartner(system, ours, byFold, ambiguous, name, found);
      if found.None? || Folded(found.value) in ambiguous || found.value !in ours {
        continue;
      }
      pairs := pairs + [Pair(name, found.value)];
    }
    assert theirs[..|theirs|] == theirs;
  }

  lemma FoundIsPartner(
    system: Fields, ours: seq<Name>, byFold: map<Name, Name>, ambiguous: set<Name>, name: Name, found: Option<Name>)
    requires forall key :: key in byFold ==> byFold[key] in ours && Folded(byFold[key]) == key
    requires forall i :: 0 <= i < |ours| ==> Folded(ours[i]) in byFold
    requires forall key :: key in ambiguous <==> Ambiguous(ours, key)
    requires found == if SystemField(system, name).Some? then SystemField(system, name)
                      else if name in byFold then Some(byFold[name]) else None
    ensures forall t :: Partner(system, ours, name, t) <==>
      found == Some(t) && Folded(t) !in ambiguous && t in ours
  {
    forall t | Partner(system, ours, name, t)
      ensures found == Some(t)
    {
      if SystemField(system, name).None? {
        var i :| 0 <= i < |ours| && ours[i] == t;
        assert Folded(ours[i]) == name;
        PartnerUnique(system, ours, name, t, byFold[name]);
      }
    }
  }

  // ------------------------------------------------------------------ one-to-one, and the accounts

  function TheirSide(pairs: seq<Pair>): seq<Name> {
    seq(|pairs|, k requires 0 <= k < |pairs| => pairs[k].theirs)
  }

  function OurSide(pairs: seq<Pair>): seq<Name> {
    seq(|pairs|, k requires 0 <= k < |pairs| => pairs[k].ours)
  }

  /** Two different columns of theirs mean the same system field, and it can be paired. */
  predicate Clash(system: Fields, theirs: seq<Name>, ours: seq<Name>, n: Name, m: Name, field: Name) {
    && n in theirs && m in theirs && n != m && SystemField(system, n) == Some(field)
    && Partner(system, ours, n, field) && Partner(system, ours, m, field)
  }

  ghost predicate DenotedTwice(system: Fields, theirs: seq<Name>, ours: seq<Name>) {
    exists n, m, field :: Clash(system, theirs, ours, n, m, field)
  }

  lemma ClashIsNotOneToOne(
    system: Fields, theirs: seq<Name>, ours: seq<Name>, pairs: seq<Pair>, n: Name, m: Name, field: Name)
    requires Matches(system, theirs, ours, pairs) && Clash(system, theirs, ours, n, m, field)
    ensures !Distinct(OurSide(pairs))
  {
    var j :| 0 <= j < |pairs| && pairs[j] == Pair(n, field);
    var k :| 0 <= k < |pairs| && pairs[k] == Pair(m, field);
    assert OurSide(pairs)[j] == OurSide(pairs)[k] && j != k;
  }

  lemma SharedTargetClashes(system: Fields, theirs: seq<Name>, ours: seq<Name>, pairs: seq<Pair>, j: nat, k: nat)
    requires Matches(system, theirs, ours, pairs) && j < k < |pairs| && pairs[j].ours == pairs[k].ours
    ensures DenotedTwice(system, theirs, ours)
  {
    var n, m, target := pairs[j].theirs, pairs[k].theirs, pairs[j].ours;
    SharedTargetIsSystem(system, n, m, target);
    assert Clash(system, theirs, ours, n, m, target) || Clash(system, theirs, ours, m, n, target);
  }

  /**
   The pairing is always one-to-one on their side, and on ours exactly when no two columns of theirs
   mean the same system field of ours -- `$systemId` beside `SystemId`, or in two capitalisations.
   */
  lemma OneToOneIffNotDenotedTwice(system: Fields, theirs: seq<Name>, ours: seq<Name>, pairs: seq<Pair>)
    requires Matches(system, theirs, ours, pairs)
    ensures Distinct(TheirSide(pairs))
    ensures Distinct(OurSide(pairs)) <==> !DenotedTwice(system, theirs, ours)
  {
    if DenotedTwice(system, theirs, ours) {
      var n, m, field :| Clash(system, theirs, ours, n, m, field);
      ClashIsNotOneToOne(system, theirs, ours, pairs, n, m, field);
    }
    if !Distinct(OurSide(pairs)) {
      var j, k :| 0 <= j < k < |pairs| && OurSide(pairs)[j] == OurSide(pairs)[k];
      SharedTargetClashes(system, theirs, ours, pairs, j, k);
    }
  }

  /** Only through the system table can two columns mean the same one. */
  lemma SharedTargetIsSystem(system: Fields, n: Name, m: Name, target: Name)
    requires n != m && Denotes(system, n, target) && Denotes(system, m, target)
    ensures SystemField(system, n) == Some(target) || SystemField(system, m) == Some(target)
  {
  }

  /**
   The accounts of the table loop: `dropped` always is the number of columns listed as unmatched on
   their side; `defaulted` is the number listed on our side exactly when the pairing is one-to-one there.
   */
  lemma CountsAgreeWithLists(system: Fields, theirs: seq<Name>, ours: seq<Name>, pairs: seq<Pair>)
    requires Distinct(theirs) && Distinct(ours) && Matches(system, theirs, ours, pairs)
    ensures |theirs| - |pairs| == |Left(theirs, Elements(TheirSide(pairs)))|
    ensures |ours| - |pairs| == |Left(ours, Elements(OurSide(pairs)))| <==> !DenotedTwice(system, theirs, ours)
  {
    OneToOneIffNotDenotedTwice(system, theirs, ours, pairs);
    CountDistinct(TheirSide(pairs));
    CountDistinct(OurSide(pairs));
    LeftCount(theirs, Elements(TheirSide(pairs)));
    LeftCount(ours, Elements(OurSide(pairs)));
  }

  predicate Entry(key: string, field: string) {
    key == "$" + Lower(field) && key in SYSTEM && SYSTEM[key] == Name(field)
  }

  lemma EntryId()
    ensures Entry("$systemid", "SystemId")
  {
    LowerIs("SystemId", "systemid");
  }

  lemma EntryCreatedAt()
    ensures Entry("$systemcreatedat", "SystemCreatedAt")
  {
    LowerIs("SystemCreatedAt", "systemcreatedat");
  }

  lemma EntryCreatedBy()
    ensures Entry("$systemcreatedby", "SystemCreatedBy")
  {
    LowerIs("SystemCreatedBy", "systemcreatedby");
  }

  lemma EntryModifiedAt()
    ensures Entry("$systemmodifiedat", "SystemModifiedAt")
  {
    LowerIs("SystemModifiedAt", "systemmodifiedat");
  }

  lemma EntryModifiedBy()
    ensures Entry("$systemmodifiedby", "SystemModifiedBy")
  {
    LowerIs("SystemModifiedBy", "systemmodifiedby");
  }

  /** Every key of the table is the lower-case name of its field behind a dollar sign. */
  lemma SystemTable(key: string)
    requires key in SYSTEM
    ensures Entry(key, SYSTEM[key].text)
  {
    EntryId();
    EntryCreatedAt();
    EntryCreatedBy();
    EntryModifiedAt();
    EntryModifiedBy();
  }

  /** The lower-case letters of the alphabet stand in the order of the upper-case ones. */
  predicate SameLetter(upper: char, lower: char) {
    if 'A' <= upper <= 'Z' then lower as int == upper as int + 32 else lower == upper
  }

  lemma LowerIs(text: string, lower: string)
    requires |text| == |lower| && forall i :: 0 <= i < |text| ==> SameLetter(text[i], lower[i])
    ensures Lower(text) == lower
  {
  }

  lemma LowerSystemId()
    ensures Lower("$systemId") == "$systemid" && Lower("SystemId")[0] == 's'
  {
    var lower := Lower("$systemId");
    assert lower[7] == 'i';
    assert forall i :: 0 <= i < 9 && i != 7 ==> lower[i] == "$systemId"[i];
  }

  /** It does happen: the stored spelling of a system field beside its AL name. */
  lemma SystemFieldTwice()
    ensures DenotedTwice(SYSTEM, [Name("$systemId"), Name("SystemId")], [Name("SystemId")])
  {
    var n, m := Name("$systemId"), Name("SystemId");
    LowerSystemId();
    assert SystemField(SYSTEM, n) == Some(m);
    assert Lower(m.text) !in SYSTEM by {
      assert forall key :: key in SYSTEM ==> key[0] == '$';
    }
    assert Folded(m).text == m.text;
    var theirs, ours := [n, m], [m];
    assert theirs[0] == n && theirs[1] == m && ours[0] == m;
    assert n in theirs && m in theirs && m in ours && !Ambiguous(ours, Folded(m)) && Denotes(SYSTEM, m, m);
    assert Clash(SYSTEM, theirs, ours, n, m, m);
  }
}
