/**
 The static field tables: `include/meta/SystemFields.h`, `WithImplicitFields` in
 `include/meta/Declare.h`, and the binary search of `include/meta/TableDef.h` that trusts the order
 of what the builder produces.
 */
module FieldTables {
  import opened Outcomes

  datatype Profile = Runtime17 | Runtime18

  datatype TableType = Normal | CRM | CDS | ExternalSQL | Exchange | MicrosoftGraph | Temporary

  datatype Role = Timestamp | Identity | Audit | AuditLookup

  datatype FieldType = Guid | DateTime | BigInteger | Text | Other

  datatype FieldClass = NormalField | FlowField

  /** `CalcFormula` of a lookup: which column of the user table, found through which audit field. */
  datatype Formula = NoFormula | UserLookup(column: nat, owner: int)

  datatype Name =
    | SystemRowVersion | SystemId | SystemCreatedAt | SystemCreatedBy | SystemModifiedAt | SystemModifiedBy
    | SystemCreatedByUserName | SystemCreatedByFullName | SystemModifiedByUserName | SystemModifiedByFullName
    | Source(text: string)

  /** `SystemFieldDecl`, without the reflection names. */
  datatype SystemField = SystemField(no: int, name: Name, kind: FieldType, role: Role, length: nat, formula: Formula)

  /** What the record declares for one member: its value type, text capacity and offset. */
  datatype Storage = Storage(kind: FieldType, length: nat, offset: nat)

  /** The record's members, by field number. One it lacks has a type no canonical field has. */
  datatype Record = Record(members: map<int, Storage>) {
    function Member(no: int): Storage {
      if no in members then members[no] else Storage(Other, 0, 0)
    }
  }

  datatype FieldDef = FieldDef(
    no: int, name: Name, storage: Storage, fieldClass: FieldClass, formula: Formula, editable: bool, sqlTimestamp: bool)

  datatype Fault = BadSourceFields | StorageMismatch | UnknownIdentity

  datatype Built<+T> = Ready(value: T) | Fails(fault: Fault) {
    predicate IsFailure() {
      Fails?
    }

    function PropagateFailure<U>(): Built<U>
      requires Fails?
    {
      Fails(fault)
    }

    function Extract(): T
      requires Ready?
    {
      value
    }
  }

  const FLOOR: int := 2000000000

  const CANONICAL: seq<SystemField> := [
    SystemField(0, SystemRowVersion, BigInteger, Timestamp, 0, NoFormula),
    SystemField(FLOOR, SystemId, Guid, Identity, 0, NoFormula),
    SystemField(FLOOR + 1, SystemCreatedAt, DateTime, Audit, 0, NoFormula),
    SystemField(FLOOR + 2, SystemCreatedBy, Guid, Audit, 0, NoFormula),
    SystemField(FLOOR + 3, SystemModifiedAt, DateTime, Audit, 0, NoFormula),
    SystemField(FLOOR + 4, SystemModifiedBy, Guid, Audit, 0, NoFormula),
    SystemField(FLOOR + 5, SystemCreatedByUserName, Text, AuditLookup, 50, UserLookup(2, FLOOR + 2)),
    SystemField(FLOOR + 6, SystemCreatedByFullName, Text, AuditLookup, 80, UserLookup(3, FLOOR + 2)),
    SystemField(FLOOR + 7, SystemModifiedByUserName, Text, AuditLookup, 50, UserLookup(2, FLOOR + 4)),
    SystemField(FLOOR + 8, SystemModifiedByFullName, Text, AuditLookup, 80, UserLookup(3, FLOOR + 4))
  ]

  predicate CarriesAudit(table: TableType, linked: bool) {
    !linked && (table == Normal || table == Temporary)
  }

  /** `IncludesSystemField`. */
  predicate Includes(field: SystemField, profile: Profile, table: TableType, linked: bool) {
    field.role == Timestamp || field.role == Identity ||
    (CarriesAudit(table, linked) && (field.role == Audit || profile == Runtime18))
  }

  /** The declarations a table of this kind carries, in canonical order. */
  function Selected(fields: seq<SystemField>, profile: Profile, table: TableType, linked: bool): seq<SystemField> {
    if fields == [] then [] else
    var last := fields[|fields| - 1];
    Selected(fields[..|fields| - 1], profile, table, linked) +
    if Includes(last, profile, table, linked) then [last] else []
  }

  /** `ImplicitFieldCount`: the accumulating loop. */
  method ImplicitFieldCount(profile: Profile, table: TableType, linked: bool) returns (count: nat)
    ensures count == |Selected(CANONICAL, profile, table, linked)|
    ensures count == if linked || (table != Normal && table != Temporary) then 2
                     else if profile == Runtime17 then 6 else 10
  {
    count := 0;
    assert CANONICAL[..0] == [];
    for i := 0 to |CANONICAL|
      invariant count == |Selected(CANONICAL[..i], profile, table, linked)|
    {
      assert CANONICAL[..i + 1][..i] == CANONICAL[..i];
      count := count + if Includes(CANONICAL[i], profile, table, linked) then 1 else 0;
    }
    assert CANONICAL[..|CANONICAL|] == CANONICAL;
    SelectedIsPrefix(profile, table, linked);
  }

  /** How many of the canonical declarations the written-out builder places. */
  function Slots(profile: Profile, table: TableType, linked: bool): (n: nat)
    ensures 2 <= n <= |CANONICAL|
  {
    if !CarriesAudit(table, linked) then 2 else if profile == Runtime18 then 10 else 6
  }

  lemma IncludedBelowSlots(k: nat, profile: Profile, table: TableType, linked: bool)
    requires k < |CANONICAL|
    ensures Includes(CANONICAL[k], profile, table, linked) <==> k < Slots(profile, table, linked)
  {
    assert CANONICAL[k].role ==
           if k == 0 then Timestamp else if k == 1 then Identity else if k < 6 then Audit else AuditLookup;
  }

  lemma {:induction false} SelectedPrefix(
    fields: seq<SystemField>, n: nat, profile: Profile, table: TableType, linked: bool)
    requires n <= |fields|
    requires forall k :: 0 <= k < |fields| ==> (Includes(fields[k], profile, table, linked) <==> k < n)
    ensures Selected(fields, profile, table, linked) == fields[..n]
  {
    if |fields| > 0 {
      var rest := fields[..|fields| - 1];
      SelectedPrefix(rest, if n < |fields| then n else n - 1, profile, table, linked);
    }
  }

  /** The filter of `IncludesSystemField` always cuts the canonical list at one place. */
  lemma SelectedIsPrefix(profile: Profile, table: TableType, linked: bool)
    ensures Selected(CANONICAL, profile, table, linked) == CANONICAL[..Slots(profile, table, linked)]
  {
    forall k | 0 <= k < |CANONICAL|
      ensures Includes(CANONICAL[k], profile, table, linked) <==> k < Slots(profile, table, linked)
    {
      IncludedBelowSlots(k, profile, table, linked);
    }
    SelectedPrefix(CANONICAL, Slots(profile, table, linked), profile, table, linked);
  }

  /** A record member fits a canonical declaration. */
  predicate Fits(field: SystemField, member: Storage) {
    member.kind == field.kind && member.length == field.length
  }

  /** The metadata of one implicit field: lookups are FlowFields, and only identity and audit fields are editable. */
  function Bound(field: SystemField, member: Storage): FieldDef {
    FieldDef(field.no, field.name, member, if field.role == AuditLookup then FlowField else NormalField,
             field.formula, field.role == Identity || field.role == Audit, field.role == Timestamp)
  }

  /**
   What the fields are, by their numbers: the row version 0 alone is a timestamp; the identity and the
   audit fields are editable; the last four are lookups in the user table, by the creating and the
   modifying user.
   */
  lemma ImplicitPolicies(k: nat, member: Storage)
    requires k < |CANONICAL|
    ensures var f := Bound(CANONICAL[k], member);
      && f.storage == member && f.no == (if k == 0 then 0 else 2000000000 + k - 1)
      && (f.sqlTimestamp <==> f.no == 0)
      && (f.editable <==> 2000000000 <= f.no <= 2000000004)
      && (f.fieldClass == FlowField <==> f.no >= 2000000005)
      && f.formula == (if f.no == 2000000005 then UserLookup(2, 2000000002)
                       else if f.no == 2000000006 then UserLookup(3, 2000000002)
                       else if f.no == 2000000007 then UserLookup(2, 2000000004)
                       else if f.no == 2000000008 then UserLookup(3, 2000000004)
                       else NoFormula)
  {
  }

  /** `detail::ImplicitField`: the first canonical declaration with this number, bound to the member. */
  method ImplicitField(no: int, member: Storage) returns (r: Built<FieldDef>)
    ensures forall k :: 0 <= k < |CANONICAL| && CANONICAL[k].no == no ==>
              r == if Fits(CANONICAL[k], member) then Ready(Bound(CANONICAL[k], member)) else Fails(StorageMismatch)
    ensures r == Fails(UnknownIdentity) <==> forall k :: 0 <= k < |CANONICAL| ==> CANONICAL[k].no != no
  {
    for i := 0 to |CANONICAL|
      invariant forall k :: 0 <= k < i ==> CANONICAL[k].no != no
    {
      if CANONICAL[i].no == no {
        if !Fits(CANONICAL[i], member) {
          return Fails(StorageMismatch);
        }
        return Ready(Bound(CANONICAL[i], member));
      }
    }
    return Fails(UnknownIdentity);
  }

  /** `FieldsAreSorted`, over every pair. */
  ghost predicate Sorted(fields: seq<FieldDef>) {
    forall i, j :: 0 <= i < j < |fields| ==> fields[i].no < fields[j].no
  }

  /** What the builder demands of the source's own fields. */
  ghost predicate Sourced(declared: seq<FieldDef>) {
    Sorted(declared) && forall i :: 0 <= i < |declared| ==> 0 < declared[i].no < FLOOR
  }

  /** `FieldsAreSorted` compares neighbours only, and that is enough. */
  method FieldsAreSorted(fields: seq<FieldDef>) returns (r: bool)
    ensures r <==> Sorted(fields)
  {
    var i := 1;
    while i < |fields|
      invariant 1 <= i
      invariant forall a, b :: 0 <= a < b < i && b < |fields| ==> fields[a].no < fields[b].no
    {
      if !(fields[i - 1].no < fields[i].no) {
        return false;
      }
      i := i + 1;
    }
    return true;
  }

  method CheckSourced(declared: seq<FieldDef>) returns (r: bool)
    ensures r <==> Sourced(declared)
  {
    for i := 0 to |declared|
      invariant Sourced(declared[..i])
    {
      if declared[i].no <= 0 || declared[i].no >= FLOOR || (i > 0 && declared[i - 1].no >= declared[i].no) {
        return false;
      }
      assert i > 0 ==> declared[..i][i - 1] == declared[i - 1];
      assert declared[..i + 1] == declared[..i] + [declared[i]];
    }
    assert declared[..|declared|] == declared;
    return true;
  }

  /** Each declaration, bound to the record's member for it. */
  function BoundAll(fields: seq<SystemField>, record: Record): (r: seq<FieldDef>)
    ensures |r| == |fields|
    ensures forall i :: 0 <= i < |r| ==> r[i] == Bound(fields[i], record.Member(fields[i].no))
  {
    if fields == [] then [] else
    var last := fields[|fields| - 1];
    BoundAll(fields[..|fields| - 1], record) + [Bound(last, record.Member(last.no))]
  }

  function AfterFirst<T>(xs: seq<T>, ys: seq<T>): (r: seq<T>)
    ensures |r| == |xs| + |ys|
    ensures forall i :: 0 <= i < |r| ==>
                          r[i] == if xs != [] && i == 0 then xs[0]
                                  else if xs == [] then ys[i]
                                  else if i <= |ys| then ys[i - 1] else xs[i - |ys|]
  {
    if xs == [] then ys else [xs[0]] + (ys + xs[1..])
  }

  lemma AfterFirstAppend<T>(xs: seq<T>, more: seq<T>, ys: seq<T>)
    requires xs != []
    ensures AfterFirst(xs + more, ys) == AfterFirst(xs, ys) + more
  {
    var whole, part := AfterFirst(xs + more, ys), AfterFirst(xs, ys) + more;
    forall i | 0 <= i < |whole|
      ensures whole[i] == part[i]
    {
    }
  }

  /** A complete table: the first implicit field, the source's fields, then the other implicit fields. */
  function Complete(fields: seq<SystemField>, record: Record, declared: seq<FieldDef>): seq<FieldDef> {
    AfterFirst(BoundAll(fields, record), declared)
  }

  lemma BoundAppend(a: seq<SystemField>, b: seq<SystemField>, record: Record)
    ensures BoundAll(a + b, record) == BoundAll(a, record) + BoundAll(b, record)
  {
  }

  lemma CompleteAppend(a: seq<SystemField>, b: seq<SystemField>, record: Record, declared: seq<FieldDef>)
    requires a != []
    ensures Complete(a + b, record, declared) == Complete(a, record, declared) + BoundAll(b, record)
  {
    BoundAppend(a, b, record);
    AfterFirstAppend(BoundAll(a, record), BoundAll(b, record), declared);
  }

  ghost predicate FitsAll(fields: seq<SystemField>, record: Record) {
    forall k :: 0 <= k < |fields| ==> Fits(fields[k], record.Member(fields[k].no))
  }

  /** `all[next++] = detail::ImplicitField<member>(no, offset)`. */
  method Place(all: array<FieldDef>, next: nat, no: int, record: Record, ghost k: nat) returns (r: Built<nat>)
    requires next < all.Length && k < |CANONICAL| && CANONICAL[k].no == no
    modifies all
    ensures r == if Fits(CANONICAL[k], record.Member(no)) then Ready(next + 1) else Fails(StorageMismatch)
    ensures r.Ready? ==> all[..next + 1] == old(all[..next]) + [Bound(CANONICAL[k], record.Member(no))]
  {
    var field :- ImplicitField(no, record.Member(no));
    all[next] := field;
    return Ready(next + 1);
  }

  lemma CompletePair(a: SystemField, b: SystemField, record: Record, declared: seq<FieldDef>)
    ensures Complete([a, b], record, declared) ==
            [Bound(a, record.Member(a.no))] + declared + [Bound(b, record.Member(b.no))]
  {
    CompleteAppend([a], [b], record, declared);
    assert [a] + [b] == [a, b];
  }

  /** The row version, the identity and the source's own fields. */
  method PlaceSource(all: array<FieldDef>, record: Record, declared: seq<FieldDef>) returns (r: Built<nat>)
    requires |declared| + 1 < all.Length
    modifies all
    ensures r == if FitsAll(CANONICAL[..2], record) then Ready(|declared| + 2) else Fails(StorageMismatch)
    ensures r.Ready? ==> all[..|declared| + 2] == Complete(CANONICAL[..2], record, declared)
  {
    var n := |declared|;
    var next :- Place(all, 0, 0, record, 0);
    for i := 0 to n
      invariant all[0] == Bound(CANONICAL[0], record.Member(0))
      invariant forall k :: 0 <= k < i ==> all[k + 1] == declared[k]
    {
      all[i + 1] := declared[i];
    }
    assert all[..n + 1] == [Bound(CANONICAL[0], record.Member(0))] + declared;
    next :- Place(all, n + 1, FLOOR, record, 1);
    assert CANONICAL[..2] == [CANONICAL[0], CANONICAL[1]];
    CompletePair(CANONICAL[0], CANONICAL[1], record, declared);
    return Ready(next);
  }

  /** The four audit fields. */
  method PlaceAudit(all: array<FieldDef>, start: nat, record: Record) returns (r: Built<nat>)
    requires start + 4 <= all.Length
    modifies all
    ensures r == if FitsAll(CANONICAL[2..6], record) then Ready(start + 4) else Fails(StorageMismatch)
    ensures r.Ready? ==> all[..start + 4] == old(all[..start]) + BoundAll(CANONICAL[2..6], record)
  {
    var next :- Place(all, start, FLOOR + 1, record, 2);
    next :- Place(all, next, FLOOR + 2, record, 3);
    next :- Place(all, next, FLOOR + 3, record, 4);
    next :- Place(all, next, FLOOR + 4, record, 5);
    return Ready(next);
  }

  /** The four user-name lookups. */
  method PlaceLookups(all: array<FieldDef>, start: nat, record: Record) returns (r: Built<nat>)
    requires start + 4 <= all.Length
    modifies all
    ensures r == if FitsAll(CANONICAL[6..], record) then Ready(start + 4) else Fails(StorageMismatch)
    ensures r.Ready? ==> all[..start + 4] == old(all[..start]) + BoundAll(CANONICAL[6..], record)
  {
    var next :- Place(all, start, FLOOR + 5, record, 6);
    next :- Place(all, next, FLOOR + 6, record, 7);
    next :- Place(all, next, FLOOR + 7, record, 8);
    next :- Place(all, next, FLOOR + 8, record, 9);
    return Ready(next);
  }

  lemma FitsSplit(low: seq<SystemField>, high: seq<SystemField>, record: Record)
    ensures FitsAll(low + high, record) <==> FitsAll(low, record) && FitsAll(high, record)
  {
    if FitsAll(low + high, record) {
      assert forall i :: 0 <= i < |low| ==> (low + high)[i] == low[i];
      assert forall i :: 0 <= i < |high| ==> (low + high)[|low| + i] == high[i];
    }
  }

  /** How the three groups of assignments add up. */
  lemma Groups(record: Record, declared: seq<FieldDef>)
    ensures Complete(CANONICAL[..6], record, declared) ==
            Complete(CANONICAL[..2], record, declared) + BoundAll(CANONICAL[2..6], record)
    ensures Complete(CANONICAL, record, declared) ==
            Complete(CANONICAL[..6], record, declared) + BoundAll(CANONICAL[6..], record)
    ensures FitsAll(CANONICAL[..6], record) <==> FitsAll(CANONICAL[..2], record) && FitsAll(CANONICAL[2..6], record)
    ensures FitsAll(CANONICAL, record) <==> FitsAll(CANONICAL[..6], record) && FitsAll(CANONICAL[6..], record)
    ensures CANONICAL[..10] == CANONICAL
  {
    FitsSplit(CANONICAL[..2], CANONICAL[2..6], record);
    FitsSplit(CANONICAL[..6], CANONICAL[6..], record);
    CompleteAppend(CANONICAL[..2], CANONICAL[2..6], record, declared);
    CompleteAppend(CANONICAL[..6], CANONICAL[6..], record, declared);
    assert CANONICAL[..2] + CANONICAL[2..6] == CANONICAL[..6];
    assert CANONICAL[..6] + CANONICAL[6..] == CANONICAL;
  }

  /** The assignments, all of them: with the right number of slots, every slot is filled. */
  method Fill(
    all: array<FieldDef>, profile: Profile, table: TableType, linked: bool, declared: seq<FieldDef>, record: Record)
    returns (r: Built<nat>)
    requires all.Length == |declared| + Slots(profile, table, linked)
    modifies all
    ensures var chosen := CANONICAL[..Slots(profile, table, linked)];
            && r == (if FitsAll(chosen, record) then Ready(all.Length) else Fails(StorageMismatch))
            && (r.Ready? ==> all[..all.Length] == Complete(chosen, record, declared))
  {
    Groups(record, declared);
    var next :- PlaceSource(all, record, declared);
    if CarriesAudit(table, linked) {
      next :- PlaceAudit(all, next, record);
      if profile == Runtime18 {
        next :- PlaceLookups(all, next, record);
      }
    }
    return Ready(next);
  }

  /**
   `WithImplicitFields`: fills the array slot by slot. It succeeds exactly when the source fields are
   positive, ascending and below the reserved range and every selected member has its canonical
   storage, and then the table is the complete one, with no slot left over.
   */
  method WithImplicitFields(
    profile: Profile, table: TableType, linked: bool, declared: seq<FieldDef>, record: Record)
    returns (r: Built<seq<FieldDef>>)
    ensures r == if !Sourced(declared) then Fails(BadSourceFields)
                 else if !FitsAll(Selected(CANONICAL, profile, table, linked), record) then Fails(StorageMismatch)
                 else Ready(Complete(Selected(CANONICAL, profile, table, linked), record, declared))
  {
    SelectedIsPrefix(profile, table, linked);
    var sourced := CheckSourced(declared);
    if !sourced {
      return Fails(BadSourceFields);
    }
    var count := ImplicitFieldCount(profile, table, linked);
    var all := new FieldDef[|declared| + count];
    var next :- Fill(all, profile, table, linked, declared, record);
    assert all[..] == all[..next];
    return Ready(all[..]);
  }

  /** A list of implicit declarations starts below and continues above every source field number. */
  ghost predicate Surrounds(fields: seq<SystemField>) {
    && fields != [] && fields[0].no == 0
    && forall i :: 1 <= i < |fields| ==> fields[i].no == FLOOR + i - 1
  }

  lemma CompleteIsSorted(fields: seq<SystemField>, record: Record, declared: seq<FieldDef>)
    requires Surrounds(fields) && Sourced(declared)
    ensures Sorted(Complete(fields, record, declared))
  {
    var t, d := Complete(fields, record, declared), |declared|;
    assert t[0] == Bound(fields[0], record.Member(0));
    assert forall i :: 1 <= i <= d ==> t[i] == declared[i - 1];
    forall i | d < i < |t|
      ensures t[i].no == FLOOR + i - d - 1
    {
      assert t[i] == Bound(fields[i - d], record.Member(fields[i - d].no));
    }
  }

  lemma AfterFirstHolds<T>(xs: seq<T>, ys: seq<T>, x: T)
    ensures x in AfterFirst(xs, ys) <==> x in xs || x in ys
  {
    if xs != [] {
      assert xs == [xs[0]] + xs[1..];
    }
  }

  lemma {:induction false} BoundHolds(fields: seq<SystemField>, record: Record, f: FieldDef)
    ensures f in BoundAll(fields, record) <==> exists c :: c in fields && f == Bound(c, record.Member(c.no))
  {
    if c :| c in fields && f == Bound(c, record.Member(c.no)) {
      var i :| 0 <= i < |fields| && fields[i] == c;
      assert BoundAll(fields, record)[i] == f;
    }
    if f in BoundAll(fields, record) {
      var i :| 0 <= i < |fields| && BoundAll(fields, record)[i] == f;
      assert fields[i] in fields;
    }
  }

  /** `Field`: the binary search. On a sorted table it finds the one field with the number, if there is one. */
  method Field(fields: seq<FieldDef>, no: int) returns (r: Option<FieldDef>)
    requires Sorted(fields)
    ensures forall f :: r == Some(f) <==> f in fields && f.no == no
  {
    var low, high := 0, |fields|;
    while low < high
      invariant 0 <= low <= high <= |fields|
      invariant forall i :: 0 <= i < low ==> fields[i].no < no
      invariant forall i :: high <= i < |fields| ==> fields[i].no > no
    {
      var mid := low + (high - low) / 2;
      if fields[mid].no == no {
        return Some(fields[mid]);
      }
      if fields[mid].no < no {
        low := mid + 1;
      } else {
        high := mid;
      }
    }
    return None;
  }

  /**
   A finished table holds the source's own fields, untouched, and the fields `IncludesSystemField`
   selects, and nothing else. It is sorted, so a search finds each of those numbers and no other.
   */
  lemma FinishedTable(
    profile: Profile, table: TableType, linked: bool, declared: seq<FieldDef>, record: Record)
    requires Sourced(declared)
    ensures var chosen := Selected(CANONICAL, profile, table, linked);
            var t := Complete(chosen, record, declared);
            && Sorted(t)
            && |t| == |declared| + |chosen|
            && forall f :: f in t <==> f in declared || exists c :: c in chosen && f == Bound(c, record.Member(c.no))
  {
    SelectedIsPrefix(profile, table, linked);
    var chosen := Selected(CANONICAL, profile, table, linked);
    CompleteIsSorted(chosen, record, declared);
    forall f
      ensures f in Complete(chosen, record, declared) <==>
              f in declared || exists c :: c in chosen && f == Bound(c, record.Member(c.no))
    {
      AfterFirstHolds(BoundAll(chosen, record), declared, f);
      BoundHolds(chosen, record, f);
    }
  }
}
