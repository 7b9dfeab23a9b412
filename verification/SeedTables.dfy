/**
 The table loop of `seed_demo.main`: which tables are refused, what the counters say at the end, and
 the status that the provenance row is closed with.
 */
module SeedTables {
  import opened Sequences
  import opened SeedColumns

  /** What a provenance row says of its seed. */
  datatype Status = Building | Failed | Complete

  /** How moving a table's rows ended; `counts` are the numbers of its `COPY` lines. */
  datatype Attempt = NotStarted | Ended(reader: int, writer: int, counts: seq<nat>)

  /** A shared table: their columns, those of its `$ext` companion, ours, and how moving it ended. */
  datatype Table = Table(base: seq<Name>, companion: seq<Name>, ours: seq<Name>, attempt: Attempt)

  predicate Valid(t: Table) {
    Distinct(t.base) && Distinct(t.companion) && Distinct(t.ours)
  }

  /** The companion's columns that the table itself does not have. */
  function Extra(t: Table): seq<Name> {
    Left(t.companion, Elements(t.base))
  }

  function Theirs(t: Table): seq<Name> {
    t.base + Extra(t)
  }

  /** Some column of theirs among `names` is paired with one of ours. */
  ghost predicate SharesAny(system: Fields, t: Table, names: seq<Name>) {
    exists n, target :: n in names && Partner(system, t.ours, n, target)
  }

  /** A column that may join the companion: it has it too, and it is neither the row version nor a system field. */
  predicate KeyColumn(t: Table, c: Name) {
    c in t.companion && c.text != "timestamp" && (c.text == "" || c.text[0] != '$')
  }

  ghost predicate Keyed(t: Table) {
    exists c :: c in t.base && KeyColumn(t, c)
  }

  predicate Fails(a: Attempt) {
    a.NotStarted? || a.reader != 0 || a.writer != 0
  }

  /** A matched column lies in a companion without a shared key, or the rows could not be moved. */
  ghost predicate Refused(system: Fields, t: Table) {
    SharesAny(system, t, Theirs(t)) && ((SharesAny(system, t, Extra(t)) && !Keyed(t)) || Fails(t.attempt))
  }

  ghost predicate Moved(system: Fields, t: Table) {
    SharesAny(system, t, Theirs(t)) && !Refused(system, t)
  }

  /** The largest of the numbers, 0 if there are none. */
  function Largest(counts: seq<nat>): (r: nat)
    ensures counts == [] ==> r == 0
    ensures counts != [] ==> r in counts
    ensures forall i :: 0 <= i < |counts| ==> counts[i] <= r
  {
    if counts == [] then 0 else
    var rest := Largest(counts[..|counts| - 1]);
    if counts[|counts| - 1] > rest then counts[|counts| - 1] else rest
  }

  function Copied(t: Table): nat {
    if t.attempt.Ended? then Largest(t.attempt.counts) else 0
  }

  /** Some `COPY` line of the table has a positive count. */
  ghost predicate HasRows(t: Table) {
    t.attempt.Ended? && exists i :: 0 <= i < |t.attempt.counts| && t.attempt.counts[i] > 0
  }

  lemma CopiedIffHasRows(t: Table)
    ensures Copied(t) > 0 <==> HasRows(t)
  {
    if Copied(t) > 0 {
      var i :| 0 <= i < |t.attempt.counts| && t.attempt.counts[i] == Copied(t);
    }
  }

  /** How many of the tables are refused. */
  ghost function Refusals(system: Fields, tables: seq<Table>): nat {
    if tables == [] then 0 else
    Refusals(system, tables[..|tables| - 1]) + if Refused(system, tables[|tables| - 1]) then 1 else 0
  }

  /** How many rows the moved tables have together. */
  ghost function Rows(system: Fields, tables: seq<Table>): nat {
    if tables == [] then 0 else
    Rows(system, tables[..|tables| - 1]) + RowsOf(system, tables[|tables| - 1])
  }

  ghost function RowsOf(system: Fields, t: Table): nat {
    if Moved(system, t) then Copied(t) else 0
  }

  /** No table was refused, and some table that was moved had a row. */
  ghost predicate AllMoved(system: Fields, tables: seq<Table>) {
    && (forall i :: 0 <= i < |tables| ==> !Refused(system, tables[i]))
    && exists i :: 0 <= i < |tables| && Moved(system, tables[i]) && HasRows(tables[i])
  }

  lemma {:induction false} RefusalsZero(system: Fields, tables: seq<Table>)
    ensures Refusals(system, tables) == 0 <==> forall i :: 0 <= i < |tables| ==> !Refused(system, tables[i])
  {
    if tables != [] {
      var init := tables[..|tables| - 1];
      RefusalsZero(system, init);
      assert tables == init + [tables[|tables| - 1]];
    }
  }

  /** The rows of two lists of tables add up, and a table alone has its own. */
  lemma {:induction false} RowsAdd(system: Fields, tables: seq<Table>, more: seq<Table>)
    ensures Rows(system, tables + more) == Rows(system, tables) + Rows(system, more)
    ensures Refusals(system, tables + more) == Refusals(system, tables) + Refusals(system, more)
  {
    if more == [] {
      assert tables + more == tables;
    } else {
      var init := more[..|more| - 1];
      RowsAdd(system, tables, init);
      assert (tables + more)[..|tables + more| - 1] == tables + init;
    }
  }

  lemma RowsSingle(system: Fields, t: Table)
    ensures Rows(system, [t]) == if Moved(system, t) then Copied(t) else 0
    ensures Refusals(system, [t]) == if Refused(system, t) then 1 else 0
  {
    assert [t][..0] == [];
  }

  lemma {:induction false} RowsPositive(system: Fields, tables: seq<Table>)
    ensures Rows(system, tables) > 0 <==>
            exists i :: 0 <= i < |tables| && Moved(system, tables[i]) && HasRows(tables[i])
  {
    if tables != [] {
      var init, last := tables[..|tables| - 1], tables[|tables| - 1];
      RowsPositive(system, init);
      CopiedIffHasRows(last);
      if i :| 0 <= i < |init| && Moved(system, init[i]) && HasRows(init[i]) {
        assert Moved(system, tables[i]) && HasRows(tables[i]);
      }
      if i :| 0 <= i < |tables| && Moved(system, tables[i]) && HasRows(tables[i]) && Rows(system, init) == 0 {
        assert i < |init| ==> Moved(system, init[i]);
      }
    }
  }

  /** `'failed' if refused or rows == 0 else 'complete'`. */
  function StatusOf(refusals: nat, rows: nat): Status {
    if refusals > 0 || rows == 0 then Failed else Complete
  }

  lemma StatusMeansAllMoved(system: Fields, tables: seq<Table>)
    ensures StatusOf(Refusals(system, tables), Rows(system, tables)) ==
            if AllMoved(system, tables) then Complete else Failed
  {
    RefusalsZero(system, tables);
    RowsPositive(system, tables);
  }

  // ------------------------------------------------------------------ columns

  lemma TheirsDistinct(t: Table)
    requires Valid(t)
    ensures Distinct(Theirs(t))
  {
    LeftDistinct(t.companion, Elements(t.base));
    forall n | n in Extra(t)
      ensures n !in t.base
    {
      LeftMembers(t.companion, Elements(t.base), n);
    }
    DistinctConcat(t.base, Extra(t));
  }

  /** The two accounts of one table. */
  lemma TableAccounts(system: Fields, t: Table, pairs: seq<Pair>)
    requires Valid(t) && Matches(system, Theirs(t), t.ours, pairs)
    ensures |Theirs(t)| - |pairs| == |Left(Theirs(t), Elements(TheirSide(pairs)))|
    ensures |t.ours| - |pairs| <= |Left(t.ours, Elements(OurSide(pairs)))|
    ensures |t.ours| - |pairs| == |Left(t.ours, Elements(OurSide(pairs)))| <==> !DenotedTwice(system, Theirs(t), t.ours)
  {
    TheirsDistinct(t);
    CountsAgreeWithLists(system, Theirs(t), t.ours, pairs);
    CountDistinct(OurSide(pairs));
    forall n | n in Elements(OurSide(pairs))
      ensures n in t.ours
    {
    }
    LeftCount(t.ours, Elements(OurSide(pairs)));
  }

  /** What the lists of unmatched columns hold. */
  lemma UnmatchedColumns(system: Fields, t: Table, pairs: seq<Pair>, n: Name)
    requires Matches(system, Theirs(t), t.ours, pairs)
    ensures n in Left(Theirs(t), Elements(TheirSide(pairs))) <==>
            n in Theirs(t) && forall target :: !Partner(system, t.ours, n, target)
    ensures n in Left(t.ours, Elements(OurSide(pairs))) <==>
            n in t.ours && forall m :: m in Theirs(t) ==> !Partner(system, t.ours, m, n)
  {
    LeftMembers(Theirs(t), Elements(TheirSide(pairs)), n);
    LeftMembers(t.ours, Elements(OurSide(pairs)), n);
    forall m, target | m in Theirs(t) && Partner(system, t.ours, m, target)
      ensures m in TheirSide(pairs) && target in OurSide(pairs)
    {
      var k :| 0 <= k < |pairs| && pairs[k] == Pair(m, target);
      assert TheirSide(pairs)[k] == m && OurSide(pairs)[k] == target;
    }
    forall k | 0 <= k < |pairs|
      ensures Partner(system, t.ours, TheirSide(pairs)[k], OurSide(pairs)[k]) && TheirSide(pairs)[k] in Theirs(t)
    {
    }
  }

  lemma PairsShare(system: Fields, t: Table, pairs: seq<Pair>)
    requires Matches(system, Theirs(t), t.ours, pairs)
    ensures pairs != [] <==> SharesAny(system, t, Theirs(t))
    ensures (exists k :: 0 <= k < |pairs| && pairs[k].theirs in Extra(t)) <==> SharesAny(system, t, Extra(t))
  {
    if n, target :| n in Theirs(t) && Partner(system, t.ours, n, target) {
      assert Pair(n, target) in pairs;
    }
    if n, target :| n in Extra(t) && Partner(system, t.ours, n, target) {
      assert n in Theirs(t) && Pair(n, target) in pairs;
    }
    if pairs != [] {
      assert Partner(system, t.ours, pairs[0].theirs, pairs[0].ours);
    }
    if k :| 0 <= k < |pairs| && pairs[k].theirs in Extra(t) {
      assert Partner(system, t.ours, pairs[k].theirs, pairs[k].ours);
    }
  }

  // ------------------------------------------------------------------ the loop

  /** The counters and lists of `main`. A table is named by its place in the order of processing. */
  datatype Counters = Counters(rows: nat, seeded: nat, empty: nat, refused: seq<nat>, dropped: int, defaulted: int,
                               droppedColumns: seq<(nat, Name)>, defaultedColumns: seq<(nat, Name)>)

  predicate Ascending(xs: seq<nat>) {
    forall i, j :: 0 <= i < j < |xs| ==> xs[i] < xs[j]
  }

  lemma AscendingNext(xs: seq<nat>, x: nat)
    requires Ascending(xs) && forall i :: 0 <= i < |xs| ==> xs[i] < x
    ensures Ascending(xs + [x])
  {
  }

  ghost predicate RefusedListed(system: Fields, tables: seq<Table>, c: Counters) {
    && (forall i :: i in c.refused <==> 0 <= i < |tables| && Refused(system, tables[i]))
    && Ascending(c.refused)
  }

  /** The moved tables that had rows, or those that had none. */
  ghost function MovedWith(system: Fields, tables: seq<Table>, rows: bool): set<nat> {
    set i | 0 <= i < |tables| && MovedAs(system, tables[i], rows)
  }

  ghost predicate MovedAs(system: Fields, t: Table, rows: bool) {
    Moved(system, t) && HasRows(t) == rows
  }

  /** A column of theirs that means none of ours. */
  ghost predicate Dropped(system: Fields, t: Table, n: Name) {
    n in Theirs(t) && forall target :: !Partner(system, t.ours, n, target)
  }

  /** A column of ours that none of theirs means. */
  ghost predicate Defaulted(system: Fields, t: Table, n: Name) {
    n in t.ours && forall m :: m in Theirs(t) ==> !Partner(system, t.ours, m, n)
  }

  ghost predicate ColumnsListed(system: Fields, tables: seq<Table>, c: Counters) {
    && (forall i: nat, n :: (i, n) in c.droppedColumns <==> i < |tables| && Dropped(system, tables[i], n))
    && (forall i: nat, n :: (i, n) in c.defaultedColumns <==> i < |tables| && Defaulted(system, tables[i], n))
  }

  ghost predicate RowsCounted(system: Fields, tables: seq<Table>, c: Counters) {
    && c.rows == Rows(system, tables) && |c.refused| == Refusals(system, tables)
    && c.seeded == |MovedWith(system, tables, true)| && c.empty == |MovedWith(system, tables, false)|
  }

  /** Dropped columns are counted as listed; defaulted ones exactly if no table has a field denoted twice. */
  ghost predicate ColumnsCounted(system: Fields, tables: seq<Table>, c: Counters) {
    && c.dropped == |c.droppedColumns|
    && c.defaulted <= |c.defaultedColumns|
    && (c.defaulted == |c.defaultedColumns| <==> forall i :: 0 <= i < |tables| ==> TargetsOnce(system, tables[i]))
  }

  ghost predicate TargetsOnce(system: Fields, t: Table) {
    !DenotedTwice(system, Theirs(t), t.ours)
  }

  ghost predicate Tallied(system: Fields, tables: seq<Table>, c: Counters) {
    && RefusedListed(system, tables, c) && RowsCounted(system, tables, c)
    && ColumnsCounted(system, tables, c) && ColumnsListed(system, tables, c)
  }

  /** What the turn for a table adds to the counters and lists. */
  ghost predicate Turn(system: Fields, i: nat, t: Table, c: Counters, d: Counters) {
    RowsTurn(system, i, t, c, d) && ColumnsTurn(system, i, t, c, d)
  }

  ghost predicate RowsTurn(system: Fields, i: nat, t: Table, c: Counters, d: Counters) {
    && d.refused == c.refused + (if Refused(system, t) then [i] else [])
    && d.rows == c.rows + RowsOf(system, t)
    && d.seeded == c.seeded + (if Moved(system, t) && HasRows(t) then 1 else 0)
    && d.empty == c.empty + (if Moved(system, t) && !HasRows(t) then 1 else 0)
  }

  ghost predicate ColumnsTurn(system: Fields, i: nat, t: Table, c: Counters, d: Counters) {
    && d.dropped - c.dropped == |d.droppedColumns| - |c.droppedColumns|
    && d.defaulted - c.defaulted <= |d.defaultedColumns| - |c.defaultedColumns|
    && (d.defaulted - c.defaulted == |d.defaultedColumns| - |c.defaultedColumns| <==> TargetsOnce(system, t))
    && Lists(system, i, t, c, d)
  }

  ghost predicate Lists(system: Fields, i: nat, t: Table, c: Counters, d: Counters) {
    && (forall j: nat, n :: (j, n) in d.droppedColumns <==>
        (j, n) in c.droppedColumns || (j == i && Dropped(system, t, n)))
    && (forall j: nat, n ::
          (j, n) in d.defaultedColumns <==> (j, n) in c.defaultedColumns || (j == i && Defaulted(system, t, n)))
  }

  lemma RefusedNext(system: Fields, tables: seq<Table>, t: Table, c: Counters, d: Counters)
    requires RefusedListed(system, tables, c) && Turn(system, |tables|, t, c, d)
    ensures RefusedListed(system, tables + [t], d)
  {
    assert forall k :: 0 <= k < |c.refused| ==> c.refused[k] in c.refused;
    AscendingNext(c.refused, |tables|);
  }

  lemma MovedWithBefore(system: Fields, tables: seq<Table>, t: Table, rows: bool, i: nat)
    requires i <= |tables|
    ensures i in MovedWith(system, tables + [t], rows) <==>
            if i < |tables| then i in MovedWith(system, tables, rows) else MovedAs(system, t, rows)
  {
    assert (tables + [t])[i] == if i < |tables| then tables[i] else t;
  }

  lemma MovedWithNext(system: Fields, tables: seq<Table>, t: Table, rows: bool)
    ensures |MovedWith(system, tables + [t], rows)| ==
            |MovedWith(system, tables, rows)| + if MovedAs(system, t, rows) then 1 else 0
  {
    forall i: nat | i <= |tables|
      ensures i in MovedWith(system, tables + [t], rows) <==>
              if i < |tables| then i in MovedWith(system, tables, rows) else MovedAs(system, t, rows)
    {
      MovedWithBefore(system, tables, t, rows, i);
    }
    OneMore(MovedWith(system, tables, rows), MovedWith(system, tables + [t], rows), |tables|, MovedAs(system, t, rows));
  }

  lemma OneMore(few: set<nat>, many: set<nat>, n: nat, more: bool)
    requires (forall i :: i in few ==> i < n) && forall i :: i in many ==> i <= n
    requires forall i: nat :: i <= n ==> (i in many <==> if i < n then i in few else more)
    ensures |many| == |few| + if more then 1 else 0
  {
    assert many == few + if more then {n} else {};
  }

  lemma RowsNext(system: Fields, tables: seq<Table>, t: Table, c: Counters, d: Counters)
    requires RowsCounted(system, tables, c) && RowsTurn(system, |tables|, t, c, d)
    ensures RowsCounted(system, tables + [t], d)
  {
    RowsAdd(system, tables, [t]);
    RowsSingle(system, t);
    MovedWithNext(system, tables, t, true);
    MovedWithNext(system, tables, t, false);
  }

  lemma ListedNext(system: Fields, tables: seq<Table>, t: Table, c: Counters, d: Counters)
    requires ColumnsListed(system, tables, c) && Turn(system, |tables|, t, c, d)
    ensures ColumnsListed(system, tables + [t], d)
  {
  }

  lemma ColumnsNext(system: Fields, tables: seq<Table>, t: Table, c: Counters, d: Counters)
    requires ColumnsCounted(system, tables, c) && Turn(system, |tables|, t, c, d)
    ensures ColumnsCounted(system, tables + [t], d)
  {
    var all := tables + [t];
    assert all[|tables|] == t;
    assert forall i :: 0 <= i < |tables| ==> all[i] == tables[i];
    if forall i :: 0 <= i < |all| ==> TargetsOnce(system, all[i]) {
      assert forall i :: 0 <= i < |tables| ==> TargetsOnce(system, all[i]);
      assert TargetsOnce(system, all[|tables|]);
    }
  }

  lemma TalliedNext(system: Fields, tables: seq<Table>, i: nat, c: Counters, d: Counters)
    requires i < |tables| && Tallied(system, tables[..i], c) && Turn(system, i, tables[i], c, d)
    ensures Tallied(system, tables[..i + 1], d)
  {
    var before, t := tables[..i], tables[i];
    assert tables[..i + 1] == before + [t];
    RefusedNext(system, before, t, c, d);
    RowsNext(system, before, t, c, d);
    ColumnsNext(system, before, t, c, d);
    ListedNext(system, before, t, c, d);
  }

  function Tagged(i: nat, names: seq<Name>): (r: seq<(nat, Name)>)
    ensures |r| == |names|
    ensures forall j: nat, n :: (j, n) in r <==> j == i && n in names
  {
    if names == [] then [] else Tagged(i, names[..|names| - 1]) + [(i, names[|names| - 1])]
  }

  /** The columns without a partner, counted and listed. */
  function CountColumns(c: Counters, i: nat, theirs: seq<Name>, ours: seq<Name>, pairs: seq<Pair>): Counters {
    c.(dropped := c.dropped + |theirs| - |pairs|,
       defaulted := c.defaulted + |ours| - |pairs|,
       droppedColumns := c.droppedColumns + Tagged(i, Left(theirs, Elements(TheirSide(pairs)))),
       defaultedColumns := c.defaultedColumns + Tagged(i, Left(ours, Elements(OurSide(pairs)))))
  }

  /** `[c for c in base_columns if ...]`. */
  method KeyColumns(t: Table) returns (key: seq<Name>)
    ensures forall c :: c in key <==> c in t.base && KeyColumn(t, c)
  {
    key := [];
    for i := 0 to |t.base|
      invariant forall c :: c in key <==> c in t.base[..i] && KeyColumn(t, c)
    {
      assert t.base[..i + 1] == t.base[..i] + [t.base[i]];
      if t.base[i] in t.companion && t.base[i].text != "timestamp" && !("$" <= t.base[i].text) {
        key := key + [t.base[i]];
      }
    }
    assert t.base[..|t.base|] == t.base;
  }

  method CopiedRows(a: Attempt) returns (copied: nat)
    requires a.Ended?
    ensures copied == Largest(a.counts)
  {
    copied := 0;
    for i := 0 to |a.counts|
      invariant copied == Largest(a.counts[..i])
    {
      assert a.counts[..i + 1][..i] == a.counts[..i];
      copied := if a.counts[i] > copied then a.counts[i] else copied;
    }
    assert a.counts[..|a.counts|] == a.counts;
  }

  /** One turn of the loop, the columns apart: refused, or the rows counted. */
  method MoveTable(system: Fields, t: Table, pairs: seq<Pair>) returns (refused: bool, copied: nat)
    requires Matches(system, Theirs(t), t.ours, pairs) && pairs != []
    ensures refused <==> Refused(system, t)
    ensures !refused ==> copied == Copied(t) && (copied > 0 <==> HasRows(t))
  {
    PairsShare(system, t, pairs);
    refused, copied := true, 0;
    var joined := exists k :: 0 <= k < |pairs| && pairs[k].theirs in Extra(t);
    if joined {
      var key := KeyColumns(t);
      if key == [] {
        return;
      }
      assert key[0] in key;
    }
    if t.attempt.NotStarted? {
      return;
    }
    if t.attempt.reader != 0 || t.attempt.writer != 0 {
      return;
    }
    copied := CopiedRows(t.attempt);
    CopiedIffHasRows(t);
    refused := false;
  }

  lemma ColumnsTaken(system: Fields, i: nat, t: Table, c: Counters, pairs: seq<Pair>)
    requires Valid(t) && Matches(system, Theirs(t), t.ours, pairs)
    ensures ColumnsTurn(system, i, t, c, CountColumns(c, i, Theirs(t), t.ours, pairs))
  {
    TableAccounts(system, t, pairs);
    forall n
      ensures n in Left(Theirs(t), Elements(TheirSide(pairs))) <==> Dropped(system, t, n)
      ensures n in Left(t.ours, Elements(OurSide(pairs))) <==> Defaulted(system, t, n)
    {
      UnmatchedColumns(system, t, pairs, n);
    }
  }

  /** The counters of tables and rows. */
  function CountRows(c: Counters, i: nat, shared: bool, refused: bool, copied: nat): Counters {
    if !shared then c
    else if refused then c.(refused := c.refused + [i])
    else if copied == 0 then c.(empty := c.empty + 1)
    else c.(rows := c.rows + copied, seeded := c.seeded + 1)
  }

  lemma CountersApart(
    system: Fields, i: nat, t: Table, c: Counters, shared: bool, refused: bool, copied: nat, pairs: seq<Pair>)
    requires ColumnsTurn(system, i, t, c, CountColumns(c, i, Theirs(t), t.ours, pairs))
    requires RowsTurn(system, i, t, c, CountRows(c, i, shared, refused, copied))
    ensures Turn(system, i, t, c, CountRows(CountColumns(c, i, Theirs(t), t.ours, pairs), i, shared, refused, copied))
  {
  }

  /** One turn of the loop. */
  method TakeTable(system: Fields, i: nat, t: Table, c: Counters) returns (d: Counters)
    requires Valid(t)
    ensures Turn(system, i, t, c, d)
  {
    TheirsDistinct(t);
    var pairs := Match(system, Theirs(t), t.ours);
    ColumnsTaken(system, i, t, c, pairs);
    PairsShare(system, t, pairs);
    var refused, copied := false, 0;
    if pairs != [] {
      refused, copied := MoveTable(system, t, pairs);
    }
    CountersApart(system, i, t, c, pairs != [], refused, copied, pairs);
    d := CountRows(CountColumns(c, i, Theirs(t), t.ours, pairs), i, pairs != [], refused, copied);
  }

  const NONE := Counters(0, 0, 0, [], 0, 0, [], [])

  lemma NothingTallied(system: Fields)
    ensures Tallied(system, [], NONE)
  {
    assert MovedWith(system, [], true) == {} && MovedWith(system, [], false) == {};
  }

  /** The loop, and the status it ends with. */
  method MoveTables(system: Fields, tables: seq<Table>) returns (c: Counters, status: Status)
    requires forall i :: 0 <= i < |tables| ==> Valid(tables[i])
    ensures Tallied(system, tables, c)
    ensures status == if AllMoved(system, tables) then Complete else Failed
  {
    c := NONE;
    NothingTallied(system);
    assert tables[..0] == [];
    for i := 0 to |tables|
      invariant Tallied(system, tables[..i], c)
    {
      var before := c;
      c := TakeTable(system, i, tables[i], before);
      TalliedNext(system, tables, i, before, c);
    }
    assert tables[..|tables|] == tables;
    StatusMeansAllMoved(system, tables);
    status := if c.refused != [] || c.rows == 0 then Failed else Complete;
  }
}
