/** The incrementally maintained index of uniqueness conflicts (`sync_conflicts`) and the full scan it must equal. */
module Conflicts {
  import opened Order
  import opened Wrappers

  type Table = string
  type Column = string
  type Pk = string
  type Value = string
  type Time = int

  datatype RowKey = RowKey(table: Table, pk: Pk)

  datatype Cell = Cell(table: Table, pk: Pk, column: Column)

  /** A stored row; a column that is NULL is not in `columns`. */
  datatype Row = Row(deleted: bool, columns: map<Column, Value>)

  datatype Clock = Clock(epoch: int, hlc: string, device: string)

  datatype Rule = Rule(table: Table, column: Column)

  /** One row of `sync_conflicts`, without its primary key. */
  datatype Flag = Flag(value: Value, kept: Pk, detectedAt: Time)

  /** What the decision depends on: the rows of all tables and their field clocks. */
  datatype Database = Database(rows: map<RowKey, Row>, clocks: map<Cell, Clock>)

  // ---------- The full scan ----------

  function LiveValue(db: Database, t: Table, c: Column, p: Pk): Option<Value> {
    var key := RowKey(t, p);
    if key in db.rows && !db.rows[key].deleted && c in db.rows[key].columns then Some(db.rows[key].columns[c]) else None
  }

  function Holders(db: Database, t: Table, c: Column, v: Value): (holders: set<Pk>)
    ensures forall p :: p in holders <==> LiveValue(db, t, c, p) == Some(v)
  {
    set key | key in db.rows && key.table == t && LiveValue(db, t, c, key.pk) == Some(v) :: key.pk
  }

  /** A row without a field clock counts as oldest. */
  function ClockOf(db: Database, t: Table, c: Column, p: Pk): Clock {
    if Cell(t, p, c) in db.clocks then db.clocks[Cell(t, p, c)] else Clock(0, "", "")
  }

  predicate ClockLess(a: Clock, b: Clock) {
    if a.epoch != b.epoch then a.epoch < b.epoch
    else if a.hlc != b.hlc then Less(a.hlc, b.hlc)
    else Less(a.device, b.device)
  }

  predicate Older(db: Database, t: Table, c: Column, p: Pk, q: Pk) {
    var a, b := ClockOf(db, t, c, p), ClockOf(db, t, c, q);
    ClockLess(a, b) || (a == b && Less(p, q))
  }

  ghost predicate IsOldest(db: Database, t: Table, c: Column, among: set<Pk>, p: Pk) {
    p in among && forall q | q in among && q != p :: Older(db, t, c, p, q)
  }

  lemma OlderIsTotal(db: Database, t: Table, c: Column, p: Pk, q: Pk)
    ensures p != q ==> Older(db, t, c, p, q) != Older(db, t, c, q, p)
  {
    var a, b := ClockOf(db, t, c, p), ClockOf(db, t, c, q);
    LessIsTotal(a.hlc, b.hlc);
    LessIsTotal(a.device, b.device);
    LessIsTotal(p, q);
  }

  lemma OlderIsTransitive(db: Database, t: Table, c: Column, p: Pk, q: Pk, r: Pk)
    requires Older(db, t, c, p, q) && Older(db, t, c, q, r)
    ensures Older(db, t, c, p, r)
  {
    var x, y, z := ClockOf(db, t, c, p), ClockOf(db, t, c, q), ClockOf(db, t, c, r);
    if Less(x.hlc, y.hlc) && Less(y.hlc, z.hlc) {
      LessIsTransitive(x.hlc, y.hlc, z.hlc);
    }
    if Less(x.device, y.device) && Less(y.device, z.device) {
      LessIsTransitive(x.device, y.device, z.device);
    }
    if Less(p, q) && Less(q, r) {
      LessIsTransitive(p, q, r);
    }
    LessIsTotal(x.hlc, y.hlc);
    LessIsTotal(y.hlc, z.hlc);
    LessIsTotal(x.hlc, z.hlc);
    LessIsTotal(x.device, y.device);
    LessIsTotal(y.device, z.device);
  }

  /** One clock is before another: by epoch, then by the text of the hybrid logical clock, then by device. */
  ghost predicate Precedes(a: Clock, b: Clock) {
    || a.epoch < b.epoch
    || (a.epoch == b.epoch && ComesBefore(a.hlc, b.hlc))
    || (a.epoch == b.epoch && a.hlc == b.hlc && ComesBefore(a.device, b.device))
  }

  lemma ClockLessMeans(a: Clock, b: Clock)
    ensures ClockLess(a, b) <==> Precedes(a, b)
  {
    LessMeans(a.hlc, b.hlc);
    LessMeans(a.device, b.device);
    LessIsTotal(a.hlc, b.hlc);
  }

  /** Every non-empty set of holders has an oldest one. */
  lemma {:induction false} OldestExists(db: Database, t: Table, c: Column, among: set<Pk>)
    requires among != {}
    ensures exists p :: IsOldest(db, t, c, among, p)
  {
    var q :| q in among;
    if among == {q} {
      assert IsOldest(db, t, c, among, q);
    } else {
      var rest := among - {q};
      OldestExists(db, t, c, rest);
      var p :| IsOldest(db, t, c, rest, p);
      OlderIsTotal(db, t, c, p, q);
      if Older(db, t, c, p, q) {
        assert IsOldest(db, t, c, among, p);
      } else {
        forall r | r in among && r != q ensures Older(db, t, c, q, r) {
          if r != p {
            OlderIsTransitive(db, t, c, q, p, r);
          }
        }
        assert IsOldest(db, t, c, among, q);
      }
    }
  }

  lemma OldestIsUnique(db: Database, t: Table, c: Column, among: set<Pk>, p: Pk, q: Pk)
    requires IsOldest(db, t, c, among, p) && IsOldest(db, t, c, among, q)
    ensures p == q
  {
    OlderIsTotal(db, t, c, p, q);
  }

  /** The row of the holders of `v` that keeps it. */
  ghost function Keeper(db: Database, t: Table, c: Column, v: Value): (k: Pk)
    requires Holders(db, t, c, v) != {}
    ensures IsOldest(db, t, c, Holders(db, t, c, v), k)
  {
    OldestExists(db, t, c, Holders(db, t, c, v));
    var k :| IsOldest(db, t, c, Holders(db, t, c, v), k);
    k
  }

  /** What a full scan says about one row: its value and the row that keeps it, or nothing. */
  ghost function Expected(db: Database, t: Table, c: Column, p: Pk): Option<(Value, Pk)> {
    match LiveValue(db, t, c, p)
    case None => None
    case Some(v) =>
      var k := Keeper(db, t, c, v);
      if k == p then None else Some((v, k))
  }

  function Stored(flags: map<Cell, Flag>, t: Table, c: Column, p: Pk): Option<(Value, Pk)> {
    var cell := Cell(t, p, c);
    if cell in flags then Some((flags[cell].value, flags[cell].kept)) else None
  }

  /** The index holds for column `c` of table `t` exactly what a full scan finds. */
  ghost predicate Exact(db: Database, flags: map<Cell, Flag>, t: Table, c: Column) {
    forall p :: Stored(flags, t, c, p) == Expected(db, t, c, p)
  }

  // ---------- The incremental update ----------

  function KeySet(pks: seq<Pk>): set<Pk> {
    set p | p in pks
  }

  function Lookup(flags: map<Cell, Flag>, cell: Cell): Option<Flag> {
    if cell in flags then Some(flags[cell]) else None
  }

  /** The values to re-check for the given keys: those the rows hold now and those they were flagged for or kept. */
  function Candidates(db: Database, flags: map<Cell, Flag>, t: Table, c: Column, pks: set<Pk>): set<Value> {
    (set p | p in pks && LiveValue(db, t, c, p).Some? :: LiveValue(db, t, c, p).value) +
    (set cell | cell in flags && cell.table == t && cell.column == c && (cell.pk in pks || flags[cell].kept in pks)
       :: flags[cell].value)
  }

  function FlaggedSince(had: Option<Flag>, v: Value, now: Time): Time {
    if had.Some? && had.value.value == v then had.value.detectedAt else now
  }

  /** The flag of row `p` once the values in `checked` have been re-checked, in any order. */
  ghost function Rechecked(db: Database, flags: map<Cell, Flag>, now: Time, t: Table, c: Column,
                           checked: set<Value>, p: Pk): Option<Flag>
  {
    var want, had := Expected(db, t, c, p), Lookup(flags, Cell(t, p, c));
    if want.Some? && want.value.0 in checked then
      var (v, kept) := want.value;
      Some(Flag(v, kept, FlaggedSince(had, v, now)))
    else if had.Some? && had.value.value in checked then None
    else had
  }

  /** `after` is `flags` with the values in `checked` re-checked in column `c` of table `t`. */
  ghost predicate IsRecheck(db: Database, flags: map<Cell, Flag>, now: Time, t: Table, c: Column, checked: set<Value>,
                            after: map<Cell, Flag>)
  {
    forall cell: Cell :: (
      Lookup(after, cell) ==
        if cell.table == t && cell.column == c then Rechecked(db, flags, now, t, c, checked, cell.pk)
        else Lookup(flags, cell))
  }

  /** `after` is `flags` with the candidates of the given keys re-checked in every column with a rule. */
  ghost predicate IsDetection(db: Database, rules: seq<Rule>, flags: map<Cell, Flag>, now: Time, t: Table, pks: set<Pk>,
                              after: map<Cell, Flag>)
  {
    forall cell: Cell :: (
      Lookup(after, cell) ==
        if cell.table == t && Rule(t, cell.column) in rules
        then Rechecked(db, flags, now, t, cell.column, Candidates(db, flags, t, cell.column, pks), cell.pk)
        else Lookup(flags, cell))
  }

  /** The full scan flags exactly the rows in `flagged` for the value, with `kept` as the row that keeps it. */
  ghost predicate IsFlaggedFor(db: Database, t: Table, c: Column, v: Value, kept: Pk, flagged: set<Pk>) {
    && (forall p | p in flagged :: Expected(db, t, c, p) == Some((v, kept)))
    && (forall p | Expected(db, t, c, p).Some? && Expected(db, t, c, p).value.0 == v :: p in flagged)
  }

  /** Upserting the flags for a value and dropping its other flags is re-checking it. */
  lemma ResolvedIsRecheck(db: Database, before: map<Cell, Flag>, between: map<Cell, Flag>, after: map<Cell, Flag>,
                          now: Time, t: Table, c: Column, v: Value, kept: Pk, flagged: set<Pk>)
    requires IsFlaggedFor(db, t, c, v, kept, flagged)
    requires forall cell: Cell :: (
      Lookup(between, cell) ==
        if cell.table == t && cell.column == c && cell.pk in flagged
        then Some(Flag(v, kept, FlaggedSince(Lookup(before, cell), v, now)))
        else Lookup(before, cell))
    requires after == map cell | cell in between &&
      !(cell.table == t && cell.column == c && between[cell].value == v && cell.pk !in flagged)
        :: between[cell]
    ensures IsRecheck(db, before, now, t, c, {v}, after)
  {
    forall cell: Cell
      ensures Lookup(after, cell) ==
        (if cell.table == t && cell.column == c then Rechecked(db, before, now, t, c, {v}, cell.pk)
         else Lookup(before, cell))
    {
      assert cell == Cell(cell.table, cell.pk, cell.column);
    }
  }

  // ---------- Several tables ----------

  /** The rows of a table that are flagged or keep a value from another one. */
  function ConflictKeys(flags: map<Cell, Flag>, t: Table): set<Pk> {
    (set cell | cell in flags && cell.table == t :: cell.pk) +
    (set cell | cell in flags && cell.table == t :: flags[cell].kept)
  }

  /** A table written in a transaction: rows of other devices, whose keys are passed on, or local writes. */
  datatype Part = Remote(table: Table, pks: set<Pk>) | Local(table: Table)

  function PartKeys(flags: map<Cell, Flag>, part: Part): set<Pk> {
    match part
    case Remote(_, pks) => pks
    case Local(t) => ConflictKeys(flags, t)
  }

  /** `chain` lists the index before the first and after each part. */
  ghost predicate IsChain(rules: seq<Rule>, db: Database, now: Time, parts: seq<Part>, chain: seq<map<Cell, Flag>>) {
    && |chain| == |parts| + 1
    && forall j {:trigger parts[j]} | 0 <= j < |parts| ::
         IsDetection(db, rules, chain[j], now, parts[j].table, PartKeys(chain[j], parts[j]), chain[j + 1])
  }

  ghost predicate AreDetected(rules: seq<Rule>, db: Database, now: Time, parts: seq<Part>, flags: map<Cell, Flag>,
                              flags': map<Cell, Flag>)
  {
    exists chain :: IsChain(rules, db, now, parts, chain) && chain[0] == flags && chain[|parts|] == flags'
  }

  function LocalParts(touched: seq<Table>): seq<Part> {
    seq(|touched|, i requires 0 <= i < |touched| => Local(touched[i]))
  }

  lemma ChainGrows(rules: seq<Rule>, db: Database, now: Time, parts: seq<Part>, chain: seq<map<Cell, Flag>>, part: Part,
                   flags: map<Cell, Flag>)
    requires IsChain(rules, db, now, parts, chain)
    requires IsDetection(db, rules, chain[|parts|], now, part.table, PartKeys(chain[|parts|], part), flags)
    ensures IsChain(rules, db, now, parts + [part], chain + [flags])
  {
  }

  class ConflictTable {
    const rules: seq<Rule>
    const synced: set<Table>
    var rows: map<RowKey, Row>
    var clocks: map<Cell, Clock>
    var flags: map<Cell, Flag>

    constructor (rules: seq<Rule>, synced: set<Table>)
      ensures this.rules == rules && this.synced == synced
      ensures rows == map[] && clocks == map[] && flags == map[]
    {
      this.rules, this.synced := rules, synced;
      rows, clocks, flags := map[], map[], map[];
    }

    function Db(): Database
      reads this
    {
      Database(rows, clocks)
    }

    method DetectUniqueConflicts(table: Table, pks: seq<Pk>, now: Time)
      requires forall i, j | 0 <= i < j < |rules| :: rules[i] != rules[j]
      modifies this`flags
      ensures table in synced ==>
        IsDetection(Db(), rules, old(flags), now, table, KeySet(pks), flags)
      ensures table !in synced ==> flags == old(flags)
    {
      if table !in synced {
        return;
      }
      ghost var keys := KeySet(pks);
      if |pks| == 0 {
        assert keys == {};
        return;
      }
      for i := 0 to |rules|
        invariant IsDetection(Db(), rules[..i], old(flags), now, table, keys, flags)
      {
        assert rules[..i + 1] == rules[..i] + [rules[i]];
        if rules[i].table == table {
          var c := rules[i].column;
          assert rules[i] == Rule(table, c) && Rule(table, c) !in rules[..i];
          ghost var between := flags;
          RecheckColumn(table, c, pks, now);
          DetectionGrows(Db(), rules[..i], old(flags), between, flags, now, table, c, keys);
        }
      }
      assert rules[..|rules|] == rules;
    }

    /** Go: refreshConflicts. Re-checks the rows in a conflict in each table written. */
    method RefreshConflicts(touched: seq<Table>, now: Time)
      requires forall i, j | 0 <= i < j < |rules| :: rules[i] != rules[j]
      requires forall t | t in touched :: t in synced
      modifies this`flags
      ensures AreDetected(rules, Db(), now, LocalParts(touched), old(flags), flags)
    {
      ghost var chain := [flags];
      for i := 0 to |touched|
        invariant IsChain(rules, Db(), now, LocalParts(touched[..i]), chain)
        invariant chain[0] == old(flags) && chain[i] == flags
      {
        var t := touched[i];
        var pks := KeysInConflict(t);
        DetectUniqueConflicts(t, pks, now);
        ChainGrows(rules, Db(), now, LocalParts(touched[..i]), chain, Local(t), flags);
        assert LocalParts(touched[..i + 1]) == LocalParts(touched[..i]) + [Local(t)];
        chain := chain + [flags];
      }
      assert touched[..|touched|] == touched;
    }

    method KeysInConflict(t: Table) returns (pks: seq<Pk>)
      ensures KeySet(pks) == ConflictKeys(flags, t)
      ensures forall p :: p in pks <==>
        exists cell :: cell in flags && cell.table == t && (cell.pk == p || flags[cell].kept == p)
    {
      pks := [];
      var left := ConflictKeys(flags, t);
      while left != {}
        invariant KeySet(pks) + left == ConflictKeys(flags, t)
        decreases left
      {
        var p :| p in left;
        pks, left := pks + [p], left - {p};
      }
      assert forall p :: p in pks <==> p in KeySet(pks);
    }

    /** Go: requireUnique. Whether no live row but the one itself holds the value; NULL is never a duplicate. */
    method RequireUnique(t: Table, c: Column, value: Option<Value>, self: Pk) returns (unique: bool)
      ensures unique <==> value.None? || forall p | p != self :: LiveValue(Db(), t, c, p) != value
    {
      if value.None? {
        return true;
      }
      var others := Holders(Db(), t, c, value.value) - {self};
      assert forall p :: p in others <==> p != self && LiveValue(Db(), t, c, p) == value;
      return others == {};
    }

    method RecheckColumn(t: Table, c: Column, pks: seq<Pk>, now: Time)
      modifies this`flags
      ensures IsRecheck(Db(), old(flags), now, t, c, Candidates(Db(), old(flags), t, c, KeySet(pks)), flags)
    {
      var values := ConflictCandidates(t, c, pks);
      ghost var checked := {};
      var todo := values;
      while todo != {}
        invariant checked + todo == values && checked !! todo
        invariant IsRecheck(Db(), old(flags), now, t, c, checked, flags)
        decreases todo
      {
        var v :| v in todo;
        ghost var between := flags;
        ResolveUniqueValue(t, c, v, now);
        RecheckOneMore(Db(), old(flags), between, flags, now, t, c, checked, v);
        todo, checked := todo - {v}, checked + {v};
      }
      assert checked == values;
    }

    method ConflictCandidates(t: Table, c: Column, pks: seq<Pk>) returns (values: set<Value>)
      ensures values == Candidates(Db(), flags, t, c, KeySet(pks))
    {
      values := {};
      for i := 0 to |pks|
        invariant values == set p | p in pks[..i] && LiveValue(Db(), t, c, p).Some? :: LiveValue(Db(), t, c, p).value
      {
        assert forall p :: p in pks[..i + 1] <==> p in pks[..i] || p == pks[i];
        var v := LiveValue(Db(), t, c, pks[i]);
        if v.Some? {
          values := values + {v.value};
        }
      }
      values := values + set cell | cell in flags && cell.table == t && cell.column == c &&
                                    (cell.pk in pks || flags[cell].kept in pks) :: flags[cell].value;
    }

    /** Upserts the flags of all holders but the oldest, then drops the other flags of the value. */
    method ResolveUniqueValue(t: Table, c: Column, v: Value, now: Time)
      modifies this`flags
      ensures IsRecheck(Db(), old(flags), now, t, c, {v}, flags)
    {
      var kept, flagged := FindFlagged(t, c, v);
      UpsertFlags(t, c, v, kept, flagged, now);
      ghost var between := flags;
      flags := map cell | cell in flags &&
        !(cell.table == t && cell.column == c && flags[cell].value == v && cell.pk !in flagged)
        :: flags[cell];
      ResolvedIsRecheck(Db(), old(flags), between, flags, now, t, c, v, kept, flagged);
    }

    /** The rows to flag for a value: all its holders but the oldest, which keeps it. */
    method FindFlagged(t: Table, c: Column, v: Value) returns (kept: Pk, flagged: set<Pk>)
      ensures IsFlaggedFor(Db(), t, c, v, kept, flagged)
    {
      var holders := Holders(Db(), t, c, v);
      if |holders| > 1 {
        kept := Oldest(t, c, holders);
        OldestIsUnique(Db(), t, c, holders, kept, Keeper(Db(), t, c, v));
        flagged := holders - {kept};
      } else {
        kept, flagged := "", {};
        forall p | Expected(Db(), t, c, p).Some? {
          FlaggedRowsHaveTwoHolders(Db(), t, c, p);
        }
      }
    }

    /** Flags the rows with the value and its keeper; a row that was flagged with the same value keeps its date. */
    method UpsertFlags(t: Table, c: Column, v: Value, kept: Pk, flagged: set<Pk>, now: Time)
      modifies this`flags
      ensures forall cell: Cell :: (
        Lookup(flags, cell) ==
          if cell.table == t && cell.column == c && cell.pk in flagged
          then Some(Flag(v, kept, FlaggedSince(Lookup(old(flags), cell), v, now)))
          else Lookup(old(flags), cell))
    {
      var todo := flagged;
      while todo != {}
        invariant todo <= flagged
        invariant forall cell: Cell :: (
          Lookup(flags, cell) ==
            if cell.table == t && cell.column == c && cell.pk in flagged - todo
            then Some(Flag(v, kept, FlaggedSince(Lookup(old(flags), cell), v, now)))
            else Lookup(old(flags), cell))
        decreases todo
      {
        var p :| p in todo;
        var cell := Cell(t, p, c);
        assert Lookup(flags, cell) == Lookup(old(flags), cell);
        var since := if cell in flags && flags[cell].value == v then flags[cell].detectedAt else now;
        flags := flags[cell := Flag(v, kept, since)];
        todo := todo - {p};
      }
    }

    /** The first of the holders in the order of their clocks. */
    method Oldest(t: Table, c: Column, holders: set<Pk>) returns (kept: Pk)
      requires holders != {}
      ensures IsOldest(Db(), t, c, holders, kept)
    {
      kept :| kept in holders;
      var todo := holders - {kept};
      while todo != {}
        invariant todo <= holders
        invariant IsOldest(Db(), t, c, holders - todo, kept)
        decreases todo
      {
        var p :| p in todo;
        OlderIsTotal(Db(), t, c, p, kept);
        if Older(Db(), t, c, p, kept) {
          forall q | q in holders - todo && q != kept ensures Older(Db(), t, c, p, q) {
            OlderIsTransitive(Db(), t, c, p, kept, q);
          }
          kept := p;
        }
        todo := todo - {p};
      }
    }
  }

  /** Re-checking one more column after others: the columns do not touch each other's flags. */
  lemma DetectionGrows(db: Database, rules: seq<Rule>, flags: map<Cell, Flag>, between: map<Cell, Flag>,
                       after: map<Cell, Flag>, now: Time, t: Table, c: Column, pks: set<Pk>)
    requires IsDetection(db, rules, flags, now, t, pks, between) && Rule(t, c) !in rules
    requires IsRecheck(db, between, now, t, c, Candidates(db, between, t, c, pks), after)
    ensures IsDetection(db, rules + [Rule(t, c)], flags, now, t, pks, after)
  {
    SameCandidates(db, between, flags, t, c, pks);
    forall cell: Cell
      ensures Rule(t, cell.column) in rules + [Rule(t, c)] <==> Rule(t, cell.column) in rules || cell.column == c
    {
    }
  }

  lemma SameCandidates(db: Database, flags: map<Cell, Flag>, flags': map<Cell, Flag>, t: Table, c: Column, pks: set<Pk>)
    requires forall p :: Lookup(flags, Cell(t, p, c)) == Lookup(flags', Cell(t, p, c))
    ensures Candidates(db, flags, t, c, pks) == Candidates(db, flags', t, c, pks)
  {
    forall cell: Cell | cell.table == t && cell.column == c ensures Lookup(flags, cell) == Lookup(flags', cell) {
      assert cell == Cell(t, cell.pk, c);
    }
    assert forall cell: Cell | cell.table == t && cell.column == c ::
      (cell in flags <==> cell in flags') && (cell in flags ==> flags[cell] == flags'[cell]);
  }

  /** Re-checking one value after others is re-checking them all: the order of the values does not matter. */
  lemma RecheckOneMore(db: Database, flags: map<Cell, Flag>, between: map<Cell, Flag>, after: map<Cell, Flag>,
                       now: Time, t: Table, c: Column, checked: set<Value>, v: Value)
    requires IsRecheck(db, flags, now, t, c, checked, between) && IsRecheck(db, between, now, t, c, {v}, after)
    ensures IsRecheck(db, flags, now, t, c, checked + {v}, after)
  {
  }

  lemma FlaggedRowsHaveTwoHolders(db: Database, t: Table, c: Column, p: Pk)
    requires Expected(db, t, c, p).Some?
    ensures |Holders(db, t, c, Expected(db, t, c, p).value.0)| >= 2
  {
    var (v, k) := Expected(db, t, c, p).value;
    var holders := Holders(db, t, c, v);
    assert holders == (holders - {p, k}) + {p, k};
    assert |{p, k}| == 2;
  }

  // ---------- The index is exact ----------

  /** Outside the given keys neither values nor clocks of column `c` differ. */
  ghost predicate ChangedOnly(before: Database, after: Database, t: Table, c: Column, pks: set<Pk>) {
    forall p | p !in pks ::
      LiveValue(before, t, c, p) == LiveValue(after, t, c, p) && ClockOf(before, t, c, p) == ClockOf(after, t, c, p)
  }

  /** A value that a changed row shared before is found again through the flag of one of its holders. */
  lemma SharedValueIsChecked(before: Database, after: Database, flags: map<Cell, Flag>, t: Table, c: Column,
                             pks: set<Pk>, v: Value, p: Pk, q: Pk)
    requires Exact(before, flags, t, c) && p in pks && p != q
    requires p in Holders(before, t, c, v) && q in Holders(before, t, c, v)
    ensures v in Candidates(after, flags, t, c, pks)
  {
    // Either p was flagged for v, or it kept v from q.
    var k := Keeper(before, t, c, v);
    var flagged := if p == k then q else p;
    assert Stored(flags, t, c, flagged) == Expected(before, t, c, flagged) == Some((v, k));
    assert flags[Cell(t, flagged, c)].value in Candidates(after, flags, t, c, pks);
  }

  lemma HeldValueIsChecked(after: Database, flags: map<Cell, Flag>, t: Table, c: Column, pks: set<Pk>, p: Pk)
    requires p in pks && LiveValue(after, t, c, p).Some?
    ensures LiveValue(after, t, c, p).value in Candidates(after, flags, t, c, pks)
  {
  }

  /** A value that is not re-checked is held by the same, unchanged rows as before, or by none any more. */
  lemma UncheckedValueIsUntouched(before: Database, after: Database, flags: map<Cell, Flag>, t: Table, c: Column,
                                  pks: set<Pk>, v: Value)
    requires Exact(before, flags, t, c) && ChangedOnly(before, after, t, c, pks)
    requires v !in Candidates(after, flags, t, c, pks)
    ensures Holders(after, t, c, v) !! pks
    ensures Holders(after, t, c, v) == {} || Holders(after, t, c, v) == Holders(before, t, c, v)
  {
    var was, holds := Holders(before, t, c, v), Holders(after, t, c, v);
    forall p | p in holds ensures p !in pks && p in was {
      if p in pks {
        HeldValueIsChecked(after, flags, t, c, pks, p);
      }
    }
    forall p, q | p in was && p in pks && q in was ensures p == q {
      if p != q {
        SharedValueIsChecked(before, after, flags, t, c, pks, v, p, q);
      }
    }
  }

  lemma UntouchedValueHasSameKeeper(before: Database, after: Database, t: Table, c: Column, pks: set<Pk>, v: Value)
    requires ChangedOnly(before, after, t, c, pks)
    requires Holders(after, t, c, v) == Holders(before, t, c, v) != {} && Holders(after, t, c, v) !! pks
    ensures Keeper(before, t, c, v) == Keeper(after, t, c, v)
  {
    var holders, k := Holders(after, t, c, v), Keeper(before, t, c, v);
    assert IsOldest(after, t, c, holders, k);
    OldestIsUnique(after, t, c, holders, k, Keeper(after, t, c, v));
  }

  /** One incremental update keeps the index exact, whatever rows changed among the given keys. */
  lemma DetectionKeepsExact(before: Database, after: Database, flags: map<Cell, Flag>, flags': map<Cell, Flag>,
                            rules: seq<Rule>, now: Time, t: Table, c: Column, pks: set<Pk>)
    requires Exact(before, flags, t, c) && ChangedOnly(before, after, t, c, pks)
    requires Rule(t, c) in rules && IsDetection(after, rules, flags, now, t, pks, flags')
    ensures Exact(after, flags', t, c)
  {
    var checked := Candidates(after, flags, t, c, pks);
    forall p ensures Stored(flags', t, c, p) == Expected(after, t, c, p) {
      var want, had := Expected(after, t, c, p), Lookup(flags, Cell(t, p, c));
      assert Lookup(flags', Cell(t, p, c)) == Rechecked(after, flags, now, t, c, checked, p);
      assert Stored(flags, t, c, p) == Expected(before, t, c, p);
      if want.Some? && want.value.0 !in checked {
        UncheckedValueIsUntouched(before, after, flags, t, c, pks, want.value.0);
        UntouchedValueHasSameKeeper(before, after, t, c, pks, want.value.0);
      } else if want.None? && had.Some? && had.value.value !in checked {
        var v := had.value.value;
        UncheckedValueIsUntouched(before, after, flags, t, c, pks, v);
        var k := Keeper(before, t, c, v);
        if p in pks {
          SharedValueIsChecked(before, after, flags, t, c, pks, v, p, k);
        } else {
          UntouchedValueHasSameKeeper(before, after, t, c, pks, v);
        }
        assert false;
      }
    }
  }

  // ---------- Local writes ----------

  /** Every row keeps its value and clock, loses its value, or holds one that no other live row holds. */
  ghost predicate WritesUnique(before: Database, after: Database, t: Table, c: Column) {
    forall p ::
      || (LiveValue(before, t, c, p) == LiveValue(after, t, c, p) &&
          ClockOf(before, t, c, p) == ClockOf(after, t, c, p))
      || LiveValue(after, t, c, p).None?
      || forall q :: LiveValue(after, t, c, q) == LiveValue(after, t, c, p) ==> q == p
  }

  /** A value that is still shared was shared before, by the same two rows, and is re-checked for that. */
  lemma StillSharedIsChecked(before: Database, after: Database, flags: map<Cell, Flag>, t: Table, c: Column,
                             p: Pk, q: Pk, v: Value)
    requires Exact(before, flags, t, c) && WritesUnique(before, after, t, c) && p != q
    requires LiveValue(after, t, c, p) == Some(v) && LiveValue(after, t, c, q) == Some(v)
    ensures v in Candidates(after, flags, t, c, ConflictKeys(flags, t))
  {
    assert LiveValue(before, t, c, p) == Some(v) && LiveValue(before, t, c, q) == Some(v);
    var k := Keeper(before, t, c, v);
    var flagged := if p == k then q else p;
    assert Stored(flags, t, c, flagged) == Expected(before, t, c, flagged) == Some((v, k));
    assert Cell(t, flagged, c) in flags && flagged in ConflictKeys(flags, t);
  }

  /** After a local write it is enough to re-check the rows that were in a conflict before. */
  lemma LocalDetectionKeepsExact(before: Database, after: Database, flags: map<Cell, Flag>, flags': map<Cell, Flag>,
                                 rules: seq<Rule>, now: Time, t: Table, c: Column)
    requires Exact(before, flags, t, c) && WritesUnique(before, after, t, c)
    requires Rule(t, c) in rules && IsDetection(after, rules, flags, now, t, ConflictKeys(flags, t), flags')
    ensures Exact(after, flags', t, c)
  {
    var checked := Candidates(after, flags, t, c, ConflictKeys(flags, t));
    forall p ensures Stored(flags', t, c, p) == Expected(after, t, c, p) {
      var want, cell := Expected(after, t, c, p), Cell(t, p, c);
      assert Lookup(flags', cell) == Rechecked(after, flags, now, t, c, checked, p);
      if want.Some? {
        StillSharedIsChecked(before, after, flags, t, c, p, want.value.1, want.value.0);
      }
      if cell in flags {
        assert cell.pk in ConflictKeys(flags, t);
      }
    }
  }

  /** A row saved with a value that no other live row holds: the check a local write makes. */
  lemma CheckedSaveWritesUnique(before: Database, after: Database, t: Table, c: Column, self: Pk)
    requires ChangedOnly(before, after, t, c, {self})
    requires LiveValue(after, t, c, self).None? ||
             forall q | q != self :: LiveValue(after, t, c, q) != LiveValue(after, t, c, self)
    ensures WritesUnique(before, after, t, c)
  {
  }

  // ---------- Runs ----------

  /** A transaction: the tables it writes. */
  datatype Batch = Batch(parts: seq<Part>, now: Time)

  /** What is known of the writes to the table. */
  ghost predicate IsCovered(before: Database, after: Database, part: Part, c: Column) {
    match part
    case Remote(t, pks) => ChangedOnly(before, after, t, c, pks)
    case Local(t) => WritesUnique(before, after, t, c)
  }

  ghost predicate IsStep(rules: seq<Rule>, before: Database, after: Database, batch: Batch, flags: map<Cell, Flag>,
                         flags': map<Cell, Flag>)
  {
    && (forall i, j | 0 <= i < j < |batch.parts| :: batch.parts[i].table != batch.parts[j].table)
    && AreDetected(rules, after, batch.now, batch.parts, flags, flags')
    && forall rule | rule in rules ::
         (forall part | part in batch.parts && part.table == rule.table ::
            IsCovered(before, after, part, rule.column)) &&
         ((forall part | part in batch.parts :: part.table != rule.table) ==>
            ChangedOnly(before, after, rule.table, rule.column, {}))
  }

  /** `dbs` and `flags` list the content and the index before the first and after each batch. */
  ghost predicate IsRun(rules: seq<Rule>, dbs: seq<Database>, batches: seq<Batch>, flags: seq<map<Cell, Flag>>) {
    && |dbs| == |flags| == |batches| + 1
    && forall i {:trigger batches[i]} | 0 <= i < |batches| ::
         IsStep(rules, dbs[i], dbs[i + 1], batches[i], flags[i], flags[i + 1])
  }

  lemma OtherTableStaysExact(db: Database, content: Database, rules: seq<Rule>, now: Time, part: Part,
                             flags: map<Cell, Flag>, flags': map<Cell, Flag>, t: Table, c: Column)
    requires IsDetection(db, rules, flags, now, part.table, PartKeys(flags, part), flags') && part.table != t
    requires Exact(content, flags, t, c)
    ensures Exact(content, flags', t, c)
  {
    forall p ensures Stored(flags', t, c, p) == Expected(content, t, c, p) {
      assert Lookup(flags', Cell(t, p, c)) == Lookup(flags, Cell(t, p, c));
      assert Stored(flags, t, c, p) == Expected(content, t, c, p);
    }
  }

  lemma PartKeepsExact(before: Database, after: Database, rules: seq<Rule>, now: Time, part: Part,
                       flags: map<Cell, Flag>, flags': map<Cell, Flag>, c: Column)
    requires IsDetection(after, rules, flags, now, part.table, PartKeys(flags, part), flags')
    requires Rule(part.table, c) in rules && IsCovered(before, after, part, c) && Exact(before, flags, part.table, c)
    ensures Exact(after, flags', part.table, c)
  {
    match part
    case Remote(t, pks) => DetectionKeepsExact(before, after, flags, flags', rules, now, t, c, pks);
    case Local(t) => LocalDetectionKeepsExact(before, after, flags, flags', rules, now, t, c);
  }

  /** After the first `n` tables the index is exact for the new content where they have been checked. */
  lemma {:induction false} PartsKeepExact(before: Database, after: Database, rules: seq<Rule>, now: Time,
                                          parts: seq<Part>, chain: seq<map<Cell, Flag>>, t: Table, c: Column, n: nat)
    requires forall i, j | 0 <= i < j < |parts| :: parts[i].table != parts[j].table
    requires IsChain(rules, after, now, parts, chain) && n <= |parts|
    requires forall part | part in parts && part.table == t :: IsCovered(before, after, part, c)
    requires Rule(t, c) in rules && Exact(before, chain[0], t, c)
    ensures Exact(if exists part :: part in parts[..n] && part.table == t then after else before, chain[n], t, c)
  {
    if n > 0 {
      PartsKeepExact(before, after, rules, now, parts, chain, t, c, n - 1);
      var part := parts[n - 1];
      assert parts[..n] == parts[..n - 1] + [part];
      if part.table == t {
        assert forall i | 0 <= i < n - 1 :: parts[..n - 1][i] == parts[i];
        PartKeepsExact(before, after, rules, now, part, chain[n - 1], chain[n], c);
      } else {
        var content := if exists x :: x in parts[..n - 1] && x.table == t then after else before;
        OtherTableStaysExact(after, content, rules, now, part, chain[n - 1], chain[n], t, c);
      }
    }
  }

  lemma UnchangedStaysExact(before: Database, after: Database, flags: map<Cell, Flag>, rules: seq<Rule>, t: Table,
                            c: Column)
    requires Exact(before, flags, t, c) && ChangedOnly(before, after, t, c, {}) && Rule(t, c) in rules
    ensures Exact(after, flags, t, c)
  {
    forall column ensures Candidates(after, flags, t, column, {}) == {} {
    }
    DetectionKeepsExact(before, after, flags, flags, [Rule(t, c)], 0, t, c, {});
  }

  /** A transaction keeps the index exact in every column with a rule, of the tables written and of the others. */
  lemma StepKeepsExact(rules: seq<Rule>, before: Database, after: Database, batch: Batch, flags: map<Cell, Flag>,
                       flags': map<Cell, Flag>, t: Table, c: Column)
    requires IsStep(rules, before, after, batch, flags, flags') && Rule(t, c) in rules && Exact(before, flags, t, c)
    ensures Exact(after, flags', t, c)
  {
    var parts := batch.parts;
    var chain :| IsChain(rules, after, batch.now, parts, chain) && chain[0] == flags && chain[|parts|] == flags';
    var rule := Rule(t, c);
    assert rule in rules && rule.table == t && rule.column == c;
    PartsKeepExact(before, after, rules, batch.now, parts, chain, t, c, |parts|);
    assert parts[..|parts|] == parts;
    if forall part | part in parts :: part.table != t {
      UnchangedStaysExact(before, after, flags', rules, t, c);
    }
  }

  lemma StepOfRunKeepsExact(rules: seq<Rule>, dbs: seq<Database>, batches: seq<Batch>, flags: seq<map<Cell, Flag>>,
                            i: nat, t: Table, c: Column)
    requires Rule(t, c) in rules && IsRun(rules, dbs, batches, flags) && i < |batches|
    ensures Exact(dbs[i], flags[i], t, c) ==> Exact(dbs[i + 1], flags[i + 1], t, c)
  {
    assert IsStep(rules, dbs[i], dbs[i + 1], batches[i], flags[i], flags[i + 1]);
    if Exact(dbs[i], flags[i], t, c) {
      StepKeepsExact(rules, dbs[i], dbs[i + 1], batches[i], flags[i], flags[i + 1], t, c);
    }
  }

  /** Over every run of transactions, of other devices and local ones, the index stays what a full scan finds. */
  lemma {:induction false} EveryRunIsExact(rules: seq<Rule>, t: Table, c: Column, dbs: seq<Database>,
                                           batches: seq<Batch>, flags: seq<map<Cell, Flag>>, n: nat)
    requires Rule(t, c) in rules && IsRun(rules, dbs, batches, flags) && Exact(dbs[0], flags[0], t, c)
    requires n <= |batches|
    ensures Exact(dbs[n], flags[n], t, c)
  {
    if n > 0 {
      EveryRunIsExact(rules, t, c, dbs, batches, flags, n - 1);
      StepOfRunKeepsExact(rules, dbs, batches, flags, n - 1, t, c);
    }
  }

  /** Two devices that reach the same content flag the same rows, however the changes were split and who made them. */
  lemma SplittingDoesNotMatter(rules: seq<Rule>, t: Table, c: Column, dbs: seq<Database>, dbs': seq<Database>,
                               batches: seq<Batch>, batches': seq<Batch>,
                               flags: seq<map<Cell, Flag>>, flags': seq<map<Cell, Flag>>)
    requires Rule(t, c) in rules
    requires IsRun(rules, dbs, batches, flags) && Exact(dbs[0], flags[0], t, c)
    requires IsRun(rules, dbs', batches', flags') && Exact(dbs'[0], flags'[0], t, c)
    requires dbs[|batches|] == dbs'[|batches'|]
    ensures forall p :: Stored(flags[|batches|], t, c, p) == Stored(flags'[|batches'|], t, c, p)
  {
    EveryRunIsExact(rules, t, c, dbs, batches, flags, |batches|);
    EveryRunIsExact(rules, t, c, dbs', batches', flags', |batches'|);
    var db := dbs[|batches|];
    forall p ensures Stored(flags[|batches|], t, c, p) == Stored(flags'[|batches'|], t, c, p) {
      assert Stored(flags[|batches|], t, c, p) == Expected(db, t, c, p);
    }
  }

  /** What exactness means row by row: a live row is flagged just when an older row holds its value. */
  lemma ExactMeans(db: Database, flags: map<Cell, Flag>, t: Table, c: Column, p: Pk)
    requires Exact(db, flags, t, c)
    ensures Cell(t, p, c) in flags <==>
      LiveValue(db, t, c, p).Some? &&
      exists q :: LiveValue(db, t, c, q) == LiveValue(db, t, c, p) && Older(db, t, c, q, p)
    ensures Cell(t, p, c) in flags ==>
      var flag := flags[Cell(t, p, c)];
      LiveValue(db, t, c, p) == Some(flag.value) && IsOldest(db, t, c, Holders(db, t, c, flag.value), flag.kept)
  {
    assert Stored(flags, t, c, p) == Expected(db, t, c, p);
    if LiveValue(db, t, c, p).Some? {
      var k := Keeper(db, t, c, LiveValue(db, t, c, p).value);
      if k == p {
        forall q | LiveValue(db, t, c, q) == LiveValue(db, t, c, p) ensures !Older(db, t, c, q, p) {
          OlderIsTotal(db, t, c, p, q);
          LessIsTotal(p, q);
          var a := ClockOf(db, t, c, p);
          LessIsTotal(a.hlc, a.hlc);
          LessIsTotal(a.device, a.device);
        }
      } else {
        assert Older(db, t, c, k, p);
      }
    }
  }

  /** A row without a field clock keeps its value against every row with one, as epochs are never negative. */
  lemma UnclockedRowIsOldest(db: Database, t: Table, c: Column, p: Pk, q: Pk)
    requires Cell(t, p, c) !in db.clocks && Cell(t, q, c) in db.clocks
    requires ClockOf(db, t, c, q).epoch >= 0 && ClockOf(db, t, c, q) != Clock(0, "", "")
    ensures Older(db, t, c, p, q)
  {
  }

  /** A row that is not deleted and has the value in the column. */
  ghost predicate Holds(db: Database, t: Table, c: Column, p: Pk, v: Value) {
    var key := RowKey(t, p);
    && key in db.rows && !db.rows[key].deleted
    && c in db.rows[key].columns && db.rows[key].columns[c] == v
  }

  /** The row got its value before the other one did; without a clock it is the earliest. */
  ghost predicate HeldEarlier(db: Database, t: Table, c: Column, p: Pk, q: Pk) {
    var none := Clock(0, "", "");
    var a := if Cell(t, p, c) in db.clocks then db.clocks[Cell(t, p, c)] else none;
    var b := if Cell(t, q, c) in db.clocks then db.clocks[Cell(t, q, c)] else none;
    Precedes(a, b) || (a == b && ComesBefore(p, q))
  }

  lemma OlderMeans(db: Database, t: Table, c: Column, p: Pk, q: Pk)
    ensures Older(db, t, c, p, q) <==> HeldEarlier(db, t, c, p, q)
  {
    ClockLessMeans(ClockOf(db, t, c, p), ClockOf(db, t, c, q));
    LessMeans(p, q);
  }

  /** The flags in terms of rows and clocks: a row is flagged just when another live row has held its value earlier. */
  lemma FlagsMean(db: Database, flags: map<Cell, Flag>, t: Table, c: Column, p: Pk)
    requires Exact(db, flags, t, c)
    ensures Cell(t, p, c) in flags <==>
      exists v, q :: Holds(db, t, c, p, v) && Holds(db, t, c, q, v) && HeldEarlier(db, t, c, q, p)
    ensures Cell(t, p, c) in flags ==>
      var flag := flags[Cell(t, p, c)];
      && Holds(db, t, c, p, flag.value) && Holds(db, t, c, flag.kept, flag.value)
      && forall q | q != flag.kept && Holds(db, t, c, q, flag.value) :: HeldEarlier(db, t, c, flag.kept, q)
  {
    ExactMeans(db, flags, t, c, p);
    forall q, v ensures Holds(db, t, c, q, v) <==> LiveValue(db, t, c, q) == Some(v) {
    }
    forall q, r ensures Older(db, t, c, q, r) <==> HeldEarlier(db, t, c, q, r) {
      OlderMeans(db, t, c, q, r);
    }
    if Cell(t, p, c) in flags {
      var q :| LiveValue(db, t, c, q) == LiveValue(db, t, c, p) && Older(db, t, c, q, p);
      assert Holds(db, t, c, p, LiveValue(db, t, c, p).value) && Holds(db, t, c, q, LiveValue(db, t, c, p).value);
    }
  }

  /** The row that has held a value longest keeps it, and all others are flagged for it. */
  lemma EarliestKeeps(db: Database, flags: map<Cell, Flag>, t: Table, c: Column, v: Value, p: Pk, q: Pk)
    requires Exact(db, flags, t, c) && Holds(db, t, c, p, v)
    requires forall r | r != p && Holds(db, t, c, r, v) :: HeldEarlier(db, t, c, p, r)
    requires q != p && Holds(db, t, c, q, v)
    ensures Cell(t, p, c) !in flags
    ensures Cell(t, q, c) in flags && flags[Cell(t, q, c)].value == v && flags[Cell(t, q, c)].kept == p
  {
    FlagsMean(db, flags, t, c, p);
    FlagsMean(db, flags, t, c, q);
    forall r ensures HeldEarlier(db, t, c, p, r) && HeldEarlier(db, t, c, r, p) ==> false {
      OlderMeans(db, t, c, p, r);
      OlderMeans(db, t, c, r, p);
      NotOlderBothWays(db, t, c, p, r);
    }
  }

  lemma NotOlderBothWays(db: Database, t: Table, c: Column, p: Pk, q: Pk)
    ensures !(Older(db, t, c, p, q) && Older(db, t, c, q, p))
  {
    OlderIsTotal(db, t, c, p, q);
    LessIsTotal(p, q);
    var a := ClockOf(db, t, c, p);
    LessIsTotal(a.hlc, a.hlc);
    LessIsTotal(a.device, a.device);
  }

  /** Of two clocks of one epoch that first differ at x and y, the row with the smaller is not flagged for the other. */
  lemma LaterClockIsFlagged(db: Database, flags: map<Cell, Flag>, t: Table, c: Column, p: Pk, q: Pk,
                            head: string, x: char, u: string, y: char, v: string)
    requires Exact(db, flags, t, c) && Cell(t, p, c) in db.clocks && Cell(t, q, c) in db.clocks && x < y
    requires db.clocks[Cell(t, p, c)].epoch == db.clocks[Cell(t, q, c)].epoch
    requires db.clocks[Cell(t, p, c)].hlc == head + [x] + u && db.clocks[Cell(t, q, c)].hlc == head + [y] + v
    ensures Cell(t, p, c) in flags ==> flags[Cell(t, p, c)].kept != q
  {
    FirstDifferenceDecides(head, x, u, y, v);
    FlagsMean(db, flags, t, c, p);
    OlderMeans(db, t, c, q, p);
    LessIsTotal(head + [x] + u, head + [y] + v);
  }
}
