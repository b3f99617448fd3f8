/**
 * Applying changes of other devices (server/internal/sync/replica/apply.go): the last writer wins field by field, and a
 * change whose row or reference is missing waits. Devices that have seen the same changes end up alike, in whatever
 * order the changes came.
 */
module Replica {

  import opened Wrappers
  import opened Order
  import opened Conflicts

  datatype RowId = RowId(table: Table, pk: map<Column, Value>)

  datatype Field = Field(row: RowId, column: Column)

  /** A write of some columns of one row, None for NULL, each with its clock. */
  datatype Change = Change(row: RowId, values: map<Column, Option<Value>>, clocks: map<Column, Clock>)

  /** A column that holds the id of a row of the target table. */
  datatype Ref = Ref(table: Table, from: Column, target: Table)

  /** `required` are the columns besides the primary key that are not NULL and have no default. */
  datatype Schema = Schema(required: set<Rule>, refs: set<Ref>, defaults: map<Table, map<Column, Value>>)

  /** Rows hold their columns that are not NULL. */
  datatype State = State(rows: map<RowId, map<Column, Value>>, clocks: map<Field, Clock>)

  const EMPTY: State := State(map[], map[])

  /** What a change has to look like: each column has a clock, and key columns are set to the key only. */
  predicate WellFormed(ch: Change) {
    && ch.values != map[] && ch.clocks.Keys == ch.values.Keys
    && forall c | c in ch.values && c in ch.row.pk :: ch.values[c] == Some(ch.row.pk[c])
  }

  // ---------- Applying one change ----------

  predicate IsNewer(s: State, ch: Change, c: Column)
    requires c in ch.clocks
  {
    var field := Field(ch.row, c);
    field !in s.clocks || ClockLess(s.clocks[field], ch.clocks[c])
  }

  /** The columns whose clock in the change is newer than the stored one. */
  function Winning(s: State, ch: Change): set<Column>
    requires WellFormed(ch)
  {
    set c | c in ch.values && IsNewer(s, ch, c)
  }

  /** The value that would be written to a referencing column. */
  function Referenced(s: State, ch: Change, from: Column): Option<Value>
    requires WellFormed(ch)
  {
    if from in Winning(s, ch) then ch.values[from]
    else if ch.row !in s.rows && from in ch.row.pk then Some(ch.row.pk[from])
    else None
  }

  function RowOf(target: Table, id: Value): RowId {
    RowId(target, map["id" := id])
  }

  /** A new row gets all required columns. */
  predicate HasRequired(schema: Schema, s: State, ch: Change)
    requires WellFormed(ch)
  {
    ch.row in s.rows ||
    forall rule | rule in schema.required && rule.table == ch.row.table && rule.column !in ch.row.pk ::
      rule.column in Winning(s, ch) && ch.values[rule.column].Some?
  }

  predicate HasTarget(s: State, ch: Change, ref: Ref)
    requires WellFormed(ch)
  {
    var v := Referenced(s, ch, ref.from);
    v.Some? ==> RowOf(ref.target, v.value) in s.rows
  }

  predicate CanApply(schema: Schema, s: State, ch: Change)
    requires WellFormed(ch)
  {
    && HasRequired(schema, s, ch)
    && forall ref | ref in schema.refs && ref.table == ch.row.table :: HasTarget(s, ch, ref)
  }

  /** A row as it is inserted, before the columns of the change are written. */
  function Base(schema: Schema, row: RowId): map<Column, Value> {
    (if row.table in schema.defaults then schema.defaults[row.table] else map[]) + row.pk
  }

  /** Columns written over a row. */
  function Overwritten(row: map<Column, Value>, values: map<Column, Option<Value>>, win: set<Column>)
    : map<Column, Value>
    requires win <= values.Keys
  {
    map c | c in row.Keys + win && (c in win ==> values[c].Some?) :: if c in win then values[c].value else row[c]
  }

  function WrittenClocks(s: State, ch: Change, win: set<Column>): map<Field, Clock>
    requires win <= ch.clocks.Keys
  {
    s.clocks + map c | c in win :: Field(ch.row, c) := ch.clocks[c]
  }

  function Applied(schema: Schema, s: State, ch: Change): State
    requires WellFormed(ch)
  {
    var win := Winning(s, ch);
    if win == {} then s
    else
      var row := if ch.row in s.rows then s.rows[ch.row] else Base(schema, ch.row);
      var written := if ch.row in s.rows then win - ch.row.pk.Keys else win;
      State(s.rows[ch.row := Overwritten(row, ch.values, written)], WrittenClocks(s, ch, win))
  }

  // ---------- Logs of applied changes ----------

  predicate AllWellFormed(log: seq<Change>) {
    forall ch | ch in log :: WellFormed(ch)
  }

  function Replayed(schema: Schema, log: seq<Change>): State
    requires AllWellFormed(log)
  {
    if log == [] then EMPTY else Applied(schema, Replayed(schema, log[..|log| - 1]), log[|log| - 1])
  }

  /** Each change of the log could be applied when its turn came. */
  predicate CanReplay(schema: Schema, log: seq<Change>)
    requires AllWellFormed(log)
  {
    log == [] || (CanReplay(schema, log[..|log| - 1]) &&
                  CanApply(schema, Replayed(schema, log[..|log| - 1]), log[|log| - 1]))
  }

  function ValueOf(s: State, field: Field): Option<Value> {
    if field.row in s.rows && field.column in s.rows[field.row] then Some(s.rows[field.row][field.column]) else None
  }

  /** The field carries the clock and the value the change wrote. */
  predicate CameFrom(s: State, field: Field, ch: Change)
    requires WellFormed(ch)
  {
    && ch.row == field.row && field.column in ch.values && field in s.clocks
    && s.clocks[field] == ch.clocks[field.column] && ValueOf(s, field) == ch.values[field.column]
  }

  ghost predicate RowsAreWritten(s: State, log: seq<Change>) {
    forall row: RowId :: row in s.rows <==> exists ch :: ch in log && ch.row == row
  }

  ghost predicate FieldsAreWritten(s: State, log: seq<Change>)
    requires AllWellFormed(log)
  {
    forall field: Field :: field in s.clocks ==> exists ch :: ch in log && CameFrom(s, field, ch)
  }

  /** No change of the log is newer than what is stored. */
  ghost predicate NothingIsNewer(s: State, log: seq<Change>)
    requires AllWellFormed(log)
  {
    forall ch, c | ch in log && c in ch.values :: !IsNewer(s, ch, c)
  }

  ghost predicate OthersAreBase(schema: Schema, s: State) {
    forall field: Field :: field.row in s.rows && field !in s.clocks ==>
      ValueOf(s, field) == BaseValue(schema, field)
  }

  ghost predicate KeysAreKept(s: State) {
    forall row: RowId, c: Column :: row in s.rows && c in row.pk ==> ValueOf(s, Field(row, c)) == Some(row.pk[c])
  }

  /** The state holds the newest write of every field of the log, whatever the order of the log. */
  ghost predicate HoldsNewest(schema: Schema, s: State, log: seq<Change>)
    requires AllWellFormed(log)
  {
    && RowsAreWritten(s, log) && FieldsAreWritten(s, log) && NothingIsNewer(s, log) && OthersAreBase(schema, s)
    && KeysAreKept(s)
  }

  lemma ClockLessIsTotal(a: Clock, b: Clock)
    ensures ClockLess(a, b) || a == b || ClockLess(b, a)
    ensures !(ClockLess(a, b) && ClockLess(b, a)) && !ClockLess(a, a)
  {
    LessIsTotal(a.hlc, b.hlc);
    LessIsTotal(a.device, b.device);
    LessIsTotal(a.device, a.device);
    LessIsTotal(a.hlc, a.hlc);
  }

  lemma ClockLessIsTransitive(a: Clock, b: Clock, c: Clock)
    requires ClockLess(a, b) && ClockLess(b, c)
    ensures ClockLess(a, c)
  {
    LessIsTotal(a.hlc, b.hlc);
    LessIsTotal(b.hlc, c.hlc);
    if Less(a.hlc, b.hlc) && Less(b.hlc, c.hlc) {
      LessIsTransitive(a.hlc, b.hlc, c.hlc);
    }
    if Less(a.device, b.device) && Less(b.device, c.device) {
      LessIsTransitive(a.device, b.device, c.device);
    }
  }

  predicate SameField(s: State, s': State, field: Field) {
    && (field in s'.clocks <==> field in s.clocks)
    && (field in s.clocks ==> s'.clocks[field] == s.clocks[field])
    && ValueOf(s', field) == ValueOf(s, field)
  }

  function BaseValue(schema: Schema, field: Field): Option<Value> {
    var base := Base(schema, field.row);
    if field.column in base then Some(base[field.column]) else None
  }

  lemma WrittenField(schema: Schema, s: State, ch: Change, c: Column)
    requires WellFormed(ch) && KeysAreKept(s) && c in Winning(s, ch)
    ensures CameFrom(Applied(schema, s, ch), Field(ch.row, c), ch)
  {
    if ch.row in s.rows && c in ch.row.pk {
      assert ValueOf(s, Field(ch.row, c)) == Some(ch.row.pk[c]);
    }
  }

  lemma UnwrittenField(schema: Schema, s: State, ch: Change, field: Field)
    requires WellFormed(ch) && (field.row != ch.row || field.column !in Winning(s, ch))
    ensures field.row != ch.row || ch.row in s.rows ==> SameField(s, Applied(schema, s, ch), field)
    ensures field.row == ch.row && ch.row !in s.rows && Winning(s, ch) != {} ==>
      var s' := Applied(schema, s, ch);
      (field in s'.clocks <==> field in s.clocks) && ValueOf(s', field) == BaseValue(schema, field)
  {
    assert field == Field(field.row, field.column);
  }

  lemma EmptyWin(s: State, log: seq<Change>, ch: Change)
    requires AllWellFormed(log) && WellFormed(ch) && RowsAreWritten(s, log) && FieldsAreWritten(s, log)
    requires Winning(s, ch) == {}
    ensures ch.row in s.rows
  {
    var c :| c in ch.values;
    assert c !in Winning(s, ch) && !IsNewer(s, ch, c);
    assert Field(ch.row, c) in s.clocks;
  }

  // ---------- Every log leaves the newest writes ----------

  lemma AppliedRows(schema: Schema, s: State, log: seq<Change>, ch: Change)
    requires AllWellFormed(log) && WellFormed(ch) && RowsAreWritten(s, log) && FieldsAreWritten(s, log)
    ensures Applied(schema, s, ch).rows.Keys == s.rows.Keys + {ch.row}
  {
    if Winning(s, ch) == {} {
      EmptyWin(s, log, ch);
    }
  }

  lemma OneMoreRow(s: State, s': State, log: seq<Change>, ch: Change)
    requires RowsAreWritten(s, log) && s'.rows.Keys == s.rows.Keys + {ch.row}
    ensures RowsAreWritten(s', log + [ch])
  {
    var all := log + [ch];
    assert ch in all;
    forall row: RowId ensures row in s'.rows <==> exists x :: x in all && x.row == row {
      if row in s.rows {
        var x :| x in log && x.row == row;
        assert x in all;
      }
    }
  }

  lemma RowsStayWritten(schema: Schema, s: State, log: seq<Change>, ch: Change)
    requires AllWellFormed(log) && WellFormed(ch) && RowsAreWritten(s, log) && FieldsAreWritten(s, log)
    ensures RowsAreWritten(Applied(schema, s, ch), log + [ch])
  {
    AppliedRows(schema, s, log, ch);
    OneMoreRow(s, Applied(schema, s, ch), log, ch);
  }

  lemma FieldStaysWritten(schema: Schema, s: State, log: seq<Change>, ch: Change, field: Field, x: Change)
    requires AllWellFormed(log) && WellFormed(ch) && RowsAreWritten(s, log) && x in log && CameFrom(s, field, x)
    requires field.row != ch.row || field.column !in Winning(s, ch)
    ensures CameFrom(Applied(schema, s, ch), field, x)
  {
    assert field.row in s.rows;
    UnwrittenField(schema, s, ch, field);
  }

  lemma FieldsStayWritten(schema: Schema, s: State, log: seq<Change>, ch: Change)
    requires AllWellFormed(log) && WellFormed(ch) && HoldsNewest(schema, s, log)
    ensures AllWellFormed(log + [ch]) && FieldsAreWritten(Applied(schema, s, ch), log + [ch])
  {
    var s', all := Applied(schema, s, ch), log + [ch];
    assert ch in all;
    forall field: Field | field in s'.clocks
      ensures exists x :: x in all && CameFrom(s', field, x)
    {
      if field.row == ch.row && field.column in Winning(s, ch) {
        WrittenField(schema, s, ch, field.column);
        assert CameFrom(s', field, ch);
      } else {
        UnwrittenField(schema, s, ch, field);
        var x :| x in log && CameFrom(s, field, x);
        FieldStaysWritten(schema, s, log, ch, field, x);
        assert x in all;
      }
    }
  }

  /** Clocks only grow. */
  lemma ClocksGrow(schema: Schema, s: State, ch: Change, x: Change, c: Column)
    requires WellFormed(ch) && WellFormed(x) && c in x.values && !IsNewer(s, x, c)
    ensures !IsNewer(Applied(schema, s, ch), x, c)
  {
    if x.row == ch.row && c in Winning(s, ch) {
      var stored, new_ := s.clocks[Field(x.row, c)], ch.clocks[c];
      if ClockLess(new_, x.clocks[c]) {
        ClockLessIsTransitive(stored, new_, x.clocks[c]);
      }
      assert Applied(schema, s, ch).clocks[Field(x.row, c)] == new_;
    } else {
      UnwrittenClock(schema, s, ch, Field(x.row, c));
    }
  }

  lemma UnwrittenClock(schema: Schema, s: State, ch: Change, field: Field)
    requires WellFormed(ch) && (field.row != ch.row || field.column !in Winning(s, ch)) && field in s.clocks
    ensures field in Applied(schema, s, ch).clocks && Applied(schema, s, ch).clocks[field] == s.clocks[field]
  {
    assert field == Field(field.row, field.column);
  }

  lemma NothingGetsNewer(schema: Schema, s: State, log: seq<Change>, ch: Change)
    requires AllWellFormed(log) && WellFormed(ch) && NothingIsNewer(s, log)
    ensures AllWellFormed(log + [ch]) && NothingIsNewer(Applied(schema, s, ch), log + [ch])
  {
    var s' := Applied(schema, s, ch);
    forall x, c | x in log + [ch] && c in x.values ensures !IsNewer(s', x, c) {
      if x in log {
        ClocksGrow(schema, s, ch, x, c);
      } else if c in Winning(s, ch) {
        assert s'.clocks[Field(ch.row, c)] == ch.clocks[c];
        ClockLessIsTotal(ch.clocks[c], ch.clocks[c]);
      } else {
        ClocksGrow(schema, s, ch, ch, c);
      }
    }
  }

  lemma OthersStayBase(schema: Schema, s: State, log: seq<Change>, ch: Change)
    requires AllWellFormed(log) && WellFormed(ch) && HoldsNewest(schema, s, log)
    ensures OthersAreBase(schema, Applied(schema, s, ch)) && KeysAreKept(Applied(schema, s, ch))
  {
    var s' := Applied(schema, s, ch);
    forall field: Field | field.row in s'.rows && field !in s'.clocks
      ensures ValueOf(s', field) == BaseValue(schema, field)
    {
      if field.row == ch.row && field.column in Winning(s, ch) {
        WrittenField(schema, s, ch, field.column);
      } else {
        UnwrittenField(schema, s, ch, field);
      }
    }
    forall row: RowId, c: Column | row in s'.rows && c in row.pk
      ensures ValueOf(s', Field(row, c)) == Some(row.pk[c])
    {
      if row == ch.row && c in Winning(s, ch) {
        WrittenField(schema, s, ch, c);
      } else {
        UnwrittenField(schema, s, ch, Field(row, c));
      }
    }
  }

  /** Over every log the state holds the newest write of every field. */
  lemma {:induction false} ReplayHoldsNewest(schema: Schema, log: seq<Change>)
    requires AllWellFormed(log)
    ensures HoldsNewest(schema, Replayed(schema, log), log)
  {
    if log != [] {
      var before, ch := log[..|log| - 1], log[|log| - 1];
      assert log == before + [ch];
      ReplayHoldsNewest(schema, before);
      var s := Replayed(schema, before);
      RowsStayWritten(schema, s, before, ch);
      FieldsStayWritten(schema, s, before, ch);
      NothingGetsNewer(schema, s, before, ch);
      OthersStayBase(schema, s, before, ch);
    }
  }

  // ---------- The order does not matter ----------

  /** A clock stands for one write: changes with the same clock for a field carry the same value. */
  ghost predicate ClocksNameWrites(log: seq<Change>)
    requires AllWellFormed(log)
  {
    forall a, b, c | a in log && b in log && a.row == b.row && c in a.values && c in b.values
                     && a.clocks[c] == b.clocks[c] ::
      a.values[c] == b.values[c]
  }

  ghost predicate SameChanges(log: seq<Change>, log': seq<Change>) {
    forall ch :: ch in log <==> ch in log'
  }

  /** Two logs of the same changes leave no field with a newer clock in the one than in the other. */
  lemma SameClocks(schema: Schema, s: State, s': State, log: seq<Change>, log': seq<Change>, field: Field)
    requires AllWellFormed(log) && AllWellFormed(log') && SameChanges(log, log')
    requires FieldsAreWritten(s, log) && NothingIsNewer(s', log') && field in s.clocks
    ensures field in s'.clocks && !ClockLess(s'.clocks[field], s.clocks[field])
  {
    var x :| x in log && CameFrom(s, field, x);
    assert x in log' && !IsNewer(s', x, field.column);
    assert field == Field(x.row, field.column);
  }

  lemma RowsStay(s: State, s': State, log: seq<Change>, log': seq<Change>, row: RowId)
    requires RowsAreWritten(s, log) && RowsAreWritten(s', log') && forall x | x in log :: x in log'
    ensures row in s.rows ==> row in s'.rows
  {
    if row in s.rows {
      var x :| x in log && x.row == row;
      assert x in log';
    }
  }

  lemma SameFieldsMeanSameStates(s: State, s': State)
    requires s.rows.Keys == s'.rows.Keys && forall field: Field :: SameField(s, s', field)
    ensures s == s'
  {
    forall row: RowId | row in s.rows ensures s.rows[row] == s'.rows[row] {
      forall c: Column
        ensures c in s.rows[row] <==> c in s'.rows[row]
        ensures c in s.rows[row] ==> s.rows[row][c] == s'.rows[row][c]
      {
        assert SameField(s, s', Field(row, c));
      }
    }
    forall field: Field
      ensures field in s.clocks <==> field in s'.clocks
      ensures field in s.clocks ==> s.clocks[field] == s'.clocks[field]
    {
      assert SameField(s, s', field);
    }
  }

  lemma SameRows(s: State, s': State, log: seq<Change>, log': seq<Change>)
    requires SameChanges(log, log') && RowsAreWritten(s, log) && RowsAreWritten(s', log')
    ensures s.rows.Keys == s'.rows.Keys
  {
    forall row: RowId ensures row in s.rows <==> row in s'.rows {
      RowsStay(s, s', log, log', row);
      RowsStay(s', s, log', log, row);
    }
  }

  lemma SameStates(schema: Schema, s: State, s': State, log: seq<Change>, log': seq<Change>)
    requires AllWellFormed(log) && AllWellFormed(log') && SameChanges(log, log') && ClocksNameWrites(log)
    requires HoldsNewest(schema, s, log) && HoldsNewest(schema, s', log')
    ensures s == s'
  {
    SameRows(s, s', log, log');
    forall field: Field ensures SameField(s, s', field) {
      SameFields(schema, s, s', log, log', field);
    }
    SameFieldsMeanSameStates(s, s');
  }

  lemma SameFields(schema: Schema, s: State, s': State, log: seq<Change>, log': seq<Change>, field: Field)
    requires AllWellFormed(log) && AllWellFormed(log') && SameChanges(log, log') && ClocksNameWrites(log)
    requires HoldsNewest(schema, s, log) && HoldsNewest(schema, s', log')
    requires field.row in s.rows <==> field.row in s'.rows
    ensures SameField(s, s', field)
  {
    if field in s.clocks {
      SameClocks(schema, s, s', log, log', field);
    }
    if field in s'.clocks {
      SameClocks(schema, s', s, log', log, field);
    }
    if field in s.clocks {
      ClockLessIsTotal(s.clocks[field], s'.clocks[field]);
      var x :| x in log && CameFrom(s, field, x);
      var y :| y in log' && CameFrom(s', field, y);
      assert y in log && x.values[field.column] == y.values[field.column];
    }
  }

  /** The newest write of each field decides: the same changes in any order give the same rows and clocks. */
  lemma OrderDoesNotMatter(schema: Schema, log: seq<Change>, log': seq<Change>)
    requires AllWellFormed(log) && AllWellFormed(log') && SameChanges(log, log') && ClocksNameWrites(log)
    ensures Replayed(schema, log) == Replayed(schema, log')
  {
    ReplayHoldsNewest(schema, log);
    ReplayHoldsNewest(schema, log');
    SameStates(schema, Replayed(schema, log), Replayed(schema, log'), log, log');
  }

  /** The write whose clock comes behind those of all other writes of its field is the one that is held. */
  lemma LastWriterWins(schema: Schema, log: seq<Change>, b: Change, c: Column)
    requires AllWellFormed(log) && ClocksNameWrites(log) && b in log && c in b.values
    requires forall a | a in log && a.row == b.row && c in a.values && a.clocks[c] != b.clocks[c] ::
      Precedes(a.clocks[c], b.clocks[c])
    ensures var s := Replayed(schema, log);
      && Field(b.row, c) in s.clocks && s.clocks[Field(b.row, c)] == b.clocks[c]
      && ValueOf(s, Field(b.row, c)) == b.values[c]
  {
    ReplayHoldsNewest(schema, log);
    var s, field := Replayed(schema, log), Field(b.row, c);
    assert !IsNewer(s, b, c);
    var a :| a in log && CameFrom(s, field, a);
    if a.clocks[c] != b.clocks[c] {
      ClockLessMeans(a.clocks[c], b.clocks[c]);
    }
  }

  /** Of two writes of a field in one epoch whose clocks first differ at x and y, the smaller one is not held. */
  lemma EarlierWriteIsNotHeld(schema: Schema, log: seq<Change>, a: Change, b: Change, c: Column, head: string,
                              x: char, u: string, y: char, v: string)
    requires AllWellFormed(log) && a in log && b in log && a.row == b.row && c in a.values && c in b.values
    requires a.clocks[c].epoch == b.clocks[c].epoch && x < y
    requires a.clocks[c].hlc == head + [x] + u && b.clocks[c].hlc == head + [y] + v
    ensures var s := Replayed(schema, log); Field(b.row, c) in s.clocks && s.clocks[Field(b.row, c)] != a.clocks[c]
  {
    ReplayHoldsNewest(schema, log);
    FirstDifferenceDecides(head, x, u, y, v);
    assert !IsNewer(Replayed(schema, log), b, c);
  }

  lemma NothingWinsTwice(schema: Schema, log: seq<Change>, ch: Change)
    requires AllWellFormed(log) && ch in log
    ensures Winning(Replayed(schema, log), ch) == {} && ch.row in Replayed(schema, log).rows
  {
    ReplayHoldsNewest(schema, log);
    var s := Replayed(schema, log);
    forall c | c in ch.values ensures c !in Winning(s, ch) {
      assert !IsNewer(s, ch, c);
    }
  }

  lemma NothingToWrite(schema: Schema, s: State, ch: Change)
    requires WellFormed(ch) && Winning(s, ch) == {} && ch.row in s.rows
    ensures CanApply(schema, s, ch) && Applied(schema, s, ch) == s
  {
  }

  /** A change that is in the log can be applied again, and nothing happens. */
  lemma ApplyingTwiceChangesNothing(schema: Schema, log: seq<Change>, ch: Change)
    requires AllWellFormed(log) && ch in log
    ensures var s := Replayed(schema, log); CanApply(schema, s, ch) && Applied(schema, s, ch) == s
  {
    NothingWinsTwice(schema, log, ch);
    NothingToWrite(schema, Replayed(schema, log), ch);
  }

  // ---------- What every device keeps ----------

  /** A field that no change has written: its part of the key, else the default of its column, else NULL. */
  lemma OthersAreDefaults(schema: Schema, log: seq<Change>, field: Field)
    requires AllWellFormed(log) && field.row in Replayed(schema, log).rows
    requires forall ch | ch in log && ch.row == field.row :: field.column !in ch.values
    ensures ValueOf(Replayed(schema, log), field) ==
      if field.column in field.row.pk then Some(field.row.pk[field.column])
      else if field.row.table in schema.defaults && field.column in schema.defaults[field.row.table]
      then Some(schema.defaults[field.row.table][field.column])
      else None
  {
    ReplayHoldsNewest(schema, log);
  }

  /** Columns that refer to another row have no default. */
  predicate RefsHaveNoDefault(schema: Schema) {
    forall ref | ref in schema.refs && ref.table in schema.defaults :: ref.from !in schema.defaults[ref.table]
  }

  /** Whatever a row refers to exists. */
  ghost predicate NothingDangles(schema: Schema, s: State) {
    forall row: RowId, ref | row in s.rows && ref in schema.refs && ref.table == row.table && ref.from in s.rows[row] ::
      RowId(ref.target, map["id" := s.rows[row][ref.from]]) in s.rows
  }

  /** What a change leaves in a referring column of its own row. */
  lemma WrittenReference(schema: Schema, s: State, ch: Change, ref: Ref)
    requires WellFormed(ch) && CanApply(schema, s, ch) && RefsHaveNoDefault(schema) && KeysAreKept(s)
    requires ref in schema.refs && ref.table == ch.row.table && Winning(s, ch) != {}
    ensures var v := ValueOf(Applied(schema, s, ch), Field(ch.row, ref.from));
      v.Some? ==> RowId(ref.target, map["id" := v.value]) in s.rows ||
                  (ch.row in s.rows && v == ValueOf(s, Field(ch.row, ref.from)))
  {
    var field := Field(ch.row, ref.from);
    assert HasTarget(s, ch, ref);
    if ref.from in Winning(s, ch) {
      WrittenField(schema, s, ch, ref.from);
    } else {
      UnwrittenField(schema, s, ch, field);
    }
  }

  lemma ApplyingDanglesNothing(schema: Schema, s: State, ch: Change)
    requires WellFormed(ch) && CanApply(schema, s, ch) && RefsHaveNoDefault(schema) && KeysAreKept(s)
    requires NothingDangles(schema, s)
    ensures NothingDangles(schema, Applied(schema, s, ch))
  {
    var s' := Applied(schema, s, ch);
    if Winning(s, ch) != {} {
      forall row: RowId, ref |
          row in s'.rows && ref in schema.refs && ref.table == row.table && ref.from in s'.rows[row]
        ensures RowId(ref.target, map["id" := s'.rows[row][ref.from]]) in s'.rows
      {
        if row == ch.row {
          WrittenReference(schema, s, ch, ref);
        }
      }
    }
  }

  /** However changes are applied, no row ever refers to one that is missing. */
  lemma {:induction false} ReferencesExist(schema: Schema, log: seq<Change>)
    requires AllWellFormed(log) && CanReplay(schema, log) && RefsHaveNoDefault(schema)
    ensures NothingDangles(schema, Replayed(schema, log))
  {
    if log != [] {
      var front := log[..|log| - 1];
      ReferencesExist(schema, front);
      ReplayHoldsNewest(schema, front);
      ApplyingDanglesNothing(schema, Replayed(schema, front), log[|log| - 1]);
    }
  }

  /** No change sets a required column to NULL; the database refuses those that do. */
  predicate RespectsRequired(schema: Schema, ch: Change) {
    forall rule | rule in schema.required && rule.table == ch.row.table && rule.column in ch.values ::
      ch.values[rule.column].Some?
  }

  ghost predicate RequiredAreSet(schema: Schema, s: State) {
    forall row: RowId, rule | row in s.rows && rule in schema.required && rule.table == row.table ::
      rule.column in s.rows[row]
  }

  lemma ApplyingSetsRequired(schema: Schema, s: State, ch: Change)
    requires WellFormed(ch) && CanApply(schema, s, ch) && RespectsRequired(schema, ch) && RequiredAreSet(schema, s)
    ensures RequiredAreSet(schema, Applied(schema, s, ch))
  {
  }

  /** A row that was inserted by a change has all its required columns. */
  lemma {:induction false} RequiredColumnsAreSet(schema: Schema, log: seq<Change>)
    requires AllWellFormed(log) && CanReplay(schema, log) && forall ch | ch in log :: RespectsRequired(schema, ch)
    ensures RequiredAreSet(schema, Replayed(schema, log))
  {
    if log != [] {
      RequiredColumnsAreSet(schema, log[..|log| - 1]);
      ApplyingSetsRequired(schema, Replayed(schema, log[..|log| - 1]), log[|log| - 1]);
    }
  }

  // ---------- Waiting changes ----------

  /** The change would write the value: it is newer than what is stored, or part of the key of a new row. */
  ghost predicate Writes(s: State, ch: Change, c: Column, v: Value)
    requires WellFormed(ch)
  {
    var field := Field(ch.row, c);
    if c in ch.values then
      ch.values[c] == Some(v) && (field in s.clocks ==> Precedes(s.clocks[field], ch.clocks[c]))
    else ch.row !in s.rows && c in ch.row.pk && ch.row.pk[c] == v
  }

  /** Whatever the change would write to the referring column exists. */
  ghost predicate FindsTarget(s: State, ch: Change, ref: Ref)
    requires WellFormed(ch)
  {
    forall v :: Writes(s, ch, ref.from, v) ==> RowId(ref.target, map["id" := v]) in s.rows
  }

  /** The change has a value for each required column that is not part of the key. */
  predicate GivesRequired(schema: Schema, ch: Change) {
    forall rule | rule in schema.required && rule.table == ch.row.table && rule.column !in ch.row.pk ::
      rule.column in ch.values && ch.values[rule.column].Some?
  }

  lemma TargetMeans(schema: Schema, log: seq<Change>, ch: Change, ref: Ref)
    requires AllWellFormed(log) && WellFormed(ch)
    ensures HasTarget(Replayed(schema, log), ch, ref) <==> FindsTarget(Replayed(schema, log), ch, ref)
  {
    ReplayHoldsNewest(schema, log);
    var s, field := Replayed(schema, log), Field(ch.row, ref.from);
    ClockedRowExists(s, log, field);
    if ref.from in ch.values && field in s.clocks {
      ClockLessMeans(s.clocks[field], ch.clocks[ref.from]);
    }
    ReferencedMeans(s, ch, ref.from);
  }

  lemma ReferencedMeans(s: State, ch: Change, c: Column)
    requires WellFormed(ch)
    requires Field(ch.row, c) in s.clocks ==> ch.row in s.rows
    requires c in ch.values && Field(ch.row, c) in s.clocks ==>
      (ClockLess(s.clocks[Field(ch.row, c)], ch.clocks[c]) <==> Precedes(s.clocks[Field(ch.row, c)], ch.clocks[c]))
    ensures forall v :: Writes(s, ch, c, v) <==> Referenced(s, ch, c) == Some(v)
  {
  }

  lemma RequiredMeans(schema: Schema, log: seq<Change>, ch: Change)
    requires AllWellFormed(log) && WellFormed(ch)
    ensures HasRequired(schema, Replayed(schema, log), ch) <==>
            ch.row in Replayed(schema, log).rows || GivesRequired(schema, ch)
  {
    ReplayHoldsNewest(schema, log);
    if ch.row !in Replayed(schema, log).rows {
      UnknownRowWins(Replayed(schema, log), log, ch);
    }
  }

  /** When a change can be applied: a new row is given its required columns, and what it refers to exists. */
  lemma CanApplyMeans(schema: Schema, log: seq<Change>, ch: Change)
    requires AllWellFormed(log) && WellFormed(ch)
    ensures var s := Replayed(schema, log);
      CanApply(schema, s, ch) <==>
        (ch.row in s.rows || GivesRequired(schema, ch)) &&
        forall ref | ref in schema.refs && ref.table == ch.row.table :: FindsTarget(s, ch, ref)
  {
    RequiredMeans(schema, log, ch);
    forall ref: Ref ensures HasTarget(Replayed(schema, log), ch, ref) <==> FindsTarget(Replayed(schema, log), ch, ref) {
      TargetMeans(schema, log, ch, ref);
    }
  }

  lemma NewerStaysNewer(s: State, s': State, log: seq<Change>, log': seq<Change>, ch: Change, c: Column)
    requires AllWellFormed(log) && AllWellFormed(log') && forall x | x in log :: x in log'
    requires FieldsAreWritten(s, log) && NothingIsNewer(s', log') && WellFormed(ch) && c in ch.values
    ensures IsNewer(s', ch, c) ==> IsNewer(s, ch, c)
  {
    var field := Field(ch.row, c);
    if field in s.clocks && IsNewer(s', ch, c) {
      var x :| x in log && CameFrom(s, field, x);
      assert !IsNewer(s', x, c);
      var now, then_ := s'.clocks[field], s.clocks[field];
      ClockLessIsTotal(now, then_);
      if ClockLess(then_, now) {
        ClockLessIsTransitive(then_, now, ch.clocks[c]);
      }
    }
  }

  lemma ClockedRowExists(s: State, log: seq<Change>, field: Field)
    requires AllWellFormed(log) && RowsAreWritten(s, log) && FieldsAreWritten(s, log)
    ensures field in s.clocks ==> field.row in s.rows
  {
  }

  lemma UnknownRowWins(s: State, log: seq<Change>, ch: Change)
    requires AllWellFormed(log) && RowsAreWritten(s, log) && FieldsAreWritten(s, log) && WellFormed(ch)
    requires ch.row !in s.rows
    ensures Winning(s, ch) == ch.values.Keys
  {
    forall c | c in ch.values ensures IsNewer(s, ch, c) {
      ClockedRowExists(s, log, Field(ch.row, c));
    }
  }

  lemma ReferenceStays(schema: Schema, s: State, s': State, log: seq<Change>, log': seq<Change>, ch: Change,
                       from: Column)
    requires AllWellFormed(log) && AllWellFormed(log') && forall x | x in log :: x in log'
    requires HoldsNewest(schema, s, log) && HoldsNewest(schema, s', log') && WellFormed(ch)
    ensures Referenced(s', ch, from).Some? ==> Referenced(s, ch, from) == Referenced(s', ch, from)
  {
    if from in Winning(s', ch) {
      NewerStaysNewer(s, s', log, log', ch, from);
    } else if ch.row !in s'.rows {
      RowsStay(s, s', log, log', ch.row);
      UnknownRowWins(s', log', ch);
      UnknownRowWins(s, log, ch);
    }
  }

  lemma TargetStays(schema: Schema, s: State, s': State, log: seq<Change>, log': seq<Change>, ch: Change, ref: Ref)
    requires AllWellFormed(log) && AllWellFormed(log') && forall x | x in log :: x in log'
    requires HoldsNewest(schema, s, log) && HoldsNewest(schema, s', log') && WellFormed(ch)
    requires HasTarget(s, ch, ref)
    ensures HasTarget(s', ch, ref)
  {
    var v := Referenced(s', ch, ref.from);
    if v.Some? {
      ReferenceStays(schema, s, s', log, log', ch, ref.from);
      RowsStay(s, s', log, log', RowOf(ref.target, v.value));
    }
  }

  /** What can be applied after some changes can still be applied after more of them. */
  lemma CanStillApply(schema: Schema, log: seq<Change>, log': seq<Change>, ch: Change)
    requires AllWellFormed(log) && AllWellFormed(log') && WellFormed(ch) && forall x | x in log :: x in log'
    requires CanApply(schema, Replayed(schema, log), ch)
    ensures CanApply(schema, Replayed(schema, log'), ch)
  {
    ReplayHoldsNewest(schema, log);
    ReplayHoldsNewest(schema, log');
    var s, s' := Replayed(schema, log), Replayed(schema, log');
    RowsStay(s, s', log, log', ch.row);
    if ch.row !in s'.rows {
      UnknownRowWins(s, log, ch);
      UnknownRowWins(s', log', ch);
    }
    forall ref | ref in schema.refs && ref.table == ch.row.table ensures HasTarget(s', ch, ref) {
      TargetStays(schema, s, s', log, log', ch, ref);
    }
  }

  /** None of the waiting changes can be applied. */
  ghost predicate IsSettled(schema: Schema, s: State, waiting: seq<Change>)
    requires AllWellFormed(waiting)
  {
    forall ch | ch in waiting :: !CanApply(schema, s, ch)
  }

  ghost predicate SameSeen(log: seq<Change>, waiting: seq<Change>, log': seq<Change>, waiting': seq<Change>) {
    forall ch :: (ch in log || ch in waiting) <==> (ch in log' || ch in waiting')
  }

  /** What one device has applied, another one that has seen the same changes has applied too. */
  lemma {:induction false} AppliedThere(schema: Schema, log: seq<Change>, waiting: seq<Change>,
                                        log': seq<Change>, waiting': seq<Change>, n: nat)
    requires AllWellFormed(log) && AllWellFormed(log') && AllWellFormed(waiting')
    requires CanReplay(schema, log) && SameSeen(log, waiting, log', waiting')
    requires IsSettled(schema, Replayed(schema, log'), waiting') && n <= |log|
    ensures forall ch | ch in log[..n] :: ch in log'
    decreases n
  {
    if n > 0 {
      AppliedThere(schema, log, waiting, log', waiting', n - 1);
      var before, ch := log[..n - 1], log[n - 1];
      assert log[..n] == before + [ch];
      ReplayedPrefix(schema, log, n);
      assert ch in log;
      CanStillApply(schema, before, log', ch);
    }
  }

  lemma {:induction false} ReplayedPrefix(schema: Schema, log: seq<Change>, n: nat)
    requires AllWellFormed(log) && CanReplay(schema, log) && 0 < n <= |log|
    ensures AllWellFormed(log[..n - 1]) && CanApply(schema, Replayed(schema, log[..n - 1]), log[n - 1])
    decreases |log|
  {
    if n < |log| {
      var front := log[..|log| - 1];
      ReplayedPrefix(schema, front, n);
      assert front[..n - 1] == log[..n - 1] && front[n - 1] == log[n - 1];
    } else {
      LastCanApply(schema, log);
    }
  }

  lemma LastCanApply(schema: Schema, log: seq<Change>)
    requires AllWellFormed(log) && CanReplay(schema, log) && log != []
    ensures AllWellFormed(log[..|log| - 1])
    ensures CanApply(schema, Replayed(schema, log[..|log| - 1]), log[|log| - 1])
  {
  }

  /**
   * Two devices that have seen the same changes, in any order and with any of them waiting in between, end up with the
   * same rows and clocks, and with the same changes still waiting.
   */
  lemma DevicesConverge(schema: Schema, log: seq<Change>, waiting: seq<Change>, log': seq<Change>,
                        waiting': seq<Change>)
    requires AllWellFormed(log) && AllWellFormed(waiting) && AllWellFormed(log') && AllWellFormed(waiting')
    requires CanReplay(schema, log) && CanReplay(schema, log') && SameSeen(log, waiting, log', waiting')
    requires IsSettled(schema, Replayed(schema, log), waiting) && IsSettled(schema, Replayed(schema, log'), waiting')
    requires ClocksNameWrites(log)
    ensures Replayed(schema, log) == Replayed(schema, log')
    ensures SameChanges(log, log') && SameChanges(waiting, waiting')
  {
    AppliedThere(schema, log, waiting, log', waiting', |log|);
    AppliedThere(schema, log', waiting', log, waiting, |log'|);
    assert log[..|log|] == log && log'[..|log'|] == log';
    OrderDoesNotMatter(schema, log, log');
    forall ch ensures ch in waiting <==> ch in waiting' {
      if ch in waiting && ch in log {
        ApplyingTwiceChangesNothing(schema, log, ch);
      }
      if ch in waiting' && ch in log' {
        ApplyingTwiceChangesNothing(schema, log', ch);
      }
    }
  }

  lemma OneMoreApplied(schema: Schema, log: seq<Change>, ch: Change)
    requires AllWellFormed(log) && CanReplay(schema, log) && WellFormed(ch)
    requires CanApply(schema, Replayed(schema, log), ch)
    ensures AllWellFormed(log + [ch]) && CanReplay(schema, log + [ch])
    ensures Replayed(schema, log + [ch]) == Applied(schema, Replayed(schema, log), ch)
  {
    assert (log + [ch])[..|log|] == log;
  }

  lemma TakenFromWaiting(waiting: seq<Change>, k: nat)
    requires k < |waiting|
    ensures forall ch :: ch in waiting <==> ch == waiting[k] || ch in waiting[..k] + waiting[k + 1..]
  {
    assert waiting == waiting[..k] + [waiting[k]] + waiting[k + 1..];
  }

  /** The first `k` waiting changes cannot be applied. */
  ghost predicate AreStuck(schema: Schema, s: State, waiting: seq<Change>, k: nat)
    requires AllWellFormed(waiting) && k <= |waiting|
  {
    forall j: nat | j < k :: !CanApply(schema, s, waiting[j])
  }

  lemma OneMoreStuck(schema: Schema, s: State, waiting: seq<Change>, k: nat)
    requires AllWellFormed(waiting) && k < |waiting| && !CanApply(schema, s, waiting[k])
    ensures AreStuck(schema, s, waiting, k) ==> AreStuck(schema, s, waiting, k + 1)
  {
  }

  lemma AllStuck(schema: Schema, s: State, waiting: seq<Change>)
    requires AllWellFormed(waiting)
    ensures AreStuck(schema, s, waiting, |waiting|) ==> IsSettled(schema, s, waiting)
  {
  }

  lemma OneMoreClock(s: State, ch: Change, done: set<Column>, c: Column)
    requires done <= ch.clocks.Keys && c in ch.clocks
    ensures WrittenClocks(s, ch, done)[Field(ch.row, c) := ch.clocks[c]] == WrittenClocks(s, ch, done + {c})
  {
  }

  // ---------- The device ----------

  /** The rows of a device, their clocks, and the changes that wait; the log of what was applied is kept for proofs. */
  class Device {
    const schema: Schema
    var rows: map<RowId, map<Column, Value>>
    var clocks: map<Field, Clock>
    var waiting: seq<Change>
    ghost var log: seq<Change>

    constructor (schema: Schema)
      ensures this.schema == schema && Valid() && log == [] && waiting == []
    {
      this.schema := schema;
      rows, clocks, waiting, log := map[], map[], [], [];
    }

    function Now(): State
      reads this
    {
      State(rows, clocks)
    }

    /** The rows and clocks are those of the log, each change of which could be applied in its turn. */
    ghost predicate Valid()
      reads this
    {
      && AllWellFormed(log) && CanReplay(schema, log) && Now() == Replayed(schema, log)
      && AllWellFormed(waiting)
    }

    /** Nothing but the changes seen has been applied or waits. */
    ghost predicate HasSeen(changes: seq<Change>)
      reads this
    {
      forall ch :: (ch in log || ch in waiting) <==> ch in changes
    }

    method FindWinning(ch: Change) returns (win: set<Column>)
      requires WellFormed(ch)
      ensures win == Winning(Now(), ch)
    {
      win := {};
      var left := ch.values.Keys;
      while left != {}
        invariant left <= ch.values.Keys
        invariant win == set c | c in ch.values && c !in left && IsNewer(Now(), ch, c)
        decreases left
      {
        var c :| c in left;
        left := left - {c};
        var field := Field(ch.row, c);
        if !(field in clocks && !ClockLess(clocks[field], ch.clocks[c])) {
          win := win + {c};
        }
      }
    }

    /** A required column or a referenced row is missing. */
    method IsMissing(ch: Change, win: set<Column>) returns (missing: bool)
      requires WellFormed(ch) && win == Winning(Now(), ch)
      ensures missing <==> !CanApply(schema, Now(), ch)
    {
      if ch.row !in rows && exists rule :: rule in schema.required && rule.table == ch.row.table &&
                                           rule.column !in ch.row.pk &&
                                           !(rule.column in win && ch.values[rule.column].Some?) {
        return true;
      }
      return exists ref :: ref in schema.refs && ref.table == ch.row.table && !HasTarget(Now(), ch, ref);
    }

    method WriteRow(ch: Change, win: set<Column>)
      requires WellFormed(ch) && win <= ch.values.Keys
      modifies this`rows
      ensures rows == if ch.row in old(rows)
                      then old(rows)[ch.row := Overwritten(old(rows)[ch.row], ch.values, win - ch.row.pk.Keys)]
                      else old(rows)[ch.row := Overwritten(Base(schema, ch.row), ch.values, win)]
    {
      if ch.row in rows {
        rows := rows[ch.row := Overwritten(rows[ch.row], ch.values, win - ch.row.pk.Keys)];
      } else {
        rows := rows[ch.row := Overwritten(Base(schema, ch.row), ch.values, win)];
      }
    }

    method WriteClocks(ch: Change, win: set<Column>)
      requires WellFormed(ch) && win <= ch.clocks.Keys
      modifies this`clocks
      ensures clocks == WrittenClocks(old(Now()), ch, win)
    {
      ghost var s := Now();
      ghost var done := {};
      var left := win;
      while left != {}
        invariant done + left == win && clocks == WrittenClocks(s, ch, done)
        decreases left
      {
        var c :| c in left;
        OneMoreClock(s, ch, done, c);
        left, done := left - {c}, done + {c};
        clocks := clocks[Field(ch.row, c) := ch.clocks[c]];
      }
      assert done == win;
    }

    method Write(ch: Change, win: set<Column>)
      requires WellFormed(ch) && win == Winning(Now(), ch)
      modifies this`rows, this`clocks
      ensures Now() == Applied(schema, old(Now()), ch)
    {
      if win != {} {
        WriteRow(ch, win);
        WriteClocks(ch, win);
      }
    }

    /** Go: Apply. Writes what is newer, or nothing if a row it needs is missing. */
    method Apply(ch: Change) returns (pending: bool)
      requires Valid() && WellFormed(ch)
      modifies this`rows, this`clocks, this`log
      ensures Valid()
      ensures pending <==> !CanApply(schema, old(Now()), ch)
      ensures Now() == if pending then old(Now()) else Applied(schema, old(Now()), ch)
      ensures log == if pending then old(log) else old(log) + [ch]
    {
      var win := FindWinning(ch);
      pending := IsMissing(ch, win);
      if !pending {
        OneMoreApplied(schema, log, ch);
        Write(ch, win);
        log := log + [ch];
      }
    }

    /** A change that cannot be applied yet waits. */
    method Receive(ch: Change, ghost seen: seq<Change>)
      requires Valid() && WellFormed(ch) && HasSeen(seen)
      modifies this
      ensures Valid() && HasSeen(seen + [ch])
    {
      var pending := Apply(ch);
      if pending {
        waiting := waiting + [ch];
      }
    }

    /** Applies the waiting change at a place and takes it out, unless it still has to wait. */
    method RetryAt(k: nat, ghost seen: seq<Change>) returns (pending: bool)
      requires Valid() && HasSeen(seen) && k < |waiting|
      modifies this
      ensures Valid() && HasSeen(seen)
      ensures pending ==> waiting == old(waiting) && Now() == old(Now()) && !CanApply(schema, Now(), waiting[k])
      ensures !pending ==> waiting == old(waiting)[..k] + old(waiting)[k + 1..]
    {
      var e := waiting[k];
      TakenFromWaiting(waiting, k);
      pending := Apply(e);
      if !pending {
        waiting := waiting[..k] + waiting[k + 1..];
      }
    }

    /** One round over the waiting changes. */
    method RetryOnce(ghost seen: seq<Change>) returns (progress: bool)
      requires Valid() && HasSeen(seen)
      modifies this
      ensures Valid() && HasSeen(seen)
      ensures if progress then |waiting| < |old(waiting)| else waiting == old(waiting)
      ensures !progress ==> IsSettled(schema, Now(), waiting)
    {
      var n, k := |waiting|, 0;
      progress := false;
      for i := 0 to n
        invariant Valid() && HasSeen(seen) && 0 <= k <= |waiting| && |waiting| - k == n - i
        invariant if progress then |waiting| < n else waiting == old(waiting)
        invariant !progress ==> AreStuck(schema, Now(), waiting, k)
      {
        var pending := RetryAt(k, seen);
        if pending {
          OneMoreStuck(schema, Now(), waiting, k);
          k := k + 1;
        } else {
          progress := true;
        }
      }
      AllStuck(schema, Now(), waiting);
    }

    /** Go: RetryPending. Goes through the waiting changes until a round applies none of them. */
    method RetryPending(ghost seen: seq<Change>) returns (left: nat)
      requires Valid() && HasSeen(seen)
      modifies this
      ensures Valid() && HasSeen(seen) && left == |waiting|
      ensures IsSettled(schema, Now(), waiting)
    {
      var progress := true;
      while progress
        invariant Valid() && HasSeen(seen)
        invariant !progress ==> IsSettled(schema, Now(), waiting)
        decreases |waiting|, progress
      {
        progress := RetryOnce(seen);
      }
      return |waiting|;
    }
  }

  /** Two devices that have seen the same changes and have retried what waits hold the same. */
  lemma DevicesAgree(a: Device, b: Device, seen: seq<Change>, seen': seq<Change>)
    requires a.Valid() && b.Valid() && a.schema == b.schema
    requires a.HasSeen(seen) && b.HasSeen(seen') && SameChanges(seen, seen')
    requires IsSettled(a.schema, a.Now(), a.waiting) && IsSettled(b.schema, b.Now(), b.waiting)
    requires ClocksNameWrites(a.log)
    ensures a.Now() == b.Now() && SameChanges(a.waiting, b.waiting)
  {
    DevicesConverge(a.schema, a.log, a.waiting, b.log, b.waiting);
  }

  // ---------- The uniqueness conflicts of what was applied ----------

  /** The text of a primary key names one key. */
  ghost predicate IsKeyText(text: map<Column, Value> -> Pk) {
    forall a, b :: text(a) == text(b) ==> a == b
  }

  /** The content that the uniqueness checks look at. */
  ghost function DbOf(s: State, text: map<Column, Value> -> Pk): Database
    requires IsKeyText(text)
  {
    Database(map row | row in s.rows ::
               RowKey(row.table, text(row.pk)) := Row("deleted_at" in s.rows[row], s.rows[row]),
             map f | f in s.clocks :: Cell(f.row.table, text(f.row.pk), f.column) := s.clocks[f])
  }

  predicate SameRow(s: State, s': State, row: RowId) {
    && (row in s.rows <==> row in s'.rows)
    && (row in s.rows ==> s.rows[row] == s'.rows[row])
  }

  /** What the checks see of one row. */
  function Seen(s: State, row: RowId, c: Column): Option<Value> {
    if row in s.rows && "deleted_at" !in s.rows[row] && c in s.rows[row] then Some(s.rows[row][c]) else None
  }

  lemma LiveValueIsSeen(s: State, text: map<Column, Value> -> Pk, row: RowId, c: Column)
    requires IsKeyText(text)
    ensures LiveValue(DbOf(s, text), row.table, c, text(row.pk)) == Seen(s, row, c)
  {
    var db, key := DbOf(s, text), RowKey(row.table, text(row.pk));
    assert key in db.rows <==> row in s.rows;
    if row in s.rows {
      assert db.rows[key] == Row("deleted_at" in s.rows[row], s.rows[row]);
    }
  }

  lemma NothingIsSeen(s: State, text: map<Column, Value> -> Pk, t: Table, c: Column, p: Pk)
    requires IsKeyText(text) && forall row: RowId :: row.table == t ==> text(row.pk) != p
    ensures LiveValue(DbOf(s, text), t, c, p) == None
  {
  }

  lemma SameLiveValue(s: State, s': State, text: map<Column, Value> -> Pk, t: Table, c: Column, p: Pk)
    requires IsKeyText(text)
    requires forall row: RowId | row.table == t && text(row.pk) == p :: SameRow(s, s', row)
    ensures LiveValue(DbOf(s, text), t, c, p) == LiveValue(DbOf(s', text), t, c, p)
  {
    if row: RowId :| row.table == t && text(row.pk) == p {
      assert SameRow(s, s', row);
      LiveValueIsSeen(s, text, row, c);
      LiveValueIsSeen(s', text, row, c);
    } else {
      NothingIsSeen(s, text, t, c, p);
      NothingIsSeen(s', text, t, c, p);
    }
  }

  lemma SameClock(s: State, s': State, text: map<Column, Value> -> Pk, t: Table, c: Column, p: Pk)
    requires IsKeyText(text)
    requires forall row: RowId | row.table == t && text(row.pk) == p ::
      (Field(row, c) in s.clocks <==> Field(row, c) in s'.clocks) &&
      (Field(row, c) in s.clocks ==> s.clocks[Field(row, c)] == s'.clocks[Field(row, c)])
    ensures ClockOf(DbOf(s, text), t, c, p) == ClockOf(DbOf(s', text), t, c, p)
  {
    var db, db', cell := DbOf(s, text), DbOf(s', text), Cell(t, p, c);
    if row: RowId :| row.table == t && text(row.pk) == p {
      assert cell in db.clocks <==> Field(row, c) in s.clocks;
      assert cell in db'.clocks <==> Field(row, c) in s'.clocks;
    } else {
      assert cell !in db.clocks && cell !in db'.clocks;
    }
  }

  /** The rows that some more changes write, as far as any of their columns wins. */
  function Touched(schema: Schema, log: seq<Change>, more: seq<Change>): set<RowId>
    requires AllWellFormed(log) && AllWellFormed(more)
  {
    if more == [] then {}
    else
      var before, ch := more[..|more| - 1], more[|more| - 1];
      var rows := Touched(schema, log, before);
      if Winning(Replayed(schema, log + before), ch) == {} then rows else rows + {ch.row}
  }

  lemma {:induction false} UntouchedStays(schema: Schema, log: seq<Change>, more: seq<Change>, row: RowId, c: Column)
    requires AllWellFormed(log) && AllWellFormed(more) && row !in Touched(schema, log, more)
    ensures AllWellFormed(log + more)
    ensures var s, s' := Replayed(schema, log), Replayed(schema, log + more);
      && SameRow(s, s', row)
      && (Field(row, c) in s.clocks <==> Field(row, c) in s'.clocks)
      && (Field(row, c) in s.clocks ==> s.clocks[Field(row, c)] == s'.clocks[Field(row, c)])
  {
    if more == [] {
      assert log + more == log;
    } else {
      var before, ch := more[..|more| - 1], more[|more| - 1];
      assert more == before + [ch];
      assert (log + more)[..|log + more| - 1] == log + before;
      UntouchedStays(schema, log, before, row, c);
      if Winning(Replayed(schema, log + before), ch) != {} {
        UnwrittenField(schema, Replayed(schema, log + before), ch, Field(row, c));
      }
    }
  }

  /** Re-checking the rows written is enough: elsewhere neither values nor clocks have changed. */
  lemma TouchedRowsCover(schema: Schema, log: seq<Change>, more: seq<Change>, text: map<Column, Value> -> Pk, t: Table,
                         c: Column)
    requires AllWellFormed(log) && AllWellFormed(more) && IsKeyText(text)
    ensures AllWellFormed(log + more)
    ensures IsCovered(DbOf(Replayed(schema, log), text), DbOf(Replayed(schema, log + more), text),
                      Remote(t, set row | row in Touched(schema, log, more) && row.table == t :: text(row.pk)), c)
  {
    var s, s' := Replayed(schema, log), Replayed(schema, log + more);
    var pks := set row | row in Touched(schema, log, more) && row.table == t :: text(row.pk);
    forall p | p !in pks
      ensures LiveValue(DbOf(s, text), t, c, p) == LiveValue(DbOf(s', text), t, c, p)
      ensures ClockOf(DbOf(s, text), t, c, p) == ClockOf(DbOf(s', text), t, c, p)
    {
      forall row: RowId | row.table == t && text(row.pk) == p
        ensures SameRow(s, s', row)
        ensures Field(row, c) in s.clocks <==> Field(row, c) in s'.clocks
        ensures Field(row, c) in s.clocks ==> s.clocks[Field(row, c)] == s'.clocks[Field(row, c)]
      {
        UntouchedStays(schema, log, more, row, c);
      }
      SameLiveValue(s, s', text, t, c, p);
      SameClock(s, s', text, t, c, p);
    }
  }
}
