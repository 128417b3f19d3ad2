/** `insert_many`: one statement per table, ON CONFLICT DO NOTHING, and what repeating it does. */
module Tables {
  import opened Wrappers
  import opened Metrics
  import opened Ingest

  // ---- identifiers ----

  predicate IsLetter(c: char) { 'a' <= c <= 'z' || 'A' <= c <= 'Z' || c == '_' }

  predicate IsWordChar(c: char) { IsLetter(c) || '0' <= c <= '9' }

  predicate IsWord(s: string) {
    s != "" && IsLetter(s[0]) && forall i :: 0 <= i < |s| ==> IsWordChar(s[i])
  }

  /** The pattern ends in `$`, which also matches before a final line feed. */
  predicate ValidIdentifier(s: string) {
    IsWord(s) || (s != "" && s[|s| - 1] == '\n' && IsWord(s[..|s| - 1]))
  }

  /** A letter, a digit or an underscore, by its code. */
  predicate WordCode(code: int) { 65 <= code <= 90 || 97 <= code <= 122 || code == 95 || 48 <= code <= 57 }

  /** Letters, digits and underscores, at least one, no digit first. */
  predicate Word(s: string) {
    s != "" && !(48 <= s[0] as int <= 57) && forall i :: 0 <= i < |s| ==> WordCode(s[i] as int)
  }

  lemma WordIff(s: string)
    ensures IsWord(s) <==> Word(s)
  {
    if s != "" {
      forall i | 0 <= i < |s| ensures IsWordChar(s[i]) <==> WordCode(s[i] as int) {}
      assert IsLetter(s[0]) <==> WordCode(s[0] as int) && !(48 <= s[0] as int <= 57);
    }
  }

  /** An identifier is safe exactly if it is such a word, or one followed by a single line feed. */
  lemma SafeIdentifierIff(s: string)
    ensures ValidIdentifier(s) <==> Word(s) || exists word :: s == word + "\n" && Word(word)
  {
    WordIff(s);
    forall word | s == word + "\n" ensures word == s[..|s| - 1] && s[|s| - 1] == '\n' {}
    if s != "" && s[|s| - 1] == '\n' {
      WordIff(s[..|s| - 1]);
      assert s == s[..|s| - 1] + "\n";
    }
  }

  // ---- building the statements ----

  datatype Insert = Insert(columns: set<string>, rows: seq<Row>)

  function Project(row: Row, columns: set<string>): (r: Row)
    requires columns <= row.Keys
  {
    map c | c in columns :: row[c]
  }

  /** A table whose rows can be written with the columns of its first row. */
  predicate Writable(table: string, rows: seq<Row>)
    requires rows != []
  {
    && ValidIdentifier(table)
    && (forall c :: c in rows[0] ==> ValidIdentifier(c))
    && (forall i :: 0 <= i < |rows| ==> rows[0].Keys <= rows[i].Keys)
  }

  /** The rows `insert_many` sends for a table: each cut to the columns of the first. */
  function WrittenRows(batch: Batch, t: string): seq<Row> {
    if t in batch && batch[t] != [] && Writable(t, batch[t])
    then seq(|batch[t]|, i requires 0 <= i < |batch[t]| && batch[t][0].Keys <= batch[t][i].Keys =>
           Project(batch[t][i], batch[t][0].Keys))
    else []
  }

  /** Each row written is the batch's row at its place, cut to the columns of the first one, with their cells. */
  lemma WrittenRowsAreTheBatch(batch: Batch, t: string, i: nat)
    requires t in batch && i < |batch[t]| && Writable(t, batch[t])
    ensures |WrittenRows(batch, t)| == |batch[t]|
    ensures WrittenRows(batch, t)[i].Keys == batch[t][0].Keys
    ensures forall c :: c in batch[t][0] ==> c in batch[t][i] && WrittenRows(batch, t)[i][c] == batch[t][i][c]
  {}

  /** The loop of `insert_many`; a raised error leaves the database alone. */
  method Statements(batch: Batch) returns (r: Result<map<string, Insert>>)
    ensures r.Ok? <==> forall t :: t in batch && batch[t] != [] ==> Writable(t, batch[t])
    ensures r.Ok? ==> r.value.Keys == set t | t in batch && batch[t] != []
    ensures r.Ok? ==> forall t :: t in r.value ==>
              r.value[t].columns == batch[t][0].Keys && r.value[t].rows == WrittenRows(batch, t)
  {
    var todo := batch.Keys;
    var statements: map<string, Insert> := map[];
    while todo != {}
      invariant todo <= batch.Keys
      invariant forall t :: t in batch && t !in todo && batch[t] != [] ==> Writable(t, batch[t])
      invariant statements.Keys == set t | t in batch && t !in todo && batch[t] != []
      invariant forall t :: t in statements ==>
                  statements[t].columns == batch[t][0].Keys && statements[t].rows == WrittenRows(batch, t)
      decreases todo
    {
      var table :| table in todo;
      todo := todo - {table};
      var rows := batch[table];
      if rows != [] {
        if !Writable(table, rows) { return Err("unsafe identifier or missing column"); }
        var params := seq(|rows|, i requires 0 <= i < |rows| => Project(rows[i], rows[0].Keys));
        assert params == WrittenRows(batch, table);
        statements := statements[table := Insert(rows[0].Keys, params)];
      }
    }
    return Ok(statements);
  }

  // ---- executing them ----

  function KeyOf(row: Row, key: set<string>): Row {
    map c | c in key && c in row :: row[c]
  }

  predicate HasKey(rows: seq<Row>, row: Row, key: set<string>) {
    exists i :: 0 <= i < |rows| && KeyOf(rows[i], key) == KeyOf(row, key)
  }

  /** ON CONFLICT DO NOTHING; a table without a primary key has no conflicts. */
  function InsertRow(rows: seq<Row>, row: Row, key: Option<set<string>>): seq<Row> {
    if key.Some? && HasKey(rows, row, key.value) then rows else rows + [row]
  }

  function InsertRows(rows: seq<Row>, more: seq<Row>, key: Option<set<string>>): seq<Row> {
    if more == [] then rows else
      var n := |more| - 1;
      InsertRow(InsertRows(rows, more[..n], key), more[n], key)
  }

  /** Writing in several batches is writing their concatenation. */
  lemma {:induction false} BatchesConcatenate(rows: seq<Row>, a: seq<Row>, b: seq<Row>, key: Option<set<string>>)
    ensures InsertRows(rows, a + b, key) == InsertRows(InsertRows(rows, a, key), b, key)
  {
    if b == [] {
      assert a + b == a;
    } else {
      var n := |b| - 1;
      BatchesConcatenate(rows, a, b[..n], key);
      assert (a + b)[..|a + b| - 1] == a + b[..n];
    }
  }

  /** A key that is present stays, whatever is inserted. */
  lemma {:induction false} InsertKeepsKeys(rows: seq<Row>, more: seq<Row>, key: set<string>, row: Row)
    requires HasKey(rows, row, key)
    ensures HasKey(InsertRows(rows, more, Some(key)), row, key)
  {
    if more == [] {
    } else {
      InsertKeepsKeys(rows, more[..|more| - 1], key, row);
      var before := InsertRows(rows, more[..|more| - 1], Some(key));
      var after := InsertRows(rows, more, Some(key));
      var i :| 0 <= i < |before| && KeyOf(before[i], key) == KeyOf(row, key);
      assert after[i] == before[i];
    }
  }

  lemma InsertedKeyIsPresent(rows: seq<Row>, row: Row, key: set<string>)
    ensures HasKey(InsertRow(rows, row, Some(key)), row, key)
  {
    if !HasKey(rows, row, key) { assert (rows + [row])[|rows|] == row; }
  }

  lemma InsertedKeysArePresent(rows: seq<Row>, more: seq<Row>, key: set<string>, i: nat)
    requires i < |more|
    ensures HasKey(InsertRows(rows, more, Some(key)), more[i], key)
  {
    hide HasKey, InsertRow;
    var upTo, rest := more[..i + 1], more[i + 1..];
    assert upTo[..i] == more[..i];
    InsertedKeyIsPresent(InsertRows(rows, more[..i], Some(key)), more[i], key);
    InsertKeepsKeys(InsertRows(rows, upTo, Some(key)), rest, key, more[i]);
    BatchesConcatenate(rows, upTo, rest, Some(key));
    assert upTo + rest == more;
  }

  /** Rows whose keys are all present change nothing. */
  lemma {:induction false} KnownRowsChangeNothing(rows: seq<Row>, more: seq<Row>, key: set<string>)
    requires forall i :: 0 <= i < |more| ==> HasKey(rows, more[i], key)
    ensures InsertRows(rows, more, Some(key)) == rows
  {
    if more == [] {
    } else {
      var n := |more| - 1;
      forall i | 0 <= i < n ensures HasKey(rows, more[..n][i], key) { assert more[..n][i] == more[i]; }
      KnownRowsChangeNothing(rows, more[..n], key);
      assert HasKey(rows, more[n], key);
    }
  }

  // ---- which rows a keyed table holds ----

  /** Both rows have the same cell in every column of the key. */
  predicate SameKey(x: Row, y: Row, key: set<string>) {
    forall c :: c in key ==> c in x && c in y && x[c] == y[c]
  }

  ghost predicate HoldsKeyOf(rows: seq<Row>, row: Row, key: set<string>) {
    exists i :: 0 <= i < |rows| && SameKey(rows[i], row, key)
  }

  lemma KeysAgreeIff(x: Row, y: Row, key: set<string>)
    requires key <= y.Keys
    ensures KeyOf(x, key) == KeyOf(y, key) <==> SameKey(x, y, key)
  {
    if KeyOf(x, key) == KeyOf(y, key) {
      forall c | c in key ensures c in x && x[c] == y[c] {
        assert c in KeyOf(y, key) && KeyOf(y, key)[c] == y[c];
        assert c in KeyOf(x, key);
      }
    }
  }

  /**
    A row that has all columns of the key is skipped exactly when a stored row has the same
    cells there, and is appended otherwise; without a key it is always appended.
   */
  lemma SkippedIffTheKeyIsStored(rows: seq<Row>, row: Row, key: set<string>)
    requires key <= row.Keys
    ensures InsertRow(rows, row, Some(key)) == if HoldsKeyOf(rows, row, key) then rows else rows + [row]
    ensures InsertRow(rows, row, None) == rows + [row]
  {
    hide KeyOf;
    forall i | 0 <= i < |rows| ensures KeyOf(rows[i], key) == KeyOf(row, key) <==> SameKey(rows[i], row, key) {
      KeysAgreeIff(rows[i], row, key);
    }
  }

  /** The rows whose key no earlier one had, in order. */
  function FirstOfEachKey(rows: seq<Row>, key: set<string>): seq<Row> {
    if rows == [] then [] else
      var n := |rows| - 1;
      FirstOfEachKey(rows[..n], key) +
      if forall j :: 0 <= j < n ==> !SameKey(rows[j], rows[n], key) then [rows[n]] else []
  }

  lemma {:induction false} FirstsAreRows(rows: seq<Row>, key: set<string>)
    ensures forall x :: x in FirstOfEachKey(rows, key) ==> x in rows
  {
    hide SameKey;
    if rows == [] {
    } else {
      FirstsAreRows(rows[..|rows| - 1], key);
    }
  }

  lemma SameKeyChains(x: Row, y: Row, z: Row, key: set<string>)
    requires SameKey(x, y, key) && SameKey(y, z, key)
    ensures SameKey(x, z, key)
  {}

  lemma SameKeyAsItself(x: Row, key: set<string>)
    requires key <= x.Keys
    ensures SameKey(x, x, key)
  {}

  /** Every key among the rows is stored. */
  lemma {:induction false} FirstsHaveAllKeys(rows: seq<Row>, key: set<string>, i: nat)
    requires i < |rows| && forall j :: 0 <= j < |rows| ==> key <= rows[j].Keys
    ensures HoldsKeyOf(FirstOfEachKey(rows, key), rows[i], key)
  {
    hide SameKey;
    var n := |rows| - 1;
    var before, all := FirstOfEachKey(rows[..n], key), FirstOfEachKey(rows, key);
    if i < n {
      FirstsHaveAllKeys(rows[..n], key, i);
      var k :| 0 <= k < |before| && SameKey(before[k], rows[i], key);
      assert all[k] == before[k];
    } else if j :| 0 <= j < n && SameKey(rows[j], rows[n], key) {
      FirstsHaveAllKeys(rows[..n], key, j);
      var k :| 0 <= k < |before| && SameKey(before[k], rows[j], key);
      SameKeyChains(before[k], rows[j], rows[n], key);
      assert all[k] == before[k];
    } else {
      SameKeyAsItself(rows[n], key);
      assert all[|before|] == rows[n];
    }
  }

  /** No key is stored twice. */
  lemma {:induction false} FirstsDiffer(rows: seq<Row>, key: set<string>, i: nat, j: nat)
    requires i < j < |FirstOfEachKey(rows, key)|
    ensures !SameKey(FirstOfEachKey(rows, key)[i], FirstOfEachKey(rows, key)[j], key)
  {
    hide SameKey;
    var n := |rows| - 1;
    var before := FirstOfEachKey(rows[..n], key);
    if j < |before| {
      FirstsDiffer(rows[..n], key, i, j);
    } else {
      FirstsAreRows(rows[..n], key);
      assert before[i] in rows[..n];
      var k :| 0 <= k < n && rows[k] == before[i];
    }
  }

  lemma StoredIffInserted(rows: seq<Row>, key: set<string>, row: Row)
    requires forall i :: 0 <= i < |rows| ==> key <= rows[i].Keys
    ensures HoldsKeyOf(FirstOfEachKey(rows, key), row, key) <==> HoldsKeyOf(rows, row, key)
  {
    hide SameKey;
    var stored := FirstOfEachKey(rows, key);
    if HoldsKeyOf(stored, row, key) {
      var i :| 0 <= i < |stored| && SameKey(stored[i], row, key);
      FirstsAreRows(rows, key);
      assert stored[i] in rows;
      var j :| 0 <= j < |rows| && rows[j] == stored[i];
    }
    if HoldsKeyOf(rows, row, key) {
      var j :| 0 <= j < |rows| && SameKey(rows[j], row, key);
      FirstsHaveAllKeys(rows, key, j);
      var i :| 0 <= i < |stored| && SameKey(stored[i], rows[j], key);
      SameKeyChains(stored[i], rows[j], row, key);
    }
  }

  /** Inserting rows into an empty keyed table stores the first row of each key and no other. */
  lemma {:induction false} KeyedTableHoldsFirsts(rows: seq<Row>, key: set<string>)
    requires forall i :: 0 <= i < |rows| ==> key <= rows[i].Keys
    ensures InsertRows([], rows, Some(key)) == FirstOfEachKey(rows, key)
  {
    hide SameKey, InsertRow;
    if rows == [] {
    } else {
      var n := |rows| - 1;
      var stored := FirstOfEachKey(rows[..n], key);
      KeyedTableHoldsFirsts(rows[..n], key);
      SkippedIffTheKeyIsStored(stored, rows[n], key);
      StoredIffInserted(rows[..n], key, rows[n]);
      forall j | 0 <= j < n ensures rows[..n][j] == rows[j] {}
    }
  }

  /** A table without a key holds every row inserted. */
  lemma {:induction false} UnkeyedTableHoldsAll(rows: seq<Row>, more: seq<Row>)
    ensures InsertRows(rows, more, None) == rows + more
  {
    if more == [] {
      assert rows + more == rows;
    } else {
      UnkeyedTableHoldsAll(rows, more[..|more| - 1]);
      assert rows + more == (rows + more[..|more| - 1]) + [more[|more| - 1]];
    }
  }

  predicate Agree(x: Row, y: Row, c: string) { c in x && c in y && x[c] == y[c] }

  /**
    Two events are one if hash and time agree, two round trips if pair, value and time do,
    and two agent errors if time, component and message do; no other table has repetitions.
   */
  lemma RepetitionsAre(t: string, x: Row, y: Row)
    ensures PrimaryKey(t).Some? <==> t == "events" || t == "heartbeat_rtt" || t == "agent_logs"
    ensures t == "events" ==> (SameKey(x, y, PrimaryKey(t).value) <==> Agree(x, y, "hash") && Agree(x, y, "timestamp"))
    ensures t == "heartbeat_rtt" ==>
              (SameKey(x, y, PrimaryKey(t).value) <==>
               Agree(x, y, "pair") && Agree(x, y, "value") && Agree(x, y, "timestamp"))
    ensures t == "agent_logs" ==>
              (SameKey(x, y, PrimaryKey(t).value) <==>
               Agree(x, y, "timestamp") && Agree(x, y, "component") && Agree(x, y, "message"))
  {}

  // ---- repeated batches ----

  ghost predicate RepeatsAreHarmless(key: Option<set<string>>) {
    forall rows: seq<Row>, more: seq<Row> ::
      InsertRows(InsertRows(rows, more, key), more, key) == InsertRows(rows, more, key)
  }

  /** Repeating a batch is harmless exactly for the tables that have a primary key. */
  lemma RepeatsNeedAKey(key: Option<set<string>>)
    ensures RepeatsAreHarmless(key) <==> key.Some?
  {
    if key.Some? {
      forall rows: seq<Row>, more: seq<Row>
        ensures InsertRows(InsertRows(rows, more, key), more, key) == InsertRows(rows, more, key)
      {
        var after := InsertRows(rows, more, key);
        forall i | 0 <= i < |more| ensures HasKey(after, more[i], key.value) {
          InsertedKeysArePresent(rows, more, key.value, i);
        }
        KnownRowsChangeNothing(after, more, key.value);
      }
    } else {
      var one: seq<Row> := [map[]];
      assert one[..0] == [];
      assert InsertRows([], one, key) == one;
      assert InsertRows(one, one, key) == one + one;
    }
  }

  /** The metrics marked idempotent are exactly those whose rows may be written again and again. */
  lemma IdempotentMetricsAreTheKeyedOnes(m: Metric)
    requires Registered(m)
    ensures m.idempotent <==> RepeatsAreHarmless(PrimaryKey(m.table))
  {
    RepeatsNeedAKey(PrimaryKey(m.table));
  }
}
