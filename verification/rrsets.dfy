/** Raw rows of a zone as a backend streams them, and the grouping of
    consecutive rows into RRsets that the zone iterator performs.

    A row is kept as the backend's opaque tuple of strings: the conversion
    of names, types and rdata into DNS objects is not part of this model. */
module RRsets {

  /** One resource record as the backend returns it from its cursor. */
  datatype Row = Row(name: string, rtype: string, ttl: int, data: string)

  /** Rows with the same owner name and type belong to the same RRset. */
  datatype Key = Key(name: string, rtype: string)

  function KeyOf(row: Row): Key {
    Key(row.name, row.rtype)
  }

  /** The per-record part of a row: what differs between the rows of one RRset. */
  datatype Record = Record(ttl: int, data: string)

  /** A group of rows sharing an owner name and type, in stream order. */
  datatype RRset = RRset(name: string, rtype: string, records: seq<Record>)

  function SetKey(s: RRset): Key {
    Key(s.name, s.rtype)
  }

  /** The backend's ordering obligation: the rows of one RRset are together,
      never interleaved with other rows. Equivalently, a key that occurred
      earlier in the stream may occur again only directly after itself. */
  predicate Contiguous(rows: seq<Row>) {
    forall i, j :: 0 <= i < j < |rows| && KeyOf(rows[i]) == KeyOf(rows[j]) ==>
      KeyOf(rows[j - 1]) == KeyOf(rows[j])
  }

  /** The rows an RRset stands for. */
  function Expand(s: RRset): (rows: seq<Row>)
    ensures |rows| == |s.records|
    ensures forall i :: 0 <= i < |rows| ==> KeyOf(rows[i]) == SetKey(s)
  {
    seq(|s.records|, i requires 0 <= i < |s.records| =>
      Row(s.name, s.rtype, s.records[i].ttl, s.records[i].data))
  }

  /** The rows of a sequence of RRsets, in order. */
  function Flatten(sets: seq<RRset>): seq<Row> {
    if sets == [] then [] else Flatten(sets[..|sets| - 1]) + Expand(sets[|sets| - 1])
  }

  /** Every RRset holds at least one record and no two neighbouring RRsets
      share a key: each is a maximal run of the rows it came from. */
  predicate WellGrouped(sets: seq<RRset>) {
    && (forall i :: 0 <= i < |sets| ==> |sets[i].records| > 0)
    && (forall i :: 0 < i < |sets| ==> SetKey(sets[i - 1]) != SetKey(sets[i]))
  }

  /** No key is shared by two RRsets: every RRset is produced exactly once. */
  predicate DistinctKeys(sets: seq<RRset>) {
    forall i, j :: 0 <= i < j < |sets| ==> SetKey(sets[i]) != SetKey(sets[j])
  }

  function RowKeys(rows: seq<Row>): set<Key> {
    set row | row in rows :: KeyOf(row)
  }

  function SetKeys(sets: seq<RRset>): set<Key> {
    set s | s in sets :: SetKey(s)
  }

  lemma FlattenSnoc(sets: seq<RRset>, s: RRset)
    ensures Flatten(sets + [s]) == Flatten(sets) + Expand(s)
  {
    assert (sets + [s])[..|sets|] == sets;
  }

  lemma SetKeysSnoc(sets: seq<RRset>, s: RRset)
    ensures SetKeys(sets + [s]) == SetKeys(sets) + {SetKey(s)}
  {
    assert forall t :: t in sets + [s] <==> t in sets || t == s;
  }

  lemma RowKeysSnoc(rows: seq<Row>, row: Row)
    ensures RowKeys(rows + [row]) == RowKeys(rows) + {KeyOf(row)}
  {
    assert forall x :: x in rows + [row] <==> x in rows || x == row;
  }

  /** The record a row contributes to its RRset. */
  function RecordOf(row: Row): Record {
    Record(row.ttl, row.data)
  }

  /** Adding a row of an RRset's own key extends that RRset by the row. */
  lemma ExpandAppend(s: RRset, row: Row)
    requires SetKey(s) == KeyOf(row)
    ensures Expand(s.(records := s.records + [RecordOf(row)])) == Expand(s) + [row]
  {
  }

  /** A row with the key of the last RRset joins that RRset. */
  function ExtendLast(sets: seq<RRset>, row: Row): (r: seq<RRset>)
    requires |sets| > 0 && SetKey(sets[|sets| - 1]) == KeyOf(row)
    ensures |r| == |sets| && SetKey(r[|r| - 1]) == KeyOf(row)
    ensures Flatten(r) == Flatten(sets) + [row]
    ensures WellGrouped(sets) ==> WellGrouped(r)
    ensures SetKeys(r) == SetKeys(sets)
  {
    var front := sets[..|sets| - 1];
    var last := sets[|sets| - 1];
    var last' := last.(records := last.records + [RecordOf(row)]);
    assert sets == front + [last];
    FlattenSnoc(front, last);
    FlattenSnoc(front, last');
    ExpandAppend(last, row);
    SetKeysSnoc(front, last);
    SetKeysSnoc(front, last');
    assert forall i :: 0 <= i < |front| ==> (front + [last'])[i] == sets[i];
    front + [last']
  }

  /** A row with a different key from the last RRset starts a new RRset. */
  function StartSet(sets: seq<RRset>, row: Row): (r: seq<RRset>)
    requires |sets| > 0 ==> SetKey(sets[|sets| - 1]) != KeyOf(row)
    ensures |r| == |sets| + 1 && SetKey(r[|r| - 1]) == KeyOf(row)
    ensures Flatten(r) == Flatten(sets) + [row]
    ensures WellGrouped(sets) ==> WellGrouped(r)
    ensures SetKeys(r) == SetKeys(sets) + {KeyOf(row)}
  {
    var started := RRset(row.name, row.rtype, [RecordOf(row)]);
    FlattenSnoc(sets, started);
    SetKeysSnoc(sets, started);
    sets + [started]
  }

  /** One step of the iterator: a row joins the RRset being built when it has
      that RRset's key, and otherwise starts a new RRset. */
  function AddRow(sets: seq<RRset>, row: Row): (r: seq<RRset>)
    ensures |r| > 0 && SetKey(r[|r| - 1]) == KeyOf(row)
    ensures Flatten(r) == Flatten(sets) + [row]
    ensures WellGrouped(sets) ==> WellGrouped(r)
    ensures SetKeys(r) == SetKeys(sets) + {KeyOf(row)}
  {
    if |sets| > 0 && SetKey(sets[|sets| - 1]) == KeyOf(row) then ExtendLast(sets, row)
    else StartSet(sets, row)
  }

  /** The zone iterator's grouping of a whole row stream into RRsets: the
      rows are added one at a time, in stream order. */
  function Group(rows: seq<Row>): (r: seq<RRset>)
    ensures Flatten(r) == rows
    ensures WellGrouped(r)
    ensures SetKeys(r) == RowKeys(rows)
    ensures |r| <= |rows|
    ensures |rows| > 0 ==> |r| > 0 && SetKey(r[|r| - 1]) == KeyOf(rows[|rows| - 1])
  {
    if rows == [] then []
    else
      var prefix := rows[..|rows| - 1];
      assert rows == prefix + [rows[|rows| - 1]];
      RowKeysSnoc(prefix, rows[|rows| - 1]);
      AddRow(Group(prefix), rows[|rows| - 1])
  }

  /** Grouping one more row is one more step of the iterator. */
  lemma GroupSnoc(rows: seq<Row>, row: Row)
    ensures Group(rows + [row]) == AddRow(Group(rows), row)
  {
    assert (rows + [row])[..|rows|] == rows;
  }

  /** Grouping a longer prefix of a stream is one more iterator step. */
  lemma GroupPrefixStep(rows: seq<Row>, n: nat)
    requires n < |rows|
    ensures Group(rows[..n + 1]) == AddRow(Group(rows[..n]), rows[n])
  {
    assert rows[..n + 1] == rows[..n] + [rows[n]];
    GroupSnoc(rows[..n], rows[n]);
  }

  lemma DistinctKeysSnoc(sets: seq<RRset>, s: RRset)
    ensures DistinctKeys(sets + [s]) <==> DistinctKeys(sets) && SetKey(s) !in SetKeys(sets)
  {
    var t := sets + [s];
    assert forall i :: 0 <= i < |sets| ==> t[i] == sets[i];
    if SetKey(s) in SetKeys(sets) {
      var i :| 0 <= i < |sets| && SetKey(sets[i]) == SetKey(s);
      assert SetKey(t[i]) == SetKey(t[|sets|]);
    }
  }

  lemma ContiguousSnoc(rows: seq<Row>, row: Row)
    ensures Contiguous(rows + [row]) <==>
      Contiguous(rows) &&
      (KeyOf(row) in RowKeys(rows) ==> |rows| > 0 && KeyOf(rows[|rows| - 1]) == KeyOf(row))
  {
    var t := rows + [row];
    assert forall i :: 0 <= i < |rows| ==> t[i] == rows[i];
    if KeyOf(row) in RowKeys(rows) {
      var i :| 0 <= i < |rows| && KeyOf(rows[i]) == KeyOf(row);
      assert KeyOf(t[i]) == KeyOf(t[|rows|]);
    }
  }

  /** A row stream keeps the rows of each RRset together exactly when
      grouping it yields every key once: with a contiguous stream the
      iterator returns each RRset exactly once, and a stream that breaks
      the ordering obligation makes it return some RRset in pieces. */
  lemma {:induction false} ContiguousIffDistinctGroups(rows: seq<Row>)
    ensures Contiguous(rows) <==> DistinctKeys(Group(rows))
  {
    if rows != [] {
      var prefix := rows[..|rows| - 1];
      var row := rows[|rows| - 1];
      assert rows == prefix + [row];
      ContiguousIffDistinctGroups(prefix);
      GroupSnoc(prefix, row);
      var g := Group(prefix);
      if |g| > 0 && SetKey(g[|g| - 1]) == KeyOf(row) {
        ContiguousStepExtending(prefix, row);
      } else {
        ContiguousStepStarting(prefix, row);
      }
    }
  }

  /** The inductive step of `ContiguousIffDistinctGroups` when the new row
      joins the last RRset. */
  lemma ContiguousStepExtending(prefix: seq<Row>, row: Row)
    requires Contiguous(prefix) <==> DistinctKeys(Group(prefix))
    requires |Group(prefix)| > 0
    requires SetKey(Group(prefix)[|Group(prefix)| - 1]) == KeyOf(row)
    ensures Contiguous(prefix + [row]) <==> DistinctKeys(ExtendLast(Group(prefix), row))
  {
    ContiguousAfterSameKey(prefix, row);
    ExtendLastKeepsDistinct(Group(prefix), row);
  }

  /** A row with the key of the stream's last row keeps the stream contiguous
      exactly when it was contiguous before. */
  lemma ContiguousAfterSameKey(rows: seq<Row>, row: Row)
    requires |rows| > 0 && KeyOf(rows[|rows| - 1]) == KeyOf(row)
    ensures Contiguous(rows + [row]) <==> Contiguous(rows)
  {
    assert rows[|rows| - 1] in rows;
    ContiguousSnoc(rows, row);
  }

  /** Extending the last RRset does not change any key, so it keeps the keys
      distinct exactly when they were distinct before. */
  lemma ExtendLastKeepsDistinct(sets: seq<RRset>, row: Row)
    requires |sets| > 0 && SetKey(sets[|sets| - 1]) == KeyOf(row)
    ensures DistinctKeys(ExtendLast(sets, row)) <==> DistinctKeys(sets)
  {
    var front := sets[..|sets| - 1];
    var last := sets[|sets| - 1];
    var last' := last.(records := last.records + [RecordOf(row)]);
    assert sets == front + [last];
    assert ExtendLast(sets, row) == front + [last'];
    DistinctKeysSnoc(front, last);
    DistinctKeysSnoc(front, last');
  }

  /** The inductive step of `ContiguousIffDistinctGroups` when the new row
      starts an RRset. */
  lemma ContiguousStepStarting(prefix: seq<Row>, row: Row)
    requires Contiguous(prefix) <==> DistinctKeys(Group(prefix))
    requires |Group(prefix)| > 0 ==> SetKey(Group(prefix)[|Group(prefix)| - 1]) != KeyOf(row)
    ensures Contiguous(prefix + [row]) <==> DistinctKeys(StartSet(Group(prefix), row))
  {
    ContiguousSnoc(prefix, row);
    DistinctKeysSnoc(Group(prefix), RRset(row.name, row.rtype, [RecordOf(row)]));
  }

  /** Grouping is the only way to cut a row stream into maximal runs: any
      well-grouped sequence of RRsets whose rows are `rows` is `Group(rows)`. */
  lemma {:induction false} GroupIsUnique(rows: seq<Row>, sets: seq<RRset>)
    requires WellGrouped(sets)
    requires Flatten(sets) == rows
    ensures sets == Group(rows)
    decreases |rows|
  {
    if sets != [] {
      var front := sets[..|sets| - 1];
      var s := sets[|sets| - 1];
      assert sets == front + [s];
      assert |s.records| > 0;
      assert WellGrouped(front);
      if |s.records| == 1 {
        GroupIsUniqueNewSet(rows, front, s);
      } else {
        GroupIsUniqueExtendedSet(rows, front, s);
      }
    }
  }

  /** The inductive step of `GroupIsUnique` when the last RRset has one row. */
  lemma {:induction false} GroupIsUniqueNewSet(rows: seq<Row>, front: seq<RRset>, s: RRset)
    requires WellGrouped(front + [s]) && WellGrouped(front)
    requires Flatten(front + [s]) == rows
    requires |s.records| == 1
    ensures front + [s] == Group(rows)
    decreases |rows|, 0
  {
    FlattenSnoc(front, s);
    var row := rows[|rows| - 1];
    var prefix := rows[..|rows| - 1];
    assert prefix == Flatten(front);
    GroupIsUnique(prefix, front);
    assert Expand(s)[0] == row;
    assert s.records == [RecordOf(row)];
    if |front| > 0 {
      assert SetKey((front + [s])[|front| - 1]) != SetKey((front + [s])[|front|]);
    }
  }

  /** The inductive step of `GroupIsUnique` when the last RRset has several rows. */
  lemma {:induction false} GroupIsUniqueExtendedSet(rows: seq<Row>, front: seq<RRset>, s: RRset)
    requires WellGrouped(front + [s]) && WellGrouped(front)
    requires Flatten(front + [s]) == rows
    requires |s.records| > 1
    ensures front + [s] == Group(rows)
    decreases |rows|, 0
  {
    FlattenSnoc(front, s);
    var m := |s.records|;
    var row := rows[|rows| - 1];
    var prefix := rows[..|rows| - 1];
    assert row == Expand(s)[m - 1];
    var s' := s.(records := s.records[..m - 1]);
    assert s'.records + [RecordOf(row)] == s.records;
    ExpandAppend(s', row);
    FlattenSnoc(front, s');
    assert prefix == Flatten(front + [s']);
    assert WellGrouped(front + [s']) by {
      assert forall i :: 0 <= i < |front| ==> (front + [s'])[i] == (front + [s])[i];
    }
    GroupIsUnique(prefix, front + [s']);
    assert (front + [s'])[..|front|] == front;
  }

  /** Two rows of one RRset followed by a row of another give two RRsets,
      in stream order. */
  lemma GroupingExample()
    ensures Group([Row("a", "A", 300, "1.1.1.1"), Row("a", "A", 300, "2.2.2.2"),
                   Row("b", "A", 300, "3.3.3.3")])
         == [RRset("a", "A", [Record(300, "1.1.1.1"), Record(300, "2.2.2.2")]),
             RRset("b", "A", [Record(300, "3.3.3.3")])]
  {
    var r0, r1, r2 := Row("a", "A", 300, "1.1.1.1"), Row("a", "A", 300, "2.2.2.2"),
                      Row("b", "A", 300, "3.3.3.3");
    var sa := RRset("a", "A", [Record(300, "1.1.1.1"), Record(300, "2.2.2.2")]);
    var sb := RRset("b", "A", [Record(300, "3.3.3.3")]);
    assert Expand(sa) == [r0, r1];
    assert Expand(sb) == [r2];
    FlattenSnoc([], sa);
    FlattenSnoc([sa], sb);
    assert [sa] + [sb] == [sa, sb];
    GroupIsUnique([r0, r1, r2], [sa, sb]);
  }
}
