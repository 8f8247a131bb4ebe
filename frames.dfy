/**
  The single-row feature table that the featurizer builds, and the two
  pandas operations the uploader applies to it: keeping the columns a
  trained model was fitted on (a comprehension of labels to drop followed by
  `DataFrame.drop`), and the `.loc[0, name] = value` assignment that adds or
  overwrites one column.
 */
module Frames {
  import opened Wrappers

  /** One column of the one-row table: its label and the row's value in it. */
  datatype Column = Column(name: string, value: real)

  type Row = seq<Column>

  function Names(row: Row): seq<string> {
    seq(|row|, i requires 0 <= i < |row| => row[i].name)
  }

  /** The labels of `names`, in order, that the keep list does not hold (web/uploader/models.py:56). */
  function ToDrop(names: seq<string>, keep: seq<string>): (labels: seq<string>)
    ensures forall x :: x in labels <==> x in names && x !in keep
  {
    if names == [] then []
    else (if names[0] !in keep then [names[0]] else []) + ToDrop(names[1..], keep)
  }

  /** The row without the columns whose label is one of `labels`. */
  function Without(row: Row, labels: seq<string>): Row {
    if row == [] then []
    else (if row[0].name in labels then [] else [row[0]]) + Without(row[1..], labels)
  }

  /**
    `row.drop(labels, axis = 1)`: every column carrying one of the labels is
    removed; a label that names no column raises KeyError (None here).
   */
  function Drop(row: Row, labels: seq<string>): Option<Row> {
    if exists l :: l in labels && l !in Names(row) then None
    else Some(Without(row, labels))
  }

  /**
    The columns of `row` that a model keeps: the labels not in `keep` are
    collected and dropped. The labels come from the row itself, so the drop
    never raises.
   */
  function Retain(row: Row, keep: seq<string>): Row {
    Drop(row, ToDrop(Names(row), keep)).value
  }

  /** Reference definition: the columns whose label is in `keep`, in table order. */
  function Filter(row: Row, keep: seq<string>): Row {
    if row == [] then []
    else (if row[0].name in keep then [row[0]] else []) + Filter(row[1..], keep)
  }

  lemma {:induction false} WithoutIsFilter(row: Row, labels: seq<string>, keep: seq<string>)
    requires forall c :: c in row ==> (c.name in labels <==> c.name !in keep)
    ensures Without(row, labels) == Filter(row, keep)
  {
    if row != [] {
      assert forall c :: c in row[1..] ==> c in row;
      WithoutIsFilter(row[1..], labels, keep);
    }
  }

  /** Dropping the comprehension's labels leaves exactly the kept columns, in table order. */
  lemma RetainIsFilter(row: Row, keep: seq<string>)
    ensures Retain(row, keep) == Filter(row, keep)
  {
    var names := Names(row);
    forall c | c in row
      ensures c.name in ToDrop(names, keep) <==> c.name !in keep
    {
      var i :| 0 <= i < |row| && row[i] == c;
      assert names[i] == c.name;
    }
    WithoutIsFilter(row, ToDrop(names, keep), keep);
  }

  lemma {:induction false} FilterMembers(row: Row, keep: seq<string>)
    ensures forall c :: c in Filter(row, keep) <==> c in row && c.name in keep
    ensures |Filter(row, keep)| <= |row|
  {
    if row != [] {
      FilterMembers(row[1..], keep);
      assert row == [row[0]] + row[1..];
    }
  }

  lemma {:induction false} FilterIdempotent(row: Row, keep: seq<string>)
    ensures Filter(Filter(row, keep), keep) == Filter(row, keep)
  {
    if row != [] {
      FilterIdempotent(row[1..], keep);
      var rest := Filter(row[1..], keep);
      if row[0].name in keep {
        var x := Filter(row, keep);
        assert x == [row[0]] + rest;
        assert x[0] == row[0] && x[1..] == rest;
        assert Filter(x, keep) == [x[0]] + Filter(x[1..], keep);
      } else {
        assert Filter(row, keep) == [] + rest == rest;
      }
    }
  }

  /** Selecting a model's columns is exact, order-preserving and idempotent. */
  lemma RetainSpec(row: Row, keep: seq<string>)
    ensures forall c :: c in Retain(row, keep) <==> c in row && c.name in keep
    ensures |Retain(row, keep)| <= |row|
    ensures Retain(Retain(row, keep), keep) == Retain(row, keep)
  {
    RetainIsFilter(row, keep);
    RetainIsFilter(Retain(row, keep), keep);
    FilterMembers(row, keep);
    FilterIdempotent(row, keep);
  }

  /**
    `row.loc[0, name] = v`: every column labelled `name` takes the value `v`;
    when there is none, a column `name` is appended at the end.
   */
  function SetColumn(row: Row, name: string, v: real): Row {
    if name in Names(row) then
      seq(|row|, i requires 0 <= i < |row| => if row[i].name == name then Column(name, v) else row[i])
    else row + [Column(name, v)]
  }

  lemma SetColumnSpec(row: Row, name: string, v: real)
    ensures var r := SetColumn(row, name, v);
      && |r| == (if name in Names(row) then |row| else |row| + 1)
      && (forall i :: 0 <= i < |row| ==> r[i].name == row[i].name)
      && (forall i :: 0 <= i < |row| && row[i].name != name ==> r[i] == row[i])
      && (forall c :: c in r && c.name == name ==> c.value == v)
      && Column(name, v) in r
      && (name !in Names(row) ==> r[|row|] == Column(name, v))
  {
    var r := SetColumn(row, name, v);
    forall c | c in r && c.name == name
      ensures c.value == v
    {
      var i :| 0 <= i < |r| && r[i] == c;
      if i < |row| {
        assert Names(row)[i] == row[i].name;
      }
    }
    if name in Names(row) {
      var i :| 0 <= i < |row| && Names(row)[i] == name;
      assert r[i] == Column(name, v);
    }
  }
}
