/** The slice of pandas the pipeline relies on: a table of labelled records
    under an ordered list of column names, and the table operations the
    scripts apply to it (`str.strip` on the column names, `replace` of
    infinities, `dropna`, `reindex(columns=…, fill_value=0)`, `.loc[…]`,
    column assignment and boolean row selection). */
module Frames {
  import opened Common
  import opened Seqs
  import Text

  /** One value of a table. Numbers stand for pandas' floats; `NaN` is also
      what an empty field of the input file reads as. */
  datatype Cell = Num(n: int) | Str(s: string) | PosInf | NegInf | NaN

  /** The values the cleaning step treats as missing: ±infinity and NaN. */
  predicate IsInvalid(c: Cell) {
    c.PosInf? || c.NegInf? || c.NaN?
  }

  /** A row: its index label and one cell per column. */
  datatype Record = Record(id: int, cells: seq<Cell>)

  datatype Frame = Frame(columns: seq<string>, records: seq<Record>)

  /** Every row has one cell per column. */
  ghost predicate WellFormed(f: Frame) {
    forall r <- f.records :: |r.cells| == |f.columns|
  }

  /** The default index a freshly read or freshly built frame carries. */
  ghost predicate RangeIndexed(f: Frame) {
    forall i :: 0 <= i < |f.records| ==> f.records[i].id == i
  }

  function RecordId(r: Record): int {
    r.id
  }

  /** The index labels of the rows, in row order (`df.index`). */
  function Ids(f: Frame): seq<int> {
    Map(f.records, RecordId)
  }

  /** The cell a row holds under the first column called `name`. */
  function CellOf(columns: seq<string>, r: Record, name: string): (c: Option<Cell>)
    ensures c.Some? ==> exists k :: 0 <= k < |columns| && k < |r.cells| && columns[k] == name && r.cells[k] == c.value
    ensures c.None? ==> name !in columns || |r.cells| < |columns|
  {
    match IndexOf(columns, name)
    case None => None
    case Some(k) => if k < |r.cells| then Some(r.cells[k]) else None
  }

  // ---------------------------------------------------------------------
  // Cleaning: `df.columns.str.strip()`, `replace([inf, -inf], nan)`, `dropna()`
  // ---------------------------------------------------------------------

  function StripColumnNames(f: Frame): (g: Frame)
    ensures g.records == f.records
    ensures |g.columns| == |f.columns|
    ensures forall j :: 0 <= j < |f.columns| ==> g.columns[j] == Text.Strip(f.columns[j])
    ensures forall j :: 0 <= j < |g.columns| ==> Text.NoEdgeSpace(g.columns[j])
  {
    Frame(Map(f.columns, Text.Strip), f.records)
  }

  function ReplaceInfCell(c: Cell): Cell {
    if c.PosInf? || c.NegInf? then NaN else c
  }

  function ReplaceInfRecord(r: Record): Record {
    Record(r.id, Map(r.cells, ReplaceInfCell))
  }

  /** `replace([np.inf, -np.inf], np.nan)`: every infinity becomes NaN and
      nothing else changes. */
  function ReplaceInfinities(f: Frame): (g: Frame)
    ensures g.columns == f.columns && |g.records| == |f.records|
    ensures forall i :: 0 <= i < |f.records| ==>
      g.records[i].id == f.records[i].id && |g.records[i].cells| == |f.records[i].cells|
    ensures forall i, j :: 0 <= i < |f.records| && 0 <= j < |f.records[i].cells| ==>
      (g.records[i].cells[j].NaN? <==> IsInvalid(f.records[i].cells[j]))
    ensures forall i, j :: 0 <= i < |f.records| && 0 <= j < |f.records[i].cells| && !IsInvalid(f.records[i].cells[j]) ==>
      g.records[i].cells[j] == f.records[i].cells[j]
  {
    Frame(f.columns, Map(f.records, ReplaceInfRecord))
  }

  predicate Complete(r: Record) {
    forall j | 0 <= j < |r.cells| :: !r.cells[j].NaN?
  }

  /** A row the cleaning keeps: none of its cells, in any column, is
      ±infinity or NaN. */
  predicate IsValidRecord(r: Record) {
    forall j | 0 <= j < |r.cells| :: !IsInvalid(r.cells[j])
  }

  /** `dropna()`: keep the rows without a NaN cell. */
  function DropMissing(f: Frame): Frame {
    Frame(f.columns, Filter(f.records, Complete))
  }

  /** The two cleaning lines together. The surviving rows are exactly the
      input rows without an invalid cell, unchanged (infinities were only
      ever rewritten in rows that are then dropped) and in input order. */
  function DropInvalidRows(f: Frame): (g: Frame)
    ensures g.columns == f.columns
    ensures g.records == Filter(f.records, IsValidRecord)
    ensures WellFormed(f) ==> WellFormed(g)
  {
    var g := DropMissing(ReplaceInfinities(f));
    assert g.records == Filter(f.records, IsValidRecord) by {
      forall r: Record ensures Complete(ReplaceInfRecord(r)) == IsValidRecord(r) {
        var r' := ReplaceInfRecord(r);
        if IsValidRecord(r) {
          assert Complete(r');
        } else {
          var j :| 0 <= j < |r.cells| && IsInvalid(r.cells[j]);
          assert r'.cells[j].NaN?;
        }
      }
      forall r: Record | IsValidRecord(r) ensures ReplaceInfRecord(r) == r {
        assert Map(r.cells, ReplaceInfCell) == r.cells;
      }
      FilterAfterMap(f.records, ReplaceInfRecord, IsValidRecord, Complete);
    }
    assert WellFormed(f) ==> WellFormed(g) by {
      forall r | r in g.records ensures r in f.records {
        FilterMember(f.records, IsValidRecord, r);
      }
    }
    g
  }

  /** A row survives cleaning exactly when it has no invalid cell; the row
      count never grows, and stays the same exactly when every row is valid;
      surviving rows keep their labels in their original order. */
  lemma DropInvalidRowsSelects(f: Frame)
    ensures forall r :: r in DropInvalidRows(f).records <==> r in f.records && IsValidRecord(r)
    ensures |DropInvalidRows(f).records| <= |f.records|
    ensures |DropInvalidRows(f).records| == |f.records| <==>
      forall i :: 0 <= i < |f.records| ==> IsValidRecord(f.records[i])
    ensures IncreasingIds(f.records) ==> IncreasingIds(DropInvalidRows(f).records)
  {
    var kept := DropInvalidRows(f).records;
    forall r | r in f.records && IsValidRecord(r) ensures r in kept {
      var i :| 0 <= i < |f.records| && f.records[i] == r;
    }
    FilterKeepsAll(f.records, IsValidRecord);
    if IncreasingIds(f.records) {
      FilterIncreasing(f.records, IsValidRecord);
    }
  }

  /** Index labels strictly increase down the rows. */
  ghost predicate IncreasingIds(rs: seq<Record>) {
    forall i, j :: 0 <= i < j < |rs| ==> rs[i].id < rs[j].id
  }

  /** Filtering rows keeps increasing index labels increasing. */
  lemma {:induction false} FilterIncreasing(rs: seq<Record>, p: Record -> bool)
    requires IncreasingIds(rs)
    ensures IncreasingIds(Filter(rs, p))
  {
    if |rs| > 0 {
      var tail := rs[1..];
      assert IncreasingIds(tail) by {
        forall i, j | 0 <= i < j < |tail| ensures tail[i].id < tail[j].id {
          assert tail[i] == rs[i + 1] && tail[j] == rs[j + 1];
        }
      }
      FilterIncreasing(tail, p);
      var rest := Filter(tail, p);
      if p(rs[0]) {
        assert forall i :: 0 <= i < |tail| ==> rs[0].id < tail[i].id by {
          forall i | 0 <= i < |tail| ensures rs[0].id < tail[i].id {
            assert tail[i] == rs[i + 1];
          }
        }
        FilterAbove(tail, p, rs[0].id);
        PrependIncreasing(rs[0], rest);
      } else {
        assert Filter(rs, p) == rest;
      }
    }
  }

  /** A lower bound on every label survives filtering. */
  lemma FilterAbove(rs: seq<Record>, p: Record -> bool, b: int)
    requires forall i :: 0 <= i < |rs| ==> b < rs[i].id
    ensures forall i :: 0 <= i < |Filter(rs, p)| ==> b < Filter(rs, p)[i].id
  {
    var r := Filter(rs, p);
    forall i | 0 <= i < |r| ensures b < r[i].id {
      assert r[i] in rs;
    }
  }

  lemma PrependIncreasing(x: Record, rest: seq<Record>)
    requires IncreasingIds(rest)
    requires forall i :: 0 <= i < |rest| ==> x.id < rest[i].id
    ensures IncreasingIds([x] + rest)
  {
    var r := [x] + rest;
    forall i, j | 0 <= i < j < |r| ensures r[i].id < r[j].id {
      assert r[j] == rest[j - 1];
      if i > 0 {
        assert r[i] == rest[i - 1];
      }
    }
  }

  // ---------------------------------------------------------------------
  // `reindex(columns=target, fill_value=0)`
  // ---------------------------------------------------------------------

  function ProjectCells(columns: seq<string>, cells: seq<Cell>, target: seq<string>): (r: seq<Cell>)
    requires |cells| == |columns|
    ensures |r| == |target|
  {
    seq(|target|, j requires 0 <= j < |target| =>
      match IndexOf(columns, target[j])
      case Some(k) => cells[k]
      case None => Num(0))
  }

  /** pandas refuses to reindex an axis that repeats a label, unless the
      requested labels are the axis itself. Otherwise every target column
      takes the values of the source column of that name, a target column
      the source lacks is 0 in every row, and every other source column is
      gone. Rows and their labels are untouched. */
  function ReindexColumns(f: Frame, target: seq<string>): (res: Result<Frame>)
    requires WellFormed(f)
    ensures res.Ok? <==> f.columns == target || AllDistinct(f.columns)
    ensures f.columns == target ==> res == Ok(f)
    ensures res.Err? ==> res.error == DuplicateColumnLabels
    ensures res.Ok? ==> res.value.columns == target && WellFormed(res.value)
    ensures res.Ok? ==> |res.value.records| == |f.records|
    ensures res.Ok? ==> forall i :: 0 <= i < |f.records| ==> res.value.records[i].id == f.records[i].id
    ensures res.Ok? && AllDistinct(f.columns) ==>
      forall i, j, k :: 0 <= i < |f.records| && 0 <= j < |target| && 0 <= k < |f.columns| && f.columns[k] == target[j] ==>
        res.value.records[i].cells[j] == f.records[i].cells[k]
    ensures res.Ok? ==>
      forall i, j :: 0 <= i < |f.records| && 0 <= j < |target| && target[j] !in f.columns ==>
        res.value.records[i].cells[j] == Num(0)
  {
    if f.columns == target then Ok(f)
    else if !AllDistinct(f.columns) then Err(DuplicateColumnLabels)
    else
      var rs := seq(|f.records|, i requires 0 <= i < |f.records| =>
        assert f.records[i] in f.records;
        Record(f.records[i].id, ProjectCells(f.columns, f.records[i].cells, target)));
      var g := Frame(target, rs);
      assert forall i, j, k :: 0 <= i < |f.records| && 0 <= j < |target| && 0 <= k < |f.columns| && f.columns[k] == target[j] ==>
        g.records[i].cells[j] == f.records[i].cells[k] by {
        forall k | 0 <= k < |f.columns| {
          IndexOfDistinct(f.columns, k);
        }
      }
      Ok(g)
  }

  /** Reindexing a frame that already has the target columns, all distinct,
      changes nothing: projection onto the schema is idempotent. */
  lemma ReindexIdempotent(f: Frame, target: seq<string>)
    requires WellFormed(f) && AllDistinct(target)
    requires ReindexColumns(f, target).Ok?
    ensures ReindexColumns(ReindexColumns(f, target).value, target) == ReindexColumns(f, target)
  {
  }

  /** Two frames holding the same values under the same (distinct) column
      names, in whatever column order, reindex to the same frame. */
  lemma ReindexOrderInvariant(f: Frame, g: Frame, target: seq<string>)
    requires WellFormed(f) && WellFormed(g)
    requires AllDistinct(f.columns) && AllDistinct(g.columns)
    requires forall c :: c in f.columns <==> c in g.columns
    requires |f.records| == |g.records|
    requires forall i :: 0 <= i < |f.records| ==> f.records[i].id == g.records[i].id
    requires forall i, j, k :: 0 <= i < |f.records| && 0 <= j < |f.columns| && 0 <= k < |g.columns| && f.columns[j] == g.columns[k] ==>
      f.records[i].cells[j] == g.records[i].cells[k]
    ensures ReindexColumns(f, target) == ReindexColumns(g, target)
  {
    var a := ReindexColumns(f, target).value;
    var b := ReindexColumns(g, target).value;
    assert |a.records| == |b.records| == |f.records|;
    forall i | 0 <= i < |a.records| ensures a.records[i] == b.records[i] {
      ReindexRowsAgree(f, g, target, i);
    }
    assert a.records == b.records;
    assert a == b;
  }

  lemma ReindexRowsAgree(f: Frame, g: Frame, target: seq<string>, i: nat)
    requires WellFormed(f) && WellFormed(g)
    requires AllDistinct(f.columns) && AllDistinct(g.columns)
    requires forall c :: c in f.columns <==> c in g.columns
    requires i < |f.records| == |g.records|
    requires f.records[i].id == g.records[i].id
    requires forall j, k :: 0 <= j < |f.columns| && 0 <= k < |g.columns| && f.columns[j] == g.columns[k] ==>
      f.records[i].cells[j] == g.records[i].cells[k]
    ensures ReindexColumns(f, target).value.records[i] == ReindexColumns(g, target).value.records[i]
  {
    var a := ReindexColumns(f, target).value;
    var b := ReindexColumns(g, target).value;
    assert a.records[i] in a.records && b.records[i] in b.records;
    forall j | 0 <= j < |target| ensures a.records[i].cells[j] == b.records[i].cells[j] {
      ReindexCellsAgree(f, g, target, i, j);
    }
    assert a.records[i].cells == b.records[i].cells;
  }

  lemma ReindexCellsAgree(f: Frame, g: Frame, target: seq<string>, i: nat, j: nat)
    requires WellFormed(f) && WellFormed(g)
    requires AllDistinct(f.columns) && AllDistinct(g.columns)
    requires forall c :: c in f.columns <==> c in g.columns
    requires i < |f.records| == |g.records| && j < |target|
    requires forall j, k :: 0 <= j < |f.columns| && 0 <= k < |g.columns| && f.columns[j] == g.columns[k] ==>
      f.records[i].cells[j] == g.records[i].cells[k]
    ensures ReindexColumns(f, target).value.records[i].cells[j] == ReindexColumns(g, target).value.records[i].cells[j]
  {
    var a := ReindexColumns(f, target).value;
    var b := ReindexColumns(g, target).value;
    if target[j] in f.columns {
      var k :| 0 <= k < |f.columns| && f.columns[k] == target[j];
      assert target[j] in g.columns;
      var m :| 0 <= m < |g.columns| && g.columns[m] == target[j];
      assert a.records[i].cells[j] == f.records[i].cells[k];
      assert b.records[i].cells[j] == g.records[i].cells[m];
    } else {
      assert target[j] !in g.columns;
    }
  }

  // ---------------------------------------------------------------------
  // `.loc[labels]`, column assignment, boolean row selection
  // ---------------------------------------------------------------------

  /** Position of the first row labelled `id`. */
  function FindRow(rs: seq<Record>, id: int): (r: Option<nat>)
    ensures r.Some? ==> r.value < |rs| && rs[r.value].id == id
    ensures r.Some? ==> forall m :: 0 <= m < r.value ==> rs[m].id != id
    ensures r.None? ==> forall m :: 0 <= m < |rs| ==> rs[m].id != id
  {
    if |rs| == 0 then None
    else if rs[0].id == id then Some(0)
    else match FindRow(rs[1..], id)
      case None => None
      case Some(k) => Some(k + 1)
  }

  /** `df.loc[ids]`: the rows with the given labels, in the order of `ids`;
      a label the frame lacks raises `KeyError`. */
  function Loc(f: Frame, ids: seq<int>): (res: Result<Frame>)
    ensures res.Ok? <==> forall k :: 0 <= k < |ids| ==> FindRow(f.records, ids[k]).Some?
    ensures res.Err? ==> exists k :: 0 <= k < |ids| && res.error == MissingRowLabel(ids[k])
    ensures res.Ok? ==> res.value.columns == f.columns && |res.value.records| == |ids|
    ensures res.Ok? ==> forall k :: 0 <= k < |ids| ==>
      res.value.records[k].id == ids[k] && res.value.records[k] in f.records
  {
    if |ids| == 0 then Ok(Frame(f.columns, []))
    else match FindRow(f.records, ids[0])
      case None => Err(MissingRowLabel(ids[0]))
      case Some(p) =>
        var rest :- Loc(f, ids[1..]);
        Ok(Frame(f.columns, [f.records[p]] + rest.records))
  }

  /** In a range-indexed frame, looking up the labels of any rows of the
      frame gives back exactly those rows. */
  lemma {:induction false} LocOfOwnRows(f: Frame, rs: seq<Record>)
    requires RangeIndexed(f)
    requires forall r <- rs :: r in f.records
    ensures Loc(f, Map(rs, RecordId)) == Ok(Frame(f.columns, rs))
  {
    if |rs| > 0 {
      assert rs[0] in rs;
      var k :| 0 <= k < |f.records| && f.records[k] == rs[0];
      assert f.records[k].id == rs[0].id;
      assert FindRow(f.records, rs[0].id) == Some(k);
      assert Map(rs, RecordId)[1..] == Map(rs[1..], RecordId);
      LocOfOwnRows(f, rs[1..]);
      assert [rs[0]] + rs[1..] == rs;
    }
  }

  /** `df[name] = values`: overwrite the column if it exists, else append
      it as the last column. */
  function SetColumn(f: Frame, name: string, values: seq<Cell>): (g: Frame)
    requires WellFormed(f) && |values| == |f.records|
    ensures WellFormed(g)
    ensures name in f.columns ==> g.columns == f.columns
    ensures name !in f.columns ==> g.columns == f.columns + [name]
    ensures |g.records| == |f.records|
    ensures forall i :: 0 <= i < |f.records| ==> g.records[i].id == f.records[i].id
    ensures forall i, j :: 0 <= i < |g.records| && 0 <= j < |g.columns| && g.columns[j] == name ==>
      g.records[i].cells[j] == values[i]
    ensures forall i, j :: 0 <= i < |f.records| && 0 <= j < |f.columns| && f.columns[j] != name ==>
      g.records[i].cells[j] == f.records[i].cells[j]
  {
    if name in f.columns then
      Frame(f.columns, seq(|f.records|, i requires 0 <= i < |f.records| =>
        assert f.records[i] in f.records;
        Record(f.records[i].id, seq(|f.columns|, j requires 0 <= j < |f.columns| =>
          if f.columns[j] == name then values[i] else f.records[i].cells[j]))))
    else
      Frame(f.columns + [name], seq(|f.records|, i requires 0 <= i < |f.records| =>
        assert f.records[i] in f.records;
        Record(f.records[i].id, f.records[i].cells + [values[i]])))
  }

  /** Boolean row selection `df[mask]`, the mask computed row by row. */
  function SelectRows(f: Frame, keep: Record -> bool): (g: Frame)
    ensures g.columns == f.columns
    ensures forall i :: 0 <= i < |g.records| ==> g.records[i] in f.records && keep(g.records[i])
    ensures forall i :: 0 <= i < |f.records| && keep(f.records[i]) ==> f.records[i] in g.records
  {
    Frame(f.columns, Filter(f.records, keep))
  }

  /** Column-name predicate "not one of `names`". */
  function NotIn(names: set<string>): string -> bool {
    (c: string) => c !in names
  }

  /** The positions of the columns whose names are not in `names`, ascending. */
  function KeptPositions(columns: seq<string>, names: set<string>): (ps: seq<nat>)
    ensures forall k :: 0 <= k < |ps| ==> ps[k] < |columns| && columns[ps[k]] !in names
    ensures forall k, m :: 0 <= k < m < |ps| ==> ps[k] < ps[m]
  {
    if |columns| == 0 then []
    else
      var shifted := Shift(KeptPositions(columns[1..], names));
      if columns[0] !in names then [0] + shifted else shifted
  }

  /** Every position moved one to the right. */
  function Shift(ps: seq<nat>): (r: seq<nat>)
    ensures |r| == |ps|
    ensures forall k :: 0 <= k < |ps| ==> r[k] == ps[k] + 1
  {
    seq(|ps|, k requires 0 <= k < |ps| => ps[k] + 1)
  }

  /** Picking the kept positions is filtering out the dropped names. */
  lemma {:induction false} KeptPositionsFilter(columns: seq<string>, names: set<string>)
    ensures Pick(columns, KeptPositions(columns, names)) == Filter(columns, NotIn(names))
  {
    if |columns| > 0 {
      var rest := KeptPositions(columns[1..], names);
      KeptPositionsFilter(columns[1..], names);
      PickShift(columns, rest);
      if columns[0] !in names {
        PickCons(columns, Shift(rest));
      }
    }
  }

  lemma PickShift<T>(s: seq<T>, ps: seq<nat>)
    requires |s| > 0
    requires forall k :: 0 <= k < |ps| ==> ps[k] < |s| - 1
    ensures Pick(s, Shift(ps)) == Pick(s[1..], ps)
  {
  }

  lemma PickCons<T>(s: seq<T>, ps: seq<nat>)
    requires |s| > 0
    requires forall k :: 0 <= k < |ps| ==> ps[k] < |s|
    ensures Pick(s, [0] + ps) == [s[0]] + Pick(s, ps)
  {
  }

  /** The elements of `s` at the positions `ps`, in the order of `ps`. */
  function Pick<T>(s: seq<T>, ps: seq<nat>): (r: seq<T>)
    requires forall k :: 0 <= k < |ps| ==> ps[k] < |s|
    ensures |r| == |ps|
    ensures forall k :: 0 <= k < |ps| ==> r[k] == s[ps[k]]
  {
    seq(|ps|, k requires 0 <= k < |ps| => s[ps[k]])
  }

  /** Cell `k` of row `i` of `g` is a cell of the same row of `f` under a
      column of the same name. */
  ghost predicate CarriedAt(f: Frame, g: Frame, i: int, k: int)
    requires 0 <= i < |g.records| && 0 <= k < |g.columns|
    requires WellFormed(f) && WellFormed(g) && |g.records| == |f.records|
  {
    assert g.records[i] in g.records && f.records[i] in f.records;
    exists j :: 0 <= j < |f.columns| && f.columns[j] == g.columns[k] && g.records[i].cells[k] == f.records[i].cells[j]
  }

  /** Every cell of `g` was carried over from `f` under its column name. */
  ghost predicate CellsCarried(f: Frame, g: Frame) {
    && WellFormed(f) && WellFormed(g) && |g.records| == |f.records|
    && forall i, k :: 0 <= i < |g.records| && 0 <= k < |g.columns| ==> CarriedAt(f, g, i, k)
  }

  /** Every row reduced to the cells at positions `ps`. */
  function PickRecords(rs: seq<Record>, ps: seq<nat>, width: nat): (qs: seq<Record>)
    requires forall r <- rs :: |r.cells| == width
    requires forall k :: 0 <= k < |ps| ==> ps[k] < width
    ensures |qs| == |rs|
    ensures forall i :: 0 <= i < |rs| ==> qs[i] == Record(rs[i].id, Pick(rs[i].cells, ps))
    ensures forall q <- qs :: |q.cells| == |ps|
  {
    seq(|rs|, i requires 0 <= i < |rs| =>
      assert rs[i] in rs;
      Record(rs[i].id, Pick(rs[i].cells, ps)))
  }

  /** `df.drop(columns=names)`: every column called by one of `names` goes,
      the others keep their order, and each kept cell stays under its
      column's name. */
  function DropColumns(f: Frame, names: set<string>): (g: Frame)
    requires WellFormed(f)
    ensures WellFormed(g)
    ensures g.columns == Filter(f.columns, NotIn(names))
    ensures |g.records| == |f.records|
    ensures forall i :: 0 <= i < |f.records| ==> g.records[i].id == f.records[i].id
    ensures CellsCarried(f, g)
  {
    var ps := KeptPositions(f.columns, names);
    KeptPositionsFilter(f.columns, names);
    var g := Frame(Pick(f.columns, ps), PickRecords(f.records, ps, |f.columns|));
    DropColumnsCells(f, ps, g);
    g
  }

  lemma DropColumnsCells(f: Frame, ps: seq<nat>, g: Frame)
    requires forall k :: 0 <= k < |ps| ==> ps[k] < |f.columns|
    requires WellFormed(f)
    requires g == Frame(Pick(f.columns, ps), PickRecords(f.records, ps, |f.columns|))
    ensures CellsCarried(f, g)
  {
    forall i, k | 0 <= i < |g.records| && 0 <= k < |g.columns| ensures CarriedAt(f, g, i, k) {
      var j: int := ps[k];
      assert g.records[i].cells == Pick(f.records[i].cells, ps);
      assert 0 <= j < |f.columns| && f.columns[j] == g.columns[k];
      assert g.records[i].cells[k] == f.records[i].cells[j];
    }
  }

  /** Row predicate "the cell at position `k` differs from `v`". */
  function CellDiffers(k: nat, v: Cell): Record -> bool {
    (r: Record) => !(k < |r.cells| && r.cells[k] == v)
  }

  function StrCells(labels: seq<string>): (cs: seq<Cell>)
    ensures |cs| == |labels|
    ensures forall i :: 0 <= i < |labels| ==> cs[i] == Str(labels[i])
  {
    seq(|labels|, i requires 0 <= i < |labels| => Str(labels[i]))
  }
}
