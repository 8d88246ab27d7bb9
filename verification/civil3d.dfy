/**
  `EnginexExporter.export_to_civil3d_csv` in export_enginex.py: a table with
  columns named x, y and z (in any case) becomes a headerless PNEZD point list
  for Civil 3D (point number, northing from y, easting from x, elevation from
  z, description); any other table comes back as ordinary CSV with its header.
  The result is described by its rows, not by its bytes.
 */
module Civil3d {
  import opened Strings

  /** A table value; `Missing` is pandas' NaN, written as an empty field. */
  datatype Value = Missing | Num(n: real) | Text(s: string)

  /** A pandas DataFrame: column labels (which may repeat) and rows. */
  datatype Frame = Frame(columns: seq<string>, rows: seq<seq<Value>>)

  predicate Rectangular(f: Frame) {
    forall i :: 0 <= i < |f.rows| ==> |f.rows[i]| == |f.columns|
  }

  /** One line of the PNEZD file. */
  datatype Point = Point(p: nat, n: Value, e: Value, z: Value, d: Value)

  /** The three outcomes: ordinary CSV (with header), the headerless PNEZD
      list, or the error string of the `except` branch. */
  datatype Export = PlainCsv(header: seq<string>, rows: seq<seq<Value>>) | Pnezd(points: seq<Point>) | BimError(msg: string)

  const ErrorPrefix := "Error BIM Export: "

  // ----- building a frame from a list of dicts -----

  /** A dict row: its items in insertion order. */
  type Record = seq<(string, Value)>

  predicate HasKey(r: Record, key: string) {
    exists k :: 0 <= k < |r| && r[k].0 == key
  }

  /** `r.get(key)`: the value of the first item with that key, or NaN. */
  function RecordGet(r: Record, key: string): (v: Value)
    ensures v != Missing ==> HasKey(r, key)
  {
    if |r| == 0 then Missing
    else if r[0].0 == key then r[0].1
    else RecordGet(r[1..], key)
  }

  /** The keys of the records in first-appearance order, each once. */
  function KeysOf(records: seq<Record>): (keys: seq<string>)
    decreases |records|
  {
    if |records| == 0 then []
    else AddKeys(KeysOf(records[..|records| - 1]), records[|records| - 1])
  }

  function AddKeys(keys: seq<string>, r: Record): seq<string>
    decreases |r|
  {
    if |r| == 0 then keys
    else AddKeys(if r[0].0 in keys then keys else keys + [r[0].0], r[1..])
  }

  /** `pd.DataFrame(list_of_dicts)`: one column per key, one row per dict,
      NaN where a dict lacks the key. */
  function FromRecords(records: seq<Record>): (f: Frame)
    ensures Rectangular(f)
  {
    var keys := KeysOf(records);
    Frame(keys, seq(|records|, i requires 0 <= i < |records| =>
      seq(|keys|, k requires 0 <= k < |keys| => RecordGet(records[i], keys[k]))))
  }

  predicate NoDuplicates(s: seq<string>) {
    forall i, j :: 0 <= i < j < |s| ==> s[i] != s[j]
  }

  lemma {:induction false} AddKeysSpec(keys: seq<string>, r: Record)
    requires NoDuplicates(keys)
    ensures NoDuplicates(AddKeys(keys, r))
    ensures |AddKeys(keys, r)| >= |keys| && AddKeys(keys, r)[..|keys|] == keys
    ensures forall x :: x in AddKeys(keys, r) <==> x in keys || HasKey(r, x)
    decreases |r|
  {
    if |r| > 0 {
      var next := if r[0].0 in keys then keys else keys + [r[0].0];
      AddKeysSpec(next, r[1..]);
      forall x ensures HasKey(r, x) <==> x == r[0].0 || HasKey(r[1..], x) {
        if HasKey(r, x) && x != r[0].0 {
          var k :| 0 <= k < |r| && r[k].0 == x;
          assert r[1..][k - 1].0 == x;
        }
        if HasKey(r[1..], x) {
          var k :| 0 <= k < |r[1..]| && r[1..][k].0 == x;
          assert r[k + 1].0 == x;
        }
        if x == r[0].0 {
          assert r[0].0 == x;
        }
      }
      assert AddKeys(keys, r)[..|next|] == next;
      assert AddKeys(keys, r)[..|keys|] == AddKeys(keys, r)[..|next|][..|keys|];
    }
  }

  /** Some dict of the list has `key`. */
  predicate InSomeRecord(records: seq<Record>, key: string) {
    exists i :: 0 <= i < |records| && HasKey(records[i], key)
  }

  /** The columns of a frame built from dicts are exactly the keys that occur
      in some dict, each once, in first-appearance order: the keys of the
      earlier dicts come first. */
  lemma {:induction false} KeysOfSpec(records: seq<Record>)
    ensures NoDuplicates(KeysOf(records))
    ensures forall x :: x in KeysOf(records) <==> InSomeRecord(records, x)
    ensures |records| > 0 ==>
      && |KeysOf(records[..|records| - 1])| <= |KeysOf(records)|
      && KeysOf(records)[..|KeysOf(records[..|records| - 1])|] == KeysOf(records[..|records| - 1])
    decreases |records|
  {
    if |records| > 0 {
      var init := records[..|records| - 1];
      KeysOfSpec(init);
      AddKeysSpec(KeysOf(init), records[|records| - 1]);
      forall x ensures InSomeRecord(records, x) <==> InSomeRecord(init, x) || HasKey(records[|records| - 1], x)
      {
        if InSomeRecord(records, x) {
          var i :| 0 <= i < |records| && HasKey(records[i], x);
          if i < |init| {
            assert HasKey(init[i], x);
          }
        }
        if InSomeRecord(init, x) {
          var i :| 0 <= i < |init| && HasKey(init[i], x);
          assert HasKey(records[i], x);
        }
      }
    }
  }

  // ----- column lookup -----

  /** How many columns carry `label`. */
  function Occurrences(columns: seq<string>, lbl: string): nat
    decreases |columns|
  {
    if |columns| == 0 then 0
    else (if columns[0] == lbl then 1 else 0) + Occurrences(columns[1..], lbl)
  }

  lemma {:induction false} OccurrencesIn(columns: seq<string>, lbl: string)
    ensures Occurrences(columns, lbl) > 0 <==> lbl in columns
    decreases |columns|
  {
    if |columns| > 0 {
      OccurrencesIn(columns[1..], lbl);
      assert columns == [columns[0]] + columns[1..];
    }
  }

  /** What `df.get(label, default)` hands to the output column: the values of
      the only column with that label, the default when no column has it,
      or a multi-column frame (which the assignment rejects) when several do. */
  datatype Source = Column(values: seq<Value>) | Constant(v: Value) | Duplicated

  function ColumnValues(f: Frame, k: nat): (vs: seq<Value>)
    requires Rectangular(f) && k < |f.columns|
    ensures |vs| == |f.rows|
    ensures forall i :: 0 <= i < |f.rows| ==> vs[i] == f.rows[i][k]
  {
    seq(|f.rows|, i requires 0 <= i < |f.rows| => f.rows[i][k])
  }

  function Get(f: Frame, lbl: string, default: Source): (src: Source)
    requires Rectangular(f)
    requires default.Column? ==> |default.values| == |f.rows|
    ensures src.Column? ==> |src.values| == |f.rows|
  {
    var n := Occurrences(f.columns, lbl);
    if n == 0 then default
    else if n == 1 then
      OccurrencesIn(f.columns, lbl);
      Column(ColumnValues(f, LabelIndex(f.columns, lbl)))
    else Duplicated
  }

  function LabelIndex(columns: seq<string>, lbl: string): (k: nat)
    requires lbl in columns
    ensures k < |columns| && columns[k] == lbl
  {
    if columns[0] == lbl then 0 else 1 + LabelIndex(columns[1..], lbl)
  }

  /** The value an output column takes in row `i`. */
  function Pick(src: Source, i: nat): Value
    requires src.Column? ==> i < |src.values|
  {
    match src
    case Column(vs) => vs[i]
    case Constant(v) => v
    case Duplicated => Missing
  }

  /** `col in df.columns.str.lower()`. */
  predicate HasLowerLabel(columns: seq<string>, name: string) {
    exists k :: 0 <= k < |columns| && Lower(columns[k]) == name
  }

  predicate HasCoordinates(f: Frame) {
    HasLowerLabel(f.columns, "x") && HasLowerLabel(f.columns, "y") && HasLowerLabel(f.columns, "z")
  }

  function NorthSource(f: Frame): Source requires Rectangular(f) { Get(f, "y", Get(f, "Y", Constant(Num(0.0)))) }
  function EastSource(f: Frame): Source requires Rectangular(f) { Get(f, "x", Get(f, "X", Constant(Num(0.0)))) }
  function ElevationSource(f: Frame): Source requires Rectangular(f) { Get(f, "z", Get(f, "Z", Constant(Num(0.0)))) }
  function DescriptionSource(f: Frame): Source requires Rectangular(f) { Get(f, "desc", Get(f, "keterangan", Constant(Text("Point")))) }

  /** `export_to_civil3d_csv` over a frame. */
  function ExportToCivil3d(f: Frame): (out: Export)
    requires Rectangular(f)
    ensures out.PlainCsv? <==> !HasCoordinates(f)
    ensures out.PlainCsv? ==> out.header == f.columns && out.rows == f.rows
    ensures out.Pnezd? ==> |out.points| == |f.rows|
    ensures out.BimError? ==> StartsWith(out.msg, ErrorPrefix)
  {
    if !HasCoordinates(f) then PlainCsv(f.columns, f.rows)
    else
      var north, east, elev, desc := NorthSource(f), EastSource(f), ElevationSource(f), DescriptionSource(f);
      if north.Duplicated? || east.Duplicated? || elev.Duplicated? || desc.Duplicated? then BimError(ErrorPrefix)
      else Pnezd(seq(|f.rows|, i requires 0 <= i < |f.rows| =>
        Point(i + 1, Pick(north, i), Pick(east, i), Pick(elev, i), Pick(desc, i))))
  }

  /** `export_to_civil3d_csv` over a list of dicts. An empty list builds a
      frame whose column index is a `RangeIndex` (pandas 2), on which
      `df.columns.str` raises, so the `except` branch answers. */
  function ExportRecords(records: seq<Record>): Export {
    if |records| == 0 then BimError(ErrorPrefix)
    else ExportToCivil3d(FromRecords(records))
  }

  /** Only `x` and `X` lower-case to `x` (likewise for y and z). */
  lemma LowerIsLetter(s: string, lo: char, up: char)
    requires 'a' <= lo <= 'z' && up as int == lo as int - 32
    ensures Lower(s) == [lo] <==> s == [lo] || s == [up]
  {
    if Lower(s) == [lo] {
      assert |s| == 1 && LowerChar(s[0]) == lo;
    }
  }

  lemma HasLowerLabelIff(columns: seq<string>, lo: char, up: char)
    requires 'a' <= lo <= 'z' && up as int == lo as int - 32
    ensures HasLowerLabel(columns, [lo]) <==> [lo] in columns || [up] in columns
  {
    forall k | 0 <= k < |columns| ensures Lower(columns[k]) == [lo] <==> columns[k] == [lo] || columns[k] == [up] {
      LowerIsLetter(columns[k], lo, up);
    }
  }

  /** Once the column check passes, the coordinate lookups always find a
      column: the fallback `0` of `df.get('y', df.get('Y', 0))` is never
      used. */
  lemma CoordinateFallbackUnused(f: Frame)
    requires Rectangular(f) && HasCoordinates(f)
    ensures !NorthSource(f).Constant? && !EastSource(f).Constant? && !ElevationSource(f).Constant?
  {
    HasLowerLabelIff(f.columns, 'x', 'X');
    HasLowerLabelIff(f.columns, 'y', 'Y');
    HasLowerLabelIff(f.columns, 'z', 'Z');
    OccurrencesIn(f.columns, "x");
    OccurrencesIn(f.columns, "X");
    OccurrencesIn(f.columns, "y");
    OccurrencesIn(f.columns, "Y");
    OccurrencesIn(f.columns, "z");
    OccurrencesIn(f.columns, "Z");
  }

  /** The exported point list: P runs 1..n; N comes from the y column, E
      from x and Z from z (the lower-case label when present, else the
      upper-case one); D from `desc`, else `keterangan`, else "Point" on every
      row. */
  lemma PnezdMapping(f: Frame, i: nat)
    requires Rectangular(f)
    requires ExportToCivil3d(f).Pnezd? && i < |f.rows|
    ensures var pt := ExportToCivil3d(f).points[i];
      && pt.p == i + 1
      && ("y" in f.columns ==> pt.n == f.rows[i][LabelIndex(f.columns, "y")])
      && ("y" !in f.columns ==> "Y" in f.columns && pt.n == f.rows[i][LabelIndex(f.columns, "Y")])
      && ("x" in f.columns ==> pt.e == f.rows[i][LabelIndex(f.columns, "x")])
      && ("x" !in f.columns ==> "X" in f.columns && pt.e == f.rows[i][LabelIndex(f.columns, "X")])
      && ("z" in f.columns ==> pt.z == f.rows[i][LabelIndex(f.columns, "z")])
      && ("z" !in f.columns ==> "Z" in f.columns && pt.z == f.rows[i][LabelIndex(f.columns, "Z")])
      && ("desc" in f.columns ==> pt.d == f.rows[i][LabelIndex(f.columns, "desc")])
      && ("desc" !in f.columns && "keterangan" in f.columns ==> pt.d == f.rows[i][LabelIndex(f.columns, "keterangan")])
      && ("desc" !in f.columns && "keterangan" !in f.columns ==> pt.d == Text("Point"))
  {
    CoordinateFallbackUnused(f);
    OccurrencesIn(f.columns, "x");
    OccurrencesIn(f.columns, "y");
    OccurrencesIn(f.columns, "z");
    OccurrencesIn(f.columns, "desc");
    OccurrencesIn(f.columns, "keterangan");
  }

  /** `df.get(primary, df.get(fallback, d))` hands over several columns:
      the primary label is repeated, or it is absent and the fallback label
      is repeated. */
  predicate Ambiguous(columns: seq<string>, primary: string, fallback: string) {
    Occurrences(columns, primary) > 1 || (Occurrences(columns, primary) == 0 && Occurrences(columns, fallback) > 1)
  }

  /** The export fails exactly when the column check passes and one of the
      four lookups (y/Y, x/X, z/Z, desc/keterangan) meets a repeated label
      before finding a single column. */
  lemma ErrorIff(f: Frame)
    requires Rectangular(f)
    ensures ExportToCivil3d(f).BimError? <==>
      HasCoordinates(f) &&
      (Ambiguous(f.columns, "y", "Y") || Ambiguous(f.columns, "x", "X") ||
       Ambiguous(f.columns, "z", "Z") || Ambiguous(f.columns, "desc", "keterangan"))
  {
    LookupDuplicatedIff(f, "y", "Y", Num(0.0));
    LookupDuplicatedIff(f, "x", "X", Num(0.0));
    LookupDuplicatedIff(f, "z", "Z", Num(0.0));
    LookupDuplicatedIff(f, "desc", "keterangan", Text("Point"));
  }

  /** A nested lookup is handed a multi-column frame exactly when it is
      ambiguous. */
  lemma LookupDuplicatedIff(f: Frame, primary: string, fallback: string, d: Value)
    requires Rectangular(f)
    ensures Get(f, primary, Get(f, fallback, Constant(d))).Duplicated? <==> Ambiguous(f.columns, primary, fallback)
  {
  }

  /** A frame built from dicts never has a repeated column label, so a list
      of dicts takes the error path only when it is empty. */
  lemma RecordsErrorIffEmpty(records: seq<Record>)
    ensures ExportRecords(records).BimError? <==> |records| == 0
  {
    if |records| == 0 {
      return;
    }
    var f := FromRecords(records);
    KeysOfSpec(records);
    ErrorIff(f);
    NoDuplicatesOccurrences(f.columns, "y");
    NoDuplicatesOccurrences(f.columns, "x");
    NoDuplicatesOccurrences(f.columns, "z");
    NoDuplicatesOccurrences(f.columns, "desc");
    NoDuplicatesOccurrences(f.columns, "Y");
    NoDuplicatesOccurrences(f.columns, "X");
    NoDuplicatesOccurrences(f.columns, "Z");
    NoDuplicatesOccurrences(f.columns, "keterangan");
  }

  lemma {:induction false} NoDuplicatesOccurrences(columns: seq<string>, lbl: string)
    requires NoDuplicates(columns)
    ensures Occurrences(columns, lbl) <= 1
    decreases |columns|
  {
    if |columns| > 0 {
      NoDuplicatesOccurrences(columns[1..], lbl);
      if columns[0] == lbl {
        OccurrencesIn(columns[1..], lbl);
        assert lbl !in columns[1..] by {
          forall k | 0 <= k < |columns[1..]| ensures columns[1..][k] != lbl {
            assert columns[1..][k] == columns[k + 1];
          }
        }
      }
    }
  }
}
