/**
 * The csv-backed table of rows: an ordered list of rows (field name to
 * value maps), an ordered schema with one optional string converter per
 * field, and an abstract file system with a real file and the `.tmp`
 * sibling that `sync` writes before moving it over the real one.
 * A file is a sequence of records, one record a sequence of cell strings;
 * the csv module's quoting is below this level.
 */
module Storage {
  import opened Wrappers
  import opened Decimal
  import opened SeqFacts

  /** A cell value after conversion: a string, an `int`, a timestamp (kept as its ISO text), or `None`. */
  datatype Value = Text(s: string) | Num(n: int) | Time(iso: string) | Null

  type Row = map<string, Value>
  type Record = seq<string>

  /** `None` in the converter mapping keeps the string; otherwise a function that may raise (`None` result). */
  datatype Converter = Keep | Apply(f: string -> Option<Value>)

  datatype LoadError = EmptyFile | HeaderMismatch(found: Record) | BadRecord(row: nat)
  datatype SyncError = OpenFailed | WriteFailed | CloseFailed
  datatype AppendError = SchemaViolation | SyncFailed(cause: SyncError)

  /**
   * What goes wrong in `sync`, if anything: opening the temporary file,
   * writing record `after`, or flushing it when it is closed. The move
   * happens inside the `with` block, before the close, so a flush that
   * fails there leaves the real file holding only the first `kept` records
   * that reached the disk.
   */
  datatype Fault = NoFault | OpenFault | WriteFault(after: nat) | CloseFault(kept: nat)

  predicate Distinct(fs: seq<string>)
  {
    forall i, j :: 0 <= i < j < |fs| ==> fs[i] != fs[j]
  }

  function FieldSet(fs: seq<string>): set<string>
  {
    set k | k in fs
  }

  /** The schema the table is built with: distinct field names, each with an entry in the converter mapping. */
  predicate SchemaOk(fs: seq<string>, conv: map<string, Converter>)
  {
    Distinct(fs) && forall k :: k in fs ==> k in conv
  }

  /** What the csv writer stores for a value: `str(v)`, and the empty string for `None`. */
  function Show(v: Value): string
  {
    match v
    case Text(s) => s
    case Num(n) => IntToString(n)
    case Time(iso) => iso
    case Null => ""
  }

  /** One row as a record: the cells in field-name order (a missing key is written as the empty string). */
  function Cells(fs: seq<string>, row: Row): (rec: Record)
    ensures |rec| == |fs|
    ensures forall j :: 0 <= j < |fs| && fs[j] in row ==> rec[j] == Show(row[fs[j]])
  {
    if fs == [] then []
    else Cells(fs[..|fs| - 1], row) + [if fs[|fs| - 1] in row then Show(row[fs[|fs| - 1]]) else ""]
  }

  function DumpRows(fs: seq<string>, items: seq<Row>): (recs: seq<Record>)
    ensures |recs| == |items|
    ensures forall i :: 0 <= i < |items| ==> recs[i] == Cells(fs, items[i])
  {
    if items == [] then []
    else DumpRows(fs, items[..|items| - 1]) + [Cells(fs, items[|items| - 1])]
  }

  /** What `dump` writes: the header record, then one record per row in list order. */
  function Dump(fs: seq<string>, items: seq<Row>): seq<Record>
  {
    [fs] + DumpRows(fs, items)
  }

  /** Dumping one more row adds its record at the end. */
  lemma DumpSnoc(fs: seq<string>, items: seq<Row>, i: nat)
    requires i < |items|
    ensures Dump(fs, items[..i + 1]) == Dump(fs, items[..i]) + [Cells(fs, items[i])]
  {
    assert items[..i + 1][..i] == items[..i];
    AppendAssoc([fs], DumpRows(fs, items[..i]), [Cells(fs, items[i])]);
  }

  /** The records the reader yields: blank records are skipped. */
  function NonBlank(recs: seq<Record>): (r: seq<Record>)
    ensures forall i :: 0 <= i < |r| ==> r[i] != []
  {
    if recs == [] then []
    else NonBlank(recs[..|recs| - 1]) + (if recs[|recs| - 1] == [] then [] else [recs[|recs| - 1]])
  }

  /** One cell through its converter; `None` for a cell missing from a short record. */
  function ConvertCell(c: Converter, cell: Option<string>): Option<Value>
  {
    match c
    case Keep => Some(if cell.Some? then Text(cell.value) else Null)
    case Apply(f) => if cell.None? then None else f(cell.value)
  }

  function CellAt(rec: Record, j: nat): Option<string>
  {
    if j < |rec| then Some(rec[j]) else None
  }

  /** The first `j` fields of a record converted into a row; `None` if a converter fails. */
  function DecodeCells(fs: seq<string>, conv: map<string, Converter>, rec: Record, j: nat): (r: Option<Row>)
    requires SchemaOk(fs, conv) && j <= |fs|
  {
    if j == 0 then Some(map[])
    else
      match DecodeCells(fs, conv, rec, j - 1)
      case None => None
      case Some(m) =>
        match ConvertCell(conv[fs[j - 1]], CellAt(rec, j - 1))
        case None => None
        case Some(v) => Some(m[fs[j - 1] := v])
  }

  /** A decoded record has exactly the fields decoded so far as its keys. */
  lemma {:induction false} DecodeCellsKeys(fs: seq<string>, conv: map<string, Converter>, rec: Record, j: nat)
    requires SchemaOk(fs, conv) && j <= |fs| && DecodeCells(fs, conv, rec, j).Some?
    ensures DecodeCells(fs, conv, rec, j).value.Keys == FieldSet(fs[..j])
  {
    if j > 0 {
      DecodeCellsKeys(fs, conv, rec, j - 1);
      assert fs[..j] == fs[..j - 1] + [fs[j - 1]];
      assert FieldSet(fs[..j]) == FieldSet(fs[..j - 1]) + {fs[j - 1]};
    }
  }

  /** One data record as a row; a record with more cells than fields fails (its extra cells have no converter). */
  function DecodeRecord(fs: seq<string>, conv: map<string, Converter>, rec: Record): Option<Row>
    requires SchemaOk(fs, conv)
  {
    if |rec| > |fs| then None else DecodeCells(fs, conv, rec, |fs|)
  }

  /** The data records as rows; the error names the first record that fails. */
  function DecodeRows(fs: seq<string>, conv: map<string, Converter>, recs: seq<Record>): (r: Result<seq<Row>, LoadError>)
    requires SchemaOk(fs, conv)
    ensures r.Success? ==> |r.value| == |recs|
  {
    if recs == [] then Success([])
    else
      var n := |recs| - 1;
      match DecodeRows(fs, conv, recs[..n])
      case Failure(e) => Failure(e)
      case Success(rows) =>
        match DecodeRecord(fs, conv, recs[n])
        case None => Failure(BadRecord(n))
        case Some(row) => Success(rows + [row])
  }

  /**
   * The rows are the records converted one by one, in order; the load fails
   * exactly when some record fails, and the error names the first one.
   */
  lemma {:induction false} DecodeRowsMeaning(fs: seq<string>, conv: map<string, Converter>, recs: seq<Record>)
    requires SchemaOk(fs, conv)
    ensures var r := DecodeRows(fs, conv, recs);
      && (r.Success? <==> forall i :: 0 <= i < |recs| ==> DecodeRecord(fs, conv, recs[i]).Some?)
      && (r.Success? ==> forall i :: 0 <= i < |recs| ==> DecodeRecord(fs, conv, recs[i]) == Some(r.value[i]))
      && (r.Failure? ==> r.error.BadRecord? && r.error.row < |recs|)
      && (r.Failure? ==> DecodeRecord(fs, conv, recs[r.error.row]).None?)
      && (r.Failure? ==> forall i :: 0 <= i < r.error.row ==> DecodeRecord(fs, conv, recs[i]).Some?)
  {
    if recs != [] {
      var n := |recs| - 1;
      DecodeRowsMeaning(fs, conv, recs[..n]);
      assert forall i :: 0 <= i < n ==> recs[..n][i] == recs[i];
      var r, r0 := DecodeRows(fs, conv, recs), DecodeRows(fs, conv, recs[..n]);
      if r.Success? {
        assert r0.Success? && r.value == r0.value + [DecodeRecord(fs, conv, recs[n]).value];
        forall i | 0 <= i < |recs| ensures DecodeRecord(fs, conv, recs[i]) == Some(r.value[i]) {
          if i < n {
            assert r.value[i] == r0.value[i];
          }
        }
      }
    }
  }

  /** What `load` makes of a file: the header must equal the field names, in order; then every record converts. */
  function Decode(fs: seq<string>, conv: map<string, Converter>, recs: seq<Record>): Result<seq<Row>, LoadError>
    requires SchemaOk(fs, conv)
  {
    var rs := NonBlank(recs);
    if rs == [] then Failure(EmptyFile)
    else if rs[0] != fs then Failure(HeaderMismatch(rs[0]))
    else DecodeRows(fs, conv, rs[1..])
  }

  /** A converter inverts the string form of a value: what `dump` writes, the converter reads back. */
  predicate Fits(c: Converter, v: Value)
  {
    match c
    case Keep => v.Text?
    case Apply(f) => f(Show(v)) == Some(v)
  }

  /** A row whose keys are the field names and whose every value its field's converter reads back. */
  predicate RowFits(fs: seq<string>, conv: map<string, Converter>, row: Row)
    requires SchemaOk(fs, conv)
  {
    row.Keys == FieldSet(fs) && forall k :: k in fs ==> Fits(conv[k], row[k])
  }

  lemma CellOfRow(fs: seq<string>, conv: map<string, Converter>, row: Row, i: nat)
    requires SchemaOk(fs, conv) && RowFits(fs, conv, row) && i < |fs|
    ensures ConvertCell(conv[fs[i]], CellAt(Cells(fs, row), i)) == Some(row[fs[i]])
  {
    assert fs[i] in fs;
  }

  lemma {:induction false} DecodeCellsOfRow(fs: seq<string>, conv: map<string, Converter>, row: Row, j: nat)
    requires SchemaOk(fs, conv) && RowFits(fs, conv, row) && j <= |fs|
    ensures DecodeCells(fs, conv, Cells(fs, row), j).Some?
  {
    if j > 0 {
      DecodeCellsOfRow(fs, conv, row, j - 1);
      CellOfRow(fs, conv, row, j - 1);
    }
  }

  /** One more field of a record: its cell through its converter is added to the row, or the record fails. */
  lemma DecodeCellsStep(fs: seq<string>, conv: map<string, Converter>, rec: Record, j: nat)
    requires SchemaOk(fs, conv) && j < |fs| && DecodeCells(fs, conv, rec, j).Some?
    ensures DecodeCells(fs, conv, rec, j + 1)
      == match ConvertCell(conv[fs[j]], CellAt(rec, j))
         case None => None
         case Some(v) => Some(DecodeCells(fs, conv, rec, j).value[fs[j] := v])
  {
  }

  /** Each field of a decoded record holds its cell through the field's converter. */
  lemma {:induction false} DecodeCellsValues(fs: seq<string>, conv: map<string, Converter>, rec: Record, j: nat, i: nat)
    requires SchemaOk(fs, conv) && i < j <= |fs| && DecodeCells(fs, conv, rec, j).Some?
    ensures fs[i] in DecodeCells(fs, conv, rec, j).value
    ensures ConvertCell(conv[fs[i]], CellAt(rec, i)) == Some(DecodeCells(fs, conv, rec, j).value[fs[i]])
  {
    if i < j - 1 {
      DecodeCellsValues(fs, conv, rec, j - 1, i);
      assert fs[i] != fs[j - 1];
    }
  }

  lemma DecodedField(fs: seq<string>, conv: map<string, Converter>, row: Row, k: string)
    requires SchemaOk(fs, conv) && RowFits(fs, conv, row) && k in row
    requires DecodeCells(fs, conv, Cells(fs, row), |fs|).Some?
    ensures k in DecodeCells(fs, conv, Cells(fs, row), |fs|).value
    ensures DecodeCells(fs, conv, Cells(fs, row), |fs|).value[k] == row[k]
  {
    assert fs[..|fs|] == fs;
    var i :| 0 <= i < |fs| && fs[i] == k;
    CellOfRow(fs, conv, row, i);
    DecodeCellsValues(fs, conv, Cells(fs, row), |fs|, i);
  }

  lemma DecodedFields(fs: seq<string>, conv: map<string, Converter>, row: Row)
    requires SchemaOk(fs, conv) && RowFits(fs, conv, row)
    requires DecodeCells(fs, conv, Cells(fs, row), |fs|).Some?
    ensures forall k :: k in row ==>
      k in DecodeCells(fs, conv, Cells(fs, row), |fs|).value && DecodeCells(fs, conv, Cells(fs, row), |fs|).value[k] == row[k]
  {
    forall k | k in row
      ensures k in DecodeCells(fs, conv, Cells(fs, row), |fs|).value
      ensures DecodeCells(fs, conv, Cells(fs, row), |fs|).value[k] == row[k]
    {
      DecodedField(fs, conv, row, k);
    }
  }

  lemma SameMap<K, V>(m: map<K, V>, n: map<K, V>)
    requires m.Keys == n.Keys && forall k :: k in n ==> m[k] == n[k]
    ensures m == n
  {
  }

  lemma DecodeRecordOfRow(fs: seq<string>, conv: map<string, Converter>, row: Row)
    requires SchemaOk(fs, conv) && RowFits(fs, conv, row)
    ensures DecodeRecord(fs, conv, Cells(fs, row)) == Some(row)
  {
    DecodeCellsOfRow(fs, conv, row, |fs|);
    var m := DecodeCells(fs, conv, Cells(fs, row), |fs|).value;
    assert fs[..|fs|] == fs;
    DecodeCellsKeys(fs, conv, Cells(fs, row), |fs|);
    DecodedFields(fs, conv, row);
    SameMap(m, row);
  }

  lemma {:induction false} DecodeDumpRows(fs: seq<string>, conv: map<string, Converter>, items: seq<Row>)
    requires SchemaOk(fs, conv)
    requires forall i :: 0 <= i < |items| ==> RowFits(fs, conv, items[i])
    ensures DecodeRows(fs, conv, DumpRows(fs, items)) == Success(items)
  {
    if items != [] {
      var n := |items| - 1;
      var pre := DumpRows(fs, items[..n]);
      var last := Cells(fs, items[n]);
      assert DumpRows(fs, items) == pre + [last];
      SnocParts(pre, last);
      assert forall i :: 0 <= i < n ==> items[..n][i] == items[i];
      DecodeDumpRows(fs, conv, items[..n]);
      DecodeRecordOfRow(fs, conv, items[n]);
      LastSplit(items);
    }
  }

  lemma {:induction false} NonBlankOfFilled(recs: seq<Record>)
    requires forall i :: 0 <= i < |recs| ==> recs[i] != []
    ensures NonBlank(recs) == recs
  {
    if recs != [] {
      NonBlankOfFilled(recs[..|recs| - 1]);
    }
  }

  /**
   * Loading what `dump` wrote gives the same rows back, provided the schema
   * has a field (an empty header is a blank line, which the reader skips)
   * and every converter inverts the string form of its field's values.
   */
  lemma LoadDumpRoundTrip(fs: seq<string>, conv: map<string, Converter>, items: seq<Row>)
    requires SchemaOk(fs, conv) && |fs| > 0
    requires forall i :: 0 <= i < |items| ==> RowFits(fs, conv, items[i])
    ensures Decode(fs, conv, Dump(fs, items)) == Success(items)
  {
    var recs := Dump(fs, items);
    NonBlankOfFilled(recs);
    ConsParts(fs, DumpRows(fs, items));
    DecodeDumpRows(fs, conv, items);
  }

  lemma {:induction false} NonBlankAppend(a: seq<Record>, b: seq<Record>)
    ensures NonBlank(a + b) == NonBlank(a) + NonBlank(b)
  {
    if b == [] {
      assert a + b == a;
    } else {
      var n := |b| - 1;
      var tail := if b[n] == [] then [] else [b[n]];
      assert (a + b)[..|a + b| - 1] == a + b[..n];
      assert (a + b)[|a + b| - 1] == b[n];
      NonBlankAppend(a, b[..n]);
      assert NonBlank(a + b) == NonBlank(a + b[..n]) + tail;
      assert NonBlank(b) == NonBlank(b[..n]) + tail;
    }
  }

  lemma {:induction false} DecodeRowsKeepsFailure(fs: seq<string>, conv: map<string, Converter>, a: seq<Record>, b: seq<Record>)
    requires SchemaOk(fs, conv) && DecodeRows(fs, conv, a).Failure?
    ensures DecodeRows(fs, conv, a + b) == DecodeRows(fs, conv, a)
  {
    if b == [] {
      assert a + b == a;
    } else {
      var n := |b| - 1;
      assert (a + b)[..|a + b| - 1] == a + b[..n];
      DecodeRowsKeepsFailure(fs, conv, a, b[..n]);
    }
  }

  lemma {:induction false} DecodeCellsKeepsFailure(fs: seq<string>, conv: map<string, Converter>, rec: Record, j: nat, k: nat)
    requires SchemaOk(fs, conv) && j <= k <= |fs| && DecodeCells(fs, conv, rec, j).None?
    ensures DecodeCells(fs, conv, rec, k).None?
    decreases k - j
  {
    if j < k {
      assert DecodeCells(fs, conv, rec, j + 1).None?;
      DecodeCellsKeepsFailure(fs, conv, rec, j + 1, k);
    }
  }

  /** With only blank records before index `i`, the header is `recs[i]` and the rows come from what follows it. */
  lemma HeaderIsFirstFilled(fs: seq<string>, conv: map<string, Converter>, recs: seq<Record>, i: nat)
    requires SchemaOk(fs, conv) && i < |recs| && recs[i] != [] && NonBlank(recs[..i]) == []
    ensures recs[i] != fs ==> Decode(fs, conv, recs) == Failure(HeaderMismatch(recs[i]))
    ensures recs[i] == fs ==> Decode(fs, conv, recs) == DecodeRows(fs, conv, NonBlank(recs[i + 1..]))
  {
    assert recs[..i + 1] == recs[..i] + [recs[i]];
    assert recs == recs[..i + 1] + recs[i + 1..];
    NonBlankAppend(recs[..i + 1], recs[i + 1..]);
    assert NonBlank(recs) == [recs[i]] + NonBlank(recs[i + 1..]);
  }

  /** One more record read: a blank one is skipped, any other is added. */
  lemma NonBlankStep(data: seq<Record>, p: nat)
    requires p < |data|
    ensures data[p] == [] ==> NonBlank(data[..p + 1]) == NonBlank(data[..p])
    ensures data[p] != [] ==> NonBlank(data[..p + 1]) == NonBlank(data[..p]) + [data[p]]
  {
    assert data[..p + 1][..p] == data[..p];
  }

  /** A record that does not convert fails the whole load, naming it. */
  lemma DataFails(fs: seq<string>, conv: map<string, Converter>, data: seq<Record>, p: nat)
    requires SchemaOk(fs, conv) && p < |data| && data[p] != []
    requires DecodeRows(fs, conv, NonBlank(data[..p])).Success? && DecodeRecord(fs, conv, data[p]).None?
    ensures DecodeRows(fs, conv, NonBlank(data)) == Failure(BadRecord(|NonBlank(data[..p])|))
  {
    var before := NonBlank(data[..p]);
    NonBlankStep(data, p);
    assert (before + [data[p]])[..|before|] == before;
    assert DecodeRows(fs, conv, before + [data[p]]) == Failure(BadRecord(|before|));
    assert data == data[..p + 1] + data[p + 1..];
    NonBlankAppend(data[..p + 1], data[p + 1..]);
    DecodeRowsKeepsFailure(fs, conv, before + [data[p]], NonBlank(data[p + 1..]));
  }

  /** A record that converts adds its row to the rows loaded so far. */
  lemma DataSucceeds(fs: seq<string>, conv: map<string, Converter>, data: seq<Record>, p: nat)
    requires SchemaOk(fs, conv) && p < |data| && data[p] != []
    requires DecodeRows(fs, conv, NonBlank(data[..p])).Success? && DecodeRecord(fs, conv, data[p]).Some?
    ensures DecodeRows(fs, conv, NonBlank(data[..p + 1]))
      == Success(DecodeRows(fs, conv, NonBlank(data[..p])).value + [DecodeRecord(fs, conv, data[p]).value])
  {
    var before := NonBlank(data[..p]);
    NonBlankStep(data, p);
    assert (before + [data[p]])[..|before|] == before;
  }


  /** The file system as the table sees it: the real file and its `.tmp` sibling, each absent or a list of records. */
  class Disk {
    var file: Option<seq<Record>>
    var tmp: Option<seq<Record>>

    constructor (contents: Option<seq<Record>>)
      ensures file == contents && tmp == None
    {
      file := contents;
      tmp := None;
    }
  }

  /** Whether `sync` gets through writing all `n` rows after the header under `fault`. */
  predicate Completes(fault: Fault, n: nat)
  {
    fault.NoFault? || (fault.WriteFault? && fault.after > n)
  }

  /** The error a `sync` that does not complete raises. */
  function SyncFailure(fault: Fault): SyncError
  {
    match fault
    case OpenFault => OpenFailed
    case CloseFault(_) => CloseFailed
    case _ => WriteFailed
  }

  /** The first `kept` records, or all of them. */
  function Torn(recs: seq<Record>, kept: nat): (r: seq<Record>)
    ensures r <= recs
    ensures kept < |recs| ==> |r| == kept
  {
    if kept < |recs| then recs[..kept] else recs
  }

  /** The real file after `sync` of `items` under `fault`, given the file before it. */
  function AfterSync(fault: Fault, fs: seq<string>, items: seq<Row>, file: Option<seq<Record>>): Option<seq<Record>>
  {
    if Completes(fault, |items|) then Some(Dump(fs, items))
    else if fault.CloseFault? then Some(Torn(Dump(fs, items), fault.kept))
    else file
  }

  /**
   * After `sync` the real file is the full dump when the sync completes,
   * and otherwise either the file as it was (the failure came before the
   * move) or a torn prefix of the dump (the close failed after the move).
   */
  lemma AfterSyncMeaning(fault: Fault, fs: seq<string>, items: seq<Row>, file: Option<seq<Record>>)
    ensures Completes(fault, |items|) ==> AfterSync(fault, fs, items, file) == Some(Dump(fs, items))
    ensures !Completes(fault, |items|) && SyncFailure(fault) != CloseFailed ==> AfterSync(fault, fs, items, file) == file
    ensures SyncFailure(fault) == CloseFailed ==>
      && AfterSync(fault, fs, items, file).Some?
      && AfterSync(fault, fs, items, file).value <= Dump(fs, items)
      && (fault.kept < |items| + 1 ==> |AfterSync(fault, fs, items, file).value| == fault.kept)
  {
  }

  class PersistentTable {
    const fieldnames: seq<string>
    const converters: map<string, Converter>
    const disk: Disk
    var items: seq<Row>

    /** Every row has exactly the schema's fields as keys. */
    ghost predicate Valid()
      reads this
    {
      && SchemaOk(fieldnames, converters)
      && forall i :: 0 <= i < |items| ==> items[i].Keys == FieldSet(fieldnames)
    }

    /** The table before anything is loaded: no rows. */
    constructor (disk: Disk, fieldnames: seq<string>, converters: map<string, Converter>)
      requires SchemaOk(fieldnames, converters)
      ensures Valid() && items == []
      ensures this.disk == disk && this.fieldnames == fieldnames && this.converters == converters
    {
      this.disk := disk;
      this.fieldnames := fieldnames;
      this.converters := converters;
      items := [];
    }

    /** `len(table)` */
    function Length(): nat
      reads this
    {
      |items|
    }

    /** `table[key]`, with Python's negative indices; `None` for `IndexError`. */
    function GetItem(key: int): (r: Option<Row>)
      reads this
      ensures r.Some? <==> -|items| <= key < |items|
      ensures r.Some? ==> r.value == items[if key < 0 then |items| + key else key]
    {
      if 0 <= key < |items| then Some(items[key])
      else if -|items| <= key < 0 then Some(items[|items| + key])
      else None
    }

    /**
     * Reads the records of a file: the first non-blank record must be the
     * field names, then every record is converted field by field and
     * appended. Any failure ends the load with an error.
     */
    method Load(records: seq<Record>) returns (r: Outcome<LoadError>)
      requires Valid()
      modifies this
      ensures Valid()
      ensures r.Pass? <==> Decode(fieldnames, converters, records).Success?
      ensures r.Pass? ==> items == old(items) + Decode(fieldnames, converters, records).value
      ensures r.Fail? ==> r.error == Decode(fieldnames, converters, records).error
    {
      // `next(reader)`: the first non-blank record is the header
      var i := 0;
      while i < |records| && records[i] == []
        invariant 0 <= i <= |records| && NonBlank(records[..i]) == []
      {
        assert records[..i + 1] == records[..i] + [records[i]];
        i := i + 1;
      }
      if i == |records| {
        assert records[..i] == records;
        return Fail(EmptyFile);
      }
      HeaderIsFirstFilled(fieldnames, converters, records, i);
      if records[i] != fieldnames {
        return Fail(HeaderMismatch(records[i]));
      }
      // `for d in reader`: every further non-blank record becomes a row
      r := LoadRows(records[i + 1..]);
    }

    /** The loop of `load` over the records after the header. */
    method LoadRows(data: seq<Record>) returns (r: Outcome<LoadError>)
      requires Valid()
      modifies this
      ensures Valid()
      ensures r.Pass? <==> DecodeRows(fieldnames, converters, NonBlank(data)).Success?
      ensures r.Pass? ==> items == old(items) + DecodeRows(fieldnames, converters, NonBlank(data)).value
      ensures r.Fail? ==> r.error == DecodeRows(fieldnames, converters, NonBlank(data)).error
    {
      var p, count := 0, 0;
      ghost var rows: seq<Row> := [];
      assert data[..0] == [] && NonBlank(data[..0]) == [];
      while p < |data|
        invariant 0 <= p <= |data|
        invariant items == old(items) + rows && count == |rows|
        invariant forall i :: 0 <= i < |rows| ==> rows[i].Keys == FieldSet(fieldnames)
        invariant DecodeRows(fieldnames, converters, NonBlank(data[..p])) == Success(rows)
      {
        var rec := data[p];
        NonBlankStep(data, p);
        if rec != [] {
          var converted := ConvertRecord(rec);
          if converted.None? {
            DataFails(fieldnames, converters, data, p);
            return Fail(BadRecord(count));
          }
          DataSucceeds(fieldnames, converters, data, p);
          items := items + [converted.value];
          rows := rows + [converted.value];
          count := count + 1;
        }
        p := p + 1;
      }
      assert data[..p] == data;
      return Pass;
    }

    /**
     * The inner loop of `load`: one record's cells through their converters,
     * in field order. Cells beyond the field names sit under the key `None`,
     * which has no converter, so such a record fails.
     */
    method ConvertRecord(rec: Record) returns (r: Option<Row>)
      requires Valid()
      ensures r == DecodeRecord(fieldnames, converters, rec)
      ensures r.Some? ==> r.value.Keys == FieldSet(fieldnames)
    {
      if |rec| > |fieldnames| {
        return None;
      }
      var row: Row := map[];
      var j := 0;
      while j < |fieldnames|
        decreases |fieldnames| - j
        invariant 0 <= j <= |fieldnames|
        invariant DecodeCells(fieldnames, converters, rec, j) == Some(row)
      {
        var k := fieldnames[j];
        var v: Option<Value>;
        match converters[k] {
          case Keep => v := Some(if j < |rec| then Text(rec[j]) else Null);
          case Apply(f) => v := if j < |rec| then f(rec[j]) else None;
        }
        assert v == ConvertCell(converters[k], CellAt(rec, j));
        DecodeCellsStep(fieldnames, converters, rec, j);
        if v.None? {
          DecodeCellsKeepsFailure(fieldnames, converters, rec, j + 1, |fieldnames|);
          return None;
        }
        row := row[k := v.value];
        j := j + 1;
      }
      assert fieldnames[..|fieldnames|] == fieldnames;
      DecodeCellsKeys(fieldnames, converters, rec, |fieldnames|);
      return Some(row);
    }

    /**
     * `sync`: writes the header and every row to the temporary file, then
     * moves it over the real file and, on leaving the `with` block, closes
     * it. A failure while writing removes the temporary file and leaves the
     * real file as it was; a failure of the final flush comes after the
     * move and leaves the real file torn.
     */
    method Sync(fault: Fault) returns (r: Outcome<SyncError>)
      requires Valid()
      modifies disk
      ensures r.Pass? <==> Completes(fault, |items|)
      ensures disk.file == AfterSync(fault, fieldnames, items, old(disk.file))
      ensures disk.tmp == if fault.OpenFault? then old(disk.tmp) else None
      ensures r.Fail? ==> r.error == SyncFailure(fault)
    {
      if fault.OpenFault? {
        return Fail(OpenFailed);
      }
      disk.tmp := Some([]);
      if fault == WriteFault(0) {
        disk.tmp := None;
        return Fail(WriteFailed);
      }
      disk.tmp := Some([fieldnames]);
      assert DumpRows(fieldnames, items[..0]) == [];
      assert Dump(fieldnames, items[..0]) == [fieldnames];
      var i := 0;
      while i < |items|
        invariant 0 <= i <= |items|
        invariant disk.tmp == Some(Dump(fieldnames, items[..i]))
        invariant disk.file == old(disk.file)
        invariant fault.WriteFault? ==> fault.after > i
      {
        if fault == WriteFault(i + 1) {
          disk.tmp := None;
          return Fail(WriteFailed);
        }
        DumpSnoc(fieldnames, items, i);
        disk.tmp := Some(disk.tmp.value + [Cells(fieldnames, items[i])]);
        i := i + 1;
      }
      assert items[..i] == items;
      disk.file := disk.tmp;
      disk.tmp := None;
      if fault.CloseFault? {
        disk.file := Some(Torn(disk.file.value, fault.kept));
        return Fail(CloseFailed);
      }
      return Pass;
    }

    /**
     * `append(**row)`: the row's keys must be exactly the field names; the
     * row is then added at the end and the table synced.
     */
    method Append(row: Row, fault: Fault) returns (r: Outcome<AppendError>)
      requires Valid()
      modifies this, disk
      ensures Valid()
      ensures row.Keys != FieldSet(fieldnames) ==>
        && r == Fail(SchemaViolation) && items == old(items)
        && disk.file == old(disk.file) && disk.tmp == old(disk.tmp)
      ensures row.Keys == FieldSet(fieldnames) ==>
        && items == old(items) + [row]
        && (r.Pass? <==> Completes(fault, |items|))
        && disk.file == AfterSync(fault, fieldnames, items, old(disk.file))
        && disk.tmp == (if fault.OpenFault? then old(disk.tmp) else None)
        && (r.Fail? ==> r.error == SyncFailed(SyncFailure(fault)))
    {
      if row.Keys != FieldSet(fieldnames) {
        return Fail(SchemaViolation);
      }
      items := items + [row];
      var s := Sync(fault);
      r := if s.Pass? then Pass else Fail(SyncFailed(s.error));
    }

    /**
     * `table[index][key] = v`: rows are dictionaries shared with the
     * table, so assigning a field of an iterated row changes that row.
     */
    method SetField(index: nat, key: string, v: Value)
      requires Valid() && index < |items| && key in fieldnames
      modifies this
      ensures Valid()
      ensures items == old(items)[index := old(items)[index][key := v]]
    {
      items := items[index := items[index][key := v]];
    }
  }

  /**
   * `PersistentTable(filename, fieldnames, converters, create_new)`: loads
   * the file when it exists, may be read and `create_new` is false;
   * otherwise starts empty. A failed load is raised from the constructor.
   */
  method Open(disk: Disk, fieldnames: seq<string>, converters: map<string, Converter>,
              createNew: bool, readPermitted: bool)
    returns (r: Result<PersistentTable, LoadError>)
    requires SchemaOk(fieldnames, converters)
    ensures var loads := !createNew && readPermitted && disk.file.Some?;
      && (r.Failure? <==> loads && Decode(fieldnames, converters, disk.file.value).Failure?)
      && (r.Failure? ==> r.error == Decode(fieldnames, converters, disk.file.value).error)
      && (r.Success? ==> r.value.items == if loads then Decode(fieldnames, converters, disk.file.value).value else [])
    ensures r.Success? ==> fresh(r.value) && r.value.Valid() && r.value.disk == disk
    ensures r.Success? ==> r.value.fieldnames == fieldnames && r.value.converters == converters
  {
    var t := new PersistentTable(disk, fieldnames, converters);
    if !createNew && readPermitted && disk.file.Some? {
      var loaded := t.Load(disk.file.value);
      if loaded.Fail? {
        return Failure(loaded.error);
      }
    }
    return Success(t);
  }
}
