/**
 * The translation tool (`app/tools/generate_translations.py`): it reads the base string
 * resources, reads a CSV table of translations (one column per locale), and merges the two
 * into one string-resource document per locale, falling back to the base text.
 *
 * XML and CSV syntax are not modelled: the base file is its list of child elements and the
 * CSV file is its list of records (each a list of cells), as `csv.reader` yields them.
 */
module Translations {
  import opened Wrappers
  import opened Text

  /** A child element of `<resources>`: its tag, its attributes and its text (None when absent). */
  datatype Element = Element(tag: string, attrib: map<string, string>, text: Option<string>)

  /** A base entry: the resource name and its default (English) text. */
  datatype Entry = Entry(name: string, default: string)

  /** Translations by locale, then by resource name. */
  type Tables = map<string, map<string, string>>

  // ------------------------------------------------------------ read_base_strings

  predicate IsEntry(e: Element) { e.tag == "string" && "name" in e.attrib }

  /** The entry an element contributes: its name and its stripped text, "" when it has none. */
  function EntryOf(e: Element): (r: Entry)
    requires IsEntry(e)
    ensures r.name == e.attrib["name"]
    ensures e.text.None? ==> r.default == ""
    ensures e.text.Some? ==> r.default == Strip(e.text.value)
  {
    Entry(e.attrib["name"], Strip(e.text.GetOr("")))
  }

  /** Specification of read_base_strings: the entries of the qualifying children, in order. */
  function BaseStrings(children: seq<Element>): (keys: seq<Entry>)
    ensures |keys| <= |children|
  {
    if children == [] then []
    else
      var init := children[..|children| - 1];
      var last := children[|children| - 1];
      BaseStrings(init) + (if IsEntry(last) then [EntryOf(last)] else [])
  }

  /** read_base_strings: one pass over the children of the root element. */
  method ReadBaseStrings(children: seq<Element>) returns (keys: seq<Entry>)
    ensures keys == BaseStrings(children)
  {
    keys := [];
    var i := 0;
    while i < |children|
      invariant 0 <= i <= |children|
      invariant keys == BaseStrings(children[..i])
    {
      var child := children[i];
      assert children[..i + 1][..i] == children[..i];
      if child.tag == "string" && "name" in child.attrib {
        var text := if child.text.Some? then child.text.value else "";
        keys := keys + [Entry(child.attrib["name"], Strip(text))];
      }
      i := i + 1;
    }
    assert children[..i] == children;
  }

  /**
   * An entry is produced exactly for each `string` child with a `name` attribute, with its
   * text stripped; the entries keep the order of the children.
   */
  lemma {:induction false} BaseStringsExactly(children: seq<Element>)
    ensures forall c :: c in children && IsEntry(c) ==> EntryOf(c) in BaseStrings(children)
    ensures forall e :: e in BaseStrings(children) ==> exists c :: c in children && IsEntry(c) && e == EntryOf(c)
  {
    if children != [] {
      var init := children[..|children| - 1];
      var last := children[|children| - 1];
      var keys := BaseStrings(children);
      BaseStringsExactly(init);
      assert children == init + [last];
      assert keys == BaseStrings(init) + (if IsEntry(last) then [EntryOf(last)] else []);
      forall c | c in children && IsEntry(c) ensures EntryOf(c) in keys {
        if c != last {
          assert c in init;
          assert EntryOf(c) in BaseStrings(init);
        }
      }
      forall e | e in keys ensures exists c :: c in children && IsEntry(c) && e == EntryOf(c) {
        if e in BaseStrings(init) {
          var c :| c in init && IsEntry(c) && e == EntryOf(c);
          assert c in children;
        } else {
          assert last in children;
        }
      }
    }
  }

  /** Base texts never carry surrounding whitespace. */
  lemma {:induction false} BaseStringsStripped(children: seq<Element>)
    ensures forall e :: e in BaseStrings(children) ==> Strip(e.default) == e.default
  {
    if children != [] {
      var init := children[..|children| - 1];
      var last := children[|children| - 1];
      BaseStringsStripped(init);
      if IsEntry(last) {
        StripIdempotent(last.text.GetOr(""));
      }
    }
  }

  // ------------------------------------------------------------ load_csv

  const EMPTY_CSV := "CSV is empty or invalid"
  const NO_KEY_COLUMN := "CSV must contain a 'key' column (string resource name)"

  /**
   * What load_csv does: it returns the tables and the locale order (the order of the dict's
   * keys), stops the program with a message (SystemExit), or crashes because a short row
   * made `csv.DictReader` fill a cell with None and `.strip()` was applied to it.
   */
  datatype LoadOutcome =
    | Loaded(locales: seq<string>, tables: Tables)
    | Exit(message: string)
    | Crash

  /** The records that are not empty lines, in order. */
  function NonEmpty(records: seq<seq<string>>): (rows: seq<seq<string>>)
    ensures forall r :: r in rows ==> r != [] && r in records
    ensures |rows| <= |records|
  {
    if records == [] then []
    else (if records[0] == [] then [] else [records[0]]) + NonEmpty(records[1..])
  }

  /** The data rows `csv.DictReader` yields: every record after the header, except empty ones. */
  function DataRows(records: seq<seq<string>>): (rows: seq<seq<string>>)
    ensures forall r :: r in rows ==> r != [] && r in records
  {
    if records == [] then [] else NonEmpty(records[1..])
  }

  /** The key column: "key" when that header exists, else "name" when it exists. */
  function KeyColumn(headers: seq<string>): (k: Option<string>)
    ensures k.Some? <==> "key" in headers || "name" in headers
    ensures "key" in headers ==> k == Some("key")
    ensures k.Some? ==> k.value in headers
  {
    if "key" in headers then Some("key") else if "name" in headers then Some("name") else None
  }

  /** The non-key headers, in header order (a header repeated in the CSV repeats here). */
  function Locales(headers: seq<string>, keyCol: string): (locs: seq<string>)
    ensures forall h :: h in locs <==> h in headers && h != keyCol
  {
    if headers == [] then []
    else
      var rest := Locales(headers[1..], keyCol);
      assert forall h :: h in headers <==> h == headers[0] || h in headers[1..];
      if headers[0] != keyCol then [headers[0]] + rest else rest
  }

  /** First occurrences only: the key order of a dict built from `s`. */
  function Dedup(s: seq<string>): (d: seq<string>)
    ensures forall x :: x in d <==> x in s
    ensures forall i, j :: 0 <= i < j < |d| ==> d[i] != d[j]
  {
    if s == [] then []
    else
      var d := Dedup(s[..|s| - 1]);
      assert forall x :: x in s <==> x in s[..|s| - 1] || x == s[|s| - 1];
      if s[|s| - 1] in d then d else d + [s[|s| - 1]]
  }

  /** Index of the last occurrence of `h` in `headers`. */
  function LastIndex(headers: seq<string>, h: string): (j: Option<nat>)
    ensures j.Some? ==> j.value < |headers| && headers[j.value] == h
    ensures j.Some? ==> forall k :: j.value < k < |headers| ==> headers[k] != h
    ensures j.None? ==> h !in headers
  {
    if headers == [] then None
    else if headers[|headers| - 1] == h then Some(|headers| - 1)
    else
      var j := LastIndex(headers[..|headers| - 1], h);
      assert h in headers[..|headers| - 1] ==> h in headers;
      j
  }

  /**
   * The value `csv.DictReader` stores under header `h` for `row`: a repeated header keeps its
   * last column, and a column the row does not reach holds None.
   */
  function Cell(headers: seq<string>, row: seq<string>, h: string): (c: Option<string>)
    ensures c.Some? ==> c.value in row
    ensures h in headers && |row| >= |headers| ==> c.Some?
  {
    match LastIndex(headers, h)
    case Some(j) => if j < |row| then Some(row[j]) else None
    case None => None
  }

  /** The table of `loc`, empty when it has none yet. */
  function TableOf(t: Tables, loc: string): map<string, string>
  {
    if loc in t then t[loc] else map[]
  }

  /** The inner loop of load_csv: the cells of one row with key `k`, locale by locale. */
  function StoreCells(headers: seq<string>, locales: seq<string>, row: seq<string>, k: string, t: Tables): Option<Tables>
    decreases |locales|
  {
    if locales == [] then Some(t)
    else
      var loc := locales[0];
      match Cell(headers, row, loc)
      case None => None
      case Some(cell) =>
        var v := Strip(cell);
        var t' := if v != [] then t[loc := TableOf(t, loc)[k := v]] else t;
        StoreCells(headers, locales[1..], row, k, t')
  }

  /** One row of load_csv: skipped when its key is blank, else its cells are stored. */
  function RowStep(headers: seq<string>, keyCol: string, row: seq<string>, t: Tables): Option<Tables>
  {
    match Cell(headers, row, keyCol)
    case None => None
    case Some(keyCell) =>
      var k := Strip(keyCell);
      if k == [] then Some(t) else StoreCells(headers, Locales(headers, keyCol), row, k, t)
  }

  /** The rows in order, stopping at the first crash. */
  function FoldRows(headers: seq<string>, keyCol: string, rows: seq<seq<string>>, t: Tables): Option<Tables>
    decreases |rows|
  {
    if rows == [] then Some(t)
    else
      match RowStep(headers, keyCol, rows[0], t)
      case None => None
      case Some(t') => FoldRows(headers, keyCol, rows[1..], t')
  }

  /** Folding from row i is one step on row i, then the fold from row i + 1. */
  lemma FoldRowsAt(headers: seq<string>, keyCol: string, rows: seq<seq<string>>, i: nat, t: Tables)
    requires i < |rows|
    ensures FoldRows(headers, keyCol, rows[i..], t)
            == match RowStep(headers, keyCol, rows[i], t)
               case None => None
               case Some(t') => FoldRows(headers, keyCol, rows[i + 1..], t')
  {
    assert rows[i..][0] == rows[i] && rows[i..][1..] == rows[i + 1..];
  }

  /** The three outcomes of one row: a short row crashes, a blank key is skipped, any other key is stored. */
  lemma RowStepCases(headers: seq<string>, keyCol: string, row: seq<string>, t: Tables)
    ensures Cell(headers, row, keyCol).None? ==> RowStep(headers, keyCol, row, t) == None
    ensures Cell(headers, row, keyCol).Some? && Strip(Cell(headers, row, keyCol).value) == []
            ==> RowStep(headers, keyCol, row, t) == Some(t)
    ensures Cell(headers, row, keyCol).Some? && Strip(Cell(headers, row, keyCol).value) != []
            ==> RowStep(headers, keyCol, row, t)
                == StoreCells(headers, Locales(headers, keyCol), row, Strip(Cell(headers, row, keyCol).value), t)
  {
  }

  /** Every locale starts with its own empty table. */
  function InitialTables(headers: seq<string>, keyCol: string): (t: Tables)
    ensures t.Keys == set h | h in headers && h != keyCol
    ensures forall loc :: loc in t ==> t[loc] == map[]
  {
    map h | h in headers && h != keyCol :: map[]
  }

  /** Specification of load_csv. */
  function LoadCsvSpec(records: seq<seq<string>>): (r: LoadOutcome)
    ensures DataRows(records) == [] ==> r == Exit(EMPTY_CSV)
    ensures DataRows(records) != [] && KeyColumn(records[0]).None? ==> r == Exit(NO_KEY_COLUMN)
  {
    var rows := DataRows(records);
    if rows == [] then Exit(EMPTY_CSV)
    else
      var headers := records[0];
      match KeyColumn(headers)
      case None => Exit(NO_KEY_COLUMN)
      case Some(keyCol) =>
        match FoldRows(headers, keyCol, rows, InitialTables(headers, keyCol))
        case None => Crash
        case Some(t) => Loaded(Dedup(Locales(headers, keyCol)), t)
  }

  /** The inner loop of load_csv: the cells of one row, stored locale by locale. */
  method StoreRow(headers: seq<string>, locales: seq<string>, row: seq<string>, k: string, t0: Tables)
    returns (t: Option<Tables>)
    ensures t == StoreCells(headers, locales, row, k, t0)
  {
    var acc := t0;
    var j := 0;
    while j < |locales|
      invariant 0 <= j <= |locales|
      invariant StoreCells(headers, locales, row, k, t0) == StoreCells(headers, locales[j..], row, k, acc)
    {
      var loc := locales[j];
      assert locales[j..][0] == loc && locales[j..][1..] == locales[j + 1..];
      var cell := Cell(headers, row, loc);
      if cell.None? {
        return None;
      }
      var v := Strip(cell.value);
      if v != [] {
        acc := acc[loc := TableOf(acc, loc)[k := v]];
      }
      j := j + 1;
    }
    return Some(acc);
  }

  /** load_csv: the loop over the rows. */
  method LoadCsv(records: seq<seq<string>>) returns (out: LoadOutcome)
    ensures out == LoadCsvSpec(records)
  {
    var rows := DataRows(records);
    if rows == [] {
      return Exit(EMPTY_CSV);
    }
    var headers := records[0];
    if "key" !in headers && "name" !in headers {
      return Exit(NO_KEY_COLUMN);
    }
    var keyCol := if "key" in headers then "key" else "name";
    var locales := Locales(headers, keyCol);
    var t: Tables := map h | h in headers && h != keyCol :: map[];
    var i := 0;
    while i < |rows|
      invariant 0 <= i <= |rows|
      invariant FoldRows(headers, keyCol, rows, InitialTables(headers, keyCol))
                == FoldRows(headers, keyCol, rows[i..], t)
    {
      var row := rows[i];
      FoldRowsAt(headers, keyCol, rows, i, t);
      RowStepCases(headers, keyCol, row, t);
      var keyCell := Cell(headers, row, keyCol);
      if keyCell.None? {
        return Crash;
      }
      var k := Strip(keyCell.value);
      if k != [] {
        var stored := StoreRow(headers, locales, row, k, t);
        if stored.None? {
          return Crash;
        }
        t := stored.value;
      }
      i := i + 1;
    }
    out := Loaded(Dedup(locales), t);
  }

  /** Every stored value is non-empty and stripped, under a non-empty stripped key. */
  ghost predicate Clean(t: Tables) {
    forall loc, k :: loc in t && k in t[loc] ==> k != [] && Strip(k) == k && t[loc][k] != [] && Strip(t[loc][k]) == t[loc][k]
  }

  lemma {:induction false} StoreCellsKeeps(headers: seq<string>, locales: seq<string>, row: seq<string>, k: string, t: Tables)
    requires Clean(t) && k != [] && Strip(k) == k
    requires forall loc :: loc in locales ==> loc in t
    ensures var r := StoreCells(headers, locales, row, k, t);
            r.Some? ==> Clean(r.value) && r.value.Keys == t.Keys
    decreases |locales|
  {
    if locales != [] {
      var loc := locales[0];
      match Cell(headers, row, loc)
      case None =>
      case Some(cell) =>
        var v := Strip(cell);
        StripIdempotent(cell);
        var t' := if v != [] then t[loc := TableOf(t, loc)[k := v]] else t;
        assert Clean(t');
        assert t'.Keys == t.Keys;
        StoreCellsKeeps(headers, locales[1..], row, k, t');
    }
  }

  lemma {:induction false} FoldRowsKeeps(headers: seq<string>, keyCol: string, rows: seq<seq<string>>, t: Tables)
    requires Clean(t)
    requires forall h :: h in headers && h != keyCol ==> h in t
    ensures var r := FoldRows(headers, keyCol, rows, t);
            r.Some? ==> Clean(r.value) && r.value.Keys == t.Keys
    decreases |rows|
  {
    if rows != [] {
      match Cell(headers, rows[0], keyCol)
      case None =>
      case Some(keyCell) =>
        var k := Strip(keyCell);
        StripIdempotent(keyCell);
        if k != [] {
          StoreCellsKeeps(headers, Locales(headers, keyCol), rows[0], k, t);
        }
        match RowStep(headers, keyCol, rows[0], t)
        case None =>
        case Some(t') => FoldRowsKeeps(headers, keyCol, rows[1..], t');
    }
  }

  /**
   * A successful load has one table per non-key header (possibly empty) and the locale order
   * lists each of them once; empty or whitespace cells and blank keys are never stored.
   */
  lemma LoadedTables(records: seq<seq<string>>)
    requires LoadCsvSpec(records).Loaded?
    ensures var out := LoadCsvSpec(records);
            var headers := records[0];
            && KeyColumn(headers).Some?
            && out.tables.Keys == set h | h in headers && h != KeyColumn(headers).value
            && (forall loc :: loc in out.tables <==> loc in out.locales)
            && Clean(out.tables)
  {
    var headers := records[0];
    var keyCol := KeyColumn(headers).value;
    FoldRowsKeeps(headers, keyCol, DataRows(records), InitialTables(headers, keyCol));
  }

  /** The value stored for key `k` in the table of `loc`, if any. */
  function Stored(t: Tables, loc: string, k: string): Option<string>
  {
    if k in TableOf(t, loc) then Some(TableOf(t, loc)[k]) else None
  }

  /**
   * What one row says about (loc, k): its stripped cell for `loc`, when its stripped key is
   * the non-blank `k` and that cell is not blank.
   */
  function RowValue(headers: seq<string>, keyCol: string, row: seq<string>, loc: string, k: string): (v: Option<string>)
    ensures v.Some? ==> k != [] && v.value != [] && Cell(headers, row, loc).Some?
                        && v.value == Strip(Cell(headers, row, loc).value)
  {
    match Cell(headers, row, keyCol)
    case None => None
    case Some(keyCell) =>
      if k == [] || Strip(keyCell) != k then None
      else
        match Cell(headers, row, loc)
        case None => None
        case Some(cell) => if Strip(cell) == [] then None else Some(Strip(cell))
  }

  /** The value the rows give to (loc, k): that of the last row that says something about it. */
  function LastValue(headers: seq<string>, keyCol: string, rows: seq<seq<string>>, loc: string, k: string): Option<string>
    decreases |rows|
  {
    if rows == [] then None
    else Otherwise(RowValue(headers, keyCol, rows[|rows| - 1], loc, k), LastValue(headers, keyCol, rows[..|rows| - 1], loc, k))
  }

  /** `a` when it holds a value, else `b`. */
  function Otherwise(a: Option<string>, b: Option<string>): Option<string>
  {
    if a.Some? then a else b
  }

  /**
   * The rows give (loc, k) a value exactly when some row says something about it, and then it
   * is what the last such row says.
   */
  lemma {:induction false} LastValueIsLast(headers: seq<string>, keyCol: string, rows: seq<seq<string>>, loc: string, k: string)
    ensures var v := LastValue(headers, keyCol, rows, loc, k);
            && (v.Some? <==> exists i :: 0 <= i < |rows| && RowValue(headers, keyCol, rows[i], loc, k).Some?)
            && (v.Some? ==> exists i :: 0 <= i < |rows| && RowValue(headers, keyCol, rows[i], loc, k) == v
                                      && forall j :: i < j < |rows| ==> RowValue(headers, keyCol, rows[j], loc, k).None?)
    decreases |rows|
  {
    if rows != [] {
      var init, last := rows[..|rows| - 1], rows[|rows| - 1];
      LastValueIsLast(headers, keyCol, init, loc, k);
      assert forall i :: 0 <= i < |init| ==> init[i] == rows[i];
      if RowValue(headers, keyCol, last, loc, k).None? {
        assert forall i :: 0 <= i < |rows| && RowValue(headers, keyCol, rows[i], loc, k).Some? ==> i < |init|;
      }
    }
  }

  /** Storing the cells of one row changes only the key `k`, in the locales whose cell is not blank. */
  lemma {:induction false} StoreCellsValue(headers: seq<string>, locales: seq<string>, row: seq<string>, k: string,
                                           t: Tables, loc: string, key: string)
    requires StoreCells(headers, locales, row, k, t).Some?
    ensures var c := Cell(headers, row, loc);
            Stored(StoreCells(headers, locales, row, k, t).value, loc, key)
            == if key == k && loc in locales && c.Some? && Strip(c.value) != [] then Some(Strip(c.value))
               else Stored(t, loc, key)
    decreases |locales|
  {
    if locales != [] {
      var l0 := locales[0];
      var cell := Cell(headers, row, l0).value;
      var v := Strip(cell);
      var t' := if v != [] then t[l0 := TableOf(t, l0)[k := v]] else t;
      assert StoreCells(headers, locales, row, k, t) == StoreCells(headers, locales[1..], row, k, t');
      StoreCellsValue(headers, locales[1..], row, k, t', loc, key);
      assert forall l :: l in locales <==> l == l0 || l in locales[1..];
    }
  }

  /** One successful row step stores what the row says about (loc, k), and keeps the rest. */
  lemma RowStepValue(headers: seq<string>, keyCol: string, row: seq<string>, t: Tables, loc: string, k: string)
    requires RowStep(headers, keyCol, row, t).Some?
    requires loc in headers && loc != keyCol
    ensures Stored(RowStep(headers, keyCol, row, t).value, loc, k)
            == Otherwise(RowValue(headers, keyCol, row, loc, k), Stored(t, loc, k))
  {
    var keyCell := Cell(headers, row, keyCol).value;
    var key := Strip(keyCell);
    if key != [] {
      StoreCellsValue(headers, Locales(headers, keyCol), row, key, t, loc, k);
    }
  }

  /** The row loop stores, for each (loc, k), what the last row that says something about it says. */
  lemma {:induction false} FoldRowsValue(headers: seq<string>, keyCol: string, rows: seq<seq<string>>, t: Tables,
                                         loc: string, k: string)
    requires FoldRows(headers, keyCol, rows, t).Some?
    requires loc in headers && loc != keyCol
    ensures Stored(FoldRows(headers, keyCol, rows, t).value, loc, k)
            == Otherwise(LastValue(headers, keyCol, rows, loc, k), Stored(t, loc, k))
    decreases |rows|
  {
    if rows != [] {
      var init, last := rows[..|rows| - 1], rows[|rows| - 1];
      var t1 := FoldRowsLast(headers, keyCol, rows, t);
      FoldRowsValue(headers, keyCol, init, t, loc, k);
      RowStepValue(headers, keyCol, last, t1, loc, k);
      OtherwiseChain(Stored(t, loc, k), Stored(t1, loc, k), Stored(FoldRows(headers, keyCol, rows, t).value, loc, k),
                     RowValue(headers, keyCol, last, loc, k),
                     LastValue(headers, keyCol, init, loc, k), LastValue(headers, keyCol, rows, loc, k));
    }
  }

  /** Splits a successful fold at the last row. */
  lemma FoldRowsLast(headers: seq<string>, keyCol: string, rows: seq<seq<string>>, t: Tables)
    returns (t1: Tables)
    requires FoldRows(headers, keyCol, rows, t).Some? && rows != []
    ensures FoldRows(headers, keyCol, rows[..|rows| - 1], t) == Some(t1)
    ensures FoldRows(headers, keyCol, rows, t) == RowStep(headers, keyCol, rows[|rows| - 1], t1)
  {
    var init, last := rows[..|rows| - 1], rows[|rows| - 1];
    SplitLast(rows);
    var whole := FoldRows(headers, keyCol, rows, t);
    assert whole == FoldRows(headers, keyCol, init + [last], t);
    FoldRowsAppend(headers, keyCol, init, [last], t);
    var front := FoldRows(headers, keyCol, init, t);
    assert front.Some?;
    t1 := front.value;
    FoldRowsSingle(headers, keyCol, last, t1);
  }

  lemma SplitLast<T>(s: seq<T>)
    requires s != []
    ensures s == s[..|s| - 1] + [s[|s| - 1]]
  {
  }

  lemma FoldRowsSingle(headers: seq<string>, keyCol: string, row: seq<string>, t: Tables)
    ensures FoldRows(headers, keyCol, [row], t) == RowStep(headers, keyCol, row, t)
  {
    assert [row][1..] == [];
  }

  lemma OtherwiseChain(s0: Option<string>, s1: Option<string>, s2: Option<string>,
                       r: Option<string>, before: Option<string>, after: Option<string>)
    requires s1 == Otherwise(before, s0) && s2 == Otherwise(r, s1) && after == Otherwise(r, before)
    ensures s2 == Otherwise(after, s0)
  {
  }

  /**
   * A successful load stores, under each locale and key, exactly the stripped non-blank cell
   * of the last data row with that (non-blank, stripped) key and a non-blank cell for that
   * locale; a key no such row names is absent.
   */
  lemma LoadedValues(records: seq<seq<string>>, loc: string, k: string)
    requires LoadCsvSpec(records).Loaded? && loc in LoadCsvSpec(records).tables
    ensures var out := LoadCsvSpec(records);
            var headers := records[0];
            var v := LastValue(headers, KeyColumn(headers).value, DataRows(records), loc, k);
            && (k in out.tables[loc] <==> v.Some?)
            && (k in out.tables[loc] ==> out.tables[loc][k] == v.value)
  {
    var headers := records[0];
    var keyCol := KeyColumn(headers).value;
    var t0 := InitialTables(headers, keyCol);
    LoadedTables(records);
    FoldRowsValue(headers, keyCol, DataRows(records), t0, loc, k);
    assert Stored(t0, loc, k) == None;
  }

  /**
   * The written text of a base key: the trimmed cell of the last row giving it a translation
   * for the locale, and the base text when no row does.
   */
  lemma LoadedMerge(records: seq<seq<string>>, loc: string, key: string, default: string)
    requires LoadCsvSpec(records).Loaded? && loc in LoadCsvSpec(records).tables
    ensures var headers := records[0];
            MergeValue(LoadCsvSpec(records).tables[loc], key, default)
            == match LastValue(headers, KeyColumn(headers).value, DataRows(records), loc, key)
               case Some(v) => v
               case None => default
  {
    LoadedTables(records);
    LoadedValues(records, loc, key);
    MergeWithLoaded(LoadCsvSpec(records).tables, loc, key, default);
  }

  lemma {:induction false} FoldRowsAppend(headers: seq<string>, keyCol: string, a: seq<seq<string>>, b: seq<seq<string>>, t: Tables)
    ensures FoldRows(headers, keyCol, a + b, t) ==
            match FoldRows(headers, keyCol, a, t)
            case None => None
            case Some(t') => FoldRows(headers, keyCol, b, t')
    decreases |a|
  {
    if a == [] {
      assert a + b == b;
    } else {
      assert (a + b)[0] == a[0] && (a + b)[1..] == a[1..] + b;
      match RowStep(headers, keyCol, a[0], t)
      case None =>
      case Some(t') => FoldRowsAppend(headers, keyCol, a[1..], b, t');
    }
  }

  lemma {:induction false} NonEmptyAppend(a: seq<seq<string>>, b: seq<seq<string>>)
    ensures NonEmpty(a + b) == NonEmpty(a) + NonEmpty(b)
  {
    if a == [] {
      assert a + b == b;
    } else {
      assert (a + b)[0] == a[0] && (a + b)[1..] == a[1..] + b;
      NonEmptyAppend(a[1..], b);
    }
  }

  lemma DataRowsInsert(records: seq<seq<string>>, i: nat, row: seq<string>)
    requires 1 <= i <= |records| && row != []
    ensures exists pre, post :: DataRows(records) == pre + post
                             && DataRows(records[..i] + [row] + records[i..]) == pre + [row] + post
  {
    var more := records[..i] + [row] + records[i..];
    var a, b := records[1..i], records[i..];
    assert more[1..] == a + ([row] + b);
    assert records[1..] == a + b;
    NonEmptyAppend(a, [row] + b);
    NonEmptyAppend(a, b);
    assert NonEmpty([row] + b) == [row] + NonEmpty(b) by {
      assert ([row] + b)[1..] == b;
    }
    assert DataRows(more) == NonEmpty(a) + [row] + NonEmpty(b);
  }

  lemma FoldRowsInsertBlank(headers: seq<string>, keyCol: string, pre: seq<seq<string>>, post: seq<seq<string>>,
                            row: seq<string>, t0: Tables)
    requires var c := Cell(headers, row, keyCol); c.Some? && IsBlank(c.value)
    ensures FoldRows(headers, keyCol, pre + [row] + post, t0) == FoldRows(headers, keyCol, pre + post, t0)
  {
    FoldRowsAppend(headers, keyCol, pre, [row] + post, t0);
    assert pre + [row] + post == pre + ([row] + post);
    FoldRowsAppend(headers, keyCol, pre, post, t0);
    match FoldRows(headers, keyCol, pre, t0)
    case None =>
    case Some(t) =>
      assert Strip(Cell(headers, row, keyCol).value) == [];
      assert RowStep(headers, keyCol, row, t) == Some(t);
      assert ([row] + post)[0] == row && ([row] + post)[1..] == post;
  }

  /**
   * Adding a row whose key cell is blank (after strip) anywhere among the data rows of a
   * table that already has data rows does not change what load_csv returns.
   */
  lemma BlankKeyRowIgnored(records: seq<seq<string>>, i: nat, row: seq<string>)
    requires 1 <= i <= |records|
    requires DataRows(records) != []
    requires KeyColumn(records[0]).Some?
    requires var c := Cell(records[0], row, KeyColumn(records[0]).value); c.Some? && IsBlank(c.value)
    ensures LoadCsvSpec(records[..i] + [row] + records[i..]) == LoadCsvSpec(records)
  {
    var headers := records[0];
    var keyCol := KeyColumn(headers).value;
    var more := records[..i] + [row] + records[i..];
    assert more[0] == headers;
    assert row != [] by {
      assert Cell(headers, row, keyCol).value in row;
    }
    DataRowsInsert(records, i, row);
    var pre, post :| DataRows(records) == pre + post && DataRows(more) == pre + [row] + post;
    FoldRowsInsertBlank(headers, keyCol, pre, post, row, InitialTables(headers, keyCol));
  }

  lemma {:induction false} StoreCellsFull(headers: seq<string>, locales: seq<string>, row: seq<string>, k: string, t: Tables)
    requires |row| >= |headers|
    requires forall loc :: loc in locales ==> loc in headers
    ensures StoreCells(headers, locales, row, k, t).Some?
    decreases |locales|
  {
    if locales != [] {
      var loc := locales[0];
      var cell := Cell(headers, row, loc);
      assert cell.Some?;
      var v := Strip(cell.value);
      var t' := if v != [] then t[loc := TableOf(t, loc)[k := v]] else t;
      assert forall l :: l in locales[1..] ==> l in locales;
      StoreCellsFull(headers, locales[1..], row, k, t');
    }
  }

  lemma {:induction false} FoldRowsFull(headers: seq<string>, keyCol: string, rows: seq<seq<string>>, t: Tables)
    requires keyCol in headers
    requires forall row :: row in rows ==> |row| >= |headers|
    ensures FoldRows(headers, keyCol, rows, t).Some?
    decreases |rows|
  {
    if rows != [] {
      var row := rows[0];
      assert Cell(headers, row, keyCol).Some?;
      var k := Strip(Cell(headers, row, keyCol).value);
      if k != [] {
        StoreCellsFull(headers, Locales(headers, keyCol), row, k, t);
      }
      var t' := RowStep(headers, keyCol, row, t).value;
      assert forall r :: r in rows[1..] ==> r in rows;
      FoldRowsFull(headers, keyCol, rows[1..], t');
    }
  }

  /**
   * load_csv only crashes on a short row: when every record is at least as long as the
   * header, a CSV with data rows and a key column loads.
   */
  lemma FullRowsNeverCrash(records: seq<seq<string>>)
    requires |records| >= 1
    requires forall r :: r in records ==> |r| >= |records[0]|
    requires DataRows(records) != [] && KeyColumn(records[0]).Some?
    ensures LoadCsvSpec(records).Loaded?
  {
    var headers := records[0];
    var keyCol := KeyColumn(headers).value;
    FoldRowsFull(headers, keyCol, DataRows(records), InitialTables(headers, keyCol));
  }

  // ------------------------------------------------------------ write_strings

  /** The merge rule: the translation when truthy, else the default, else "". */
  function MergeValue(translations: map<string, string>, key: string, default: string): (v: string)
    ensures key in translations && translations[key] != [] ==> v == translations[key]
    ensures (key !in translations || translations[key] == []) ==> v == default
  {
    if key in translations && translations[key] != "" then translations[key]
    else if default != "" then default
    else ""
  }

  /** With a table from load_csv, the merged value is the stored translation or the default. */
  lemma MergeWithLoaded(t: Tables, loc: string, key: string, default: string)
    requires Clean(t) && loc in t
    ensures MergeValue(t[loc], key, default) == if key in t[loc] then t[loc][key] else default
  {
  }

  /** A generated document: its folder name and its `string` elements (name, text) in order. */
  datatype Document = Document(folder: string, strings: seq<(string, string)>)

  /** The document write_strings produces for one locale: the base keys, merged. */
  function Merged(locale: string, translations: map<string, string>, keys: seq<Entry>): (doc: Document)
    ensures doc.folder == "values-" + locale && |doc.strings| == |keys|
    ensures forall i :: 0 <= i < |keys| ==> doc.strings[i].0 == keys[i].name
  {
    Document("values-" + locale,
      seq(|keys|, i requires 0 <= i < |keys| => (keys[i].name, MergeValue(translations, keys[i].name, keys[i].default))))
  }

  /**
   * write_strings: one `string` element per base entry, in base order, named by the entry's
   * key and holding the merged value.
   */
  method WriteStrings(locale: string, translations: map<string, string>, keys: seq<Entry>) returns (doc: Document)
    ensures doc.folder == "values-" + locale
    ensures |doc.strings| == |keys|
    ensures forall i :: 0 <= i < |keys| ==>
              doc.strings[i] == (keys[i].name, MergeValue(translations, keys[i].name, keys[i].default))
    ensures doc == Merged(locale, translations, keys)
  {
    var strings: seq<(string, string)> := [];
    var i := 0;
    while i < |keys|
      invariant 0 <= i <= |keys|
      invariant strings == Merged(locale, translations, keys).strings[..i]
    {
      var key, default := keys[i].name, keys[i].default;
      var value := if key in translations && translations[key] != "" then translations[key]
                   else if default != "" then default else "";
      strings := strings + [(key, value)];
      i := i + 1;
    }
    doc := Document("values-" + locale, strings);
  }

  // ------------------------------------------------------------ main

  const MISSING_BASE := "Base strings.xml not found"
  const MISSING_CSV := "CSV file not found"

  /** How a run ends: its exit status, the documents written and the last message shown. */
  datatype Run = Run(status: int, written: seq<Document>, message: string)

  /** How a run ends before anything could be written: missing inputs or a failed load. */
  function EarlyEnd(baseExists: bool, csvExists: bool, load: LoadOutcome): (r: Option<Run>)
    ensures r.None? <==> baseExists && csvExists && load.Loaded?
    ensures r.Some? ==> r.value.status == 1 && r.value.written == []
  {
    if !baseExists then Some(Run(1, [], MISSING_BASE))
    else if !csvExists then Some(Run(1, [], MISSING_CSV))
    else
      match load
      case Exit(msg) => Some(Run(1, [], msg))
      case Crash => Some(Run(1, [], "AttributeError"))
      case Loaded(_, _) => None
  }

  /** main as written: it checks and loads both inputs, then only prints "Done.". */
  function RunToolAsWritten(baseExists: bool, csvExists: bool, children: seq<Element>, records: seq<seq<string>>): (r: Run)
    ensures !baseExists || !csvExists ==> r.status == 1
    ensures r.written == []
  {
    match EarlyEnd(baseExists, csvExists, LoadCsvSpec(records))
    case Some(early) => early
    case None => Run(0, [], "Done.")
  }

  /** The documents of all locales, in locale order. */
  function AllMerged(locales: seq<string>, tables: Tables, keys: seq<Entry>): (docs: seq<Document>)
    ensures |docs| == |locales|
    ensures forall i :: 0 <= i < |locales| ==> docs[i] == Merged(locales[i], TableOf(tables, locales[i]), keys)
  {
    seq(|locales|, i requires 0 <= i < |locales| => Merged(locales[i], TableOf(tables, locales[i]), keys))
  }

  /** main as evidently intended: one document per locale of the CSV, in locale order. */
  method RunTool(baseExists: bool, csvExists: bool, children: seq<Element>, records: seq<seq<string>>) returns (r: Run)
    ensures var early := EarlyEnd(baseExists, csvExists, LoadCsvSpec(records));
            early.Some? ==> r == early.value
    ensures var out := LoadCsvSpec(records);
            baseExists && csvExists && out.Loaded? ==>
              && r.status == 0
              && |r.written| == |out.locales|
              && forall i :: 0 <= i < |out.locales| ==>
                   r.written[i] == Merged(out.locales[i], TableOf(out.tables, out.locales[i]), BaseStrings(children))
  {
    if !baseExists {
      return Run(1, [], MISSING_BASE);
    }
    if !csvExists {
      return Run(1, [], MISSING_CSV);
    }
    var loaded := LoadCsv(records);
    if !loaded.Loaded? {
      return EarlyEnd(baseExists, csvExists, loaded).value;
    }
    var keys := ReadBaseStrings(children);
    var locales, tables := loaded.locales, loaded.tables;
    var written: seq<Document> := [];
    var i := 0;
    while i < |locales|
      invariant 0 <= i <= |locales|
      invariant written == AllMerged(locales, tables, keys)[..i]
    {
      var doc := WriteStrings(locales[i], TableOf(tables, locales[i]), keys);
      written := written + [doc];
      i := i + 1;
    }
    assert written == AllMerged(locales, tables, keys);
    return Run(0, written, "Done.");
  }

  /** A CSV with a key column, one locale and one row. */
  const EXAMPLE_CSV: seq<seq<string>> := [["key", "fr"], ["hello", "salut"]]

  /** The example's data rows, key column and locales. */
  lemma ExampleCsvParts()
    ensures DataRows(EXAMPLE_CSV) == [["hello", "salut"]]
    ensures KeyColumn(EXAMPLE_CSV[0]) == Some("key")
    ensures Dedup(Locales(EXAMPLE_CSV[0], "key")) == ["fr"]
  {
    var headers := ["key", "fr"];
    assert EXAMPLE_CSV[0] == headers;
    assert EXAMPLE_CSV[..1] == [headers];
    assert KeyColumn(headers) == Some("key");
    assert Locales(headers, "key") == ["fr"] by {
      assert headers[1..] == ["fr"];
      assert headers[1..][1..] == [];
    }
    assert ["fr"][..0] == [];
  }

  /** Two rows naming the same key: the later row's translation is the one stored. */
  lemma LaterRowWinsExample(records: seq<seq<string>>)
    requires records == [["key", "fr"], ["hello", "salut"], ["hello", "bonjour"]]
    ensures LoadCsvSpec(records).Loaded?
    ensures "fr" in LoadCsvSpec(records).tables
    ensures LoadCsvSpec(records).tables["fr"] == map["hello" := "bonjour"]
  {
    RepeatedKeyLoads(records);
    var table := LoadCsvSpec(records).tables["fr"];
    forall k ensures k in table <==> k == "hello" {
      RepeatedKeyValue(records, k);
    }
    RepeatedKeyValue(records, "hello");
    SingletonMap(table, "hello", "bonjour");
  }

  lemma SingletonMap(m: map<string, string>, k: string, v: string)
    requires forall x :: x in m <==> x == k
    requires k in m && m[k] == v
    ensures m == map[k := v]
  {
  }

  lemma RepeatedKeyLoads(records: seq<seq<string>>)
    requires records == [["key", "fr"], ["hello", "salut"], ["hello", "bonjour"]]
    ensures DataRows(records) == [["hello", "salut"], ["hello", "bonjour"]]
    ensures records[0] == ["key", "fr"] && KeyColumn(records[0]) == Some("key")
    ensures LoadCsvSpec(records).Loaded? && "fr" in LoadCsvSpec(records).tables
  {
    var headers, first, second := ["key", "fr"], ["hello", "salut"], ["hello", "bonjour"];
    NonEmptyTwo(first, second);
    assert records[1..] == [first, second];
    assert forall r :: r in records ==> |r| >= |headers| by {
      assert forall r :: r in records ==> r == headers || r == first || r == second;
    }
    assert "key" in headers;
    FullRowsNeverCrash(records);
    LoadedHasLocale(records, "fr");
  }

  /** Every non-key header of a loaded CSV has a table. */
  lemma LoadedHasLocale(records: seq<seq<string>>, loc: string)
    requires LoadCsvSpec(records).Loaded?
    requires loc in records[0] && loc != KeyColumn(records[0]).value
    ensures loc in LoadCsvSpec(records).tables
  {
    var headers := records[0];
    var keyCol := KeyColumn(headers).value;
    var t0 := InitialTables(headers, keyCol);
    assert loc in t0;
    FoldRowsKeeps(headers, keyCol, DataRows(records), t0);
  }

  lemma NonEmptyTwo(a: seq<string>, b: seq<string>)
    requires a != [] && b != []
    ensures NonEmpty([a, b]) == [a, b]
  {
    assert [a, b][1..] == [b];
    assert [b][1..] == [];
    assert NonEmpty([b]) == [b] + NonEmpty([]);
  }

  lemma RepeatedKeyValue(records: seq<seq<string>>, k: string)
    requires records == [["key", "fr"], ["hello", "salut"], ["hello", "bonjour"]]
    requires LoadCsvSpec(records).Loaded? && "fr" in LoadCsvSpec(records).tables
    ensures var table := LoadCsvSpec(records).tables["fr"];
            (k in table <==> k == "hello") && (k in table ==> table[k] == "bonjour")
  {
    RepeatedKeyLoads(records);
    LoadedValues(records, "fr", k);
    RepeatedKeyRows(records[0], DataRows(records), k);
  }

  /** What the two rows of the example give (fr, k). */
  lemma RepeatedKeyRows(headers: seq<string>, rows: seq<seq<string>>, k: string)
    requires headers == ["key", "fr"] && rows == [["hello", "salut"], ["hello", "bonjour"]]
    ensures LastValue(headers, "key", rows, "fr", k) == if k == "hello" then Some("bonjour") else None
  {
    LastValueTwo(headers, "key", rows[0], rows[1], "fr", k);
    assert rows == [rows[0], rows[1]];
    CleanWords(rows[0][0], rows[0][1], rows[1][1]);
    PairRowValue(rows[0][0], rows[0][1], k);
    PairRowValue(rows[1][0], rows[1][1], k);
  }

  lemma CleanWords(hello: string, salut: string, bonjour: string)
    requires hello == "hello" && salut == "salut" && bonjour == "bonjour"
    ensures |hello| > 0 && !IsWhitespace(hello[0]) && !IsWhitespace(hello[|hello| - 1])
    ensures |salut| > 0 && !IsWhitespace(salut[0]) && !IsWhitespace(salut[|salut| - 1])
    ensures |bonjour| > 0 && !IsWhitespace(bonjour[0]) && !IsWhitespace(bonjour[|bonjour| - 1])
  {
  }

  /** The value two rows give: the second row's, else the first's. */
  lemma LastValueTwo(headers: seq<string>, keyCol: string, a: seq<string>, b: seq<string>, loc: string, k: string)
    ensures LastValue(headers, keyCol, [a, b], loc, k)
            == Otherwise(RowValue(headers, keyCol, b, loc, k), RowValue(headers, keyCol, a, loc, k))
  {
    assert [a, b][..1] == [a];
    assert [a][..0] == [];
    assert LastValue(headers, keyCol, [a], loc, k) == Otherwise(RowValue(headers, keyCol, a, loc, k), None);
  }

  /** What a row of the two-column CSV says about (fr, k): its cell when k is its key. */
  lemma PairRowValue(key: string, cell: string, k: string)
    requires |key| > 0 && !IsWhitespace(key[0]) && !IsWhitespace(key[|key| - 1])
    requires |cell| > 0 && !IsWhitespace(cell[0]) && !IsWhitespace(cell[|cell| - 1])
    ensures RowValue(["key", "fr"], "key", [key, cell], "fr", k) == if k == key then Some(cell) else None
  {
    StripClean(key);
    StripClean(cell);
    assert LastIndex(["key", "fr"], "key") == Some(0) by {
      assert ["key", "fr"][..1] == ["key"];
    }
    assert LastIndex(["key", "fr"], "fr") == Some(1);
  }

  /** Example of `StoreCellsKeeps` for a one-locale header: a cell of information separators strips to nothing, so the row stores no value for it. */
  lemma SeparatorCellIgnored(key: string, cell: string, k: string)
    requires forall i :: 0 <= i < |cell| ==> 28 <= cell[i] as int <= 31
    ensures RowValue(["key", "fr"], "key", [key, cell], "fr", k) == None
  {
    assert LastIndex(["key", "fr"], "fr") == Some(1);
  }

  /** The discrepancy: with a valid CSV holding a locale, main as written produces nothing. */
  lemma RunToolAsWrittenWritesNothing()
    ensures LoadCsvSpec(EXAMPLE_CSV).Loaded? && |LoadCsvSpec(EXAMPLE_CSV).locales| == 1
    ensures RunToolAsWritten(true, true, [], EXAMPLE_CSV).written == []
  {
    ExampleCsvParts();
    FullRowsNeverCrash(EXAMPLE_CSV);
  }
}
