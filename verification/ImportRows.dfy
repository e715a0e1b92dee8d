/** Row accounting of the spreadsheet import: every physical row is kept as one raw row with
    a disposition, and the rows to import are exactly the raw rows that end up as data.

    The word patterns and header normalisation are parameters. */
module ImportRows {
  import opened Wrappers

  type Row = seq<string>

  datatype Sheet = Sheet(name: string, rows: seq<Row>)

  /** The recognised header rows and the normalised last parts of its column titles. */
  datatype Header = Header(start: nat, end: nat, leaves: set<string>)

  datatype Disposition =
    | Blank | TotalRow | SubtotalRow | Footer | TitleOrNote | RepeatedHeader | Data
    | UnselectedSheet | UnmappedNonData

  datatype Words = Words(
    isTotal: string -> bool,
    isSubtotal: string -> bool,
    isFooter: string -> bool,
    isNote: string -> bool,
    normalized: string -> string)

  datatype Status = Unmapped | InConflict | Usable

  datatype Mapping = Mapping(indexes: seq<nat>, status: Status, firstOnly: bool)

  datatype Raw = Raw(sheet: string, rowNumber: nat, values: Row, disposition: Disposition)

  datatype ImportRow = ImportRow(sheet: string, rowNumber: nat, mapped: seq<string>)

  // ---- One row -----------------------------------------------------------------------------

  function NonEmpty(row: Row): Row {
    if row == [] then []
    else (if row[0] != "" then [row[0]] else []) + NonEmpty(row[1..])
  }

  lemma {:induction false} NonEmptyExactly(row: Row)
    ensures forall v :: v in NonEmpty(row) <==> v in row && v != ""
    ensures NonEmpty(row) == [] <==> forall v :: v in row ==> v == ""
  {
    if row != [] {
      NonEmptyExactly(row[1..]);
      assert row == [row[0]] + row[1..];
      assert NonEmpty(row) != [] ==> NonEmpty(row)[0] in NonEmpty(row);
    }
  }

  function JoinWith(parts: seq<string>): string {
    if parts == [] then "" else if |parts| == 1 then parts[0] else parts[0] + " " + JoinWith(parts[1..])
  }

  function Hits(values: Row, header: Header, words: Words): nat {
    if values == [] then 0
    else (if words.normalized(values[0]) in header.leaves then 1 else 0) + Hits(values[1..], header, words)
  }

  /** How many header titles make a row a repeated header: two, or all there are. */
  function RepeatedAt(header: Header): nat {
    if |header.leaves| >= 2 then 2 else 1
  }

  function ClassifyRow(row: Row, header: Header, rowNumber: nat, words: Words): (d: Disposition)
    ensures d.Data? && header.start <= header.end ==> rowNumber > header.end
    ensures d !in {UnselectedSheet, UnmappedNonData} && (d.Blank? <==> forall v :: v in row ==> v == "")
  {
    NonEmptyExactly(row);
    var values := NonEmpty(row);
    var joined := JoinWith(values);
    if values == [] then Blank
    else if words.isTotal(joined) then TotalRow
    else if words.isSubtotal(joined) then SubtotalRow
    else if words.isFooter(joined) then Footer
    else if header.start <= rowNumber <= header.end then TitleOrNote
    else if rowNumber < header.start then TitleOrNote
    else if rowNumber > header.end && Hits(values, header, words) >= RepeatedAt(header) then RepeatedHeader
    else if |values| <= 2 && words.isNote(joined) then TitleOrNote
    else Data
  }

  // ---- What the disposition says of the cells --------------------------------------------------

  /** The cells with something in them. */
  ghost function Filled(row: Row): set<nat> {
    set i: nat | i < |row| && row[i] != ""
  }

  ghost predicate IsTitle(value: string, header: Header, words: Words) {
    value != "" && words.normalized(value) in header.leaves
  }

  /** The cells that read like a column title. */
  ghost function Titles(row: Row, header: Header, words: Words): set<nat> {
    set i: nat | i < |row| && IsTitle(row[i], header, words)
  }

  /** The row's texts with a blank between each two. */
  function Text(row: Row): string {
    if row == [] then ""
    else
      var before, last := Text(row[..|row| - 1]), row[|row| - 1];
      if last == "" then before else if before == "" then last else before + " " + last
  }

  lemma {:induction false} NonEmptyGrows(row: Row)
    requires row != []
    ensures var n := |row| - 1;
            NonEmpty(row) == NonEmpty(row[..n]) + (if row[n] != "" then [row[n]] else [])
    decreases |row|
  {
    var n := |row| - 1;
    if n > 0 {
      NonEmptyGrows(row[1..]);
      assert row[1..][..n - 1] == row[..n][1..];
    } else {
      assert row[..0] == [] && row[1..] == [];
    }
  }

  lemma {:induction false} HitsGrow(values: Row, v: string, header: Header, words: Words)
    ensures Hits(values + [v], header, words) ==
            Hits(values, header, words) + (if words.normalized(v) in header.leaves then 1 else 0)
    decreases |values|
  {
    if values == [] {
      assert [] + [v] == [v];
    } else {
      assert (values + [v])[1..] == values[1..] + [v];
      HitsGrow(values[1..], v, header, words);
    }
  }

  lemma {:induction false} JoinGrows(parts: seq<string>, v: string)
    ensures JoinWith(parts + [v]) == if parts == [] then v else JoinWith(parts) + " " + v
    decreases |parts|
  {
    if parts == [] {
      assert [] + [v] == [v];
    } else {
      assert (parts + [v])[1..] == parts[1..] + [v];
      JoinGrows(parts[1..], v);
      if |parts| == 1 {
        assert parts[1..] == [];
      } else {
        assert parts[0] + " " + (JoinWith(parts[1..]) + " " + v) == (parts[0] + " " + JoinWith(parts[1..])) + " " + v;
      }
    }
  }

  lemma NoCells(header: Header, words: Words)
    ensures NonEmpty([]) == [] && Hits([], header, words) == 0 && JoinWith([]) == ""
    ensures Filled([]) == {} && Titles([], header, words) == {}
  {
  }

  lemma FilledGrows(row: Row)
    requires row != []
    ensures var n := |row| - 1;
            && |Filled(row)| == |Filled(row[..n])| + (if row[n] != "" then 1 else 0)
            && (Filled(row) == {} <==> Filled(row[..n]) == {} && row[n] == "")
  {
    var n := |row| - 1;
    forall i: nat
      ensures i in Filled(row) <==> i in Filled(row[..n]) || (i == n && row[n] != "")
    {
    }
    if row[n] == "" {
      assert Filled(row) == Filled(row[..n]);
    } else {
      assert Filled(row) == Filled(row[..n]) + {n};
    }
  }

  lemma TitlesGrow(row: Row, header: Header, words: Words)
    requires row != []
    ensures var n := |row| - 1;
            |Titles(row, header, words)| == |Titles(row[..n], header, words)|
              + (if IsTitle(row[n], header, words) then 1 else 0)
  {
    hide IsTitle;
    var n := |row| - 1;
    var hit := IsTitle(row[n], header, words);
    forall i: nat
      ensures i in Titles(row, header, words) <==> i in Titles(row[..n], header, words) || (i == n && hit)
    {
    }
    if hit {
      assert Titles(row, header, words) == Titles(row[..n], header, words) + {n};
    } else {
      assert Titles(row, header, words) == Titles(row[..n], header, words);
    }
  }

  /** The code works on the list of filled cells; that list counts and reads as the row does. */
  lemma {:induction false} CellsExactly(row: Row, header: Header, words: Words)
    ensures var values := NonEmpty(row);
            && |values| == |Filled(row)| && (values == [] <==> Filled(row) == {})
            && Hits(values, header, words) == |Titles(row, header, words)|
            && JoinWith(values) == Text(row) && (values == [] <==> Text(row) == "")
    decreases |row|
  {
    hide NonEmpty, Hits, JoinWith, Filled, Titles;
    if row == [] {
      NoCells(header, words);
    } else {
      var n := |row| - 1;
      CellsExactly(row[..n], header, words);
      NonEmptyGrows(row);
      FilledGrows(row);
      TitlesGrow(row, header, words);
      assert NonEmpty(row[..n]) + [] == NonEmpty(row[..n]);
      HitsGrow(NonEmpty(row[..n]), row[n], header, words);
      JoinGrows(NonEmpty(row[..n]), row[n]);
    }
  }

  /** The condition of each disposition, on the cells of the row. */
  ghost predicate DispositionOk(d: Disposition, row: Row, header: Header, rowNumber: nat, words: Words) {
    var text, filled, titles := Text(row), |Filled(row)|, |Titles(row, header, words)|;
    var named := words.isTotal(text) || words.isSubtotal(text) || words.isFooter(text);
    var below := rowNumber > header.end && rowNumber >= header.start;
    var repeated := titles >= 2 || (titles == 1 && |header.leaves| == 1);
    var note := filled <= 2 && words.isNote(text);
    && d !in {UnselectedSheet, UnmappedNonData}
    && (d == Blank <==> filled == 0)
    && (d == TotalRow <==> filled > 0 && words.isTotal(text))
    && (d == SubtotalRow <==> filled > 0 && !words.isTotal(text) && words.isSubtotal(text))
    && (d == Footer <==> filled > 0 && !words.isTotal(text) && !words.isSubtotal(text) && words.isFooter(text))
    && (d == TitleOrNote <==> filled > 0 && !named && (!below || (!repeated && note)))
    && (d == RepeatedHeader <==> filled > 0 && !named && below && repeated)
    && (d == Data <==> filled > 0 && !named && below && !repeated && !note)
  }

  /** Every row is classified by exactly these conditions. */
  lemma DispositionExactly(row: Row, header: Header, rowNumber: nat, words: Words)
    ensures DispositionOk(ClassifyRow(row, header, rowNumber, words), row, header, rowNumber, words)
  {
    CellsExactly(row, header, words);
    if header.leaves == {} {
      assert Titles(row, header, words) == {};
    }
    hide NonEmpty, Hits, JoinWith, Filled, Titles, Text;
  }

  /** Text that starts, after blanks, with an equals sign: a formula. */
  predicate IsFormula(s: string) {
    s != "" && (s[0] == '=' || (s[0] in {' ', '\t', '\n', '\r'} && IsFormula(s[1..])))
  }

  /** The non-empty values at the mapped columns, formulas and repeats dropped. */
  function Mentioned(row: Row, indexes: seq<nat>): seq<string> {
    if indexes == [] then []
    else
      var n := |indexes| - 1;
      var rest := Mentioned(row, indexes[..n]);
      var value := if indexes[n] < |row| then row[indexes[n]] else "";
      if value == "" || IsFormula(value) || value in rest then rest else rest + [value]
  }

  /** A formula starts with an equals sign after any number of blanks. */
  lemma {:induction false} FormulaExactly(s: string)
    ensures IsFormula(s) <==>
            exists k :: 0 <= k < |s| && s[k] == '=' && forall i :: 0 <= i < k ==> s[i] in {' ', '\t', '\n', '\r'}
    decreases |s|
  {
    if s != "" && s[0] != '=' && s[0] in {' ', '\t', '\n', '\r'} {
      FormulaExactly(s[1..]);
      if k :| 0 <= k < |s[1..]| && s[1..][k] == '='
              && forall i :: 0 <= i < k ==> s[1..][i] in {' ', '\t', '\n', '\r'} {
        assert s[k + 1] == '=';
      }
      if k :| 0 <= k < |s| && s[k] == '=' && forall i :: 0 <= i < k ==> s[i] in {' ', '\t', '\n', '\r'} {
        assert s[1..][k - 1] == '=';
      }
    }
  }

  /** One of the mapped columns holds this value. */
  ghost predicate AtColumn(row: Row, indexes: seq<nat>, v: string) {
    exists i :: 0 <= i < |indexes| && indexes[i] < |row| && row[indexes[i]] == v
  }

  lemma ColumnGrows(row: Row, indexes: seq<nat>, v: string)
    requires indexes != []
    ensures var n := |indexes| - 1;
            AtColumn(row, indexes, v) <==>
            AtColumn(row, indexes[..n], v) || (indexes[n] < |row| && row[indexes[n]] == v)
  {
    var n := |indexes| - 1;
    if i :| 0 <= i < |indexes| && indexes[i] < |row| && row[indexes[i]] == v {
      assert i < n ==> indexes[..n][i] == indexes[i];
    }
    if i :| 0 <= i < n && indexes[..n][i] < |row| && row[indexes[..n][i]] == v {
      assert indexes[i] == indexes[..n][i];
    }
  }

  /** The values at the mapped columns: none empty and none a formula. */
  lemma {:induction false} MentionedExactly(row: Row, indexes: seq<nat>, v: string)
    ensures v in Mentioned(row, indexes) <==> v != "" && !IsFormula(v) && AtColumn(row, indexes, v)
    decreases |indexes|
  {
    hide IsFormula;
    if indexes != [] {
      hide AtColumn;
      MentionedExactly(row, indexes[..|indexes| - 1], v);
      ColumnGrows(row, indexes, v);
    }
  }

  /** And each of them once. */
  lemma {:induction false} MentionedOnce(row: Row, indexes: seq<nat>)
    ensures forall a, b :: 0 <= a < b < |Mentioned(row, indexes)| ==>
              Mentioned(row, indexes)[a] != Mentioned(row, indexes)[b]
    decreases |indexes|
  {
    hide IsFormula;
    if indexes != [] {
      MentionedOnce(row, indexes[..|indexes| - 1]);
    }
  }

  function Resolve(row: Row, m: Mapping): string {
    var values := Mentioned(row, m.indexes);
    if values == [] || !m.status.Usable? then "" else if m.firstOnly then values[0] else JoinWith(values)
  }

  lemma {:induction false} AllFilled(values: Row)
    requires forall v :: v in values ==> v != ""
    ensures NonEmpty(values) == values
  {
    if values != [] {
      assert values[0] in values && forall v :: v in values[1..] ==> v in values;
      AllFilled(values[1..]);
      assert values == [values[0]] + values[1..];
    }
  }

  /** A field is empty exactly when its mapping is not usable or its columns give nothing; else
      it is the first value or all of them as one text. */
  lemma ResolveExactly(row: Row, m: Mapping, header: Header, words: Words)
    ensures var values := Mentioned(row, m.indexes);
            && (Resolve(row, m) == "" <==> m.status != Usable || values == [])
            && (Resolve(row, m) != "" ==> Resolve(row, m) == if m.firstOnly then values[0] else Text(values))
  {
    var values := Mentioned(row, m.indexes);
    forall v | v in values
      ensures v != ""
    {
      MentionedExactly(row, m.indexes, v);
    }
    AllFilled(values);
    CellsExactly(values, header, words);
    hide Mentioned, Text, JoinWith, NonEmpty, IsFormula, Filled, Titles, Hits;
    assert values != [] ==> values[0] in values;
  }

  function ResolveAll(row: Row, mappings: seq<Mapping>): seq<string> {
    seq(|mappings|, i requires 0 <= i < |mappings| => Resolve(row, mappings[i]))
  }

  predicate Anything(values: seq<string>) {
    exists i :: 0 <= i < |values| && values[i] != ""
  }

  // ---- All rows -------------------------------------------------------------------------------

  function RawRow(sheets: seq<Sheet>, selected: nat, header: Header, words: Words, i: nat, j: nat): Raw
    requires i < |sheets| && j < |sheets[i].rows|
  {
    var row := sheets[i].rows[j];
    Raw(sheets[i].name, j + 1, row, if i != selected then UnselectedSheet else ClassifyRow(row, header, j + 1, words))
  }

  function SheetRows(sheets: seq<Sheet>, selected: nat, header: Header, words: Words, i: nat): seq<Raw>
    requires i < |sheets|
  {
    seq(|sheets[i].rows|, j requires 0 <= j < |sheets[i].rows| => RawRow(sheets, selected, header, words, i, j))
  }

  function FirstPass(sheets: seq<Sheet>, selected: nat, header: Header, words: Words, n: nat): seq<Raw>
    requires n <= |sheets|
  {
    if n == 0 then []
    else FirstPass(sheets, selected, header, words, n - 1) + SheetRows(sheets, selected, header, words, n - 1)
  }

  /** Physical rows on the sheets before sheet `n`. */
  function Offset(sheets: seq<Sheet>, n: nat): nat
    requires n <= |sheets|
  {
    if n == 0 then 0 else Offset(sheets, n - 1) + |sheets[n - 1].rows|
  }

  /** A data row without a mapped value is not data after all. */
  function Settle(raw: Raw, mappings: seq<Mapping>): Raw {
    if raw.disposition.Data? && !Anything(ResolveAll(raw.values, mappings))
    then raw.(disposition := UnmappedNonData) else raw
  }

  function SettleAll(raws: seq<Raw>, mappings: seq<Mapping>): (settled: seq<Raw>)
    ensures |settled| == |raws|
  {
    seq(|raws|, i requires 0 <= i < |raws| => Settle(raws[i], mappings))
  }

  /** An import row for each raw row that is data, in their order. */
  function ImportsOf(raws: seq<Raw>, mappings: seq<Mapping>): seq<ImportRow> {
    if raws == [] then []
    else
      var n := |raws| - 1;
      ImportsOf(raws[..n], mappings) +
      (if raws[n].disposition.Data?
       then [ImportRow(raws[n].sheet, raws[n].rowNumber, ResolveAll(raws[n].values, mappings))] else [])
  }

  lemma {:induction false} AllRowsKept(sheets: seq<Sheet>, selected: nat, header: Header, words: Words, n: nat)
    requires n <= |sheets|
    ensures |FirstPass(sheets, selected, header, words, n)| == Offset(sheets, n)
  {
    if n > 0 {
      AllRowsKept(sheets, selected, header, words, n - 1);
    }
  }

  /** Every physical row of every sheet is raw row number `Offset + j`. */
  lemma {:induction false} EveryRowOnce(sheets: seq<Sheet>, selected: nat, header: Header, words: Words, n: nat,
                                        i: nat, j: nat)
    requires i < n <= |sheets| && j < |sheets[i].rows|
    ensures Offset(sheets, i) + j < Offset(sheets, n) == |FirstPass(sheets, selected, header, words, n)|
    ensures FirstPass(sheets, selected, header, words, n)[Offset(sheets, i) + j] ==
        RawRow(sheets, selected, header, words, i, j)
    decreases n
  {
    hide RawRow;
    AllRowsKept(sheets, selected, header, words, n);
    AllRowsKept(sheets, selected, header, words, n - 1);
    if i < n - 1 {
      EveryRowOnce(sheets, selected, header, words, n - 1, i, j);
    }
  }

  /** Conversely every raw row is one physical row. */
  lemma {:induction false} EveryRawIsARow(sheets: seq<Sheet>, selected: nat, header: Header, words: Words, n: nat,
                                          k: nat)
    returns (i: nat, j: nat)
    requires n <= |sheets| && k < Offset(sheets, n)
    ensures i < n && j < |sheets[i].rows| && k == Offset(sheets, i) + j
  {
    if k < Offset(sheets, n - 1) {
      i, j := EveryRawIsARow(sheets, selected, header, words, n - 1, k);
    } else {
      i, j := n - 1, k - Offset(sheets, n - 1);
    }
  }

  // ---- The import ----------------------------------------------------------------------------

  method KeepRows(sheets: seq<Sheet>, selected: nat, header: Header, words: Words) returns (raws: seq<Raw>)
    requires selected < |sheets|
    ensures raws == FirstPass(sheets, selected, header, words, |sheets|)
  {
    hide RawRow;
    raws := [];
    for i := 0 to |sheets|
      invariant raws == FirstPass(sheets, selected, header, words, i)
    {
      ghost var before := raws;
      for j := 0 to |sheets[i].rows|
        invariant raws == before + SheetRows(sheets, selected, header, words, i)[..j]
      {
        raws := raws + [RawRow(sheets, selected, header, words, i, j)];
      }
    }
  }

  lemma SelectedData(sheets: seq<Sheet>, selected: nat, header: Header, words: Words, k: nat)
    requires k < |FirstPass(sheets, selected, header, words, |sheets|)| && selected < |sheets|
        && header.start <= header.end
    ensures var raw := FirstPass(sheets, selected, header, words, |sheets|)[k];
            raw.disposition.Data? ==> raw.sheet == sheets[selected].name && raw.rowNumber > header.end
  {
    AllRowsKept(sheets, selected, header, words, |sheets|);
    var i, j := EveryRawIsARow(sheets, selected, header, words, |sheets|, k);
    EveryRowOnce(sheets, selected, header, words, |sheets|, i, j);
  }

  /** The second loop: it rewrites dispositions in place. */
  method SettleRows(sheets: seq<Sheet>, selected: nat, header: Header, mappings: seq<Mapping>, words: Words,
                    first: seq<Raw>)
    returns (raws: seq<Raw>, imports: seq<ImportRow>)
    requires selected < |sheets| && header.start <= header.end
    requires first == FirstPass(sheets, selected, header, words, |sheets|)
    ensures raws == SettleAll(first, mappings) && imports == ImportsOf(raws, mappings)
  {
    hide FirstPass, ResolveAll, Anything;
    raws, imports := first, [];
    for k := 0 to |raws|
      invariant |raws| == |first| && raws[k..] == first[k..]
      invariant raws[..k] == SettleAll(first, mappings)[..k]
      invariant imports == ImportsOf(raws[..k], mappings)
    {
      var raw := raws[k];
      assert raw == raws[k..][0] == first[k..][0] == first[k];
      ghost var done := raws[..k];
      SelectedData(sheets, selected, header, words, k);
      if raw.sheet == sheets[selected].name && raw.disposition.Data? {
        var mapped := ResolveAll(raw.values, mappings);
        if Anything(mapped) {
          imports := imports + [ImportRow(raw.sheet, raw.rowNumber, mapped)];
        } else {
          raws := raws[k := raw.(disposition := UnmappedNonData)];
        }
      }
      assert raws[k + 1..] == first[k + 1..];
      assert raws[..k + 1] == done + [raws[k]];
    }
    assert raws[..|raws|] == raws;
  }

  lemma SettledData(sheets: seq<Sheet>, selected: nat, header: Header, mappings: seq<Mapping>, words: Words)
    requires selected < |sheets| && header.start <= header.end
    ensures var raws := SettleAll(FirstPass(sheets, selected, header, words, |sheets|), mappings);
            forall raw :: raw in raws && raw.disposition.Data? ==>
              raw.sheet == sheets[selected].name && raw.rowNumber > header.end
                && Anything(ResolveAll(raw.values, mappings))
  {
    hide FirstPass, ResolveAll, Anything;
    var first := FirstPass(sheets, selected, header, words, |sheets|);
    var raws := SettleAll(first, mappings);
    forall raw | raw in raws && raw.disposition.Data?
      ensures raw.sheet == sheets[selected].name && raw.rowNumber > header.end
          && Anything(ResolveAll(raw.values, mappings))
    {
      var k :| 0 <= k < |raws| && raws[k] == raw;
      SelectedData(sheets, selected, header, words, k);
    }
  }

  /** The raw row of physical row `j` of sheet `i`. */
  ghost predicate RowKept(raw: Raw, sheets: seq<Sheet>, selected: nat, header: Header, mappings: seq<Mapping>,
                          words: Words, i: nat, j: nat)
    requires i < |sheets| && j < |sheets[i].rows|
  {
    var row := sheets[i].rows[j];
    && raw.sheet == sheets[i].name && raw.rowNumber == j + 1 && raw.values == row
    && (i != selected ==> raw.disposition == UnselectedSheet)
    && (i == selected ==>
          && DispositionOk(if raw.disposition == UnmappedNonData then Data else raw.disposition,
                           row, header, j + 1, words)
          && (raw.disposition == UnmappedNonData ==> !Anything(ResolveAll(row, mappings)))
          && (raw.disposition == Data ==> Anything(ResolveAll(row, mappings))))
  }

  /** If there is such a physical row, its raw row is there. */
  ghost predicate KeptAt(raws: seq<Raw>, sheets: seq<Sheet>, selected: nat, header: Header, mappings: seq<Mapping>,
                         words: Words, i: nat, j: nat) {
    i < |sheets| && j < |sheets[i].rows| ==>
      && Offset(sheets, i) + j < |raws|
      && RowKept(raws[Offset(sheets, i) + j], sheets, selected, header, mappings, words, i, j)
  }

  lemma EveryRowKept(sheets: seq<Sheet>, selected: nat, header: Header, mappings: seq<Mapping>, words: Words,
                     i: nat, j: nat)
    requires i < |sheets| && j < |sheets[i].rows|
    ensures Offset(sheets, i) + j < Offset(sheets, |sheets|) == |FirstPass(sheets, selected, header, words, |sheets|)|
    ensures RowKept(SettleAll(FirstPass(sheets, selected, header, words, |sheets|), mappings)[Offset(sheets, i) + j],
                    sheets, selected, header, mappings, words, i, j)
  {
    EveryRowOnce(sheets, selected, header, words, |sheets|, i, j);
    DispositionExactly(sheets[i].rows[j], header, j + 1, words);
    hide FirstPass, ResolveAll, Anything, ClassifyRow, DispositionOk;
  }

  /** Keeps all rows, settles their dispositions and collects the rows to import. */
  method CollectRows(sheets: seq<Sheet>, selected: nat, header: Header, mappings: seq<Mapping>, words: Words)
    returns (raws: seq<Raw>, r: Result<seq<ImportRow>>)
    requires selected < |sheets| && header.start <= header.end
    ensures |raws| == Offset(sheets, |sheets|)
    ensures raws == SettleAll(FirstPass(sheets, selected, header, words, |sheets|), mappings)
    ensures forall i: nat, j: nat :: KeptAt(raws, sheets, selected, header, mappings, words, i, j)
    ensures r.Ok? ==> r.value == ImportsOf(raws, mappings)
    ensures r.Err? <==> ImportsOf(raws, mappings) == []
    ensures forall raw :: raw in raws && raw.disposition.Data? ==>
              raw.sheet == sheets[selected].name && raw.rowNumber > header.end
                && Anything(ResolveAll(raw.values, mappings))
  {
    hide RawRow, ResolveAll, Anything, FirstPass, ImportsOf, SettleAll, RowKept;
    var first := KeepRows(sheets, selected, header, words);
    AllRowsKept(sheets, selected, header, words, |sheets|);
    var imports;
    raws, imports := SettleRows(sheets, selected, header, mappings, words, first);
    SettledData(sheets, selected, header, mappings, words);
    forall i: nat, j: nat
      ensures KeptAt(raws, sheets, selected, header, mappings, words, i, j)
    {
      if i < |sheets| && j < |sheets[i].rows| {
        EveryRowKept(sheets, selected, header, mappings, words, i, j);
      }
    }
    r := if imports == [] then Err("IMPORT_NO_DATA_ROWS") else Ok(imports);
  }

  /** Where the data rows are. */
  function PlacesOf(raws: seq<Raw>): seq<nat> {
    if raws == [] then []
    else
      var n := |raws| - 1;
      PlacesOf(raws[..n]) + (if raws[n].disposition.Data? then [n] else [])
  }

  lemma {:induction false} PlacesExactly(raws: seq<Raw>)
    ensures forall k :: k in PlacesOf(raws) <==> 0 <= k < |raws| && raws[k].disposition.Data?
    ensures forall a, b :: 0 <= a < b < |PlacesOf(raws)| ==> PlacesOf(raws)[a] < PlacesOf(raws)[b]
    decreases |raws|
  {
    if raws != [] {
      var n := |raws| - 1;
      PlacesExactly(raws[..n]);
      var before := PlacesOf(raws[..n]);
      forall a | 0 <= a < |before|
        ensures before[a] < n
      {
        assert before[a] in before;
      }
    }
  }

  /** Import rows and data rows correspond one to one and in order. */
  lemma {:induction false} ImportsCorrespond(raws: seq<Raw>, mappings: seq<Mapping>, a: nat)
    ensures |ImportsOf(raws, mappings)| == |PlacesOf(raws)|
    ensures a < |PlacesOf(raws)| ==>
              && PlacesOf(raws)[a] < |raws|
              && var raw := raws[PlacesOf(raws)[a]];
              && raw.disposition.Data?
              && ImportsOf(raws, mappings)[a] == ImportRow(raw.sheet, raw.rowNumber, ResolveAll(raw.values, mappings))
    decreases |raws|
  {
    hide ResolveAll;
    if raws != [] {
      ImportsCorrespond(raws[..|raws| - 1], mappings, a);
    }
  }
}
