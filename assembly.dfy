/** Record assembly over the rows of a CSV sheet (`DataHandler` and
    `XmlRecord`): finding the id, file-name and mapping columns from the
    control row, rewriting text dates in date columns as rows are read,
    generating xml ids per group, deriving group ids, collecting each row's
    field data and adding the derived DarwinCore taxon fields. */
module Assembly {
  import opened Common
  import opened Text
  import opened Mapping
  import Dates
  import ScriptDates

  // ---------------------------------------------------------------------
  // Column lookup
  // ---------------------------------------------------------------------

  /** The first cell, from `k` on, whose lower-cased text is one of `keys`. */
  function FindCell(cells: seq<string>, keys: seq<string>, k: nat): Option<nat>
    requires k <= |cells|
    decreases |cells| - k
  {
    if k == |cells| then None
    else if Lower(cells[k]) in keys then Some(k)
    else FindCell(cells, keys, k + 1)
  }

  /** The cell found matches and none before it does; there is none exactly
      when no cell from `k` on matches. */
  lemma {:induction false} FindCellFirst(cells: seq<string>, keys: seq<string>, k: nat)
    requires k <= |cells|
    ensures var r := FindCell(cells, keys, k);
            (r.Some? ==> k <= r.value < |cells| && Lower(cells[r.value]) in keys)
            && (r.Some? ==> forall j :: k <= j < r.value ==> Lower(cells[j]) !in keys)
            && (r.None? ==> forall j :: k <= j < |cells| ==> Lower(cells[j]) !in keys)
    decreases |cells| - k
  {
    if k < |cells| && Lower(cells[k]) !in keys {
      FindCellFirst(cells, keys, k + 1);
    }
  }

  /** The names a header is compared with: the package lower-cases them,
      the script takes them as given. */
  function Keys(v: Variant, names: seq<string>): seq<string> {
    if v == Package then seq(|names|, i requires 0 <= i < |names| => Lower(names[i])) else names
  }

  /** A header cell that names one of the columns looked for. */
  predicate Names(v: Variant, cell: string, names: seq<string>) {
    Lower(cell) in Keys(v, names)
  }

  /** `_get_col_from_id_names(id_names)`: the first matching cell of the
      control row, else the first matching cell of the sheet's first row,
      else None. */
  function ColFromIdNames(v: Variant, ctrl: seq<string>, first: seq<string>, names: seq<string>): Option<nat> {
    var keys := Keys(v, names);
    match FindCell(ctrl, keys, 0)
    case Some(i) => Some(i)
    case None => FindCell(first, keys, 0)
  }

  /** The column found is the first match in the control row, else the
      first match in the first row; there is none exactly when neither row
      has a match. */
  lemma ColumnLookup(v: Variant, ctrl: seq<string>, first: seq<string>, names: seq<string>)
    ensures var r := ColFromIdNames(v, ctrl, first, names);
      (r.None? <==> (forall j :: 0 <= j < |ctrl| ==> !Names(v, ctrl[j], names))
                    && (forall j :: 0 <= j < |first| ==> !Names(v, first[j], names)))
      && (r.Some? && (exists j :: 0 <= j < |ctrl| && Names(v, ctrl[j], names)) ==>
            r.value < |ctrl| && Names(v, ctrl[r.value], names)
            && forall j :: 0 <= j < r.value ==> !Names(v, ctrl[j], names))
      && (r.Some? && (forall j :: 0 <= j < |ctrl| ==> !Names(v, ctrl[j], names)) ==>
            r.value < |first| && Names(v, first[r.value], names)
            && forall j :: 0 <= j < r.value ==> !Names(v, first[j], names))
  {
    FindCellFirst(ctrl, Keys(v, names), 0);
    FindCellFirst(first, Keys(v, names), 0);
  }

  const GroupIdNames := ["id", "group id"]
  const XmlIdNames := ["mods id", "<mods:mods id=\"\">"]
  const FileNames := ["file name", "filename"]
  const GenusNames := ["<dwc:genus>"]

  /** `get_cols_to_map()`: the columns whose trimmed control-row header
      starts with `<`, each with that trimmed header. */
  function ColsToMap(ctrl: seq<string>): map<nat, string> {
    map i | 0 <= i < |ctrl| && StartsWith(Strip(ctrl[i]), "<") :: Strip(ctrl[i])
  }

  /** Python's truth value of a column index: None and 0 are false. */
  predicate Present(c: Option<nat>) {
    c.Some? && c.value != 0
  }

  /** The cell of a column, if the column exists and the row reaches it. */
  predicate Cell(c: Option<nat>, row: seq<string>) {
    c.Some? && c.value < |row|
  }

  // ---------------------------------------------------------------------
  // Reading rows: the CSV branch of get_row
  // ---------------------------------------------------------------------

  /** A control-row header that marks a column whose text dates are
      rewritten: the package looks for `date` but not `verbatim` in the
      lower-cased header, the script for `date` in the header as written. */
  predicate IsDateColumn(v: Variant, header: string) {
    if v == Package then Contains(Lower(header), "date") && !Contains(Lower(header), "verbatim")
    else Contains(header, "date")
  }

  /** `process_text_date` of the variant on a cell; the script's is the
      corrected one, which does not raise on a year before 1900. */
  function ProcessCell(v: Variant, s: string, force: bool): string {
    if v == Package then Dates.ProcessText(s, force) else ScriptDates.ScriptProcessText(s, force)
  }

  /** Every date column of the control row is a cell of the row (otherwise
      `row[i]` raises IndexError). */
  predicate DatesFit(v: Variant, ctrl: seq<string>, row: seq<string>) {
    forall i :: 0 <= i < |ctrl| && IsDateColumn(v, ctrl[i]) ==> i < |row|
  }

  /** A data row with every date column passed through `process_text_date`. */
  function DateRewritten(v: Variant, ctrl: seq<string>, row: seq<string>, force: bool): seq<string> {
    seq(|row|, i requires 0 <= i < |row| =>
      if i < |ctrl| && IsDateColumn(v, ctrl[i]) then ProcessCell(v, row[i], force) else row[i])
  }

  /** `get_row(index)` (1-based) on the stored rows: rows after the control
      row have their date columns rewritten, the others are returned as
      stored. */
  function RowRead(v: Variant, force: bool, ctrlRow: nat, rows: seq<seq<string>>, index: nat): seq<string>
    requires 1 <= ctrlRow <= |rows| && 1 <= index <= |rows|
  {
    if index > ctrlRow then DateRewritten(v, rows[ctrlRow - 1], rows[index - 1], force) else rows[index - 1]
  }

  /** The stored rows after `get_row` has been called on every data row
      before index `n` (0-based): the call writes its result back. */
  function ReadUpTo(v: Variant, force: bool, ctrlRow: nat, rows: seq<seq<string>>, n: nat): (r: seq<seq<string>>)
    requires 1 <= ctrlRow <= |rows|
    ensures |r| == |rows|
  {
    seq(|rows|, j requires 0 <= j < |rows| =>
      if ctrlRow <= j < n then DateRewritten(v, rows[ctrlRow - 1], rows[j], force) else rows[j])
  }

  /** Nothing is rewritten before the first data row. */
  lemma ReadNone(v: Variant, force: bool, ctrlRow: nat, rows: seq<seq<string>>)
    requires 1 <= ctrlRow <= |rows|
    ensures ReadUpTo(v, force, ctrlRow, rows, ctrlRow) == rows
  {
  }

  /** Reading data row `i` (0-based) stores its rewritten form. */
  lemma ReadStep(v: Variant, force: bool, ctrlRow: nat, rows: seq<seq<string>>, i: nat)
    requires 1 <= ctrlRow <= i < |rows|
    ensures var before := ReadUpTo(v, force, ctrlRow, rows, i);
            before[i := RowRead(v, force, ctrlRow, before, i + 1)] == ReadUpTo(v, force, ctrlRow, rows, i + 1)
  {
  }

  /** The script's `get_row` is modelled with the corrected date function:
      a pre-1900 date in a date column is rewritten, where the script as
      written raises on it. */
  lemma ScriptRowBefore1900(rows: seq<seq<string>>)
    requires rows == [["date"], ["7/13/1899"]]
    ensures RowRead(Script, false, 1, rows, 2) == ["1899-07-13"]
    ensures ScriptDates.ScriptProcessTextAsWritten(rows[1][0], false).Failure?
  {
    assert Contains("date", "date");
    ScriptDates.Before1900Example(rows[1][0]);
  }

  /** Reading a data row a second time gives what the first read gave and
      stored, because rewriting a date twice is rewriting it once. */
  lemma RowReadTwice(v: Variant, force: bool, ctrlRow: nat, rows: seq<seq<string>>, index: nat)
    requires 1 <= ctrlRow <= |rows| && 1 <= index <= |rows|
    ensures var once := rows[index - 1 := RowRead(v, force, ctrlRow, rows, index)];
            RowRead(v, force, ctrlRow, once, index) == RowRead(v, force, ctrlRow, rows, index)
  {
    if index > ctrlRow {
      var ctrl := rows[ctrlRow - 1];
      var r := DateRewritten(v, ctrl, rows[index - 1], force);
      var once := rows[index - 1 := r];
      assert once[ctrlRow - 1] == ctrl;
      forall i | 0 <= i < |r|
        ensures DateRewritten(v, ctrl, r, force)[i] == r[i]
      {
        if i < |ctrl| && IsDateColumn(v, ctrl[i]) {
          if v == Package {
            Dates.ProcessTextIdempotent(rows[index - 1][i], force);
          } else {
            ScriptDates.ScriptIdempotent(rows[index - 1][i], force);
          }
        }
      }
    }
  }

  /** Rewriting leaves the columns that are not date columns as they are. */
  lemma OnlyDateColumnsChange(v: Variant, ctrl: seq<string>, row: seq<string>, force: bool, i: nat)
    requires i < |row| && (i >= |ctrl| || !IsDateColumn(v, ctrl[i]))
    ensures DateRewritten(v, ctrl, row, force)[i] == row[i]
  {
  }

  /** The package skips a header containing `verbatim`; the script does not. */
  lemma VerbatimDatesDiffer(header: string)
    requires Contains(header, "date") && Contains(Lower(header), "verbatim")
    ensures !IsDateColumn(Package, header) && IsDateColumn(Script, header)
  {
  }

  // ---------------------------------------------------------------------
  // Ids
  // ---------------------------------------------------------------------

  /** `obj_type`: 'parent', or anything else. */
  datatype ObjType = ParentObject | ChildObject

  /** The xml id of the record of group `g` that has `k` records of the
      group before it: `g, g_1, g_2, …` for parents, `g_1, g_2, …` for
      children. */
  function GeneratedId(o: ObjType, g: string, k: nat): string {
    if o == ParentObject && k == 0 then g
    else g + "_" + NatToString(if o == ParentObject then k else k + 1)
  }

  /** The xml id given to the next record of group `g` when the sheet has
      no xml-id column, and the `xml_ids` counters after it. */
  function NextId(o: ObjType, counters: map<string, nat>, g: string): (string, map<string, nat>) {
    if g in counters then (g + "_" + NatToString(counters[g]), counters[g := counters[g] + 1])
    else if o == ParentObject then (g, counters[g := 1])
    else (g + "_1", counters[g := 2])
  }

  /** How often `g` occurs in `s`. */
  function Count(s: seq<string>, g: string): nat {
    if s == [] then 0 else Count(s[..|s| - 1], g) + (if s[|s| - 1] == g then 1 else 0)
  }

  /** The counters hold, for each group seen so far, how many of its
      records there were (plus one for children). */
  ghost predicate CountersTrack(o: ObjType, counters: map<string, nat>, seen: seq<string>) {
    (forall g :: g in counters <==> g in seen)
    && forall g :: g in counters ==> counters[g] == Count(seen, g) + (if o == ChildObject then 1 else 0)
  }

  lemma CountAbsent(s: seq<string>, g: string)
    requires g !in s
    ensures Count(s, g) == 0
  {
    if s != [] {
      assert g !in s[..|s| - 1];
      CountAbsent(s[..|s| - 1], g);
    }
  }

  lemma CountPresent(s: seq<string>, g: string)
    requires g in s
    ensures Count(s, g) >= 1
  {
    if s[|s| - 1] != g {
      assert g in s[..|s| - 1];
      CountPresent(s[..|s| - 1], g);
    }
  }

  lemma CountSnoc(s: seq<string>, g: string, h: string)
    ensures Count(s + [g], h) == Count(s, h) + (if g == h then 1 else 0)
  {
    assert (s + [g])[..|s + [g]| - 1] == s;
  }

  /** The counter step gives the next record of a group the id that
      `GeneratedId` names, and keeps the counters in step with the groups. */
  lemma NextIdCounts(o: ObjType, counters: map<string, nat>, seen: seq<string>, g: string)
    requires CountersTrack(o, counters, seen)
    ensures NextId(o, counters, g).0 == GeneratedId(o, g, Count(seen, g))
    ensures CountersTrack(o, NextId(o, counters, g).1, seen + [g])
  {
    NextIdNamed(o, counters, seen, g);
    NextIdTracks(o, counters, seen, g);
  }

  lemma NextIdNamed(o: ObjType, counters: map<string, nat>, seen: seq<string>, g: string)
    requires CountersTrack(o, counters, seen)
    ensures NextId(o, counters, g).0 == GeneratedId(o, g, Count(seen, g))
  {
    if g !in counters {
      CountAbsent(seen, g);
      assert NatToString(1) == "1";
    } else {
      CountPresent(seen, g);
    }
  }

  lemma NextIdTracks(o: ObjType, counters: map<string, nat>, seen: seq<string>, g: string)
    requires CountersTrack(o, counters, seen)
    ensures CountersTrack(o, NextId(o, counters, g).1, seen + [g])
  {
    var c := NextId(o, counters, g).1;
    if g !in counters {
      CountAbsent(seen, g);
    }
    forall h | h in c
      ensures c[h] == Count(seen + [g], h) + (if o == ChildObject then 1 else 0)
    {
      CountSnoc(seen, g, h);
    }
    forall h
      ensures h in c <==> h in seen + [g]
    {
    }
  }

  /** The group id derived from an xml id: `xml_id.split('_')[0]`, the text
      before the first `_`. */
  function GroupFromXmlId(x: string): (g: string)
    ensures '_' !in g
    ensures g == x || (|g| < |x| && x[..|g| + 1] == g + "_")
  {
    GroupFromXmlIdPrefix(x);
    Split(x, "_")[0]
  }

  lemma GroupFromXmlIdPrefix(x: string)
    ensures var g := Split(x, "_")[0];
            '_' !in g && (g == x || (|g| < |x| && x[..|g| + 1] == g + "_"))
  {
    var i := FindFrom(x, '_', 0);
    FindFromFirst(x, '_', 0);
    if i < 0 {
      SplitNoChar(x, '_');
    } else {
      Text.FindFromAt(x, '_', 0, i);
      var p, t := x[..i], x[i + 1..];
      assert x == p + ['_'] + t;
      SplitFirst(p, '_', t);
      assert x[..|p| + 1] == p + "_";
    }
  }

  // ---------------------------------------------------------------------
  // Field data
  // ---------------------------------------------------------------------

  /** The field data of the first `n` cells of a row: each non-empty cell
      of a mapped column, with the column's header as its path. */
  function MappedCells(row: seq<string>, cols: map<nat, string>, n: nat): seq<FieldDatum>
    requires n <= |row|
  {
    if n == 0 then []
    else MappedCells(row, cols, n - 1)
         + (if n - 1 in cols && |row[n - 1]| > 0 then [FieldDatum(cols[n - 1], row[n - 1])] else [])
  }

  /** The columns the data of `MappedCells` come from. */
  function MappedColumns(row: seq<string>, cols: map<nat, string>, n: nat): (r: seq<nat>)
    requires n <= |row|
    ensures |r| == |MappedCells(row, cols, n)|
    ensures forall k :: 0 <= k < |r| ==> r[k] < n
  {
    if n == 0 then []
    else MappedColumns(row, cols, n - 1) + (if n - 1 in cols && |row[n - 1]| > 0 then [n - 1] else [])
  }

  /** The field data list exactly the non-empty cells of the mapped columns,
      in column order, each with its column's header. */
  lemma {:induction false} MappedInOrder(row: seq<string>, cols: map<nat, string>, n: nat)
    requires n <= |row|
    ensures var fd, idx := MappedCells(row, cols, n), MappedColumns(row, cols, n);
            |fd| == |idx|
            && (forall k :: 0 <= k < |idx| ==>
                  idx[k] < n && idx[k] in cols && row[idx[k]] != [] && fd[k] == FieldDatum(cols[idx[k]], row[idx[k]]))
            && (forall k, l :: 0 <= k < l < |idx| ==> idx[k] < idx[l])
            && (forall i :: 0 <= i < n && i in cols && row[i] != [] ==> i in idx)
  {
    CellsInOrder(row, cols, n);
  }

  lemma {:induction false} CellsInOrder(row: seq<string>, cols: map<nat, string>, n: nat)
    requires n <= |row|
    ensures InOrder(row, cols, n, MappedCells(row, cols, n), MappedColumns(row, cols, n))
  {
    if n > 0 {
      CellsInOrder(row, cols, n - 1);
      CellsGrow(row, cols, n);
    }
  }

  /** The conclusion of `MappedInOrder` for given lists of data and columns. */
  ghost predicate InOrder(row: seq<string>, cols: map<nat, string>, n: nat, fd: seq<FieldDatum>, idx: seq<nat>) {
    |fd| == |idx|
    && (forall k :: 0 <= k < |idx| ==>
          idx[k] < n && idx[k] < |row| && idx[k] in cols && row[idx[k]] != [] && fd[k] == FieldDatum(cols[idx[k]], row[idx[k]]))
    && (forall k, l :: 0 <= k < l < |idx| ==> idx[k] < idx[l])
    && (forall i :: 0 <= i < n && i < |row| && i in cols && row[i] != [] ==> i in idx)
  }

  /** One more cell keeps the data in column order. */
  lemma CellsGrow(row: seq<string>, cols: map<nat, string>, n: nat)
    requires 0 < n <= |row| && InOrder(row, cols, n - 1, MappedCells(row, cols, n - 1), MappedColumns(row, cols, n - 1))
    ensures InOrder(row, cols, n, MappedCells(row, cols, n), MappedColumns(row, cols, n))
  {
    var c := n - 1;
    InOrderGrow(row, cols, c, MappedCells(row, cols, c), MappedColumns(row, cols, c));
  }

  lemma InOrderGrow(row: seq<string>, cols: map<nat, string>, c: nat, fd: seq<FieldDatum>, idx: seq<nat>)
    requires c < |row| && InOrder(row, cols, c, fd, idx)
    ensures c in cols && |row[c]| > 0 ==> InOrder(row, cols, c + 1, fd + [FieldDatum(cols[c], row[c])], idx + [c])
    ensures !(c in cols && |row[c]| > 0) ==> InOrder(row, cols, c + 1, fd, idx)
  {
  }

  /** With the control row's columns, a field datum comes from a cell whose
      trimmed header starts with `<`, and carries that trimmed header. */
  lemma MappedFromHeaders(ctrl: seq<string>, row: seq<string>, k: nat)
    requires k < |MappedCells(row, ColsToMap(ctrl), |row|)|
    ensures var i := MappedColumns(row, ColsToMap(ctrl), |row|)[k];
            i < |ctrl| && StartsWith(Strip(ctrl[i]), "<")
            && MappedCells(row, ColsToMap(ctrl), |row|)[k] == FieldDatum(Strip(ctrl[i]), row[i])
  {
    MappedInOrder(row, ColsToMap(ctrl), |row|);
  }

  // ---------------------------------------------------------------------
  // DarwinCore taxon fields (_dwc_dynamic_fields)
  // ---------------------------------------------------------------------

  /** The columns `_dwc_dynamic_fields` looks up. */
  datatype TaxonColumns = TaxonColumns(species: Option<nat>, speciesAuthor: Option<nat>,
                                       variety: Option<nat>, varietyAuthor: Option<nat>,
                                       subspecies: Option<nat>, subspeciesAuthor: Option<nat>)

  /** The package takes the species author from `dwc_species_author`, the
      script from `<dwc:scientificNameAuthorship>`. */
  function TaxonColumnsOf(v: Variant, ctrl: seq<string>, first: seq<string>): TaxonColumns {
    TaxonColumns(
      ColFromIdNames(v, ctrl, first, if v == Package then ["<dwc:specificEpithet>"] else ["<dwc:specificepithet>"]),
      ColFromIdNames(v, ctrl, first, if v == Package then ["dwc_species_author"] else ["<dwc:scientificnameauthorship>"]),
      ColFromIdNames(v, ctrl, first, ["dwc_variety"]),
      ColFromIdNames(v, ctrl, first, ["dwc_variety_author"]),
      ColFromIdNames(v, ctrl, first, ["dwc_subspecies"]),
      ColFromIdNames(v, ctrl, first, ["dwc_subspecies_author"]))
  }

  /** An infraspecific rank chosen for a row: its epithet, rank name,
      abbreviation and the author that goes with it. */
  datatype Rank = Rank(epithet: string, rank: string, abbr: string, author: string)

  const EpithetPath := "<dwc:infraspecificEpithet>"
  const RankPath := "<dwc:taxonRank>"
  const AuthorshipPath := "<dwc:scientificNameAuthorship>"
  const AcceptedPath := "<dwc:acceptedNameUsage>"

  /** The package reads these cells without checking the columns exist
      (`data_row[None]` raises TypeError, a short row IndexError). */
  predicate PackageTaxonFits(row: seq<string>, genus: nat, c: TaxonColumns) {
    genus < |row| && Cell(c.species, row) && Cell(c.speciesAuthor, row) && Cell(c.variety, row)
    && if row[c.variety.value] != [] then Cell(c.varietyAuthor, row)
       else Cell(c.subspecies, row) && (row[c.subspecies.value] != [] ==> Cell(c.subspeciesAuthor, row))
  }

  /** The package's rank: variety when its cell is non-empty, else
      subspecies when its cell is; the rank's author replaces the species
      author only when non-empty. */
  function PackageRank(row: seq<string>, genus: nat, c: TaxonColumns): Option<Rank>
    requires PackageTaxonFits(row, genus, c)
  {
    var author := row[c.speciesAuthor.value];
    if row[c.variety.value] != [] then
      var a := row[c.varietyAuthor.value];
      Some(Rank(row[c.variety.value], "variety", "var.", if a != [] then a else author))
    else if row[c.subspecies.value] != [] then
      var a := row[c.subspeciesAuthor.value];
      Some(Rank(row[c.subspecies.value], "subspecies", "subsp.", if a != [] then a else author))
    else None
  }

  /** The package's accepted name before trimming:
      genus, species, [abbreviation, epithet,] author, joined by spaces. */
  function PackageName(row: seq<string>, genus: nat, c: TaxonColumns): string
    requires PackageTaxonFits(row, genus, c)
  {
    var rank := PackageRank(row, genus, c);
    var name := row[genus] + " " + row[c.species.value];
    var named := if rank.Some? then name + " " + rank.value.abbr + " " + rank.value.epithet else name;
    named + " " + (if rank.Some? then rank.value.author else row[c.speciesAuthor.value])
  }

  /** The fields the package appends for a row. */
  function PackageTaxonFields(row: seq<string>, genus: nat, c: TaxonColumns): seq<FieldDatum>
    requires PackageTaxonFits(row, genus, c)
  {
    var rank := PackageRank(row, genus, c);
    var author := if rank.Some? then rank.value.author else row[c.speciesAuthor.value];
    var name := PackageName(row, genus, c);
    (if rank.Some? then [FieldDatum(EpithetPath, rank.value.epithet), FieldDatum(RankPath, rank.value.rank)] else [])
    + (if Strip(author) != [] then [FieldDatum(AuthorshipPath, Strip(author))] else [])
    + (if Strip(name) != [] then [FieldDatum(AcceptedPath, Strip(name))] else [])
  }

  /** The script tests each column index for truth and reads the cells it
      then needs. */
  predicate ScriptTaxonFits(row: seq<string>, genus: nat, c: TaxonColumns) {
    (Present(c.variety) ==> c.variety.value < |row|)
    && if Present(c.variety) && row[c.variety.value] != [] then
         genus < |row| && (Present(c.varietyAuthor) ==> c.varietyAuthor.value < |row|)
       else
         (Present(c.subspecies) ==> c.subspecies.value < |row|)
         && if Present(c.subspecies) && row[c.subspecies.value] != [] then
              genus < |row| && (Present(c.subspeciesAuthor) ==> c.subspeciesAuthor.value < |row|)
            else
              (Present(c.species) ==> c.species.value < |row|)
              && (Present(c.species) && row[c.species.value] != [] ==>
                    genus < |row| && (Present(c.speciesAuthor) ==> c.speciesAuthor.value < |row|))
  }

  /** `a + sep + b`, followed by `' ' + author` when the author column is present. */
  function WithAuthor(a: string, row: seq<string>, author: Option<nat>): string
    requires Present(author) ==> author.value < |row|
  {
    if Present(author) then a + " " + row[author.value] else a
  }

  /** The fields the script appends for a row: the accepted name first,
      then epithet and rank for a variety or subspecies. */
  function ScriptTaxonFields(row: seq<string>, genus: nat, c: TaxonColumns): seq<FieldDatum>
    requires ScriptTaxonFits(row, genus, c)
  {
    if Present(c.variety) && row[c.variety.value] != [] then
      var e := row[c.variety.value];
      [FieldDatum(AcceptedPath, Strip(WithAuthor(row[genus] + " var. " + e, row, c.varietyAuthor))),
       FieldDatum(EpithetPath, e), FieldDatum(RankPath, "variety")]
    else if Present(c.subspecies) && row[c.subspecies.value] != [] then
      var e := row[c.subspecies.value];
      [FieldDatum(AcceptedPath, Strip(WithAuthor(row[genus] + " " + e, row, c.subspeciesAuthor))),
       FieldDatum(EpithetPath, e), FieldDatum(RankPath, "subspecies")]
    else if Present(c.species) && row[c.species.value] != [] then
      [FieldDatum(AcceptedPath, Strip(WithAuthor(row[genus] + " " + row[c.species.value], row, c.speciesAuthor)))]
    else []
  }

  predicate TaxonFits(v: Variant, row: seq<string>, genus: nat, c: TaxonColumns) {
    if v == Package then PackageTaxonFits(row, genus, c) else ScriptTaxonFits(row, genus, c)
  }

  function TaxonFields(v: Variant, row: seq<string>, genus: nat, c: TaxonColumns): seq<FieldDatum>
    requires TaxonFits(v, row, genus, c)
  {
    if v == Package then PackageTaxonFields(row, genus, c) else ScriptTaxonFields(row, genus, c)
  }

  // ---------------------------------------------------------------------
  // Records
  // ---------------------------------------------------------------------

  /** `XmlRecord`: a record's group id, xml id, type, field data and data files. */
  datatype XmlRecord = XmlRecord(groupId: string, xmlId: string, recordType: RecordType,
                                 fields: seq<FieldDatum>, dataFiles: seq<string>)

  predicate IsDwcPath(path: string) {
    Contains(path, "<dc") || Contains(path, "<dwc")
  }

  /** `XmlRecord(group_id, xml_id, field_data, data_files)`: the package
      raises on empty field data, the script's `field_data[0]` crashes. */
  function MakeRecord(v: Variant, g: string, x: string, fd: seq<FieldDatum>, files: seq<string>): (r: Run<XmlRecord>)
    ensures r.Raised? <==> v == Package && fd == []
    ensures r.Raised? ==> r.error == NoFieldData
    ensures r.Undefined? <==> v.Script? && fd == []
    ensures r.Done? ==> fd != [] && r.value.fields == fd && r.value.groupId == g && r.value.xmlId == x
                        && r.value.dataFiles == files
                        && (r.value.recordType == DwcRecord <==> IsDwcPath(fd[0].path))
  {
    if fd == [] then (if v == Package then Raised(NoFieldData) else Undefined)
    else Done(XmlRecord(g, x, if IsDwcPath(fd[0].path) then DwcRecord else ModsRecord, fd, files))
  }

  /** The columns `get_xml_records` finds before reading the data rows. */
  datatype Setup = Setup(groupCol: Option<nat>, xmlCol: Option<nat>, fileCol: Option<nat>,
                         cols: map<nat, string>, genusCol: Option<nat>, taxon: TaxonColumns)

  function SetupOf(v: Variant, ctrl: seq<string>, first: seq<string>): Setup {
    Setup(ColFromIdNames(v, ctrl, first, GroupIdNames), ColFromIdNames(v, ctrl, first, XmlIdNames),
          ColFromIdNames(v, ctrl, first, FileNames), ColsToMap(ctrl),
          ColFromIdNames(v, ctrl, first, GenusNames), TaxonColumnsOf(v, ctrl, first))
  }

  /** The stripped text of an id column, None without the column. */
  function IdCell(c: Option<nat>, row: seq<string>): Option<string>
    requires c.Some? ==> c.value < |row|
  {
    if c.Some? then Some(Strip(row[c.value])) else None
  }

  /** `[df.strip() for df in cell.split(',')]` */
  function DataFiles(cell: string): (r: seq<string>)
    ensures |r| >= 1 && |r| == |Split(cell, ",")|
  {
    var parts := Split(cell, ",");
    seq(|parts|, k requires 0 <= k < |parts| => Strip(parts[k]))
  }

  /** Each file name holds no ',' and no white space at either end. */
  lemma DataFilesClean(cell: string)
    ensures forall k :: 0 <= k < |DataFiles(cell)| ==>
              ',' !in DataFiles(cell)[k]
              && (DataFiles(cell)[k] == [] || (!IsSpace(DataFiles(cell)[k][0]) && !IsSpace(DataFiles(cell)[k][|DataFiles(cell)[k]| - 1])))
  {
    var parts := Split(cell, ",");
    SplitPartsFree(cell, ',');
    forall k | 0 <= k < |parts|
      ensures ',' !in DataFiles(cell)[k]
    {
      StripKeeps(parts[k], ',');
    }
  }

  /** File names without ',' and not padded with white space, written
      joined by ',', read back as those names. */
  lemma DataFilesRoundTrip(names: seq<string>)
    requires |names| >= 1
    requires forall k :: 0 <= k < |names| ==>
               ',' !in names[k] && (names[k] == [] || (!IsSpace(names[k][0]) && !IsSpace(names[k][|names[k]| - 1])))
    ensures DataFiles(Join(names, ",")) == names
  {
    SplitJoin(names, ',');
    forall k | 0 <= k < |names|
      ensures Strip(names[k]) == names[k]
    {
      StripClean(names[k]);
    }
  }

  datatype RowOut = Skipped | Emitted(record: XmlRecord)
  datatype RowResult = RowResult(out: RowOut, ids: map<string, nat>)

  /** The field data of a row: its mapped cells, then the taxon fields
      when the genus column is present. */
  function RowFields(v: Variant, su: Setup, row: seq<string>): seq<FieldDatum>
    requires Present(su.genusCol) ==> TaxonFits(v, row, su.genusCol.value, su.taxon)
  {
    MappedCells(row, su.cols, |row|)
    + if Present(su.genusCol) then TaxonFields(v, row, su.genusCol.value, su.taxon) else []
  }

  /** A row's group id, xml id and the counters after it. */
  datatype RowIds = RowIds(groupId: string, xmlId: string, counters: map<string, nat>)

  /** The ids of a row that has one: a missing xml id is generated from the
      group id, a missing group id derived from the xml id; an id read from
      a present column is kept, even when empty. */
  function IdsOf(o: ObjType, counters: map<string, nat>, gid: Option<string>, xid: Option<string>): (r: RowIds)
    requires Truthy(gid) || Truthy(xid)
    ensures xid.Some? ==> r.xmlId == xid.value && r.counters == counters
    ensures gid.Some? ==> r.groupId == gid.value
    ensures gid.None? ==> r.groupId == GroupFromXmlId(r.xmlId)
    ensures xid.None? ==> (r.xmlId, r.counters) == NextId(o, counters, r.groupId)
    ensures r.groupId != [] || r.xmlId != []
  {
    var (x, c) := if xid.None? then NextId(o, counters, gid.value) else (xid.value, counters);
    var g := if gid.None? then GroupFromXmlId(x) else gid.value;
    RowIds(g, x, c)
  }

  /** The record of a row with ids, or the failure making it. */
  function EmitRow(v: Variant, su: Setup, row: seq<string>, ids: RowIds): (r: Run<RowResult>)
    ensures r.Done? ==> r.value.out.Emitted? && r.value.ids == ids.counters
    ensures r.Done? ==> var rec := r.value.out.record;
              rec.groupId == ids.groupId && rec.xmlId == ids.xmlId && rec.fields != []
              && MappedCells(row, su.cols, |row|) <= rec.fields
    ensures r.Raised? ==> v == Package && r.error == NoFieldData
  {
    if Present(su.genusCol) && !TaxonFits(v, row, su.genusCol.value, su.taxon) then Undefined
    else if su.fileCol.Some? && su.fileCol.value >= |row| then Undefined
    else
      var fd := RowFields(v, su, row);
      var files := if su.fileCol.Some? then DataFiles(row[su.fileCol.value]) else [];
      match MakeRecord(v, ids.groupId, ids.xmlId, fd, files)
      case Done(rec) => Done(RowResult(Emitted(rec), ids.counters))
      case Raised(e) => Raised(e)
      case Undefined => Undefined
  }

  /** The id columns of a row are cells of it. */
  predicate IdCellsFit(su: Setup, row: seq<string>) {
    (su.groupCol.Some? ==> su.groupCol.value < |row|) && (su.xmlCol.Some? ==> su.xmlCol.value < |row|)
  }

  /** The body of the loop of `get_xml_records` on one data row, with the
      `xml_ids` counters before it: a row whose id cells are both empty or
      absent is skipped. */
  function RowStep(v: Variant, o: ObjType, su: Setup, row: seq<string>, counters: map<string, nat>): (r: Run<RowResult>)
    ensures r.Done? ==> IdCellsFit(su, row)
    ensures r.Done? ==>
              (r.value.out.Skipped? <==> !Truthy(IdCell(su.groupCol, row)) && !Truthy(IdCell(su.xmlCol, row)))
    ensures r.Done? && r.value.out.Skipped? ==> r.value.ids == counters
    ensures r.Raised? ==> v == Package && r.error == NoFieldData
  {
    if !IdCellsFit(su, row) then Undefined
    else
      var gid, xid := IdCell(su.groupCol, row), IdCell(su.xmlCol, row);
      if !Truthy(gid) && !Truthy(xid) then Done(RowResult(Skipped, counters))
      else EmitRow(v, su, row, IdsOf(o, counters, gid, xid))
  }

  /** The records of the data rows from index `i` (0-based) on, each row
      read through `get_row` first, after the records `acc` already made. */
  function RecordsFrom(v: Variant, o: ObjType, force: bool, su: Setup, ctrl: seq<string>,
                       rows: seq<seq<string>>, i: nat, counters: map<string, nat>, acc: seq<XmlRecord>): Run<seq<XmlRecord>>
    decreases |rows| - i
  {
    if i >= |rows| then Done(acc)
    else if !DatesFit(v, ctrl, rows[i]) then Undefined
    else
      match RowStep(v, o, su, DateRewritten(v, ctrl, rows[i], force), counters)
      case Done(step) =>
        RecordsFrom(v, o, force, su, ctrl, rows, i + 1, step.ids,
                    if step.out.Emitted? then acc + [step.out.record] else acc)
      case Raised(e) => Raised(e)
      case Undefined => Undefined
  }

  /** The walk over the rows from index `i` on yields `whole`. */
  ghost predicate Resumes(v: Variant, o: ObjType, force: bool, su: Setup, ctrl: seq<string>, rows: seq<seq<string>>,
                          i: nat, counters: map<string, nat>, acc: seq<XmlRecord>, whole: Run<seq<XmlRecord>>) {
    RecordsFrom(v, o, force, su, ctrl, rows, i, counters, acc) == whole
  }

  /** The state of the loop of `get_xml_records` before data row `i`
      (0-based): the stored rows `data` are `rows` with the rows before `i`
      read through `get_row`, and what is left of the walk yields `whole`. */
  ghost predicate ReadingAt(v: Variant, o: ObjType, force: bool, ctrlRow: nat, data: seq<seq<string>>, su: Setup,
                            rows: seq<seq<string>>, i: nat, counters: map<string, nat>, acc: seq<XmlRecord>,
                            whole: Run<seq<XmlRecord>>) {
    1 <= ctrlRow <= i <= |rows| && |data| == |rows|
    && data == ReadUpTo(v, force, ctrlRow, rows, i)
    && data[ctrlRow - 1] == rows[ctrlRow - 1]
    && Resumes(v, o, force, su, rows[ctrlRow - 1], rows, i, counters, acc, whole)
  }

  /** One row of the walk: the row is read, then skipped, turned into a
      record, or the walk stops with what `RowStep` raises. */
  lemma WalkRow(v: Variant, o: ObjType, force: bool, su: Setup, ctrl: seq<string>, rows: seq<seq<string>>,
                i: nat, counters: map<string, nat>, acc: seq<XmlRecord>, whole: Run<seq<XmlRecord>>,
                row: seq<string>, step: Run<RowResult>)
    requires i < |rows| && Resumes(v, o, force, su, ctrl, rows, i, counters, acc, whole) && !whole.Undefined?
    requires row == DateRewritten(v, ctrl, rows[i], force) && step == RowStep(v, o, su, row, counters)
    ensures DatesFit(v, ctrl, rows[i]) && !step.Undefined?
    ensures step.Raised? ==> whole == Raised(step.error)
    ensures step.Done? ==>
              Resumes(v, o, force, su, ctrl, rows, i + 1, step.value.ids,
                      if step.value.out.Emitted? then acc + [step.value.out.record] else acc, whole)
  {
  }

  /** Past the last row, the walk yields the records made. */
  lemma WalkEnd(v: Variant, o: ObjType, force: bool, su: Setup, ctrl: seq<string>, rows: seq<seq<string>>,
                i: nat, counters: map<string, nat>, acc: seq<XmlRecord>, whole: Run<seq<XmlRecord>>)
    requires i >= |rows| && Resumes(v, o, force, su, ctrl, rows, i, counters, acc, whole)
    ensures whole == Done(acc)
  {
  }

  /** The check `get_xml_records` makes before reading the data rows. */
  function SetupError(v: Variant, su: Setup): Option<Error> {
    if su.groupCol.None? && su.xmlCol.None? then Some(NoIdColumn)
    else if v == Package && |su.cols| == 0 then Some(NoMappingColumns)
    else None
  }

  /** `get_xml_records()` on the stored rows, the control row at the
      1-based index `ctrlRow`. */
  function XmlRecordsOf(v: Variant, o: ObjType, force: bool, ctrlRow: nat, rows: seq<seq<string>>): Run<seq<XmlRecord>>
    requires 1 <= ctrlRow <= |rows|
  {
    var ctrl := rows[ctrlRow - 1];
    var su := SetupOf(v, ctrl, rows[0]);
    match SetupError(v, su)
    case Some(e) => Raised(e)
    case None => RecordsFrom(v, o, force, su, ctrl, rows, ctrlRow, map[], [])
  }

  /** Past the checks, `get_xml_records` is the walk over the data rows. */
  lemma SetupStart(v: Variant, o: ObjType, force: bool, ctrlRow: nat, rows: seq<seq<string>>, su: Setup)
    requires 1 <= ctrlRow <= |rows| && su == SetupOf(v, rows[ctrlRow - 1], rows[0])
    requires SetupError(v, su).None?
    ensures XmlRecordsOf(v, o, force, ctrlRow, rows) == RecordsFrom(v, o, force, su, rows[ctrlRow - 1], rows, ctrlRow, map[], [])
  {
  }

  /** A failed check is what `get_xml_records` raises. */
  lemma SetupFails(v: Variant, o: ObjType, force: bool, ctrlRow: nat, rows: seq<seq<string>>, su: Setup)
    requires 1 <= ctrlRow <= |rows| && su == SetupOf(v, rows[ctrlRow - 1], rows[0])
    requires SetupError(v, su).Some?
    ensures XmlRecordsOf(v, o, force, ctrlRow, rows) == Raised(SetupError(v, su).value)
  {
  }

  // ---------------------------------------------------------------------
  // Properties of record assembly
  // ---------------------------------------------------------------------

  /** `get_xml_records` raises before reading any row exactly when the
      sheet has neither id column, or (package only) no mapped column. */
  lemma SetupRaises(v: Variant, o: ObjType, force: bool, ctrlRow: nat, rows: seq<seq<string>>)
    requires 1 <= ctrlRow <= |rows|
    ensures var su := SetupOf(v, rows[ctrlRow - 1], rows[0]);
            var r := XmlRecordsOf(v, o, force, ctrlRow, rows);
            (su.groupCol.None? && su.xmlCol.None? ==> r == Raised(NoIdColumn))
            && (v == Package && (su.groupCol.Some? || su.xmlCol.Some?) && |su.cols| == 0 ==> r == Raised(NoMappingColumns))
            && (r.Raised? ==> r.error in {NoIdColumn, NoMappingColumns, NoFieldData})
  {
    var su := SetupOf(v, rows[ctrlRow - 1], rows[0]);
    if SetupError(v, su).None? {
      RecordsRaise(v, o, force, su, rows[ctrlRow - 1], rows, ctrlRow, map[], []);
    }
  }

  /** Once the columns are found, the only exception is the package's
      record without field data. */
  lemma {:induction false} RecordsRaise(v: Variant, o: ObjType, force: bool, su: Setup, ctrl: seq<string>,
                                        rows: seq<seq<string>>, i: nat, counters: map<string, nat>, acc: seq<XmlRecord>)
    ensures var r := RecordsFrom(v, o, force, su, ctrl, rows, i, counters, acc);
            r.Raised? ==> v == Package && r.error == NoFieldData
    decreases |rows| - i
  {
    if i < |rows| && DatesFit(v, ctrl, rows[i]) {
      var s := RowStep(v, o, su, DateRewritten(v, ctrl, rows[i], force), counters);
      if s.Done? {
        RecordsRaise(v, o, force, su, ctrl, rows, i + 1, s.value.ids,
                     if s.value.out.Emitted? then acc + [s.value.out.record] else acc);
      }
    }
  }

  /** The group ids of a list of records. */
  function GroupIds(recs: seq<XmlRecord>): (r: seq<string>)
    ensures |r| == |recs|
  {
    seq(|recs|, k requires 0 <= k < |recs| => recs[k].groupId)
  }

  /** Every record's xml id is the one generated for it from the records of
      its group before it. */
  predicate IdsGenerated(o: ObjType, recs: seq<XmlRecord>) {
    forall k :: 0 <= k < |recs| ==>
      recs[k].xmlId == GeneratedId(o, recs[k].groupId, Count(GroupIds(recs[..k]), recs[k].groupId))
  }

  /** One row keeps the ids generated and the counters in step. */
  lemma RowStepIds(v: Variant, o: ObjType, su: Setup, row: seq<string>, counters: map<string, nat>, acc: seq<XmlRecord>)
    requires su.xmlCol.None? && CountersTrack(o, counters, GroupIds(acc)) && IdsGenerated(o, acc)
    requires RowStep(v, o, su, row, counters).Done?
    ensures var s := RowStep(v, o, su, row, counters).value;
            var acc' := if s.out.Emitted? then acc + [s.out.record] else acc;
            CountersTrack(o, s.ids, GroupIds(acc')) && IdsGenerated(o, acc')
  {
    var s := RowStep(v, o, su, row, counters).value;
    if s.out.Emitted? {
      var gid, xid := IdCell(su.groupCol, row), IdCell(su.xmlCol, row);
      var ids := IdsOf(o, counters, gid, xid);
      assert RowStep(v, o, su, row, counters) == EmitRow(v, su, row, ids);
      var rec := s.out.record;
      NextIdCounts(o, counters, GroupIds(acc), rec.groupId);
      IdsGeneratedAppend(o, acc, rec);
    }
  }

  /** A record given the id generated from the records before it keeps
      every id generated. */
  lemma IdsGeneratedAppend(o: ObjType, acc: seq<XmlRecord>, rec: XmlRecord)
    requires IdsGenerated(o, acc) && rec.xmlId == GeneratedId(o, rec.groupId, Count(GroupIds(acc), rec.groupId))
    ensures GroupIds(acc + [rec]) == GroupIds(acc) + [rec.groupId] && IdsGenerated(o, acc + [rec])
  {
    var acc' := acc + [rec];
    assert GroupIds(acc') == GroupIds(acc) + [rec.groupId];
    forall k | 0 <= k < |acc'|
      ensures acc'[k].xmlId == GeneratedId(o, acc'[k].groupId, Count(GroupIds(acc'[..k]), acc'[k].groupId))
    {
      if k < |acc| {
        assert acc'[..k] == acc[..k];
      } else {
        assert acc'[..k] == acc;
      }
    }
  }

  lemma {:induction false} RecordsIds(v: Variant, o: ObjType, force: bool, su: Setup, ctrl: seq<string>,
                                      rows: seq<seq<string>>, i: nat, counters: map<string, nat>, acc: seq<XmlRecord>)
    requires su.xmlCol.None? && CountersTrack(o, counters, GroupIds(acc)) && IdsGenerated(o, acc)
    ensures var r := RecordsFrom(v, o, force, su, ctrl, rows, i, counters, acc);
            r.Done? ==> IdsGenerated(o, r.value)
    decreases |rows| - i
  {
    if i < |rows| && DatesFit(v, ctrl, rows[i]) {
      var row := DateRewritten(v, ctrl, rows[i], force);
      var s := RowStep(v, o, su, row, counters);
      if s.Done? {
        RowStepIds(v, o, su, row, counters, acc);
        RecordsIds(v, o, force, su, ctrl, rows, i + 1, s.value.ids,
                   if s.value.out.Emitted? then acc + [s.value.out.record] else acc);
      }
    }
  }

  /** Without an xml-id column, the records of each group get the ids
      `g, g_1, g_2, …` (parents) or `g_1, g_2, …` (children) in row order. */
  lemma XmlIdsPerGroup(v: Variant, o: ObjType, force: bool, ctrlRow: nat, rows: seq<seq<string>>)
    requires 1 <= ctrlRow <= |rows|
    requires SetupOf(v, rows[ctrlRow - 1], rows[0]).xmlCol.None?
    ensures var r := XmlRecordsOf(v, o, force, ctrlRow, rows);
            r.Done? ==> IdsGenerated(o, r.value)
  {
    var ctrl := rows[ctrlRow - 1];
    var su := SetupOf(v, ctrl, rows[0]);
    if SetupError(v, su).None? {
      RecordsIds(v, o, force, su, ctrl, rows, ctrlRow, map[], []);
    }
  }

  /** The first parent record of a group is named after the group, the
      third `g_2`; the first child record is `g_1`. */
  lemma GeneratedIdExamples(g: string)
    ensures GeneratedId(ParentObject, g, 0) == g
    ensures GeneratedId(ParentObject, g, 2) == g + "_2"
    ensures GeneratedId(ChildObject, g, 0) == g + "_1"
  {
    assert NatToString(2) == "2";
    assert NatToString(1) == "1";
  }

  /** Every record made has a non-empty group id or xml id, and field
      data: rows whose id cells are both empty (or absent) are skipped. An
      empty id cell of a present column stays empty. */
  lemma {:induction false} RecordsHaveIds(v: Variant, o: ObjType, force: bool, su: Setup, ctrl: seq<string>,
                                          rows: seq<seq<string>>, i: nat, counters: map<string, nat>, acc: seq<XmlRecord>)
    requires forall k :: 0 <= k < |acc| ==> (acc[k].groupId != [] || acc[k].xmlId != []) && acc[k].fields != []
    ensures var r := RecordsFrom(v, o, force, su, ctrl, rows, i, counters, acc);
            r.Done? ==> forall k :: 0 <= k < |r.value| ==>
                          (r.value[k].groupId != [] || r.value[k].xmlId != []) && r.value[k].fields != []
    decreases |rows| - i
  {
    if i < |rows| && DatesFit(v, ctrl, rows[i]) {
      var row := DateRewritten(v, ctrl, rows[i], force);
      var s := RowStep(v, o, su, row, counters);
      if s.Done? {
        var acc' := acc;
        if s.value.out.Emitted? {
          var rec := s.value.out.record;
          RowStepIdNonEmpty(v, o, su, row, counters);
          acc' := acc + [rec];
        }
        RecordsHaveIds(v, o, force, su, ctrl, rows, i + 1, s.value.ids, acc');
      }
    }
  }

  lemma RowStepIdNonEmpty(v: Variant, o: ObjType, su: Setup, row: seq<string>, counters: map<string, nat>)
    requires RowStep(v, o, su, row, counters).Done? && RowStep(v, o, su, row, counters).value.out.Emitted?
    ensures var rec := RowStep(v, o, su, row, counters).value.out.record;
            (rec.groupId != [] || rec.xmlId != []) && rec.fields != []
  {
    var gid, xid := IdCell(su.groupCol, row), IdCell(su.xmlCol, row);
    assert RowStep(v, o, su, row, counters) == EmitRow(v, su, row, IdsOf(o, counters, gid, xid));
  }

  // ---------------------------------------------------------------------
  // Properties of the taxon fields
  // ---------------------------------------------------------------------

  /** The package's fields: epithet and rank exactly when a variety or
      subspecies cell is non-empty (variety first), then the authorship and
      the accepted name when not blank, the accepted name trimmed at the ends
      only. */
  lemma PackageTaxonRule(row: seq<string>, genus: nat, c: TaxonColumns)
    requires PackageTaxonFits(row, genus, c)
    ensures var fd := PackageTaxonFields(row, genus, c);
            var rank := PackageRank(row, genus, c);
            var author := if rank.Some? then rank.value.author else row[c.speciesAuthor.value];
            |fd| == (if rank.Some? then 2 else 0) + (if Strip(author) != [] then 1 else 0)
                    + (if Strip(PackageName(row, genus, c)) != [] then 1 else 0)
            && (rank.Some? <==> row[c.variety.value] != [] || row[c.subspecies.value] != [])
            && (rank.Some? ==> fd[0] == FieldDatum(EpithetPath, rank.value.epithet) && fd[1].path == RankPath)
            && (Strip(PackageName(row, genus, c)) != [] ==> fd[|fd| - 1] == FieldDatum(AcceptedPath, Strip(PackageName(row, genus, c))))
  {
  }

  /** A non-empty variety decides the package's fields: the subspecies
      columns, found or not, do not matter. */
  lemma VarietyBeforeSubspecies(row: seq<string>, genus: nat, c: TaxonColumns, sub: Option<nat>, subAuthor: Option<nat>)
    requires PackageTaxonFits(row, genus, c) && row[c.variety.value] != []
    ensures PackageTaxonFits(row, genus, c.(subspecies := sub, subspeciesAuthor := subAuthor))
    ensures PackageTaxonFields(row, genus, c) == PackageTaxonFields(row, genus, c.(subspecies := sub, subspeciesAuthor := subAuthor))
  {
  }

  /** The rank's author replaces the species author only when it is
      non-empty. */
  lemma RankAuthorOverrides(row: seq<string>, genus: nat, c: TaxonColumns)
    requires PackageTaxonFits(row, genus, c) && PackageRank(row, genus, c).Some?
    ensures var a := if row[c.variety.value] != [] then row[c.varietyAuthor.value] else row[c.subspeciesAuthor.value];
            PackageRank(row, genus, c).value.author == if a != [] then a else row[c.speciesAuthor.value]
  {
  }

  /** Only the ends of the accepted name are trimmed: an empty species
      leaves two spaces between genus and author. */
  lemma InnerSpacesKept(row: seq<string>, genus: nat, c: TaxonColumns)
    requires PackageTaxonFits(row, genus, c)
    requires row[genus] == "Acer" && row[c.species.value] == [] && row[c.speciesAuthor.value] == "L."
    requires row[c.variety.value] == [] && row[c.subspecies.value] == []
    ensures PackageTaxonFields(row, genus, c)
            == [FieldDatum(AuthorshipPath, "L."), FieldDatum(AcceptedPath, "Acer  L.")]
  {
    assert PackageName(row, genus, c) == "Acer  L.";
    StripClean("L.");
    StripClean("Acer  L.");
  }

  /** The script puts the accepted name first; a variety or subspecies
      adds its epithet and rank after it. */
  lemma ScriptTaxonRule(row: seq<string>, genus: nat, c: TaxonColumns)
    requires ScriptTaxonFits(row, genus, c)
    ensures var fd := ScriptTaxonFields(row, genus, c);
            (fd != [] ==> fd[0].path == AcceptedPath)
            && (|fd| == 3 <==> (Present(c.variety) && row[c.variety.value] != [])
                               || (Present(c.subspecies) && row[c.subspecies.value] != []))
            && (|fd| == 3 ==> fd[1].path == EpithetPath && fd[2].path == RankPath)
  {
  }

  /** The script reads the genus cell only for the branch it takes: a row
      too short for the genus column, with no rank or species cell set,
      gets no taxon fields and is not an error. */
  lemma ScriptShortRowNoTaxon(row: seq<string>, genus: nat, c: TaxonColumns)
    requires row == ["id", "", "text"] && genus == 3
    requires c == TaxonColumns(None, None, Some(1), None, None, None)
    ensures ScriptTaxonFits(row, genus, c) && ScriptTaxonFields(row, genus, c) == []
  {
    assert row[1] == [];
  }

  /** Such a row still gives its record in the script: the note cell is
      its field data, and no taxon field is added. */
  lemma ScriptShortRowEmitted(su: Setup, row: seq<string>, ids: RowIds)
    requires row == ["id", "", "text"]
    requires su == Setup(Some(0), None, None, map[2 := "<mods:note>"], Some(3), TaxonColumns(None, None, Some(1), None, None, None))
    ensures EmitRow(Script, su, row, ids).Done?
    ensures EmitRow(Script, su, row, ids).value.out.record.fields == [FieldDatum("<mods:note>", "text")]
  {
    ScriptShortRowNoTaxon(row, 3, su.taxon);
    assert MappedCells(row, su.cols, 3) == [FieldDatum("<mods:note>", "text")] by {
      assert row[2] == "text" && row[1] == [] && row[0] == "id";
      assert MappedCells(row, su.cols, 0) == [];
      assert MappedCells(row, su.cols, 1) == [];
      assert MappedCells(row, su.cols, 2) == [];
    }
    assert RowFields(Script, su, row) == [FieldDatum("<mods:note>", "text")];
  }

  /** The script tests column indexes for truth, so a variety in the first
      column is never used. */
  lemma ScriptColumnZeroAbsent(row: seq<string>, genus: nat, c: TaxonColumns)
    requires ScriptTaxonFits(row, genus, c) && c.variety == Some(0)
    ensures ScriptTaxonFits(row, genus, c.(variety := None))
    ensures ScriptTaxonFields(row, genus, c) == ScriptTaxonFields(row, genus, c.(variety := None))
  {
  }

  // ---------------------------------------------------------------------
  // The data handler
  // ---------------------------------------------------------------------

  /** The rows a CSV reader produced, without the empty ones. */
  function NonEmptyRows(rows: seq<seq<string>>): (r: seq<seq<string>>)
    ensures |r| <= |rows|
    ensures forall k :: 0 <= k < |r| ==> r[k] != []
  {
    if rows == [] then []
    else NonEmptyRows(rows[..|rows| - 1]) + (if rows[|rows| - 1] != [] then [rows[|rows| - 1]] else [])
  }

  /** Dropping empty rows distributes over concatenation: each row is kept
      or dropped on its own, and the kept ones stay in order. */
  lemma {:induction false} NonEmptyRowsAppend(a: seq<seq<string>>, b: seq<seq<string>>)
    ensures NonEmptyRows(a + b) == NonEmptyRows(a) + NonEmptyRows(b)
    decreases |b|
  {
    if b == [] {
      assert a + b == a;
    } else {
      var c := a + b;
      assert c[..|c| - 1] == a + b[..|b| - 1] && c[|c| - 1] == b[|b| - 1];
      NonEmptyRowsAppend(a, b[..|b| - 1]);
    }
  }

  /** One row is kept exactly when it is not empty. */
  lemma NonEmptyRowsOne(row: seq<string>)
    ensures NonEmptyRows([row]) == if row != [] then [row] else []
  {
    assert [row][..0] == [];
  }

  /** The rows kept are exactly the non-empty rows read. */
  lemma {:induction false} NonEmptyRowsMembers(rows: seq<seq<string>>)
    ensures forall x :: x in NonEmptyRows(rows) <==> x in rows && x != []
    decreases |rows|
  {
    if rows != [] {
      var init, last := rows[..|rows| - 1], rows[|rows| - 1];
      NonEmptyRowsMembers(init);
      assert rows == init + [last];
    }
  }

  /** `DataHandler` over a CSV sheet: the stored rows, which `get_row`
      rewrites in place, and the settings fixed at construction. */
  class DataHandler {
    const variant: Variant
    const objType: ObjType
    const ctrlRow: nat
    const forceDates: bool
    var csvData: seq<seq<string>>

    /** The CSV branch of `__init__`, given the rows the reader produced. */
    constructor (v: Variant, parsed: seq<seq<string>>, ctrlRow: nat, forceDates: bool, objType: ObjType)
      ensures variant == v && this.ctrlRow == ctrlRow && this.forceDates == forceDates && this.objType == objType
      ensures csvData == NonEmptyRows(parsed)
    {
      variant := v;
      this.ctrlRow := ctrlRow;
      this.forceDates := forceDates;
      this.objType := objType;
      var rows: seq<seq<string>> := [];
      var i := 0;
      while i < |parsed|
        invariant 0 <= i <= |parsed|
        invariant rows == NonEmptyRows(parsed[..i])
      {
        assert parsed[..i + 1][..i] == parsed[..i];
        if |parsed[i]| > 0 {
          rows := rows + [parsed[i]];
        }
        i := i + 1;
      }
      assert parsed[..|parsed|] == parsed;
      csvData := rows;
    }

    function ControlRow(): seq<string>
      reads this
      requires 1 <= ctrlRow <= |csvData|
    {
      csvData[ctrlRow - 1]
    }

    /** `get_row(index)`, 1-based: a row after the control row has its date
      columns rewritten, in the stored row as well. */
    method GetRow(index: nat) returns (row: seq<string>)
      requires 1 <= ctrlRow <= |csvData| && 1 <= index <= |csvData|
      requires index > ctrlRow ==> DatesFit(variant, ControlRow(), csvData[index - 1])
      modifies this
      ensures row == RowRead(variant, forceDates, ctrlRow, old(csvData), index)
      ensures csvData == old(csvData)[index - 1 := row]
    {
      row := csvData[index - 1];
      if index - 1 > ctrlRow - 1 {
        var ctrl := ControlRow();
        ghost var orig := row;
        var i := 0;
        while i < |ctrl|
          invariant 0 <= i <= |ctrl| && |row| == |orig|
          invariant forall j :: 0 <= j < |row| ==>
                      row[j] == if j < i && IsDateColumn(variant, ctrl[j]) then ProcessCell(variant, orig[j], forceDates) else orig[j]
        {
          if IsDateColumn(variant, ctrl[i]) {
            row := row[i := ProcessCell(variant, row[i], forceDates)];
          }
          i := i + 1;
        }
        assert row == DateRewritten(variant, ctrl, orig, forceDates);
      }
      csvData := csvData[index - 1 := row];
    }

    /** `_get_col_from_id_names(id_names)` */
    function ColumnOf(names: seq<string>): Option<nat>
      reads this
      requires 1 <= ctrlRow <= |csvData|
    {
      ColFromIdNames(variant, ControlRow(), csvData[0], names)
    }

    /** The field data of a row's mapped cells (the enumerate loop of
      `get_xml_records`). */
    static method CollectFields(row: seq<string>, cols: map<nat, string>) returns (fd: seq<FieldDatum>)
      ensures fd == MappedCells(row, cols, |row|)
    {
      fd := [];
      var i := 0;
      while i < |row|
        invariant 0 <= i <= |row|
        invariant fd == MappedCells(row, cols, i)
      {
        if i in cols && |row[i]| > 0 {
          fd := fd + [FieldDatum(cols[i], row[i])];
        }
        i := i + 1;
      }
    }

    /** `_dwc_dynamic_fields(genus_col, data_row, field_data)`: appends the
      taxon fields to `fd`, given the taxon columns of the sheet. */
    static method DwcDynamicFields(v: Variant, genus: nat, row: seq<string>, c: TaxonColumns, fd: seq<FieldDatum>)
      returns (out: seq<FieldDatum>)
      requires TaxonFits(v, row, genus, c)
      ensures out == fd + TaxonFields(v, row, genus, c)
    {
      if v == Package {
        out := PackageDynamicFields(genus, row, c, fd);
      } else {
        out := ScriptDynamicFields(genus, row, c, fd);
      }
    }

    /** The package's composition of the taxon fields. */
    static method PackageDynamicFields(genus: nat, row: seq<string>, c: TaxonColumns, fd: seq<FieldDatum>)
      returns (out: seq<FieldDatum>)
      requires PackageTaxonFits(row, genus, c)
      ensures out == fd + PackageTaxonFields(row, genus, c)
    {
      var accepted := row[genus] + " " + row[c.species.value];
      var epithet: string := [];
      var rank: string := [];
      var abbr: string := [];
      var author := row[c.speciesAuthor.value];
      if row[c.variety.value] != [] {
        epithet, rank, abbr := row[c.variety.value], "variety", "var.";
        if row[c.varietyAuthor.value] != [] {
          author := row[c.varietyAuthor.value];
        }
      } else if row[c.subspecies.value] != [] {
        epithet, rank, abbr := row[c.subspecies.value], "subspecies", "subsp.";
        if row[c.subspeciesAuthor.value] != [] {
          author := row[c.subspeciesAuthor.value];
        }
      }
      ghost var r := PackageRank(row, genus, c);
      assert r.Some? ==> r.value == Rank(epithet, rank, abbr, author);
      assert r.None? ==> epithet == [] && author == row[c.speciesAuthor.value];
      var ranked: seq<FieldDatum> := [];
      if epithet != [] {
        accepted := accepted + " " + abbr + " " + epithet;
        ranked := [FieldDatum(EpithetPath, epithet), FieldDatum(RankPath, rank)];
      }
      accepted := accepted + " " + author;
      assert accepted == PackageName(row, genus, c);
      var authorship: seq<FieldDatum> := [];
      if Strip(author) != [] {
        authorship := [FieldDatum(AuthorshipPath, Strip(author))];
      }
      var name: seq<FieldDatum> := [];
      if Strip(accepted) != [] {
        name := [FieldDatum(AcceptedPath, Strip(accepted))];
      }
      assert ranked + authorship + name == PackageTaxonFields(row, genus, c);
      out := fd + (ranked + authorship + name);
    }

    /** The script's composition of the taxon fields. */
    static method ScriptDynamicFields(genus: nat, row: seq<string>, c: TaxonColumns, fd: seq<FieldDatum>)
      returns (out: seq<FieldDatum>)
      requires ScriptTaxonFits(row, genus, c)
      ensures out == fd + ScriptTaxonFields(row, genus, c)
    {
      out := fd;
      if Present(c.variety) && row[c.variety.value] != [] {
        var d := WithAuthor(row[genus] + " var. " + row[c.variety.value], row, c.varietyAuthor);
        out := out + [FieldDatum(AcceptedPath, Strip(d)), FieldDatum(EpithetPath, row[c.variety.value]),
                      FieldDatum(RankPath, "variety")];
      } else if Present(c.subspecies) && row[c.subspecies.value] != [] {
        var d := WithAuthor(row[genus] + " " + row[c.subspecies.value], row, c.subspeciesAuthor);
        out := out + [FieldDatum(AcceptedPath, Strip(d)), FieldDatum(EpithetPath, row[c.subspecies.value]),
                      FieldDatum(RankPath, "subspecies")];
      } else if Present(c.species) && row[c.species.value] != [] {
        var d := WithAuthor(row[genus] + " " + row[c.species.value], row, c.speciesAuthor);
        out := out + [FieldDatum(AcceptedPath, Strip(d))];
      }
    }

    /** One pass of the loop of `get_xml_records` over a data row already
      read, with the `xml_ids` counters before it. */
    method RowRecord(su: Setup, row: seq<string>, ids: map<string, nat>) returns (out: Result<RowOut>, ids': map<string, nat>)
      requires !RowStep(variant, objType, su, row, ids).Undefined?
      ensures var s := RowStep(variant, objType, su, row, ids);
              (s.Done? ==> out == Success(s.value.out) && ids' == s.value.ids)
              && (s.Raised? ==> out == Failure(s.error))
    {
      var groupId: Option<string> := None;
      var xmlId: Option<string> := None;
      if su.groupCol.Some? {
        groupId := Some(Strip(row[su.groupCol.value]));
      }
      if su.xmlCol.Some? {
        xmlId := Some(Strip(row[su.xmlCol.value]));
      }
      if !(Truthy(groupId) || Truthy(xmlId)) {
        return Success(Skipped), ids;
      }
      var g, x;
      g, x, ids' := RowIdsOf(groupId, xmlId, ids);
      assert RowStep(variant, objType, su, row, ids) == EmitRow(variant, su, row, RowIds(g, x, ids'));
      out := MakeRowRecord(su, row, g, x);
    }

    /** The ids of a row that has one, and the counters after it. */
    method RowIdsOf(groupId: Option<string>, xmlId: Option<string>, ids: map<string, nat>)
      returns (g: string, x: string, ids': map<string, nat>)
      requires Truthy(groupId) || Truthy(xmlId)
      ensures RowIds(g, x, ids') == IdsOf(objType, ids, groupId, xmlId)
    {
      ids' := ids;
      if xmlId.None? {
        var gid := groupId.value;
        if gid in ids' {
          x := gid + "_" + NatToString(ids'[gid]);
          ids' := ids'[gid := ids'[gid] + 1];
        } else if objType == ParentObject {
          x := gid;
          ids' := ids'[gid := 1];
        } else {
          x := gid + "_1";
          ids' := ids'[gid := 2];
        }
      } else {
        x := xmlId.value;
      }
      g := if groupId.None? then GroupFromXmlId(x) else groupId.value;
    }

    /** The field data, data files and `XmlRecord` of a row with ids. */
    method MakeRowRecord(su: Setup, row: seq<string>, g: string, x: string) returns (out: Result<RowOut>)
      requires !EmitRow(variant, su, row, RowIds(g, x, map[])).Undefined?
      ensures var s := EmitRow(variant, su, row, RowIds(g, x, map[]));
              (s.Done? ==> out == Success(s.value.out)) && (s.Raised? ==> out == Failure(s.error))
    {
      var fd := CollectFields(row, su.cols);
      if Present(su.genusCol) {
        fd := DwcDynamicFields(variant, su.genusCol.value, row, su.taxon, fd);
      }
      assert fd == RowFields(variant, su, row);
      var files: seq<string> := [];
      if su.fileCol.Some? {
        files := DataFiles(row[su.fileCol.value]);
      }
      // The script's XmlRecord reads field_data[0] and crashes on an empty
      // list; the precondition leaves only the package's exception here.
      if fd == [] {
        return Failure(NoFieldData);
      }
      var recordType := if IsDwcPath(fd[0].path) then DwcRecord else ModsRecord;
      out := Success(Emitted(XmlRecord(g, x, recordType, fd, files)));
    }

    /** `get_xml_records()` */
    method GetXmlRecords() returns (r: Result<seq<XmlRecord>>)
      requires 1 <= ctrlRow <= |csvData|
      requires !XmlRecordsOf(variant, objType, forceDates, ctrlRow, csvData).Undefined?
      modifies this
      ensures var s := XmlRecordsOf(variant, objType, forceDates, ctrlRow, old(csvData));
              (s.Done? ==> r == Success(s.value) && csvData == ReadUpTo(variant, forceDates, ctrlRow, old(csvData), |csvData|))
              && (s.Raised? ==> r == Failure(s.error))
    {
      var su, err := FindColumns();
      if err.Some? {
        SetupFails(variant, objType, forceDates, ctrlRow, csvData, su);
        r := Failure(err.value);
      } else {
        SetupStart(variant, objType, forceDates, ctrlRow, csvData, su);
        r := ReadRecords(su, XmlRecordsOf(variant, objType, forceDates, ctrlRow, csvData));
      }
    }

    /** The columns `get_xml_records` looks up before reading the data rows,
      and the exception it raises when they do not do. */
    method FindColumns() returns (su: Setup, err: Option<Error>)
      requires 1 <= ctrlRow <= |csvData|
      ensures su == SetupOf(variant, csvData[ctrlRow - 1], csvData[0]) && err == SetupError(variant, su)
    {
      var groupCol := ColumnOf(GroupIdNames);
      var xmlCol := ColumnOf(XmlIdNames);
      var fileCol := ColumnOf(FileNames);
      var cols := ColsToMap(ControlRow());
      var genusCol := ColumnOf(GenusNames);
      su := Setup(groupCol, xmlCol, fileCol, cols, genusCol, TaxonColumnsOf(variant, ControlRow(), csvData[0]));
      if groupCol.None? && xmlCol.None? {
        err := Some(NoIdColumn);
      } else if variant == Package && |cols| == 0 {
        err := Some(NoMappingColumns);
      } else {
        err := None;
      }
    }

    /** The loop of `get_xml_records` over the data rows. */
    method ReadRecords(su: Setup, ghost whole: Run<seq<XmlRecord>>) returns (r: Result<seq<XmlRecord>>)
      requires 1 <= ctrlRow <= |csvData|
      requires whole == RecordsFrom(variant, objType, forceDates, su, csvData[ctrlRow - 1], csvData, ctrlRow, map[], [])
      requires !whole.Undefined?
      modifies this
      ensures whole.Done? ==> r == Success(whole.value) && csvData == ReadUpTo(variant, forceDates, ctrlRow, old(csvData), |csvData|)
      ensures whole.Raised? ==> r == Failure(whole.error)
    {
      ghost var rows := csvData;
      var records: seq<XmlRecord> := [];
      var ids: map<string, nat> := map[];
      var i := ctrlRow;
      var err: Option<Error> := None;
      ReadNone(variant, forceDates, ctrlRow, rows);
      while i < |csvData| && err.None?
        invariant err.None? ==> ReadingAt(variant, objType, forceDates, ctrlRow, csvData, su, rows, i, ids, records, whole)
        invariant err.Some? ==> whole == Raised(err.value)
        decreases |rows| - i, if err.None? then 1 else 0
      {
        err, ids, records, i := ReadRow(su, rows, i, ids, records, whole);
      }
      if err.None? {
        WalkEnd(variant, objType, forceDates, su, rows[ctrlRow - 1], rows, i, ids, records, whole);
      }
      r := if err.Some? then Failure(err.value) else Success(records);
    }

    /** One pass of the loop of `get_xml_records`: data row `i` (0-based)
      is read through `get_row`, then turned into a record or skipped. */
    method ReadRow(su: Setup, ghost rows: seq<seq<string>>, i: nat, ids: map<string, nat>, records: seq<XmlRecord>,
                   ghost whole: Run<seq<XmlRecord>>)
      returns (err: Option<Error>, ids': map<string, nat>, records': seq<XmlRecord>, next: nat)
      requires ReadingAt(variant, objType, forceDates, ctrlRow, csvData, su, rows, i, ids, records, whole) && i < |rows| && !whole.Undefined?
      modifies this
      ensures next == i + 1
      ensures err.Some? ==> whole == Raised(err.value)
      ensures err.None? ==> ReadingAt(variant, objType, forceDates, ctrlRow, csvData, su, rows, next, ids', records', whole)
    {
      next := i + 1;
      ghost var ctrl := rows[ctrlRow - 1];
      ghost var read := DateRewritten(variant, ctrl, rows[i], forceDates);
      WalkRow(variant, objType, forceDates, su, ctrl, rows, i, ids, records, whole,
              read, RowStep(variant, objType, su, read, ids));
      var row := ReadAt(rows, i);
      var out;
      out, ids' := RowRecord(su, row, ids);
      if out.Failure? {
        return Some(out.error), ids', records, next;
      }
      records' := if out.value.Emitted? then records + [out.value.record] else records;
      err := None;
    }

    /** `get_row(i + 1)` inside the loop of `get_xml_records`: the stored
      rows go from read up to row `i` to read up to row `i + 1`. */
    method ReadAt(ghost rows: seq<seq<string>>, i: nat) returns (row: seq<string>)
      requires 1 <= ctrlRow <= i < |rows| && |csvData| == |rows|
      requires csvData == ReadUpTo(variant, forceDates, ctrlRow, rows, i) && csvData[ctrlRow - 1] == rows[ctrlRow - 1]
      requires DatesFit(variant, rows[ctrlRow - 1], rows[i])
      modifies this
      ensures row == DateRewritten(variant, rows[ctrlRow - 1], rows[i], forceDates)
      ensures csvData == ReadUpTo(variant, forceDates, ctrlRow, rows, i + 1) && csvData[ctrlRow - 1] == rows[ctrlRow - 1]
    {
      ghost var before := csvData;
      assert before[i] == rows[i];
      row := GetRow(i + 1);
      ReadStep(variant, forceDates, ctrlRow, rows, i);
      assert csvData == before[i := RowRead(variant, forceDates, ctrlRow, before, i + 1)];
    }
  }
}
