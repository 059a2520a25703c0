/**
  The tabular data adapter: the current spreadsheet id, the dataset loaded from
  it (column labels and rows keyed by label), the row picked in preview, and
  the `fetchData` pipeline that turns a spreadsheet reply into that dataset.
  The network reply is an input, and so is the JSON parser: `fetchData` is
  modelled from the moment its reply (or failure) is known.
 */
module DataSource {
  import opened Js

  /** A data row: column label to cell value. */
  type Row = Record

  datatype DataState = DataState(
    sheetId: string,
    sheetName: string,
    data: seq<Row>,
    columns: seq<string>,
    selectedRow: Option<Row>,
    isLoading: bool)

  const InitialData: DataState :=
    DataState("1YuwTSEj1jF7_Nv4onJFC02sPdP7ihee_e_8sp20w74A", "Sheet1", [], [], None, false)

  // ---------------------------------------------------------------------------
  // Setters

  function SetSelectedRow(st: DataState, row: Option<Row>): (r: DataState)
    ensures r.selectedRow == row
    ensures r.sheetId == st.sheetId && r.data == st.data && r.columns == st.columns
    ensures r.isLoading == st.isLoading && r.sheetName == st.sheetName
  {
    st.(selectedRow := row)
  }

  /** Changing the id does not fetch: the dataset stays as it was. */
  function SetSheetId(st: DataState, id: string): (r: DataState)
    ensures r.sheetId == id
    ensures r.data == st.data && r.columns == st.columns && r.selectedRow == st.selectedRow
    ensures r.isLoading == st.isLoading && r.sheetName == st.sheetName
  {
    st.(sheetId := id)
  }

  // ---------------------------------------------------------------------------
  // Spreadsheet id extraction

  /** `[a-zA-Z0-9-_]` */
  predicate IdChar(c: char) {
    ('a' <= c <= 'z') || ('A' <= c <= 'Z') || ('0' <= c <= '9') || c == '-' || c == '_'
  }

  const IdMarker: string := "/d/"

  /** Position `i` starts a match of `/\/d\/([a-zA-Z0-9-_]+)/`. */
  predicate IdMatchAt(s: string, i: int) {
    OccursAt(s, IdMarker, i) && i + 3 < |s| && IdChar(s[i + 3])
  }

  /** The end of the run of id characters that starts at `k`. */
  function RunEnd(s: string, k: nat): (e: nat)
    requires k <= |s|
    ensures k <= e <= |s|
    ensures forall j :: k <= j < e ==> IdChar(s[j])
    ensures e == |s| || !IdChar(s[e])
    decreases |s| - k
  {
    if k == |s| || !IdChar(s[k]) then k else RunEnd(s, k + 1)
  }

  /** The leftmost match position at or after `from`. */
  function FindIdMatch(s: string, from: nat): (r: Option<nat>)
    ensures r.Some? ==> from <= r.value && IdMatchAt(s, r.value)
    ensures r.Some? ==> forall j :: from <= j < r.value ==> !IdMatchAt(s, j)
    ensures r.None? ==> forall j :: from <= j ==> !IdMatchAt(s, j)
    decreases |s| - from
  {
    if from + 3 >= |s| then None
    else if IdMatchAt(s, from) then Some(from)
    else FindIdMatch(s, from + 1)
  }

  /** `id` is the maximal run of id characters after the leftmost match,
      which starts at `i`. */
  predicate CaptureAt(s: string, i: int, id: string) {
    && IdMatchAt(s, i)
    && (forall j :: 0 <= j < i ==> !IdMatchAt(s, j))
    && i + 3 + |id| <= |s|
    && id == s[i + 3..i + 3 + |id|]
    && (i + 3 + |id| == |s| || !IdChar(s[i + 3 + |id|]))
  }

  /** The first capture group of the id pattern: the maximal run of id
      characters after the leftmost `/d/` that is followed by one. */
  function ExtractId(s: string): (r: Option<string>)
    ensures r.None? <==> forall i :: !IdMatchAt(s, i)
    ensures r.Some? ==> exists i :: CaptureAt(s, i, r.value)
    ensures r.Some? ==> |r.value| > 0 && forall k :: 0 <= k < |r.value| ==> IdChar(r.value[k])
  {
    match FindIdMatch(s, 0)
    case None => None
    case Some(i) =>
      var e := RunEnd(s, i + 3);
      var id := s[i + 3..e];
      assert forall k :: 0 <= k < |id| ==> IdChar(id[k]) by {
        forall k | 0 <= k < |id| ensures IdChar(id[k]) { assert id[k] == s[i + 3 + k]; }
      }
      assert CaptureAt(s, i, id);
      Some(id)
  }

  /** The start of a spreadsheet's edit link, up to the id:
      `https://docs.google.com/spreadsheets/d/`. */
  const EditLinkHead: string := "https:" + "//" + "docs.google.com" + "/" + "spreadsheets" + IdMarker

  /** The only `/d/` of the edit link's head is the one right before the id. */
  lemma EditLinkHeadMarker()
    ensures |EditLinkHead| == 39 && OccursAt(EditLinkHead, IdMarker, 36)
    ensures forall j :: 0 <= j < 36 ==> !OccursAt(EditLinkHead, IdMarker, j)
  {
    var t := EditLinkHead;
    assert '/' !in "https:" && '/' !in "docs.google.com" && '/' !in "spreadsheets";
    assert t[36..39] == IdMarker;
    forall j | 0 <= j < 36 ensures !OccursAt(t, IdMarker, j) {
      if j < 6 {
        assert t[j] == "https:"[j];
      } else if j == 6 {
        assert t[7] == '/';
      } else if j == 7 {
        assert t[9] == 'o';
      } else if j < 23 {
        assert t[j] == "docs.google.com"[j - 8];
      } else if j == 23 {
        assert t[24] == 's';
      } else {
        assert t[j] == "spreadsheets"[j - 24];
      }
      assert t[j..j + 3][0] == t[j] && t[j..j + 3][1] == t[j + 1] && t[j..j + 3][2] == t[j + 2];
    }
  }

  /** Reading the id back out of an edit link gives the id the link was made
      from. */
  lemma ExtractIdFromEditLink(id: string, tail: string)
    requires |id| > 0 && forall k :: 0 <= k < |id| ==> IdChar(id[k])
    requires |tail| > 0 && !IdChar(tail[0])
    ensures ExtractId(EditLinkHead + id + tail) == Some(id)
  {
    var s := EditLinkHead + id + tail;
    EditLinkHeadMarker();
    forall j | 0 <= j < 36 ensures !IdMatchAt(s, j) {
      assert !OccursAt(EditLinkHead, IdMarker, j);
      assert s[j..j + 3] == EditLinkHead[j..j + 3];
      assert !OccursAt(s, IdMarker, j);
    }
    assert IdMatchAt(s, 36) by {
      assert s[36..39] == EditLinkHead[36..39];
      assert s[39] == id[0];
    }
    assert FindIdMatch(s, 0) == Some(36);
    assert forall k :: 39 <= k < 39 + |id| ==> s[k] == id[k - 39];
    assert s[39 + |id|] == tail[0];
    assert RunEnd(s, 39) == 39 + |id|;
    assert s[39..39 + |id|] == id;
  }

  // ---------------------------------------------------------------------------
  // The reply

  /** A cell of the parsed reply: its value and formatted value (`undefined`
      when the field is missing). */
  datatype Cell = Cell(v: Value, f: Value)

  /** The parsed reply: the header labels and, per row, its cells (a `null`
      cell is `None`). */
  datatype Table = Table(labels: seq<string>, rows: seq<seq<Option<Cell>>>)

  /** What the network produced: a reply body, or a failure of the request. */
  datatype Reply = NetworkFailure | Body(text: string)

  /** The query the reply answers. */
  function QueryUrl(sheetId: string): string {
    "https://docs.google.com/spreadsheets/d/" + sheetId + "/gviz/tq?tqx=out:json"
  }

  const PrefixLength: nat := 47
  const SuffixLength: nat := 2

  /** `text.substring(47).slice(0, -2)`: drops the 47-character preamble and the
      2-character trailer, yielding "" for shorter texts. */
  function StripWrapper(text: string): (r: string)
    ensures |text| >= PrefixLength + SuffixLength ==> r == text[PrefixLength..|text| - SuffixLength]
    ensures |text| < PrefixLength + SuffixLength ==> r == ""
  {
    var tail := if |text| <= PrefixLength then "" else text[PrefixLength..];
    if |tail| <= SuffixLength then "" else tail[..|tail| - SuffixLength]
  }

  /** Wrapping a payload in a preamble and trailer of the expected lengths and
      stripping it again gives the payload back. */
  lemma StripWrapperRoundTrip(preamble: string, payload: string, trailer: string)
    requires |preamble| == PrefixLength && |trailer| == SuffixLength
    ensures StripWrapper(preamble + payload + trailer) == payload
  {
    var text := preamble + payload + trailer;
    assert text[PrefixLength..|text| - SuffixLength] == payload;
  }

  /** `cell ? (cell.v || cell.f) : ''` */
  function CellValue(cell: Option<Cell>): (r: Value)
    ensures cell.None? ==> r == Str("")
    ensures cell.Some? && Truthy(cell.value.v) ==> r == cell.value.v
    ensures cell.Some? && !Truthy(cell.value.v) ==> r == cell.value.f
  {
    match cell
    case None => Str("")
    case Some(c) => Or(c.v, c.f)
  }

  /** `cols[index]` used as a property key: past the header it is `undefined`,
      which becomes the key "undefined". */
  function ColumnKey(cols: seq<string>, index: nat): string {
    if index < |cols| then cols[index] else "undefined"
  }

  /** Cell `i` is the last of the first `n` cells written under its key. */
  predicate LastWithKey(cols: seq<string>, n: nat, i: nat) {
    forall j :: i < j < n ==> ColumnKey(cols, j) != ColumnKey(cols, i)
  }

  /** Every cell's key is present. */
  predicate KeysPresent(cols: seq<string>, cells: seq<Option<Cell>>, r: Row) {
    forall i :: 0 <= i < |cells| ==> ColumnKey(cols, i) in r
  }

  /** Every key comes from some cell. */
  predicate KeysFromCells(cols: seq<string>, cells: seq<Option<Cell>>, r: Row) {
    forall k :: k in r ==> exists i :: 0 <= i < |cells| && ColumnKey(cols, i) == k
  }

  /** Each key holds the value of the last cell written under it. */
  predicate LastWriterWins(cols: seq<string>, cells: seq<Option<Cell>>, r: Row) {
    forall i :: 0 <= i < |cells| && LastWithKey(cols, |cells|, i) ==>
      ColumnKey(cols, i) in r && r[ColumnKey(cols, i)] == CellValue(cells[i])
  }

  /** What `ZipRow` promises about the row built from `cells`. */
  predicate ZippedFrom(cols: seq<string>, cells: seq<Option<Cell>>, r: Row) {
    KeysPresent(cols, cells, r) && KeysFromCells(cols, cells, r) && LastWriterWins(cols, cells, r)
  }

  /** The row after writing the last cell over the row of the earlier ones. */
  function WriteLast(cols: seq<string>, cells: seq<Option<Cell>>, prev: Row): Row
    requires |cells| > 0
  {
    prev[ColumnKey(cols, |cells| - 1) := CellValue(cells[|cells| - 1])]
  }

  lemma ZipStepPresent(cols: seq<string>, cells: seq<Option<Cell>>, prev: Row)
    requires |cells| > 0 && KeysPresent(cols, cells[..|cells| - 1], prev)
    ensures KeysPresent(cols, cells, WriteLast(cols, cells, prev))
  {
    var n := |cells| - 1;
    assert |cells[..n]| == n;
  }

  lemma ZipStepFrom(cols: seq<string>, cells: seq<Option<Cell>>, prev: Row)
    requires |cells| > 0 && KeysFromCells(cols, cells[..|cells| - 1], prev)
    ensures KeysFromCells(cols, cells, WriteLast(cols, cells, prev))
  {
    var n := |cells| - 1;
    var r := WriteLast(cols, cells, prev);
    forall k | k in r ensures exists i :: 0 <= i < |cells| && ColumnKey(cols, i) == k {
      if k != ColumnKey(cols, n) {
        var i :| 0 <= i < |cells[..n]| && ColumnKey(cols, i) == k;
      }
    }
  }

  lemma ZipStepValues(cols: seq<string>, cells: seq<Option<Cell>>, prev: Row)
    requires |cells| > 0 && LastWriterWins(cols, cells[..|cells| - 1], prev)
    ensures LastWriterWins(cols, cells, WriteLast(cols, cells, prev))
  {
    var n := |cells| - 1;
    var r := WriteLast(cols, cells, prev);
    forall i | 0 <= i < |cells| && LastWithKey(cols, |cells|, i)
      ensures ColumnKey(cols, i) in r && r[ColumnKey(cols, i)] == CellValue(cells[i])
    {
      if i < n {
        assert ColumnKey(cols, n) != ColumnKey(cols, i);
        assert LastWithKey(cols, |cells[..n]|, i);
        assert cells[..n][i] == cells[i];
      }
    }
  }

  /** Writing one more cell extends what the shorter row promised. */
  lemma ZipStep(cols: seq<string>, cells: seq<Option<Cell>>, prev: Row)
    requires |cells| > 0 && ZippedFrom(cols, cells[..|cells| - 1], prev)
    ensures ZippedFrom(cols, cells, WriteLast(cols, cells, prev))
  {
    ZipStepPresent(cols, cells, prev);
    ZipStepFrom(cols, cells, prev);
    ZipStepValues(cols, cells, prev);
  }

  /** `r.c.forEach((cell, index) => rowObj[cols[index]] = ...)`: the cells are
      written in order, so a later cell wins over an earlier one with the same key. */
  function ZipRow(cols: seq<string>, cells: seq<Option<Cell>>): (r: Row)
    ensures forall i :: 0 <= i < |cells| ==> ColumnKey(cols, i) in r
    ensures forall k :: k in r ==> exists i :: 0 <= i < |cells| && ColumnKey(cols, i) == k
    ensures forall i :: 0 <= i < |cells| && LastWithKey(cols, |cells|, i) ==>
              r[ColumnKey(cols, i)] == CellValue(cells[i])
    decreases |cells|
  {
    if |cells| == 0 then map[]
    else
      var n := |cells| - 1;
      var prev := ZipRow(cols, cells[..n]);
      ZipStep(cols, cells, prev);
      WriteLast(cols, cells, prev)
  }

  /** A row with no more cells than the header has exactly the first labels as keys. */
  lemma ZipRowKeys(cols: seq<string>, cells: seq<Option<Cell>>)
    requires |cells| <= |cols|
    ensures ZipRow(cols, cells).Keys == set i | 0 <= i < |cells| :: cols[i]
    ensures ZipRow(cols, cells).Keys <= set c | c in cols
  {
    var r := ZipRow(cols, cells);
    assert forall i :: 0 <= i < |cells| ==> ColumnKey(cols, i) == cols[i];
    forall k | k in r ensures k in set i | 0 <= i < |cells| :: cols[i] {
      var i :| 0 <= i < |cells| && ColumnKey(cols, i) == k;
    }
    forall k | k in set i | 0 <= i < |cells| :: cols[i] ensures k in r {
      var i :| 0 <= i < |cells| && cols[i] == k;
      assert ColumnKey(cols, i) == k;
    }
  }

  /** With distinct labels every cell lands under its own label. */
  lemma ZipRowValues(cols: seq<string>, cells: seq<Option<Cell>>, i: nat)
    requires |cells| <= |cols| && i < |cells|
    requires forall a, b :: 0 <= a < b < |cols| ==> cols[a] != cols[b]
    ensures cols[i] in ZipRow(cols, cells) && ZipRow(cols, cells)[cols[i]] == CellValue(cells[i])
  {
    assert ColumnKey(cols, i) == cols[i];
    forall j | i < j < |cells| ensures ColumnKey(cols, j) != ColumnKey(cols, i) {
      assert ColumnKey(cols, j) == cols[j];
    }
    assert LastWithKey(cols, |cells|, i);
  }

  /** A row longer than the header carries the key "undefined", which is not a
      column unless some label is literally "undefined". */
  lemma LongRowEscapesColumns(cols: seq<string>, cells: seq<Option<Cell>>)
    requires |cells| > |cols| && "undefined" !in cols
    ensures "undefined" in ZipRow(cols, cells) && "undefined" !in cols
  {
    assert ColumnKey(cols, |cols|) == "undefined";
  }

  function ZipRows(t: Table): (rows: seq<Row>)
    ensures |rows| == |t.rows|
    ensures forall k :: 0 <= k < |rows| ==> rows[k] == ZipRow(t.labels, t.rows[k])
  {
    seq(|t.rows|, k requires 0 <= k < |t.rows| => ZipRow(t.labels, t.rows[k]))
  }

  // ---------------------------------------------------------------------------
  // Canned datasets

  const DemoSheetId: string := "DEMO"

  const DemoColumns: seq<string> := ["Title", "Image", "Price", "Description"]

  const DemoRows: seq<Row> := [
    map["Title" := Str("Sepatu Nike"), "Image" := Str("https://placehold.co/400x400/png?text=Shoe"),
        "Price" := Str("Rp 500.000"), "Description" := Str("Sepatu lari nyaman")],
    map["Title" := Str("Baju Adidas"), "Image" := Str("https://placehold.co/400x400/png?text=Shirt"),
        "Price" := Str("Rp 200.000"), "Description" := Str("Baju olahraga")],
    map["Title" := Str("Topi Puma"), "Image" := Str("https://placehold.co/400x400/png?text=Hat"),
        "Price" := Str("Rp 100.000"), "Description" := Str("Topi santai")]]

  const FallbackColumns: seq<string> := ["Title", "Image", "Price"]

  const FallbackRows: seq<Row> := [
    map["Title" := Str("Item 1"), "Image" := Str(""), "Price" := Str("100")],
    map["Title" := Str("Item 2"), "Image" := Str(""), "Price" := Str("200")]]

  /** Every row is keyed by exactly the columns. */
  predicate Rectangular(columns: seq<string>, data: seq<Row>) {
    forall k :: 0 <= k < |data| ==> data[k].Keys == set c | c in columns
  }

  /** Every row is keyed only by columns. */
  predicate RowsWithinColumns(columns: seq<string>, data: seq<Row>) {
    forall k :: 0 <= k < |data| ==> data[k].Keys <= set c | c in columns
  }

  lemma CannedDatasetsRectangular()
    ensures Rectangular(DemoColumns, DemoRows) && |DemoRows| == 3 && |DemoColumns| == 4
    ensures Rectangular(FallbackColumns, FallbackRows) && |FallbackRows| == 2 && |FallbackColumns| == 3
  {
    assert (set c | c in DemoColumns) == {"Title", "Image", "Price", "Description"};
    assert (set c | c in FallbackColumns) == {"Title", "Image", "Price"};
  }

  // ---------------------------------------------------------------------------
  // fetchData

  /** The synchronous part of `fetchData`, up to the request. */
  datatype Start =
    | Skipped                   // empty id: nothing happens
    | Rejected(st: DataState)   // a published-link URL: abort
    | Started(st: DataState)    // loading, with the id to query

  const GoogleHost: string := "docs.google.com"
  const PublishedMarker: string := "/d/e/"

  function StartFetch(st: DataState): (r: Start)
    ensures st.sheetId == "" <==> r.Skipped?
    ensures r.Rejected? <==>
              st.sheetId != "" && Includes(st.sheetId, GoogleHost) && Includes(st.sheetId, PublishedMarker)
    ensures r.Rejected? ==> r.st == st.(isLoading := false)
    ensures r.Started? ==> r.st.isLoading && r.st == st.(sheetId := r.st.sheetId, isLoading := true)
    ensures r.Started? && !Includes(st.sheetId, GoogleHost) ==> r.st.sheetId == st.sheetId
    ensures r.Started? && Includes(st.sheetId, GoogleHost) ==>
              r.st.sheetId == (match ExtractId(st.sheetId) case Some(id) => id case None => st.sheetId)
  {
    if !Truthy(Str(st.sheetId)) then Skipped
    else if Includes(st.sheetId, GoogleHost) && Includes(st.sheetId, PublishedMarker) then
      Rejected(st.(isLoading := false))
    else
      var id := if Includes(st.sheetId, GoogleHost)
                then (match ExtractId(st.sheetId) case Some(x) => x case None => st.sheetId)
                else st.sheetId;
      Started(st.(sheetId := id, isLoading := true))
  }

  /** The terminal state a settled `fetchData` leaves, given the reply to
      `QueryUrl` of the started id and the JSON parser (`None` for any
      parse or shape failure, which the source catches like a network error). */
  function FetchData(st: DataState, reply: Reply, parse: string -> Option<Table>): (r: DataState)
    ensures st.sheetId == "" ==> r == st
    ensures StartFetch(st).Rejected? ==> r == st.(isLoading := false)
    ensures StartFetch(st).Started? ==>
              && !r.isLoading
              && r.sheetId == StartFetch(st).st.sheetId
              && r.sheetName == st.sheetName && r.selectedRow == st.selectedRow
    ensures StartFetch(st).Started? && StartFetch(st).st.sheetId == DemoSheetId ==>
              r.columns == DemoColumns && r.data == DemoRows
    ensures StartFetch(st).Started? && StartFetch(st).st.sheetId != DemoSheetId ==>
              match reply
              case NetworkFailure => r.columns == FallbackColumns && r.data == FallbackRows
              case Body(text) =>
                match parse(StripWrapper(text))
                case None => r.columns == FallbackColumns && r.data == FallbackRows
                case Some(t) => r.columns == t.labels && |r.data| == |t.rows|
                                && forall k :: 0 <= k < |t.rows| ==> r.data[k] == ZipRow(t.labels, t.rows[k])
  {
    match StartFetch(st)
    case Skipped => st
    case Rejected(s) => s
    case Started(s) =>
      if s.sheetId == DemoSheetId then
        s.(columns := DemoColumns, data := DemoRows, isLoading := false)
      else
        var fallback := s.(columns := FallbackColumns, data := FallbackRows, isLoading := false);
        match reply
        case NetworkFailure => fallback
        case Body(text) =>
          match parse(StripWrapper(text))
          case None => fallback
          case Some(t) => s.(columns := t.labels, data := ZipRows(t), isLoading := false)
  }

  /** Once a started fetch settles, loading is off and, unless the reply parsed
      into rows wider than its header, every row is keyed only by columns. */
  lemma FetchSettlesWithinColumns(st: DataState, reply: Reply, parse: string -> Option<Table>)
    requires StartFetch(st).Started?
    requires reply.Body? && parse(StripWrapper(reply.text)).Some? ==>
               var t := parse(StripWrapper(reply.text)).value;
               forall k :: 0 <= k < |t.rows| ==> |t.rows[k]| <= |t.labels|
    ensures !FetchData(st, reply, parse).isLoading
    ensures RowsWithinColumns(FetchData(st, reply, parse).columns, FetchData(st, reply, parse).data)
  {
    var r := FetchData(st, reply, parse);
    CannedDatasetsRectangular();
    if StartFetch(st).st.sheetId != DemoSheetId && reply.Body? && parse(StripWrapper(reply.text)).Some? {
      var t := parse(StripWrapper(reply.text)).value;
      forall k | 0 <= k < |r.data| ensures r.data[k].Keys <= set c | c in r.columns {
        ZipRowKeys(t.labels, t.rows[k]);
      }
    }
  }

  /** A failed request always leaves a non-empty, rectangular fallback. */
  lemma FailureLeavesFallback(st: DataState, parse: string -> Option<Table>)
    requires StartFetch(st).Started? && StartFetch(st).st.sheetId != DemoSheetId
    ensures var r := FetchData(st, NetworkFailure, parse);
            && |r.data| > 0 && !r.isLoading
            && Rectangular(r.columns, r.data)
  {
    CannedDatasetsRectangular();
  }
}
