/** Table extraction: row normalisation, the result record, markdown
    rendering, the balanced-bracket scanner, and the pdfplumber-then-GPT
    fallback with its usage counters. pdfplumber's table finder and the
    LLM's reply are inputs. */
module TableHandler {
  import opened Wrappers
  import opened Strings

  /** A cell as pdfplumber or the LLM's JSON gives it: a string, or any
      other value (`None`, a number, a boolean, an object). `key` stands for
      the value itself: two non-string cells are equal under Python's `==`
      exactly when their keys are (so `1`, `1.0` and `true` share a key). */
  datatype Cell = Str(text: string) | NonStr(key: string)

  /** A row: a list of cells, or a value that is not a list, identified by
      its key as a non-string cell is, together with its Python truth value. */
  datatype RawRow = ListRow(cells: seq<Cell>) | NonList(key: string, truthy: bool)

  /** Python's truth value of a row value. */
  predicate RowTruthy(row: RawRow) {
    match row
    case ListRow(cs) => cs != []
    case NonList(_, t) => t
  }

  /** A table result, a free-text description, or an error record. `kind`
      is the `type` field ("table" or "table_image"). */
  datatype TableOutcome =
    | Table(kind: string, rows: nat, columns: nat, data: seq<seq<string>>, markdown: string,
            source: string, title: Option<string>, footnotes: Option<string>)
    | Description(text: string, source: string)
    | Error(message: string, source: string)

  // ----- _normalizeData -----

  function CleanCell(c: Cell): (r: string)
    ensures Trimmed(r)
  {
    match c
    case Str(t) => Strip(t)
    case NonStr(_) => ""
  }

  /** A cleaned row: its cells stripped, non-strings blank; a non-list row
      becomes the empty row. */
  function CleanRow(row: RawRow): (r: seq<string>)
    ensures row.NonList? ==> r == []
    ensures row.ListRow? ==> |r| == |row.cells| && forall k :: 0 <= k < |r| ==> r[k] == CleanCell(row.cells[k])
  {
    match row
    case NonList(_, _) => []
    case ListRow(cs) => seq(|cs|, k requires 0 <= k < |cs| => CleanCell(cs[k]))
  }

  function Cleaned(data: seq<RawRow>): (r: seq<seq<string>>)
    ensures |r| == |data| && forall i :: 0 <= i < |data| ==> r[i] == CleanRow(data[i])
  {
    seq(|data|, i requires 0 <= i < |data| => CleanRow(data[i]))
  }

  /** The length of the longest row, 0 for no rows. */
  function MaxWidth(rows: seq<seq<string>>): (w: nat)
    ensures forall i :: 0 <= i < |rows| ==> |rows[i]| <= w
    ensures rows != [] ==> exists i :: 0 <= i < |rows| && |rows[i]| == w
    ensures rows == [] ==> w == 0
  {
    if rows == [] then 0
    else
      var front := MaxWidth(rows[..|rows| - 1]);
      var last := |rows[|rows| - 1]|;
      assert forall i :: 0 <= i < |rows| - 1 ==> rows[i] == rows[..|rows| - 1][i];
      if last > front then last else front
  }

  function Blanks(n: nat): (r: seq<string>)
    ensures |r| == n && forall k :: 0 <= k < n ==> r[k] == ""
  {
    seq(n, _ => "")
  }

  /** `row + [""] * (width - len(row))`: nothing is added when the row is
      already as wide. */
  function Pad(row: seq<string>, width: int): (r: seq<string>)
    ensures |r| == if |row| < width then width else |row|
    ensures r[..|row|] == row && forall k :: |row| <= k < |r| ==> r[k] == ""
  {
    if |row| < width then row + Blanks(width - |row|) else row
  }

  /** What `_normalizeData(data)` returns. */
  function Normalized(data: seq<RawRow>): seq<seq<string>> {
    var cleaned := Cleaned(data);
    var w := MaxWidth(cleaned);
    if data == [] then []
    else if w == 0 then cleaned
    else seq(|cleaned|, i requires 0 <= i < |cleaned| => Pad(cleaned[i], w))
  }

  /** Normalisation keeps the row count and makes every row as long as the
      longest cleaned row: the cleaned cells first, then blanks. */
  lemma NormalizedShape(data: seq<RawRow>)
    ensures var n, w := Normalized(data), MaxWidth(Cleaned(data));
      |n| == |data|
      && forall i :: 0 <= i < |n| ==>
           |n[i]| == w && n[i][..|CleanRow(data[i])|] == CleanRow(data[i])
           && (forall k :: |CleanRow(data[i])| <= k < w ==> n[i][k] == "")
           && (forall k :: 0 <= k < w ==> Trimmed(n[i][k]))
  {
    var cleaned := Cleaned(data);
    var w := MaxWidth(cleaned);
    var n := Normalized(data);
    forall i | 0 <= i < |n|
      ensures |n[i]| == w && n[i][..|CleanRow(data[i])|] == CleanRow(data[i])
      ensures forall k :: |CleanRow(data[i])| <= k < w ==> n[i][k] == ""
      ensures forall k :: 0 <= k < w ==> Trimmed(n[i][k])
    {
      assert |cleaned[i]| <= w;
      if w == 0 {
        assert n[i] == cleaned[i] == [];
      } else {
        assert n[i] == Pad(cleaned[i], w);
        forall k | 0 <= k < w ensures Trimmed(n[i][k]) {
          if k < |cleaned[i]| {
            assert n[i][k] == n[i][..|cleaned[i]|][k] == cleaned[i][k];
            if data[i].ListRow? {
              assert cleaned[i][k] == CleanCell(data[i].cells[k]);
            }
          }
        }
      }
    }
  }

  /** The width after one more row. */
  lemma MaxWidthSnoc(rows: seq<seq<string>>, row: seq<string>)
    ensures MaxWidth(rows + [row]) == if |row| > MaxWidth(rows) then |row| else MaxWidth(rows)
  {
    assert (rows + [row])[..|rows|] == rows;
  }

  lemma CleanedSnoc(data: seq<RawRow>, i: nat)
    requires i < |data|
    ensures Cleaned(data[..i + 1]) == Cleaned(data[..i]) + [CleanRow(data[i])]
  {
    assert Cleaned(data[..i + 1])[..i] == Cleaned(data[..i]);
  }

  method CleanCells(row: RawRow) returns (vals: seq<string>)
    ensures vals == CleanRow(row)
  {
    vals := [];
    if row.ListRow? {
      var j := 0;
      while j < |row.cells|
        invariant 0 <= j <= |row.cells|
        invariant |vals| == j && forall k :: 0 <= k < j ==> vals[k] == CleanCell(row.cells[k])
      {
        var cell := row.cells[j];
        vals := vals + [CleanCell(cell)];
        j := j + 1;
      }
    }
  }

  /** The first loop of `_normalizeData`: the cleaned rows and the width of
      the widest. */
  method CleanRows(data: seq<RawRow>) returns (cleaned: seq<seq<string>>, maxCols: nat)
    ensures cleaned == Cleaned(data) && maxCols == MaxWidth(cleaned)
  {
    maxCols := 0;
    cleaned := [];
    var i := 0;
    while i < |data|
      invariant 0 <= i <= |data|
      invariant cleaned == Cleaned(data[..i])
      invariant maxCols == MaxWidth(cleaned)
    {
      var vals := CleanCells(data[i]);
      MaxWidthSnoc(cleaned, vals);
      CleanedSnoc(data, i);
      cleaned := cleaned + [vals];
      if |vals| > maxCols {
        maxCols := |vals|;
      }
      i := i + 1;
    }
    assert data[..i] == data;
  }

  /** The second loop of `_normalizeData`: every row padded to `maxCols`. */
  method PadRows(cleaned: seq<seq<string>>, maxCols: nat) returns (normalized: seq<seq<string>>)
    requires forall m :: 0 <= m < |cleaned| ==> |cleaned[m]| <= maxCols
    ensures |normalized| == |cleaned|
    ensures forall m :: 0 <= m < |cleaned| ==> normalized[m] == Pad(cleaned[m], maxCols)
  {
    normalized := [];
    var k := 0;
    while k < |cleaned|
      invariant 0 <= k <= |cleaned|
      invariant |normalized| == k
      invariant forall m :: 0 <= m < k ==> normalized[m] == Pad(cleaned[m], maxCols)
    {
      var row := cleaned[k];
      var padded := row + Blanks(maxCols - |row|);
      normalized := normalized + [padded];
      k := k + 1;
    }
  }

  /** `_normalizeData(data)`: one pass cleans the rows and tracks the widest,
      a second pads every row to that width. */
  method NormalizeData(data: seq<RawRow>) returns (normalized: seq<seq<string>>)
    ensures normalized == Normalized(data)
  {
    if data == [] {
      return [];
    }
    var cleaned, maxCols := CleanRows(data);
    if maxCols == 0 {
      return cleaned;
    }
    normalized := PadRows(cleaned, maxCols);
  }

  // ----- _toMarkdown -----

  function RowLine(cells: seq<string>): string {
    "| " + Join(cells, " | ") + " |"
  }

  /** The markdown lines of a non-empty table: the header, a separator of one
      `---` per header cell, then each further row padded to the header's
      width. */
  function Lines(data: seq<seq<string>>): (ls: seq<string>)
    requires data != []
    ensures |ls| == |data| + 1
    ensures ls[0] == RowLine(data[0]) && ls[1] == RowLine(seq(|data[0]|, _ => "---"))
  {
    var header := data[0];
    [RowLine(header), RowLine(seq(|header|, _ => "---"))]
      + seq(|data| - 1, k requires 0 <= k < |data| - 1 => RowLine(Pad(data[k + 1], |header|)))
  }

  /** Every further row's line is that row padded to the header's width. */
  lemma LinesRow(data: seq<seq<string>>, k: nat)
    requires 1 <= k < |data|
    ensures Lines(data)[k + 1] == RowLine(Pad(data[k], |data[0]|))
  {
    var rest := seq(|data| - 1, j requires 0 <= j < |data| - 1 => RowLine(Pad(data[j + 1], |data[0]|)));
    assert Lines(data) == [RowLine(data[0]), RowLine(seq(|data[0]|, _ => "---"))] + rest;
    assert Lines(data)[k + 1] == rest[k - 1];
  }

  /** What `_toMarkdown(data)` returns: the lines joined by newlines, "" for
      no rows. */
  function Markdown(data: seq<seq<string>>): string {
    if data == [] then "" else Join(Lines(data), "\n")
  }

  predicate NoNewline(data: seq<seq<string>>) {
    forall i, k :: 0 <= i < |data| && 0 <= k < |data[i]| ==> '\n' !in data[i][k]
  }

  lemma RowLineNoNewline(cells: seq<string>)
    requires forall k :: 0 <= k < |cells| ==> '\n' !in cells[k]
    ensures '\n' !in RowLine(cells)
  {
    if '\n' in Join(cells, " | ") {
      JoinChars(cells, " | ", '\n');
    }
  }

  /** When no cell holds a newline, the markdown splits back into exactly one
      line per row plus the separator. */
  lemma MarkdownLines(data: seq<seq<string>>)
    requires data != [] && NoNewline(data)
    ensures SplitOn(Markdown(data), '\n') == Lines(data)
  {
    var ls := Lines(data);
    forall m | 0 <= m < |ls| ensures '\n' !in ls[m] {
      if m == 0 {
        RowLineNoNewline(data[0]);
      } else if m == 1 {
        RowLineNoNewline(seq(|data[0]|, _ => "---"));
      } else {
        LinesRow(data, m - 1);
        var row := Pad(data[m - 1], |data[0]|);
        forall k | 0 <= k < |row| ensures '\n' !in row[k] {
          if k < |data[m - 1]| {
            assert row[k] == row[..|data[m - 1]|][k];
          }
        }
        RowLineNoNewline(row);
      }
    }
    SplitOfJoin(ls, '\n');
  }

  // ----- _buildResult -----

  /** `_buildResult(data, bbox, source)`. */
  function BuildResult(data: seq<RawRow>, source: string): TableOutcome {
    var normalized := Normalized(data);
    Table("table", |normalized|, MaxWidth(normalized), normalized, Markdown(normalized), source, None, None)
  }

  /** `rows` is the row count of the input and `columns` the longest cleaned
      row, which every data row now has. */
  lemma BuildResultShape(data: seq<RawRow>, source: string)
    ensures var r := BuildResult(data, source);
      r.Table? && r.rows == |data| && r.rows == |r.data|
      && r.columns == MaxWidth(Cleaned(data))
      && (forall i :: 0 <= i < |r.data| ==> |r.data[i]| == r.columns)
      && r.source == source
  {
    NormalizedShape(data);
    var n := Normalized(data);
    var w := MaxWidth(Cleaned(data));
    if n != [] {
      var i :| 0 <= i < |n| && |n[i]| == MaxWidth(n);
    }
  }

  // ----- _extractBalanced -----

  /** The index of the first `c` in `s` (`s.find(c)`, `None` for -1). */
  function Find(s: string, c: char): (r: Option<nat>)
    ensures r.None? <==> c !in s
    ensures r.Some? ==> r.value < |s| && s[r.value] == c && c !in s[..r.value]
  {
    if s == [] then None
    else if s[0] == c then Some(0)
    else match Find(s[1..], c)
      case None => None
      case Some(i) =>
        assert s[..i + 1] == [s[0]] + s[1..][..i];
        Some(i + 1)
  }

  /** Nesting depth after reading `t`: one up per `openCh`, one down per
      `closeCh`, the opening test first. */
  function Depth(t: string, openCh: char, closeCh: char): int {
    if t == [] then 0
    else
      var d := Depth(t[..|t| - 1], openCh, closeCh);
      var ch := t[|t| - 1];
      if ch == openCh then d + 1 else if ch == closeCh then d - 1 else d
  }

  /** `t` starts at an `openCh` and ends where the depth first returns to 0. */
  predicate FirstBalanced(t: string, openCh: char, closeCh: char) {
    t != [] && t[0] == openCh && Depth(t, openCh, closeCh) == 0
    && forall k :: 1 <= k < |t| ==> Depth(t[..k], openCh, closeCh) != 0
  }

  /** The depth after one more character of `s[start..]`. */
  lemma DepthStep(s: string, start: nat, i: nat, openCh: char, closeCh: char)
    requires start <= i < |s|
    ensures Depth(s[start..i + 1], openCh, closeCh)
         == Depth(s[start..i], openCh, closeCh)
            + (if s[i] == openCh then 1 else if s[i] == closeCh then -1 else 0)
  {
    assert s[start..i + 1][..i - start] == s[start..i];
  }

  /** The first return of the depth to 0 closes a balanced prefix. */
  lemma BalancedAt(s: string, start: nat, i: nat, openCh: char, closeCh: char)
    requires start <= i < |s| && s[start] == openCh
    requires Depth(s[start..i + 1], openCh, closeCh) == 0
    requires forall j :: start < j <= i ==> Depth(s[start..j], openCh, closeCh) != 0
    ensures FirstBalanced(s[start..i + 1], openCh, closeCh)
  {
    var t := s[start..i + 1];
    forall k | 1 <= k < |t| ensures Depth(t[..k], openCh, closeCh) != 0 {
      assert t[..k] == s[start..start + k];
    }
  }

  /** `_extractBalanced(s, openCh, closeCh)`: the text from the first
      `openCh` to where its nesting closes; `None` when `openCh` is absent or
      the nesting never closes. */
  method ExtractBalanced(s: string, openCh: char, closeCh: char) returns (r: Option<string>)
    ensures Find(s, openCh).None? ==> r.None?
    ensures Find(s, openCh).Some? ==>
      var start := Find(s, openCh).value;
      (r.Some? ==> start + |r.value| <= |s| && r.value == s[start..start + |r.value|]
                   && FirstBalanced(r.value, openCh, closeCh))
      && (r.None? ==> forall j :: start < j <= |s| ==> Depth(s[start..j], openCh, closeCh) != 0)
  {
    var found := Find(s, openCh);
    if found.None? {
      return None;
    }
    var start := found.value;
    var depth := 0;
    var i := start;
    while i < |s|
      invariant start <= i <= |s|
      invariant depth == Depth(s[start..i], openCh, closeCh)
      invariant forall j :: start < j <= i ==> Depth(s[start..j], openCh, closeCh) != 0
    {
      var ch := s[i];
      DepthStep(s, start, i, openCh, closeCh);
      if ch == openCh {
        depth := depth + 1;
      } else if ch == closeCh {
        depth := depth - 1;
      }
      if depth == 0 {
        BalancedAt(s, start, i, openCh, closeCh);
        return Some(s[start..i + 1]);
      }
      i := i + 1;
    }
    return None;
  }

  // ----- the GPT fallback -----

  /** The LLM's reply to the table prompt, once parsed: a JSON object with
      a `rows` list (and optional `headers`, `title`, `footnotes`; missing
      `headers` read as the empty list), some other reply kept as text, or an
      error raised on the way. `headers` may be any JSON value. */
  datatype GptReply =
    | TableJson(rows: seq<RawRow>, headers: RawRow, title: Option<string>, footnotes: Option<string>)
    | Other(text: string)
    | Raised(message: string)

  /** The header rule: truthy headers go in front of non-empty rows unless
      the first row already equals them; headers alone become the only row. */
  function WithHeaders(rows: seq<RawRow>, headers: RawRow): seq<RawRow> {
    if RowTruthy(headers) && rows != [] then
      (if rows[0] != headers then [headers] + rows else rows)
    else if RowTruthy(headers) && rows == [] then [headers]
    else rows
  }

  /** After the header rule the rows are the old rows, with the headers in
      front exactly when they are truthy and not already the first row (as
      Python's `!=` compares values); so with headers the first row is
      always the headers, and applying the rule twice adds nothing. */
  lemma WithHeadersRule(rows: seq<RawRow>, headers: RawRow)
    ensures var r := WithHeaders(rows, headers);
      (r == [headers] + rows <==> RowTruthy(headers) && (rows == [] || rows[0] != headers))
      && (r != [headers] + rows ==> r == rows)
      && (RowTruthy(headers) ==> r != [] && r[0] == headers)
      && WithHeaders(r, headers) == r
  {
    var r := WithHeaders(rows, headers);
    if RowTruthy(headers) && rows != [] && rows[0] == headers {
      assert r == rows;
      assert |[headers] + rows| != |rows|;
    }
  }

  /** Headers whose values differ from the first row's go in front even
      though both rows clean to the same blanks: numeric headers `[2019,
      2020]` over a first row `[10, 20]` give a two-row table of blanks. */
  lemma NumericHeadersInserted(source: string)
    ensures var h := ListRow([NonStr("2019"), NonStr("2020")]);
      var row := ListRow([NonStr("10"), NonStr("20")]);
      var r := ExtractWithGptBytes(TableJson([row], h, None, None), source);
      r.Table? && r.rows == 2 && r.data == [["", ""], ["", ""]]
  {
    var h := ListRow([NonStr("2019"), NonStr("2020")]);
    var row := ListRow([NonStr("10"), NonStr("20")]);
    assert row != h by {
      assert row.cells[0] != h.cells[0];
    }
    var all := WithHeaders([row], h);
    assert all == [h, row];
    assert CleanRow(h) == ["", ""] && CleanRow(row) == ["", ""];
    TwoBlankRows(all);
  }

  /** Two rows that clean to two blanks each normalise to themselves. */
  lemma TwoBlankRows(all: seq<RawRow>)
    requires |all| == 2 && CleanRow(all[0]) == ["", ""] && CleanRow(all[1]) == ["", ""]
    ensures Normalized(all) == [["", ""], ["", ""]]
  {
    var cleaned := Cleaned(all);
    assert cleaned == [["", ""], ["", ""]];
    assert MaxWidth(cleaned) == 2 by {
      assert cleaned[..1] == [["", ""]];
      assert MaxWidth(cleaned[..1]) == 2 by {
        assert cleaned[..1][..0] == [];
      }
    }
    assert Pad(["", ""], 2) == ["", ""];
  }

  /** `_extractWithGptBytes(imageBytes, source)` given the parsed reply. */
  function ExtractWithGptBytes(reply: GptReply, source: string): TableOutcome {
    match reply
    case TableJson(rows, headers, title, footnotes) =>
      var t := BuildResult(WithHeaders(rows, headers), source);
      t.(kind := "table_image", title := title, footnotes := footnotes)
    case Other(text) => Description(text, source)
    case Raised(message) => Error(message, source)
  }

  /** Every outcome of the GPT path carries the caller's source. A JSON
      table becomes a `table_image` result with one row per row after the
      header rule and the reply's title and footnotes; any other reply is
      kept as a description, and an error raised on the way becomes an error
      record. */
  lemma GptBytesOutcome(reply: GptReply, source: string)
    ensures var r := ExtractWithGptBytes(reply, source);
      r.source == source
      && (reply.TableJson? <==> r.Table?)
      && (reply.Other? <==> r.Description?)
      && (reply.Raised? <==> r.Error?)
      && (reply.TableJson? ==>
            r.kind == "table_image" && r.rows == |WithHeaders(reply.rows, reply.headers)| == |r.data|
            && r.title == reply.title && r.footnotes == reply.footnotes)
      && (reply.Other? ==> r.text == reply.text)
      && (reply.Raised? ==> r.message == reply.message)
  {
    if reply.TableJson? {
      BuildResultShape(WithHeaders(reply.rows, reply.headers), source);
    }
  }

  /** The first normalised row starts with the first cleaned row. */
  lemma NormalizedFirst(data: seq<RawRow>)
    requires data != []
    ensures Normalized(data) != [] && CleanRow(data[0]) <= Normalized(data)[0]
  {
    var cleaned := Cleaned(data);
    if MaxWidth(cleaned) != 0 {
      assert Normalized(data)[0] == Pad(cleaned[0], MaxWidth(cleaned));
    }
  }

  /** Separate headers, cleaned, open the GPT table's data. */
  lemma GptHeadersFirst(rows: seq<RawRow>, headers: RawRow, title: Option<string>,
                        footnotes: Option<string>, source: string)
    requires RowTruthy(headers)
    ensures var r := ExtractWithGptBytes(TableJson(rows, headers, title, footnotes), source);
      r.data != [] && CleanRow(headers) <= r.data[0]
  {
    var all := WithHeaders(rows, headers);
    assert all[0] == headers;
    NormalizedFirst(all);
    var r := ExtractWithGptBytes(TableJson(rows, headers, title, footnotes), source);
    assert r.data == BuildResult(all, source).data == Normalized(all);
  }

  /** `_extractWithGpt(page, bbox)`: a failed render is an error record
      sourced `gpt-4o`; otherwise the image goes to the GPT path as the PDF
      fallback. */
  function ExtractWithGpt(renderError: Option<string>, reply: GptReply): (r: TableOutcome)
    ensures renderError.Some? ==> r == Error(renderError.value, "gpt-4o")
    ensures renderError.None? ==> r.source == "gpt-4o-pdf-fallback" && (r.Table? <==> reply.TableJson?)
  {
    if renderError.Some? then Error(renderError.value, "gpt-4o")
    else
      GptBytesOutcome(reply, "gpt-4o-pdf-fallback");
      ExtractWithGptBytes(reply, "gpt-4o-pdf-fallback")
  }

  /** `_extractWithPdfplumber(page, bbox)`: `tables` is the region's table
      list, `None` when opening or cropping raised. No result without a
      first, non-empty table. */
  function ExtractWithPdfplumber(tables: Option<seq<seq<RawRow>>>): (r: Option<TableOutcome>)
    ensures r.Some? <==> tables.Some? && tables.value != [] && tables.value[0] != []
  {
    if tables.None? || tables.value == [] || tables.value[0] == [] then None
    else Some(BuildResult(tables.value[0], "pdfplumber"))
  }

  /** The usage counters as `getStats` reports them. */
  datatype Stats = Stats(pdfplumberSuccess: nat, gptFallbackUsed: nat, totalPdfTables: nat)

  class TableHandler {
    const apiKey: Option<string>
    const hasLlmClient: bool
    const enableGptFallback: bool
    var pdfplumberSuccess: nat
    var gptFallbackUsed: nat
    /** The number of `handlePdf` calls so far. */
    ghost var pdfCalls: nat

    ghost predicate Valid()
      reads this
    {
      pdfplumberSuccess + gptFallbackUsed <= pdfCalls
    }

    /** The fallback is on only when asked for and both an API key and a
        client are given. */
    constructor (apiKey: Option<string>, hasLlmClient: bool, enableGptFallback: bool)
      ensures Valid()
      ensures this.enableGptFallback == (enableGptFallback && Truthy(apiKey) && hasLlmClient)
      ensures pdfplumberSuccess == 0 && gptFallbackUsed == 0 && pdfCalls == 0
    {
      this.apiKey := apiKey;
      this.hasLlmClient := hasLlmClient;
      this.enableGptFallback := enableGptFallback && Truthy(apiKey) && hasLlmClient;
      pdfplumberSuccess := 0;
      gptFallbackUsed := 0;
      pdfCalls := 0;
    }

    /** `handlePdf(page, bbox, scale)`: `tables` is what pdfplumber finds in
        the region, `renderError` the message when rendering the region to an
        image raises, and `reply` what the LLM answers for the rendered image. */
    method HandlePdf(tables: Option<seq<seq<RawRow>>>, renderError: Option<string>, reply: GptReply) returns (r: TableOutcome)
      requires Valid()
      modifies this
      ensures Valid() && pdfCalls == old(pdfCalls) + 1
      ensures var plumber := ExtractWithPdfplumber(tables);
        if plumber.Some? && plumber.value.data != [] then
          r == plumber.value && pdfplumberSuccess == old(pdfplumberSuccess) + 1
          && gptFallbackUsed == old(gptFallbackUsed)
        else if enableGptFallback then
          r == ExtractWithGpt(renderError, reply)
          && gptFallbackUsed == old(gptFallbackUsed) + 1 && pdfplumberSuccess == old(pdfplumberSuccess)
        else
          r == Error("pdfplumber extraction failed", "pdfplumber")
          && pdfplumberSuccess == old(pdfplumberSuccess) && gptFallbackUsed == old(gptFallbackUsed)
    {
      pdfCalls := pdfCalls + 1;
      var result := ExtractWithPdfplumber(tables);
      if result.Some? && result.value.data != [] {
        pdfplumberSuccess := pdfplumberSuccess + 1;
        return result.value;
      }
      if enableGptFallback {
        r := ExtractWithGpt(renderError, reply);
        gptFallbackUsed := gptFallbackUsed + 1;
        return r;
      }
      r := Error("pdfplumber extraction failed", "pdfplumber");
    }

    /** `getStats()`: the total counts each call that produced a table or
        used the fallback, never more than the calls made. */
    function GetStats(): (s: Stats)
      reads this
      requires Valid()
      ensures s.totalPdfTables == s.pdfplumberSuccess + s.gptFallbackUsed <= pdfCalls
      ensures s.pdfplumberSuccess == pdfplumberSuccess && s.gptFallbackUsed == gptFallbackUsed
    {
      Stats(pdfplumberSuccess, gptFallbackUsed, pdfplumberSuccess + gptFallbackUsed)
    }
  }

  /** pdfplumber's result always has rows once it exists, so the fallback is
      reached exactly when pdfplumber found no non-empty first table. */
  lemma PlumberResultHasData(tables: Option<seq<seq<RawRow>>>)
    ensures var r := ExtractWithPdfplumber(tables);
      r.Some? ==> r.value.Table? && r.value.data != [] && r.value.source == "pdfplumber"
  {
    if tables.Some? && tables.value != [] && tables.value[0] != [] {
      BuildResultShape(tables.value[0], "pdfplumber");
    }
  }
}
