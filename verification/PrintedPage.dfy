// What a printer job looks like on paper and on the console: every byte
// stream is a list of directives, and the page it prints is told by where each
// piece of text lies, without reference to how `ScsRenderer` walks the bytes.
module PrintedPages {
  import opened Bytes
  import opened ScsRenderer

  datatype Directive =
    | Glyph(code: byte)
    | Pair(first: byte, second: byte)
    | Bad
    | ShiftOut | ShiftIn
    | Return | Feed
    | Blanks(n: byte)
    | Row(n: byte)
    | Position(operation: byte, argument: byte)
    | Format(operation: byte, parameters: seq<byte>)
    | NoFormat(operation: byte)
    | Other(code: byte)

  function Spelling(d: Directive): (r: seq<byte>)
    requires d.Format? ==> |d.parameters| <= 254
    ensures r != []
  {
    match d
    case Glyph(code) => [code]
    case Pair(first, second) => [first, second]
    case Bad => [0xFF]
    case ShiftOut => [0x0E]
    case ShiftIn => [0x0F]
    case Return => [0x0D]
    case Feed => [0x0C]
    case Blanks(n) => [0x34, 0xC8, n]
    case Row(n) => [0x34, 0xC4, n]
    case Position(operation, argument) => [0x34, operation, argument]
    case Format(operation, parameters) => [0x2B, operation, 1 + |parameters|] + parameters
    case NoFormat(operation) => [0x2B, operation, 0]
    case Other(code) => [code]
  }

  // The bytes that mean the same in and out of shifted mode.
  predicate Special(b: byte) {
    b in {0x0C, 0x0D, 0x0E, 0x0F, 0x2B, 0x34, 0xFF}
  }

  // A directive as it can stand in the stream.
  predicate Fits(d: Directive, shifted: bool) {
    match d
    case Glyph(code) => !shifted && code >= 0x40 && !Special(code)
    case Other(code) => !shifted && code < 0x40 && !Special(code)
    case Pair(first, _) => shifted && !Special(first)
    case Position(operation, _) => operation != 0xC8 && operation != 0xC4
    case Format(_, parameters) => |parameters| <= 254
    case _ => true
  }

  function Shifted(d: Directive, shifted: bool): bool {
    if d.ShiftOut? then true else if d.ShiftIn? then false else shifted
  }

  ghost predicate Stream(job: seq<Directive>, shifted: bool) {
    job != [] ==> Fits(job[0], shifted) && Stream(job[1..], Shifted(job[0], shifted))
  }

  ghost function Spelled(job: seq<Directive>, shifted: bool): seq<byte>
    requires Stream(job, shifted)
  {
    if job == [] then [] else Spelling(job[0]) + Spelled(job[1..], Shifted(job[0], shifted))
  }

  ghost function ShiftAfter(job: seq<Directive>, shifted: bool): bool {
    if job == [] then shifted else ShiftAfter(job[1..], Shifted(job[0], shifted))
  }

  // The start of a directive that never came whole.
  predicate CutOff(tail: seq<byte>, shifted: bool) {
    tail != [] &&
    if tail[0] == 0x34 then |tail| < 3
    else if tail[0] == 0x2B then |tail| < 3 || (tail[2] != 0 && |tail| < 2 + tail[2] as nat)
    else shifted && |tail| == 1 && !Special(tail[0])
  }

  // ---- every stream is a job --------------------------------------------------------

  lemma {:induction false} EveryStream(bytes: seq<byte>, shifted: bool)
    returns (job: seq<Directive>, tail: seq<byte>)
    ensures Stream(job, shifted) && bytes == Spelled(job, shifted) + tail
    ensures tail == [] || CutOff(tail, ShiftAfter(job, shifted))
    decreases |bytes|
  {
    hide CutOff, Fits, Spelling, Shifted;
    if bytes == [] || CutOff(bytes, shifted) {
      job, tail := [], bytes;
    } else {
      var d := FirstDirective(bytes, shifted);
      var n := |Spelling(d)|;
      var rest;
      rest, tail := EveryStream(bytes[n..], Shifted(d, shifted));
      job := [d] + rest;
      assert job[1..] == rest;
      assert bytes == Spelling(d) + bytes[n..];
    }
  }

  lemma FirstDirective(bytes: seq<byte>, shifted: bool) returns (d: Directive)
    requires bytes != [] && !CutOff(bytes, shifted)
    ensures Fits(d, shifted) && (d.Format? ==> |d.parameters| <= 254) && Spelling(d) <= bytes
  {
    var b := bytes[0];
    if b == 0x34 {
      d := if bytes[1] == 0xC8 then Blanks(bytes[2]) else if bytes[1] == 0xC4 then Row(bytes[2])
           else Position(bytes[1], bytes[2]);
    } else if b == 0x2B {
      d := if bytes[2] == 0 then NoFormat(bytes[1]) else Format(bytes[1], bytes[3..2 + bytes[2] as nat]);
    } else if Special(b) {
      d := if b == 0x0C then Feed else if b == 0x0D then Return else if b == 0x0E then ShiftOut
           else if b == 0x0F then ShiftIn else Bad;
    } else {
      d := if shifted then Pair(b, bytes[1]) else if b < 0x40 then Other(b) else Glyph(b);
    }
  }

  // ---- what a directive puts on the line -----------------------------------------

  function Ink(d: Directive, ascii: Charset): string {
    match d
    case Glyph(code) => ascii(code)
    case Pair(_, _) => "?"
    case Bad => "?"
    case Blanks(n) => seq(n as nat, _ => ' ')
    case _ => ""
  }

  // The directives that end a line with something on it.
  predicate EndsLine(d: Directive) {
    !d.Glyph? && !d.Pair? && !d.Bad? && !d.Blanks? && !d.ShiftOut? && !d.ShiftIn?
  }

  function LineOf(text: string): seq<string> {
    if text == "" then [] else [text]
  }

  // ---- the page -----------------------------------------------------------------

  // Rows from 1 on; a row named by 34 C4 n is row n, and row 0 is row 1.
  function Named(n: byte): nat {
    if n == 0 then 1 else n
  }

  function Blank(rows: nat): seq<string> {
    seq(rows, _ => "")
  }

  // 34 C4 n leaves blank rows down to row n, unless the page is past it.
  function Below(d: Directive, rows: seq<string>): seq<string> {
    if d.Row? && |rows| < Named(d.n) - 1 then rows + Blank(Named(d.n) - 1 - |rows|) else rows
  }

  // The pages of a job, from the current one on, with `rows` already printed
  // on it and `text` standing on the open line.
  ghost function Sheets(job: seq<Directive>, rows: seq<string>, text: string, ascii: Charset): (r: seq<seq<string>>)
    ensures r != []
    decreases |job|
  {
    var closed := rows + LineOf(text);
    if job == [] then [closed]
    else if !EndsLine(job[0]) then Sheets(job[1..], rows, text + Ink(job[0], ascii), ascii)
    else if job[0].Feed? then [closed] + Sheets(job[1..], [], "", ascii)
    else Sheets(job[1..], Below(job[0], closed), "", ascii)
  }

  // A file's text: every row closed by a newline, pages kept apart by a form
  // feed on a line of its own.
  ghost function Rows(page: seq<string>): string {
    if page == [] then "" else page[0] + "\n" + Rows(page[1..])
  }

  ghost function Printout(pages: seq<seq<string>>): string
    requires pages != []
  {
    if |pages| == 1 then Rows(pages[0]) else Rows(pages[0]) + "\U{000C}" + "\n" + Printout(pages[1..])
  }

  // ---- the renderer against that page ----------------------------------------------

  lemma SpellingIsCommand(d: Directive, shifted: bool, rest: seq<byte>)
    requires Fits(d, shifted)
    ensures Command(Spelling(d) + rest, shifted) == Some(|Spelling(d)|)
    ensures Command(Spelling(d), shifted) == Some(|Spelling(d)|)
    ensures (Spelling(d) + rest)[..|Spelling(d)|] == Spelling(d) && (Spelling(d) + rest)[|Spelling(d)|..] == rest
  {
  }

  lemma CutOffIsNone(tail: seq<byte>, shifted: bool)
    requires CutOff(tail, shifted)
    ensures Command(tail, shifted) == None
  {
  }

  lemma RendersFirst(p: Page, d: Directive, rest: seq<byte>, ascii: Charset, diagnostics: bool)
    requires Fits(d, p.ideographic)
    ensures Command(Spelling(d), p.ideographic) == Some(|Spelling(d)|)
    ensures Render(p, Spelling(d) + rest, ascii, diagnostics)
         == Render(Perform(p, Spelling(d), ascii, diagnostics), rest, ascii, diagnostics)
  {
    hide Perform, Command;
    SpellingIsCommand(d, p.ideographic, rest);
  }

  lemma Inks(p: Page, d: Directive, ascii: Charset, diagnostics: bool)
    requires Fits(d, p.ideographic) && !EndsLine(d)
    ensures Command(Spelling(d), p.ideographic) == Some(|Spelling(d)|)
    ensures Perform(p, Spelling(d), ascii, diagnostics)
         == Page(p.line + Ink(d, ascii), Shifted(d, p.ideographic), p.row, p.lines)
  {
    SpellingIsCommand(d, p.ideographic, []);
    assert p.line + "" == p.line;
    match d {
      case Blanks(n) => assert Spaces(n) == seq(n as nat, _ => ' ');
      case _ =>
    }
  }

  lemma {:induction false} AdvancesTo(p: Page, row: nat)
    ensures var n := if p.row < row then row - p.row else 0;
            Advance(p, row)
            == if n == 0 then p
               else Page("", p.ideographic, row, p.lines + [p.line] + Blank(n - 1))
    decreases row - p.row
  {
    if p.row < row {
      AdvancesTo(FinishLine(p), row);
      var n := row - p.row;
      if n == 1 {
        assert p.lines + [p.line] + Blank(0) == p.lines + [p.line];
      } else {
        assert [""] + Blank(n - 2) == Blank(n - 1);
        assert p.lines + [p.line] + [""] + Blank(n - 2) == p.lines + [p.line] + ([""] + Blank(n - 2));
      }
    }
  }

  // What a directive that ends the line leaves of the page in a file.
  lemma EndsOnPaper(p: Page, d: Directive, before: seq<string>, rows: seq<string>, ascii: Charset)
    requires Fits(d, p.ideographic) && EndsLine(d)
    ensures Command(Spelling(d), p.ideographic) == Some(|Spelling(d)|)
    requires p.lines == before + rows && p.row == |rows|
    ensures var closed := rows + LineOf(p.line);
            Perform(p, Spelling(d), ascii, false)
            == if d.Feed? then Page("", p.ideographic, 0, before + closed + [FORM_FEED])
               else Page("", p.ideographic, |Below(d, closed)|, before + Below(d, closed))
  {
    hide FormatText, Hex;
    SpellingIsCommand(d, p.ideographic, []);
    var closed := rows + LineOf(p.line);
    assert p.lines + [] == p.lines && p.lines + LineOf(p.line) == before + closed;
    assert FinishText(p) == Page("", p.ideographic, |closed|, before + closed);
    match d {
      case Row(n) =>
        var f := FinishText(p);
        AdvancesTo(f, Named(n) - 1);
        var gap := Named(n) - 1 - f.row;
        if gap > 0 {
          assert before + closed + [""] + Blank(gap - 1) == before + (closed + Blank(gap));
        }
      case _ =>
    }
  }

  ghost function Flat(pages: seq<seq<string>>): seq<string>
    requires pages != []
  {
    if |pages| == 1 then pages[0] else pages[0] + [FORM_FEED] + Flat(pages[1..])
  }

  lemma SpelledFirst(job: seq<Directive>, shifted: bool, tail: seq<byte>)
    requires Stream(job, shifted) && job != []
    ensures Fits(job[0], shifted) && (job[0].Format? ==> |job[0].parameters| <= 254)
    ensures Spelled(job, shifted) + tail
         == Spelling(job[0]) + (Spelled(job[1..], Shifted(job[0], shifted)) + tail)
  {
  }

  lemma OnePage(page: seq<string>)
    ensures Flat([page]) == page
  {
  }

  lemma FlatFeed(before: seq<string>, page: seq<string>, rest: seq<seq<string>>)
    requires rest != []
    ensures before + Flat([page] + rest) == before + page + [FORM_FEED] + Flat(rest)
  {
    assert ([page] + rest)[1..] == rest;
  }

  lemma {:induction false} PrintsSheets(job: seq<Directive>, shifted: bool, before: seq<string>, rows: seq<string>,
                                        text: string, tail: seq<byte>, ascii: Charset)
    requires Stream(job, shifted) && (tail == [] || CutOff(tail, ShiftAfter(job, shifted)))
    ensures var p := Page(text, shifted, |rows|, before + rows);
            Finish(Render(p, Spelled(job, shifted) + tail, ascii, false), false).lines
            == before + Flat(Sheets(job, rows, text, ascii))
    decreases |job|
  {
    hide Perform, Command, Spelling, Special, Ink, Named, CutOff, Render, Finish, Flat, Below, LineOf;
    var p := Page(text, shifted, |rows|, before + rows);
    var closed := rows + LineOf(text);
    if job == [] {
      PrintsLast(p, tail, ascii);
      OnePage(closed);
      assert before + rows + LineOf(text) == before + closed;
      assert [] + tail == tail;
    } else {
      var d, next := job[0], Shifted(job[0], shifted);
      var rest := Spelled(job[1..], next) + tail;
      SpelledFirst(job, shifted, tail);
      hide Spelled, Fits;
      RendersFirst(p, d, rest, ascii, false);
      if !EndsLine(d) {
        Inks(p, d, ascii, false);
        PrintsSheets(job[1..], next, before, rows, text + Ink(d, ascii), tail, ascii);
      } else {
        EndsOnPaper(p, d, before, rows, ascii);
        if d.Feed? {
          PrintsSheets(job[1..], next, before + closed + [FORM_FEED], [], "", tail, ascii);
          assert before + closed + [FORM_FEED] + [] == before + closed + [FORM_FEED];
          FlatFeed(before, closed, Sheets(job[1..], [], "", ascii));
        } else {
          PrintsSheets(job[1..], next, before, Below(d, closed), "", tail, ascii);
        }
      }
    }
  }

  lemma PrintsLast(p: Page, tail: seq<byte>, ascii: Charset)
    requires tail == [] || CutOff(tail, p.ideographic)
    ensures Finish(Render(p, tail, ascii, false), false).lines == p.lines + LineOf(p.line)
  {
    hide Perform, Hex;
    if tail != [] {
      CutOffIsNone(tail, p.ideographic);
    }
    assert p.lines + [] == p.lines;
  }

  lemma {:induction false} RowsAre(a: seq<string>, b: seq<string>)
    ensures Lines(a + b) == Rows(a) + Lines(b)
  {
    if a == [] {
      assert a + b == b;
    } else {
      RowsAre(a[1..], b);
      assert (a + b)[1..] == a[1..] + b;
    }
  }

  lemma {:induction false} PrintoutIs(pages: seq<seq<string>>)
    requires pages != []
    ensures Lines(Flat(pages)) == Printout(pages)
  {
    if |pages| == 1 {
      RowsAre(pages[0], []);
      assert pages[0] + [] == pages[0];
    } else {
      PrintoutIs(pages[1..]);
      var rest := Flat(pages[1..]);
      RowsAre(pages[0], [FORM_FEED] + rest);
      assert pages[0] + [FORM_FEED] + rest == pages[0] + ([FORM_FEED] + rest);
      assert ([FORM_FEED] + rest)[1..] == rest;
    }
  }

  // The text file of a job, whatever its bytes: its pages, row by row.
  lemma FilePrintsPages(job: seq<Directive>, tail: seq<byte>, ascii: Charset)
    requires Stream(job, false) && (tail == [] || CutOff(tail, ShiftAfter(job, false)))
    ensures Text(Spelled(job, false) + tail, ascii) == Printout(Sheets(job, [], "", ascii))
  {
    hide Render, Spelled, Finish, Stream, CutOff;
    PrintsSheets(job, false, [], [], "", tail, ascii);
    var none: seq<string> := [];
    assert none + none == none;
    assert [] + Flat(Sheets(job, [], "", ascii)) == Flat(Sheets(job, [], "", ascii));
    PrintoutIs(Sheets(job, [], "", ascii));
  }

  // ---- where the text lies ----------------------------------------------------------

  // A line of text on a row of a page, rows counted from 1.
  datatype Placement = Placement(page: nat, row: nat, text: string)

  // The pieces of text of a job and where they lie: a piece is all the ink up
  // to the next directive that ends a line, on the row after the last one;
  // 34 C4 n moves down to row n unless the page is past it, and a form feed
  // moves to row 1 of the next page.
  ghost function Placements(job: seq<Directive>, page: nat, row: nat, text: string, ascii: Charset): seq<Placement>
    decreases |job|
  {
    var piece := if text == "" then [] else [Placement(page, row, text)];
    var below := if text == "" then row else row + 1;
    if job == [] then piece
    else if !EndsLine(job[0]) then Placements(job[1..], page, row, text + Ink(job[0], ascii), ascii)
    else if job[0].Feed? then piece + Placements(job[1..], page + 1, 1, "", ascii)
    else piece + Placements(job[1..], page,
                            if job[0].Row? && below < Named(job[0].n) then Named(job[0].n) else below, "", ascii)
  }

  ghost predicate PlacedAt(places: seq<Placement>, page: nat, row: nat) {
    exists i | 0 <= i < |places| :: places[i].page == page && places[i].row == row
  }

  // Every piece stands where it lies, and every other row printed after the
  // first `done` of the first page is blank.
  ghost predicate Stands(pages: seq<seq<string>>, first: nat, at: Placement) {
    && first <= at.page < first + |pages| && 1 <= at.row <= |pages[at.page - first]|
    && pages[at.page - first][at.row - 1] == at.text
  }

  ghost predicate Laid(pages: seq<seq<string>>, first: nat, done: nat, places: seq<Placement>) {
    && (forall i | 0 <= i < |places| :: Stands(pages, first, places[i]))
    && (forall p, r | 0 <= p < |pages| && 0 <= r < |pages[p]| && (p > 0 || r >= done) ::
          PlacedAt(places, first + p, r + 1) || pages[p][r] == "")
  }

  ghost function Feeds(job: seq<Directive>): nat {
    if job == [] then 0 else (if job[0].Feed? then 1 else 0) + Feeds(job[1..])
  }

  lemma PlacedIn(a: seq<Placement>, b: seq<Placement>, page: nat, row: nat)
    ensures PlacedAt(a + b, page, row) <==> PlacedAt(a, page, row) || PlacedAt(b, page, row)
  {
    var all := a + b;
    if PlacedAt(a, page, row) {
      var i :| 0 <= i < |a| && a[i].page == page && a[i].row == row;
      assert all[i] == a[i];
    }
    if PlacedAt(b, page, row) {
      var i :| 0 <= i < |b| && b[i].page == page && b[i].row == row;
      assert all[|a| + i] == b[i];
    }
  }

  ghost function Piece(page: nat, row: nat, text: string): seq<Placement> {
    if text == "" then [] else [Placement(page, row, text)]
  }

  // The open line closed, with blank rows under it, on a page laid from there.
  lemma PieceClosed(pages: seq<seq<string>>, page: nat, rows: seq<string>, text: string, under: nat,
                    places: seq<Placement>)
    requires pages != [] && rows + LineOf(text) + Blank(under) <= pages[0]
    requires Laid(pages, page, |rows + LineOf(text)| + under, places)
    ensures Laid(pages, page, |rows|, Piece(page, |rows| + 1, text) + places)
  {
    var closed, piece := rows + LineOf(text) + Blank(under), Piece(page, |rows| + 1, text);
    if text != "" {
      assert pages[0][|rows|] == closed[|rows|] == text;
      assert Stands(pages, page, piece[0]);
    }
    forall p, r | 0 <= p < |pages| && 0 <= r < |pages[p]| && (p > 0 || r >= |rows|)
      ensures PlacedAt(piece + places, page + p, r + 1) || pages[p][r] == ""
    {
      PlacedIn(piece, places, page + p, r + 1);
      if p == 0 && r < |closed| {
        assert pages[0][r] == closed[r];
        if r == |rows| && text != "" {
          assert piece[0].page == page + p && piece[0].row == r + 1;
        }
      }
    }
  }

  lemma PageTurned(page: nat, rows: seq<string>, text: string, rest: seq<seq<string>>, places: seq<Placement>)
    requires Laid(rest, page + 1, 0, places)
    ensures Laid([rows + LineOf(text)] + rest, page, |rows|, Piece(page, |rows| + 1, text) + places)
  {
    var closed, piece := rows + LineOf(text), Piece(page, |rows| + 1, text);
    var pages, all := [closed] + rest, piece + places;
    if text != "" {
      assert Stands(pages, page, piece[0]);
    }
    forall i | 0 <= i < |all|
      ensures Stands(pages, page, all[i])
    {
      if i >= |piece| {
        assert Stands(rest, page + 1, places[i - |piece|]);
        assert pages[all[i].page - page] == rest[all[i].page - page - 1];
      }
    }
    forall p, r | 0 <= p < |pages| && 0 <= r < |pages[p]| && (p > 0 || r >= |rows|)
      ensures PlacedAt(all, page + p, r + 1) || pages[p][r] == ""
    {
      PlacedIn(piece, places, page + p, r + 1);
      if p == 0 {
        assert piece[0].page == page && piece[0].row == r + 1;
      } else {
        assert pages[p] == rest[p - 1] && page + 1 + (p - 1) == page + p;
      }
    }
  }

  // On every page of every job each piece of text stands on its row, whole,
  // and the other rows are blank; there is one page more than form feeds.
  lemma {:induction false} TextLies(job: seq<Directive>, page: nat, rows: seq<string>, text: string, ascii: Charset)
    ensures var pages := Sheets(job, rows, text, ascii);
            && |pages| == 1 + Feeds(job) && rows <= pages[0]
            && Laid(pages, page, |rows|, Placements(job, page, |rows| + 1, text, ascii))
    decreases |job|
  {
    hide Laid, Ink, Named;
    var closed := rows + LineOf(text);
    if job == [] {
      LastPage(page, rows, text);
    } else if !EndsLine(job[0]) {
      TextLies(job[1..], page, rows, text + Ink(job[0], ascii), ascii);
    } else if job[0].Feed? {
      TextLies(job[1..], page + 1, [], "", ascii);
      PageTurned(page, rows, text, Sheets(job[1..], [], "", ascii), Placements(job[1..], page + 1, 1, "", ascii));
    } else {
      var next := Below(job[0], closed);
      TextLies(job[1..], page, next, "", ascii);
      assert next == closed + Blank(|next| - |closed|);
      PieceClosed(Sheets(job[1..], next, "", ascii), page, rows, text, |next| - |closed|,
                  Placements(job[1..], page, |next| + 1, "", ascii));
    }
  }

  lemma LastPage(page: nat, rows: seq<string>, text: string)
    ensures Laid([rows + LineOf(text)], page, |rows|, Piece(page, |rows| + 1, text))
  {
    var none: seq<seq<string>>, nowhere: seq<Placement> := [], [];
    assert Laid(none, page + 1, 0, nowhere);
    PageTurned(page, rows, text, none, nowhere);
    assert [rows + LineOf(text)] + none == [rows + LineOf(text)];
    assert Piece(page, |rows| + 1, text) + nowhere == Piece(page, |rows| + 1, text);
  }

  // ---- the console --------------------------------------------------------------------

  function TwoDigits(b: byte): string {
    ["0123456789ABCDEF"[b / 16], "0123456789ABCDEF"[b % 16]]
  }

  function Title(operation: byte): string {
    if operation == 0xC1 then "set horizontal format"
    else if operation == 0xC2 then "set vertical format"
    else if operation == 0xC6 then "set line density"
    else if operation == 0xC8 then "set graphic error action"
    else if operation == 0xD1 then "set text orientation"
    else if operation == 0xD2 then "set presentation format"
    else if operation == 0xD4 then "begin underscore"
    else if operation == 0xFE then "load alternate character"
    else "format control " + TwoDigits(operation)
  }

  function Spaced(parameters: seq<byte>): string {
    if parameters == [] then "" else " " + TwoDigits(parameters[0]) + Spaced(parameters[1..])
  }

  function Listed(parameters: seq<byte>): string {
    if parameters == [] then "" else ": " + TwoDigits(parameters[0]) + Spaced(parameters[1..])
  }

  // What the console says of a directive, on a line of its own.
  function Remark(d: Directive): seq<string> {
    match d
    case Feed => ["\U{000C}"]
    case Position(operation, argument) =>
      ["[presentation position " + TwoDigits(operation) + ": " + TwoDigits(argument) + "]"]
    case Format(operation, parameters) => ["[" + Title(operation) + Listed(parameters) + "]"]
    case NoFormat(operation) => ["[invalid format control " + TwoDigits(operation) + "]"]
    case Other(code) => ["[control " + TwoDigits(code) + "]"]
    case _ => []
  }

  // The lines of a console in stream order: each piece of text, then the
  // remark on what ended it.
  ghost function Shown(job: seq<Directive>, text: string, ascii: Charset): seq<string>
    decreases |job|
  {
    if job == [] then LineOf(text)
    else if EndsLine(job[0]) then LineOf(text) + Remark(job[0]) + Shown(job[1..], "", ascii)
    else Shown(job[1..], text + Ink(job[0], ascii), ascii)
  }

  lemma {:induction false} ParametersSpaced(command: seq<byte>, at: nat)
    requires 3 < at <= |command|
    ensures Parameters(command, at) == Spaced(command[at..])
    decreases |command| - at
  {
    if at < |command| {
      ParametersSpaced(command, at + 1);
      assert command[at..][1..] == command[at + 1..];
    }
  }

  lemma TitleShown(command: seq<byte>)
    requires |command| >= 3
    ensures FormatText(command) == "[" + Title(command[1]) + Parameters(command, 3) + "]"
  {
    NameIsTitle(command[1]);
    hide Parameters, Hex, TwoDigits, FormatName, Title;
    if FormatName(command[1]).None? {
      Prefixed(Hex(command[1]));
    }
  }

  lemma NameIsTitle(operation: byte)
    ensures match FormatName(operation)
            case Some(name) => name == Title(operation)
            case None => Title(operation) == "format control " + Hex(operation)
  {
  }

  lemma Prefixed(b: string)
    ensures "[format control " + b == "[" + ("format control " + b)
  {
  }

  lemma FormatRemark(operation: byte, parameters: seq<byte>)
    requires |parameters| <= 254
    ensures FormatText(Spelling(Format(operation, parameters))) == "[" + Title(operation) + Listed(parameters) + "]"
  {
    hide FormatText, Title;
    var command := Spelling(Format(operation, parameters));
    TitleShown(command);
    assert command[3..] == parameters;
    if parameters != [] {
      ParametersSpaced(command, 4);
      assert command[4..] == parameters[1..];
    }
  }

  lemma EndsOnConsole(p: Page, d: Directive, ascii: Charset)
    requires Fits(d, p.ideographic) && EndsLine(d)
    ensures Command(Spelling(d), p.ideographic) == Some(|Spelling(d)|)
    ensures var q := Perform(p, Spelling(d), ascii, true);
            q.line == "" && q.ideographic == p.ideographic && q.lines == p.lines + LineOf(p.line) + Remark(d)
  {
    SpellingIsCommand(d, p.ideographic, []);
    assert p.lines + [] == p.lines;
    match d {
      case Format(operation, parameters) => FormatRemark(operation, parameters);
      case _ =>
    }
    hide FormatText, Title, Listed;
  }

  lemma {:induction false} ConsoleLines(p: Page, job: seq<Directive>, tail: seq<byte>, ascii: Charset)
    requires Stream(job, p.ideographic) && (tail == [] || CutOff(tail, ShiftAfter(job, p.ideographic)))
    ensures Finish(Render(p, Spelled(job, p.ideographic) + tail, ascii, true), true).lines
         == p.lines + Shown(job, p.line, ascii)
            + if tail == [] then [] else ["[truncated control " + TwoDigits(tail[0]) + "]"]
    decreases |job|
  {
    hide Perform, Command, Spelling, Special, Ink, CutOff, Render, Finish, LineOf, Remark, TwoDigits;
    if job == [] {
      assert [] + tail == tail;
      ConsoleLast(p, tail, ascii);
    } else {
      var d, next := job[0], Shifted(job[0], p.ideographic);
      SpelledFirst(job, p.ideographic, tail);
      RendersFirst(p, d, Spelled(job[1..], next) + tail, ascii, true);
      if EndsLine(d) {
        EndsOnConsole(p, d, ascii);
      } else {
        Inks(p, d, ascii, true);
      }
      ConsoleLines(Perform(p, Spelling(d), ascii, true), job[1..], tail, ascii);
      Appended(p.lines, LineOf(p.line), Remark(d), Shown(job[1..], "", ascii));
    }
  }

  lemma Appended<T>(a: seq<T>, b: seq<T>, c: seq<T>, d: seq<T>)
    ensures a + b + c + d == a + (b + c + d)
  {
  }

  lemma ConsoleLast(p: Page, tail: seq<byte>, ascii: Charset)
    requires tail == [] || CutOff(tail, p.ideographic)
    ensures Finish(Render(p, tail, ascii, true), true).lines
         == p.lines + LineOf(p.line)
            + if tail == [] then [] else ["[truncated control " + TwoDigits(tail[0]) + "]"]
  {
    hide Perform;
    if tail != [] {
      CutOffIsNone(tail, p.ideographic);
    }
    assert p.lines + [] == p.lines && p.lines + LineOf(p.line) + [] == p.lines + LineOf(p.line);
  }

  // The console of a job, however its bytes are cut into records: every piece
  // of text and every remark in stream order, and nothing else.
  lemma ConsoleShows(job: seq<Directive>, tail: seq<byte>, chunks: seq<seq<byte>>, ascii: Charset)
    requires Stream(job, false) && (tail == [] || CutOff(tail, ShiftAfter(job, false)))
    requires Concat(chunks) == Spelled(job, false) + tail
    ensures Job(BLANK, chunks, ascii, true).lines
         == Shown(job, "", ascii) + if tail == [] then [] else ["[truncated control " + TwoDigits(tail[0]) + "]"]
  {
    hide Render, Finish, Spelled, Stream, CutOff, Shown, TwoDigits;
    ChunkingIsInvisible(chunks, ascii);
    ConsoleLines(Page("", false, 0, []), job, tail, ascii);
    assert [] + Shown(job, "", ascii) == Shown(job, "", ascii);
  }
}
