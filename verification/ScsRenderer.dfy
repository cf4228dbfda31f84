// The printer's SCS text renderer: output-data records arrive in arbitrary
// chunks, and a command split across two of them is carried over.
module ScsRenderer {
  import opened Bytes

  type Charset = byte -> string

  const FORM_FEED: string := "\U{000C}"

  // What is carried inside one rendering call.  `row` counts the lines of the
  // current page; it is not carried from call to call.
  datatype Page = Page(line: string, ideographic: bool, row: nat, lines: seq<string>)

  function HexDigit(n: nat): char
    requires n < 16
  {
    "0123456789ABCDEF"[n]
  }

  function Hex(b: byte): string {
    [HexDigit(b / 0x10), HexDigit(b % 0x10)]
  }

  function FormatName(operation: byte): Option<string> {
    match operation
    case 0xC1 => Some("set horizontal format")
    case 0xC2 => Some("set vertical format")
    case 0xC6 => Some("set line density")
    case 0xC8 => Some("set graphic error action")
    case 0xD1 => Some("set text orientation")
    case 0xD2 => Some("set presentation format")
    case 0xD4 => Some("begin underscore")
    case 0xFE => Some("load alternate character")
    case _ => None
  }

  // ---- how long a command is ----------------------------------------------------

  // The length of the first command, when enough bytes are there to tell and
  // to hold it.
  function Command(bytes: seq<byte>, ideographic: bool): (n: Option<nat>)
    requires bytes != []
    ensures n.Some? ==> 0 < n.value <= |bytes|
  {
    var b := bytes[0];
    if b == 0x34 then if |bytes| < 3 then None else Some(3)
    else if b == 0x2B then
      if |bytes| < 3 then None
      else if bytes[2] < 1 then Some(3)
      else if 1 + bytes[2] >= |bytes| then None
      else Some(2 + bytes[2] as nat)
    else if b == 0x0C || b == 0x0D || b == 0x0E || b == 0x0F || b == 0xFF then Some(1)
    else if ideographic then if |bytes| < 2 then None else Some(2)
    else Some(1)
  }

  // Later bytes never change what a complete command is.
  lemma CommandIsPrefix(a: seq<byte>, b: seq<byte>, ideographic: bool)
    requires a != [] && Command(a, ideographic).Some?
    ensures Command(a + b, ideographic) == Command(a, ideographic)
    ensures (a + b)[..Command(a, ideographic).value] == a[..Command(a, ideographic).value]
    ensures (a + b)[Command(a, ideographic).value..] == a[Command(a, ideographic).value..] + b
  {
  }

  // ---- what a command does ---------------------------------------------------------

  function FinishLine(p: Page): Page {
    Page("", p.ideographic, p.row + 1, p.lines + [p.line])
  }

  function FinishText(p: Page): Page {
    if p.line != "" then FinishLine(p) else p
  }

  function Control(p: Page, text: string, diagnostics: bool): Page {
    var f := FinishText(p);
    if diagnostics then f.(lines := f.lines + [text]) else f
  }

  function Advance(p: Page, row: nat): Page
    decreases row - p.row
  {
    if p.row < row then Advance(FinishLine(p), row) else p
  }

  function Parameters(bytes: seq<byte>, from_: nat): string
    requires from_ <= |bytes|
    decreases |bytes| - from_
  {
    if from_ == |bytes| then ""
    else (if from_ == 3 then ": " else " ") + Hex(bytes[from_]) + Parameters(bytes, from_ + 1)
  }

  function FormatText(command: seq<byte>): string
    requires |command| >= 3
  {
    (if FormatName(command[1]).Some? then "[" + FormatName(command[1]).value
     else "[format control " + Hex(command[1]))
    + Parameters(command, 3) + "]"
  }

  function Spaces(n: nat): string {
    seq(n, _ => ' ')
  }

  function Perform(p: Page, command: seq<byte>, ascii: Charset, diagnostics: bool): Page
    requires command != [] && Command(command, p.ideographic) == Some(|command|)
  {
    var b := command[0];
    if b == 0x0C then
      var f := FinishText(p);
      f.(row := 0, lines := f.lines + [FORM_FEED])
    else if b == 0x0D then FinishText(p)
    else if b == 0x0E then p.(ideographic := true)
    else if b == 0x0F then p.(ideographic := false)
    else if b == 0x34 then
      if command[1] == 0xC8 then p.(line := p.line + Spaces(command[2]))
      else if command[1] == 0xC4 then
        if diagnostics then FinishText(p) else Advance(FinishText(p), if command[2] > 0 then command[2] - 1 else 0)
      else Control(p, "[presentation position " + Hex(command[1]) + ": " + Hex(command[2]) + "]", diagnostics)
    else if b == 0x2B then
      if command[2] < 1 then Control(p, "[invalid format control " + Hex(command[1]) + "]", diagnostics)
      else Control(p, FormatText(command), diagnostics)
    else if b == 0xFF then p.(line := p.line + "?")
    else if p.ideographic then p.(line := p.line + "?")
    else if b < 0x40 then Control(p, "[control " + Hex(b) + "]", diagnostics)
    else p.(line := p.line + ascii(b))
  }

  // A command taken alone is the same command.
  lemma CommandAlone(bytes: seq<byte>, ideographic: bool)
    requires bytes != [] && Command(bytes, ideographic).Some?
    ensures var n := Command(bytes, ideographic).value;
            bytes[..n] != [] && Command(bytes[..n], ideographic) == Some(|bytes[..n]|)
  {
  }

  datatype Rendered = Rendered(page: Page, pending: seq<byte>)

  function Render(p: Page, bytes: seq<byte>, ascii: Charset, diagnostics: bool): Rendered
    decreases |bytes|
  {
    if bytes == [] then Rendered(p, [])
    else
      match Command(bytes, p.ideographic)
      case None => Rendered(p, bytes)
      case Some(n) =>
        CommandAlone(bytes, p.ideographic);
        Render(Perform(p, bytes[..n], ascii, diagnostics), bytes[n..], ascii, diagnostics)
  }

  // The end of the stream: a partial command is named, and text is finished.
  function Finish(r: Rendered, diagnostics: bool): Page {
    var p := if r.pending != [] then Control(r.page, "[truncated control " + Hex(r.pending[0]) + "]", diagnostics)
             else r.page;
    FinishText(p)
  }

  // ---- chunking ----------------------------------------------------------------------

  // Rendering a then b, with what a left pending in front of b, is rendering
  // a + b.
  lemma {:induction false} RenderSplits(p: Page, a: seq<byte>, b: seq<byte>, ascii: Charset, diagnostics: bool)
    ensures var first := Render(p, a, ascii, diagnostics);
            Render(p, a + b, ascii, diagnostics) == Render(first.page, first.pending + b, ascii, diagnostics)
    decreases |a|
  {
    if a == [] {
      assert a + b == b && [] + b == b;
    } else if Command(a, p.ideographic).Some? {
      var n := Command(a, p.ideographic).value;
      CommandIsPrefix(a, b, p.ideographic);
      CommandAlone(a, p.ideographic);
      RenderSplits(Perform(p, a[..n], ascii, diagnostics), a[n..], b, ascii, diagnostics);
    }
  }

  // The console carried from call to call.
  datatype Console = Console(line: string, ideographic: bool, pending: seq<byte>)

  const BLANK: Console := Console("", false, [])

  datatype Printed = Printed(console: Console, lines: seq<string>)

  function Send(c: Console, data: seq<byte>, ascii: Charset, diagnostics: bool): Printed {
    var r := Render(Page(c.line, c.ideographic, 0, []), c.pending + data, ascii, diagnostics);
    Printed(Console(r.page.line, r.page.ideographic, r.pending), r.page.lines)
  }

  function End(c: Console, ascii: Charset, diagnostics: bool): Printed {
    var r := Render(Page(c.line, c.ideographic, 0, []), c.pending, ascii, diagnostics);
    var p := Finish(r, diagnostics);
    Printed(Console(p.line, false, []), p.lines)
  }

  // One job: any number of records, then the end of the job.
  function Job(c: Console, chunks: seq<seq<byte>>, ascii: Charset, diagnostics: bool): Printed
    decreases |chunks|
  {
    if chunks == [] then End(c, ascii, diagnostics)
    else
      var first := Send(c, chunks[0], ascii, diagnostics);
      var rest := Job(first.console, chunks[1..], ascii, diagnostics);
      Printed(rest.console, first.lines + rest.lines)
  }

  function Concat(chunks: seq<seq<byte>>): seq<byte> {
    if chunks == [] then [] else chunks[0] + Concat(chunks[1..])
  }

  // The whole stream rendered in one call.
  function Whole(data: seq<byte>, ascii: Charset, diagnostics: bool): seq<string> {
    Finish(Render(Page("", false, 0, []), data, ascii, diagnostics), diagnostics).lines
  }

  // With diagnostics on, the lines already printed and the row of the page
  // play no part in what comes next.
  ghost predicate Follows(p: Page, q: Page, before: seq<string>) {
    q.line == p.line && q.ideographic == p.ideographic && q.lines == before + p.lines
  }

  lemma PerformFollows(p: Page, q: Page, before: seq<string>, command: seq<byte>, ascii: Charset)
    requires Follows(p, q, before) && command != [] && Command(command, p.ideographic) == Some(|command|)
    ensures Follows(Perform(p, command, ascii, true), Perform(q, command, ascii, true), before)
  {
    hide FormatText, Hex, Spaces;
  }

  lemma {:induction false} RenderFollows(p: Page, q: Page, before: seq<string>, bytes: seq<byte>, ascii: Charset)
    requires Follows(p, q, before)
    ensures var r, s := Render(p, bytes, ascii, true), Render(q, bytes, ascii, true);
            Follows(r.page, s.page, before) && r.pending == s.pending
    decreases |bytes|
  {
    if bytes != [] && Command(bytes, p.ideographic).Some? {
      var n := Command(bytes, p.ideographic).value;
      CommandAlone(bytes, p.ideographic);
      PerformFollows(p, q, before, bytes[..n], ascii);
      RenderFollows(Perform(p, bytes[..n], ascii, true), Perform(q, bytes[..n], ascii, true), before, bytes[n..],
                    ascii);
    }
  }

  // From any carried console, a job's lines are those of everything pending
  // and sent rendered at once, and it ends with nothing carried.
  lemma {:induction false} JobIsWhole(c: Console, chunks: seq<seq<byte>>, ascii: Charset)
    ensures var p := Finish(Render(Page(c.line, c.ideographic, 0, []), c.pending + Concat(chunks), ascii, true), true);
            Job(c, chunks, ascii, true) == Printed(BLANK, p.lines)
    decreases |chunks|
  {
    hide Perform, Command, Render, Control, Hex;
    var start := Page(c.line, c.ideographic, 0, []);
    if chunks == [] {
      assert c.pending + [] == c.pending;
    } else {
      var rest := Concat(chunks[1..]);
      var first := Render(start, c.pending + chunks[0], ascii, true);
      var next := Page(first.page.line, first.page.ideographic, 0, []);
      JobIsWhole(Send(c, chunks[0], ascii, true).console, chunks[1..], ascii);
      assert c.pending + Concat(chunks) == (c.pending + chunks[0]) + rest;
      RenderSplits(start, c.pending + chunks[0], rest, ascii, true);
      assert first.page.lines + [] == first.page.lines;
      RenderFollows(next, first.page, first.page.lines, first.pending + rest, ascii);
      FinishFollows(Render(next, first.pending + rest, ascii, true),
                    Render(first.page, first.pending + rest, ascii, true),
                    first.page.lines);
    }
  }

  lemma FinishFollows(r: Rendered, s: Rendered, before: seq<string>)
    requires Follows(r.page, s.page, before) && r.pending == s.pending
    ensures Finish(s, true).lines == before + Finish(r, true).lines
  {
  }

  // However a job's bytes are cut into records, its console lines are those
  // of the whole stream, and the carried line and pending bytes end empty.
  lemma ChunkingIsInvisible(chunks: seq<seq<byte>>, ascii: Charset)
    ensures Job(BLANK, chunks, ascii, true) == Printed(BLANK, Whole(Concat(chunks), ascii, true))
  {
    JobIsWhole(BLANK, chunks, ascii);
    assert [] + Concat(chunks) == Concat(chunks);
  }

  // And so for any two ways of cutting them.
  lemma AnyTwoCutsAgree(a: seq<seq<byte>>, b: seq<seq<byte>>, ascii: Charset)
    requires Concat(a) == Concat(b)
    ensures Job(BLANK, a, ascii, true) == Job(BLANK, b, ascii, true)
  {
    ChunkingIsInvisible(a, ascii);
    ChunkingIsInvisible(b, ascii);
  }

  // ---- a printer that writes a file a job ----------------------------------------------

  // A text or PDF printer holds every record of a job and renders them once,
  // when the job ends.  A file that cannot be written leaves the bytes held.
  datatype Spool = Spool(held: seq<byte>, files: seq<string>)

  datatype SpoolStep = Data(bytes: seq<byte>) | EndOfJob(writable: bool)

  // The text of a file: each line closed by a newline.
  function Lines(lines: seq<string>): string {
    if lines == [] then "" else lines[0] + "\n" + Lines(lines[1..])
  }

  function Text(job: seq<byte>, ascii: Charset): string {
    Lines(Whole(job, ascii, false))
  }

  function Spooled(s: Spool, step: SpoolStep, ascii: Charset): Spool {
    match step
    case Data(bytes) => s.(held := s.held + bytes)
    case EndOfJob(writable) =>
      if s.held == [] || !writable then s else Spool([], s.files + [Text(s.held, ascii)])
  }

  function SpoolRun(s: Spool, steps: seq<SpoolStep>, ascii: Charset): Spool
    decreases |steps|
  {
    if steps == [] then s else SpoolRun(Spooled(s, steps[0], ascii), steps[1..], ascii)
  }

  // The bytes sent, cut where a job ended and its file could be written; the
  // last piece is what came after the last such end.
  function Pieces(steps: seq<SpoolStep>): (r: seq<seq<byte>>)
    ensures r != []
  {
    if steps == [] then [[]]
    else
      var rest := Pieces(steps[1..]);
      match steps[0]
      case Data(bytes) => [bytes + rest[0]] + rest[1..]
      case EndOfJob(writable) => if writable then [[]] + rest else rest
  }

  function Sent(steps: seq<SpoolStep>): seq<byte> {
    if steps == [] then []
    else (if steps[0].Data? then steps[0].bytes else []) + Sent(steps[1..])
  }

  // One file for each piece that is not empty.
  function Texts(pieces: seq<seq<byte>>, ascii: Charset): seq<string> {
    if pieces == [] then []
    else (if pieces[0] == [] then [] else [Text(pieces[0], ascii)]) + Texts(pieces[1..], ascii)
  }

  // No byte is lost, repeated or moved between the pieces.
  lemma {:induction false} PiecesConserve(steps: seq<SpoolStep>)
    ensures Concat(Pieces(steps)) == Sent(steps)
  {
    if steps != [] {
      PiecesConserve(steps[1..]);
      var rest := Pieces(steps[1..]);
      match steps[0] {
        case Data(bytes) =>
          assert ([bytes + rest[0]] + rest[1..])[1..] == rest[1..];
          assert bytes + (rest[0] + Concat(rest[1..])) == bytes + rest[0] + Concat(rest[1..]);
        case EndOfJob(writable) =>
          assert ([[]] + rest)[1..] == rest;
      }
    }
  }

  // What is held goes in front of the first piece.
  function Joined(held: seq<byte>, pieces: seq<seq<byte>>): (r: seq<seq<byte>>)
    requires pieces != []
    ensures r != []
  {
    [held + pieces[0]] + pieces[1..]
  }

  // Every piece but the last is printed, and the last is held.
  function SpoolOf(files: seq<string>, pieces: seq<seq<byte>>, ascii: Charset): Spool
    requires pieces != []
  {
    Spool(pieces[|pieces| - 1], files + Texts(pieces[..|pieces| - 1], ascii))
  }

  lemma PieceAdded(held: seq<byte>, bytes: seq<byte>, rest: seq<seq<byte>>)
    requires rest != []
    ensures Joined(held, [bytes + rest[0]] + rest[1..]) == Joined(held + bytes, rest)
  {
    assert held + (bytes + rest[0]) == held + bytes + rest[0];
  }

  lemma PieceClosed(held: seq<byte>, rest: seq<seq<byte>>, files: seq<string>, ascii: Charset)
    requires rest != []
    ensures Joined(held, [[]] + rest) == [held] + rest && Joined([], rest) == rest
    ensures SpoolOf(files, [held] + rest, ascii)
         == SpoolOf(if held == [] then files else files + [Text(held, ascii)], rest, ascii)
  {
    hide Text;
    var n := |rest| - 1;
    assert held + [] == held && [] + rest[0] == rest[0];
    assert ([held] + rest)[..n + 1] == [held] + rest[..n] && ([held] + rest[..n])[1..] == rest[..n];
  }

  // Over every run of records and job ends, whichever ends fail to write, the
  // files are the renderings of the pieces, and the rest is held.
  lemma {:induction false} SpoolPrintsPieces(s: Spool, steps: seq<SpoolStep>, ascii: Charset)
    ensures SpoolRun(s, steps, ascii) == SpoolOf(s.files, Joined(s.held, Pieces(steps)), ascii)
    decreases |steps|
  {
    hide Text, Joined, SpoolOf;
    if steps == [] {
      NothingSpooled(s, ascii);
    } else {
      var rest := Pieces(steps[1..]);
      SpoolPrintsPieces(Spooled(s, steps[0], ascii), steps[1..], ascii);
      match steps[0] {
        case Data(bytes) => PieceAdded(s.held, bytes, rest);
        case EndOfJob(writable) => PieceClosed(s.held, rest, s.files, ascii);
      }
    }
  }

  lemma NothingSpooled(s: Spool, ascii: Charset)
    ensures SpoolOf(s.files, Joined(s.held, [[]]), ascii) == s
  {
    assert s.held + [] == s.held && s.files + [] == s.files;
  }

  // So two runs that send the same bytes between the ends that were written
  // print the same files, however the bytes are cut into records.
  lemma SpoolCutsAgree(s: Spool, a: seq<SpoolStep>, b: seq<SpoolStep>, ascii: Charset)
    requires Pieces(a) == Pieces(b)
    ensures SpoolRun(s, a, ascii) == SpoolRun(s, b, ascii)
  {
    SpoolPrintsPieces(s, a, ascii);
    SpoolPrintsPieces(s, b, ascii);
  }

  // One job: its file is the rendering of all its records together.
  lemma {:induction false} TextJobIsWhole(s: Spool, chunks: seq<seq<byte>>, ascii: Charset)
    requires s.held + Concat(chunks) != []
    ensures var steps := seq(|chunks|, i requires 0 <= i < |chunks| => Data(chunks[i])) + [EndOfJob(true)];
            SpoolRun(s, steps, ascii) == Spool([], s.files + [Text(s.held + Concat(chunks), ascii)])
    decreases |chunks|
  {
    hide Text;
    var steps := seq(|chunks|, i requires 0 <= i < |chunks| => Data(chunks[i])) + [EndOfJob(true)];
    if chunks == [] {
      assert s.held + [] == s.held && steps[1..] == [];
    } else {
      var more := chunks[1..];
      assert s.held + (chunks[0] + Concat(more)) == s.held + chunks[0] + Concat(more);
      TextJobIsWhole(Spooled(s, steps[0], ascii), more, ascii);
      assert steps[1..] == seq(|more|, i requires 0 <= i < |more| => Data(more[i])) + [EndOfJob(true)];
    }
  }

  // ---- in place -------------------------------------------------------------------

  class PrinterConsole {
    const ascii: Charset
    var line: string
    var ideographic: bool
    var pending: seq<byte>

    ghost function View(): Console
      reads this
    {
      Console(line, ideographic, pending)
    }

    constructor (ascii: Charset)
      ensures View() == BLANK && this.ascii == ascii
    {
      this.ascii, line, ideographic, pending := ascii, "", false, [];
    }

    method RenderBytes(data: seq<byte>, finishStream: bool, diagnostics: bool) returns (lines: seq<string>)
      modifies this
      ensures var start := Page(old(line), old(ideographic), 0, []);
              var r := Render(start, old(pending) + data, ascii, diagnostics);
              if finishStream then
                lines == Finish(r, diagnostics).lines
                && View() == Console(Finish(r, diagnostics).line, r.page.ideographic, [])
              else lines == r.page.lines && View() == Console(r.page.line, r.page.ideographic, r.pending)
    {
      hide Perform, Command, Finish;
      var bytes := pending + data;
      ghost var whole := Render(Page(line, ideographic, 0, []), bytes, ascii, diagnostics);
      lines, pending := [], [];
      var pageRow, at := 0, 0;
      while at < |bytes|
        invariant at <= |bytes|
        invariant pending == [] ==>
                    Render(Page(line, ideographic, pageRow, lines), bytes[at..], ascii, diagnostics) == whole
        invariant pending != [] ==> at == |bytes| && Rendered(Page(line, ideographic, pageRow, lines), pending) == whole
      {
        var size := Command(bytes[at..], ideographic);
        if size == None {
          pending := bytes[at..];
          at := |bytes|;
        } else {
          CommandAlone(bytes[at..], ideographic);
          var command := bytes[at..][..size.value];
          pageRow, lines := PerformCommand(command, pageRow, lines, diagnostics);
          assert bytes[at..][size.value..] == bytes[at + size.value..];
          at := at + size.value;
        }
      }
      assert bytes[|bytes|..] == [];
      if finishStream {
        lines := FinishStream(pageRow, lines, diagnostics);
      }
    }

    method FinishStream(row: nat, printed: seq<string>, diagnostics: bool) returns (lines: seq<string>)
      modifies this`line, this`pending
      ensures var p := Finish(Rendered(Page(old(line), ideographic, row, printed), old(pending)), diagnostics);
              lines == p.lines && line == p.line && pending == []
    {
      hide Hex;
      var pageRow := row;
      lines := printed;
      if pending != [] {
        pageRow, lines := ShowControl("[truncated control " + Hex(pending[0]) + "]", pageRow, lines, diagnostics);
        pending := [];
      }
      pageRow, lines := EndText(pageRow, lines);
    }

    method EndText(row: nat, printed: seq<string>) returns (pageRow: nat, lines: seq<string>)
      modifies this`line
      ensures Page(line, ideographic, pageRow, lines) == FinishText(Page(old(line), ideographic, row, printed))
    {
      pageRow, lines := row, printed;
      if line != "" {
        lines, line, pageRow := lines + [line], "", pageRow + 1;
      }
    }

    method ShowControl(text: string, row: nat, printed: seq<string>, diagnostics: bool)
      returns (pageRow: nat, lines: seq<string>)
      modifies this`line
      ensures Page(line, ideographic, pageRow, lines)
           == Control(Page(old(line), ideographic, row, printed), text, diagnostics)
    {
      pageRow, lines := EndText(row, printed);
      if diagnostics {
        lines := lines + [text];
      }
    }

    method PerformCommand(command: seq<byte>, row: nat, printed: seq<string>, diagnostics: bool)
      returns (pageRow: nat, lines: seq<string>)
      requires command != [] && Command(command, ideographic) == Some(|command|)
      modifies this`line, this`ideographic
      ensures Page(line, ideographic, pageRow, lines)
           == Perform(Page(old(line), old(ideographic), row, printed), command, ascii, diagnostics)
    {
      hide Hex, FormatText, Spaces;
      pageRow, lines := row, printed;
      match command[0] {
        case 0x0C =>
          pageRow, lines := EndText(row, printed);
          lines, pageRow := lines + [FORM_FEED], 0;
        case 0x0D => pageRow, lines := EndText(row, printed);
        case 0x0E => ideographic := true;
        case 0x0F => ideographic := false;
        case 0x34 => pageRow, lines := Position(command[1], command[2], row, printed, diagnostics);
        case 0x2B =>
          var text := if command[2] < 1 then "[invalid format control " + Hex(command[1]) + "]"
                      else FormatText(command);
          pageRow, lines := ShowControl(text, row, printed, diagnostics);
        case 0xFF => line := line + "?";
        case b =>
          if ideographic {
            line := line + "?";
          } else if b < 0x40 {
            pageRow, lines := ShowControl("[control " + Hex(b) + "]", row, printed, diagnostics);
          } else {
            line := line + ascii(b);
          }
      }
    }

    method Position(operation: byte, argument: byte, row: nat, printed: seq<string>, diagnostics: bool)
      returns (pageRow: nat, lines: seq<string>)
      requires Command([0x34, operation, argument], ideographic) == Some(3)
      modifies this`line
      ensures Page(line, ideographic, pageRow, lines)
           == Perform(Page(old(line), ideographic, row, printed), [0x34, operation, argument], ascii, diagnostics)
    {
      hide Hex;
      pageRow, lines := row, printed;
      if operation == 0xC8 {
        line := line + Spaces(argument);
      } else if operation == 0xC4 {
        pageRow, lines := EndText(row, printed);
        if !diagnostics {
          var target := if argument > 0 then argument - 1 else 0;
          ghost var p := Page(line, ideographic, pageRow, lines);
          while pageRow < target
            invariant Advance(Page(line, ideographic, pageRow, lines), target) == Advance(p, target)
          {
            lines, line, pageRow := lines + [line], "", pageRow + 1;
          }
        }
      } else {
        pageRow, lines := ShowControl("[presentation position " + Hex(operation) + ": " + Hex(argument) + "]", row,
                                      printed, diagnostics);
      }
    }

    method SendDataStream(data: seq<byte>) returns (lines: seq<string>)
      modifies this
      ensures Printed(View(), lines) == Send(old(View()), data, ascii, true)
    {
      lines := RenderBytes(data, false, true);
    }

    method EndJob() returns (lines: seq<string>)
      modifies this
      ensures Printed(View(), lines) == End(old(View()), ascii, true)
    {
      lines := RenderBytes([], true, true);
      ideographic := false;
      assert old(pending) + [] == old(pending);
    }
  }
  class PrinterSpool {
    const ascii: Charset
    var jobBytes: seq<byte>
    // The files published so far.
    var files: seq<string>

    ghost function View(): Spool
      reads this
    {
      Spool(jobBytes, files)
    }

    constructor (ascii: Charset)
      ensures View() == Spool([], []) && this.ascii == ascii
    {
      this.ascii, jobBytes, files := ascii, [], [];
    }

    method SendDataStream(data: seq<byte>)
      modifies this
      ensures View() == Spooled(old(View()), Data(data), ascii)
    {
      jobBytes := jobBytes + data;
    }

    // The job ends; a failed write leaves it open with its bytes held.
    method EndJob(writable: bool) returns (ended: bool)
      modifies this
      ensures View() == Spooled(old(View()), EndOfJob(writable), ascii)
      ensures ended <==> old(jobBytes) == [] || writable
    {
      if jobBytes == [] {
        return true;
      }
      var text := RenderText();
      if !writable {
        return false;
      }
      files := files + [text];
      jobBytes := [];
      return true;
    }

    method RenderText() returns (text: string)
      ensures text == Text(jobBytes, ascii)
    {
      hide Render, Finish;
      var page := new PrinterConsole(ascii);
      assert [] + jobBytes == jobBytes;
      var lines := page.RenderBytes(jobBytes, true, false);
      text := "";
      for i := 0 to |lines|
        invariant text + Lines(lines[i..]) == Lines(lines)
      {
        assert lines[i..][1..] == lines[i + 1..];
        text := text + lines[i] + "\n";
      }
    }
  }
}
