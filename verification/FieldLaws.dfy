// The decoded display told cell by cell and octet by octet: what a Start of
// Field order says and defines, and what stands at each byte of the record a
// guest reads.
module FieldLaws {
  import opened Bytes
  import opened ConsoleDisplays

  // ---- the order as it is spelled --------------------------------------------------

  datatype Word = Word(first: byte, second: byte)

  ghost function Spelled(words: seq<Word>): seq<byte> {
    if words == [] then [] else [words[0].first, words[0].second] + Spelled(words[1..])
  }

  // A format word has bit 40 on in its first octet; control words begin at 80
  // or above, and one that begins the order must not look like a format word;
  // the attribute is below 80.
  ghost predicate Spelling(format: Option<Word>, words: seq<Word>, attribute: byte) {
    && (format.Some? ==> format.value.first / 0x40 % 2 == 1)
    && (forall i | 0 <= i < |words| :: words[i].first >= 0x80)
    && attribute < 0x80
    && (format.None? ==> (if words == [] then attribute else words[0].first) / 0x40 % 2 == 0)
  }

  // The last control word 80 names the next field.
  ghost function Named(words: seq<Word>): int {
    if words == [] then -1
    else if words[|words| - 1].first == 0x80 then words[|words| - 1].second
    else Named(words[..|words| - 1])
  }

  ghost function NamedFrom(words: seq<Word>, before: int): int {
    if words == [] then before
    else NamedFrom(words[1..], if words[0].first == 0x80 then words[0].second else before)
  }

  lemma {:induction false} NamedEitherWay(words: seq<Word>, before: int)
    ensures NamedFrom(words, before) == if Named(words) == -1 then before else Named(words)
    ensures Named(words) >= -1
    decreases |words|
  {
    if words != [] {
      var n := |words| - 1;
      NamedEitherWay(words[..n], before);
      NamedLast(words, before);
    }
  }

  lemma {:induction false} NamedLast(words: seq<Word>, before: int)
    requires words != []
    ensures var last := words[|words| - 1];
            NamedFrom(words, before)
            == if last.first == 0x80 then last.second as int else NamedFrom(words[..|words| - 1], before)
    decreases |words|
  {
    if |words| > 1 {
      NamedLast(words[1..], if words[0].first == 0x80 then words[0].second else before);
      assert words[1..][..|words| - 2] == words[..|words| - 1][1..];
    }
  }

  lemma {:induction false} WordsRead(data: seq<byte>, i: nat, words: seq<Word>, before: int, rest: seq<byte>)
    requires i <= |data| && data[i..] == Spelled(words) + rest
    requires forall k | 0 <= k < |words| :: words[k].first >= 0x80
    requires rest == [] || rest[0] < 0x80
    ensures ControlWords(data, i, before) == (i + |Spelled(words)|, NamedFrom(words, before))
    decreases |words|
  {
    if words == [] {
      assert rest != [] ==> data[i] == data[i..][0] == rest[0];
    } else {
      var w := words[0];
      assert data[i..][0] == w.first && data[i..][1] == w.second;
      assert data[i + 2..] == data[i..][2..] == Spelled(words[1..]) + rest;
      WordsRead(data, i + 2, words[1..], if w.first == 0x80 then w.second else before, rest);
    }
  }

  // A complete order reads back as it was spelled, whatever follows it.
  lemma OrderReads(before: seq<byte>, format: Option<Word>, words: seq<Word>, attribute: byte, length: Word,
                   rest: seq<byte>)
    requires Spelling(format, words, attribute)
    ensures var head: seq<byte> := if format.Some? then [format.value.first, format.value.second] else [];
            var body := head + Spelled(words) + [attribute, length.first, length.second];
            Decode(before + body + rest, |before|)
            == Order(if format.Some? then (format.value.first as int) * 0x100 + format.value.second else -1,
                     Named(words), Some(attribute), (length.first as int) * 0x100 + length.second,
                     |before| + |body|)
  {
    hide Spelled, Decode, ControlWords, NamedFrom, Named;
    var head: seq<byte> := if format.Some? then [format.value.first, format.value.second] else [];
    var tail := [attribute, length.first, length.second] + rest;
    var data, at := before + (head + Spelled(words) + [attribute, length.first, length.second]) + rest, |before|;
    Parted(before, head, Spelled(words), [attribute, length.first, length.second], rest);
    FirstOctet(words, tail);
    assert head == [] ==> data[at] == data[at..][0];
    assert head != [] ==> data[at] == data[at..][0] && data[at + 1] == data[at..][1];
    WordsRead(data, at + |head|, words, -1, tail);
    NamedEitherWay(words, -1);
    var k := at + |head| + |Spelled(words)|;
    assert data[k] == data[k..][0] && data[k + 1] == data[k..][1] && data[k + 2] == data[k..][2];
    Decoded(data, at, |head|, k, Named(words));
  }

  lemma Parted(before: seq<byte>, head: seq<byte>, words: seq<byte>, last: seq<byte>, rest: seq<byte>)
    ensures var data := before + (head + words + last) + rest;
            && data[|before|..] == head + (words + (last + rest))
            && data[|before| + |head|..] == words + (last + rest)
            && data[|before| + |head| + |words|..] == last + rest
  {
  }

  // The order whose format word, if any, is `head` octets long and whose
  // control words end at k.
  lemma Decoded(data: seq<byte>, at: nat, head: nat, k: nat, named: int)
    requires at + head <= k && k + 2 < |data| && (head == 0 || head == 2)
    requires head == 2 <==> data[at] / 0x40 % 2 == 1
    requires ControlWords(data, at + head, -1) == (k, named)
    ensures Decode(data, at)
         == Order(if head == 2 then (data[at] as int) * 0x100 + data[at + 1] else -1, named, Some(data[k]),
                  (data[k + 1] as int) * 0x100 + data[k + 2], k + 3)
  {
    hide ControlWords;
  }

  lemma FirstOctet(words: seq<Word>, tail: seq<byte>)
    requires tail != []
    ensures (Spelled(words) + tail)[0] == if words == [] then tail[0] else words[0].first
  {
  }

  // ---- the field it defines -----------------------------------------------------------

  // Cells are numbered row by row and wrap at the end of the 24 by 80 screen.
  ghost function CellAt(row: int, col: int): nat {
    ((row - 1) * 80 + (col - 1)) % 1920
  }

  // The attribute takes the cell of the buffer address and the address moves
  // to the next one; the field begins there; an input field is closed by a 20
  // after its last cell; no other cell changes.
  lemma FieldDefined(d: Display, o: Order)
    requires 1 <= d.row <= 24 && 1 <= d.col <= 80
    ensures var e := StartField(d, o);
            var here, last := CellAt(d.row, d.col), (CellAt(d.row, d.col) + 1 + o.length) % 1920;
            && e.firstInput == d.firstInput && 1 <= e.row <= 24 && 1 <= e.col <= 80
            && CellAt(e.row, e.col) == (if o.attribute.Some? then (here + 1) % 1920 else here)
            && e.fields[|e.fields| - 1]
               == Field(d.row, d.col + 1, o.length, o.ffw, o.successor,
                        if o.attribute.Some? then o.attribute.value else 0)
            && (o.ffw >= 0 ==> e.cells[last] == 0x20)
            && (o.attribute.Some? && !(o.ffw >= 0 && last == here) ==> e.cells[here] == o.attribute.value)
            && forall c | 0 <= c < 1920 && !(o.attribute.Some? && c == here) && !(o.ffw >= 0 && c == last) ::
                 e.cells[c] == d.cells[c]
  {
    var p := (d.row - 1) * 80 + (d.col - 1);
    assert 0 <= p < 1920 && Offset(d.row, d.col) == p;
    assert Offset(d.row, d.col + 1) == (p + 1) % 1920;
    WrapsOnce(p + 1, o.length);
  }

  lemma WrapsOnce(p: nat, n: nat)
    ensures (p % 1920 + n) % 1920 == (p + n) % 1920
  {
    var q := p / 1920;
    assert p % 1920 + n == p + n - q * 1920;
  }

  // The table keeps every other field in its order and puts the new one last.
  ghost function Others(fields: seq<Field>, row: int, col: int): seq<Field> {
    if fields == [] then []
    else
      var last := fields[|fields| - 1];
      Others(fields[..|fields| - 1], row, col) + if last.row == row && last.col == col then [] else [last]
  }

  lemma {:induction false} OthersEitherWay(fields: seq<Field>, row: int, col: int)
    ensures Remove(fields, row, col) == Others(fields, row, col)
    decreases |fields|
  {
    if fields != [] {
      var n := |fields| - 1;
      OthersEitherWay(fields[..n], row, col);
      RemoveLast(fields, row, col);
    }
  }

  lemma {:induction false} RemoveLast(fields: seq<Field>, row: int, col: int)
    requires fields != []
    ensures var n := |fields| - 1;
            Remove(fields, row, col)
            == Remove(fields[..n], row, col)
               + if fields[n].row == row && fields[n].col == col then [] else [fields[n]]
    decreases |fields|
  {
    if |fields| > 1 {
      RemoveLast(fields[1..], row, col);
      assert fields[1..][..|fields| - 2] == fields[..|fields| - 1][1..];
    }
  }

  lemma FieldJoins(d: Display, o: Order)
    ensures var e := StartField(d, o);
            e.fields[..|e.fields| - 1] == Others(d.fields, d.row, d.col + 1)
  {
    OthersEitherWay(d.fields, d.row, d.col + 1);
  }

  // ---- the record, byte by byte ----------------------------------------------------------

  // The first input field of the table that has this cell among its own.
  ghost predicate FieldHere(fields: seq<Field>, row: int, col: int, f: Field) {
    exists i | 0 <= i < |fields| ::
      && fields[i] == f && HasCell(f, row, col)
      && forall j | 0 <= j < i :: !HasCell(fields[j], row, col)
  }

  ghost predicate HasCell(f: Field, row: int, col: int) {
    f.ffw >= 0 && exists n: nat | n < f.length :: NthCell(f, n) == CellAt(row, col)
  }

  ghost function NthCell(f: Field, n: nat): nat {
    (CellAt(f.row, f.col) + n) % 1920
  }

  lemma HasCellIs(f: Field, row: int, col: int)
    ensures HasCell(f, row, col) <==> f.IsInput() && Covers(f, row, col)
  {
    CoversIsCell(f, row, col);
    forall n: nat
      ensures Cell(f, n) == NthCell(f, n)
    {
    }
    hide Cell, NthCell, Covers;
    if f.IsInput() && Covers(f, row, col) {
      var n: nat :| n < f.length && Cell(f, n) == Offset(row, col);
      assert NthCell(f, n) == CellAt(row, col);
    }
    if HasCell(f, row, col) {
      var n: nat :| n < f.length && NthCell(f, n) == CellAt(row, col);
      assert Cell(f, n) == Offset(row, col);
    }
  }

  lemma {:induction false} FieldHereIs(fields: seq<Field>, row: int, col: int, f: Field)
    ensures FieldHere(fields, row, col, f) <==> FieldAt(fields, row, col) == Some(f)
    decreases |fields|
  {
    hide Covers, HasCell;
    if fields != [] {
      FieldHereIs(fields[1..], row, col, f);
      HasCellIs(fields[0], row, col);
      if FieldHere(fields, row, col, f) {
        var i :| 0 <= i < |fields| && fields[i] == f && HasCell(f, row, col)
                 && forall j | 0 <= j < i :: !HasCell(fields[j], row, col);
        if i > 0 {
          assert fields[1..][i - 1] == f;
          assert forall j | 0 <= j < i - 1 :: fields[1..][j] == fields[j + 1];
        }
      }
      if HasCell(fields[0], row, col) {
        if fields[0] == f {
          assert fields[0] == f;
        }
      } else if FieldHere(fields[1..], row, col, f) {
        var i :| 0 <= i < |fields[1..]| && fields[1..][i] == f && HasCell(f, row, col)
                 && forall j | 0 <= j < i :: !HasCell(fields[1..][j], row, col);
        assert fields[i + 1] == f;
        forall j | 0 <= j < i + 1
          ensures !HasCell(fields[j], row, col)
        {
          if j > 0 {
            assert fields[1..][j - 1] == fields[j];
          }
        }
      }
    }
  }

  // This group says what the field holds: it names it, and it brings data or
  // the field may be emptied, its format word having bit 2000 off.
  ghost predicate SaysOf(d: Display, g: Group, f: Field) {
    && FieldHere(d.fields, g.row, g.col, f)
    && ((g.data != [] && f.length > 0) || f.ffw / 0x2000 % 2 == 0)
  }

  // What a reply leaves at byte n of a field: the byte of the last group that
  // says what it holds, a blank past its data, and the screen's own byte when
  // none does; a null is a blank.
  ghost function Held(d: Display, groups: seq<Group>, f: Field, n: nat): byte
    requires n < f.length
  {
    if groups == [] then
      var c := d.cells[NthCell(f, n)];
      if c == 0 then 0x40 else c
    else
      var g := groups[|groups| - 1];
      if SaysOf(d, g, f) then
        if n < |g.data| && g.data[n] != 0 then g.data[n] else 0x40
      else Held(d, groups[..|groups| - 1], f, n)
  }

  lemma {:induction false} ValueHeld(d: Display, groups: seq<Group>, f: Field, n: nat)
    requires n < f.length && f.ffw >= 0
    ensures |Value(d, groups, f)| == f.length && Value(d, groups, f)[n] == Held(d, groups, f, n)
  {
    if groups != [] {
      var g := groups[|groups| - 1];
      ValueHeld(d, groups[..|groups| - 1], f, n);
      FieldHereIs(d.fields, g.row, g.col, f);
      hide FieldHere, FieldAt;
    }
  }

  lemma {:induction false} ValueAt(d: Display, groups: seq<Group>, list: seq<Field>, i: nat, n: nat)
    requires i < |list| && n < list[i].length
    ensures |Values(d, groups, list)| == Width(list) && Width(list[..i]) + n < Width(list)
    ensures |Value(d, groups, list[i])| == list[i].length
    ensures Values(d, groups, list)[Width(list[..i]) + n] == Value(d, groups, list[i])[n]
    decreases |list|
  {
    ValuesWidth(d, groups, list);
    ValueWidth(d, groups, list[0]);
    ValueWidth(d, groups, list[i]);
    if i > 0 {
      ValueAt(d, groups, list[1..], i - 1, n);
      assert list[..i][1..] == list[1..][..i - 1];
    } else {
      WidthPositive(list[1..]);
    }
  }

  lemma WidthPositive(list: seq<Field>)
    ensures Width(list) >= 0
  {
  }

  // The record of a reply: three octets of cursor and AID, then the fields in
  // return order side by side, each byte as the reply or the screen has it.
  lemma RecordBytes(d: Display, head: seq<byte>, groups: seq<Group>, i: nat, n: nat)
    requires |head| == 3 && Disjoint(d.fields) && Unescaped(groups)
    requires i < |InputFields(d)| && n < InputFields(d)[i].length
    ensures var record, list := Expand(d, head + Encode(groups)).record, InputFields(d);
            && |record| == 3 + Width(list) && record[..3] == head && Width(list[..i]) + n < Width(list)
            && record[3 + Width(list[..i]) + n] == Held(d, groups, list[i], n)
  {
    hide InputFields, Value, Held, Expand, Disjoint;
    var list := InputFields(d);
    ReplyExpands(d, head, groups);
    ValueAt(d, groups, list, i, n);
    InputFieldsAreFields(d, i);
    ValueHeld(d, groups, list[i], n);
  }

  // A reply that is not laid out by buffer addresses goes through as it is.
  lemma PositionalReply(d: Display, response: seq<byte>)
    requires |response| < 3 || (|response| > 3 && response[3] != 0x11) || 3 < |response| < 6
    ensures Expand(d, response) == Expanded(d, response)
  {
  }
}
