// The decoded 24 x 80 display: its format table, the order its input fields
// are returned in, and the expansion of a terminal's Read-MDT reply into the
// full-width record the guest reads.
module ConsoleDisplays {
  import opened Bytes

  // A field's row and column name its first data cell.  `ffw` is -1 when the
  // field carried no format word, `successor` is -1 when it names none.
  datatype Field = Field(row: int, col: int, length: nat, ffw: int, successor: int, attribute: byte) {
    predicate IsInput() {
      ffw >= 0
    }

    predicate Bypass() {
      ffw >= 0 && ffw / 0x2000 % 2 == 1
    }
  }

  type screen = s: seq<byte> | |s| == 1920 witness Repeat(0x40, 1920)

  datatype Display = Display(cells: screen, fields: seq<Field>, firstInput: byte, row: int, col: int)

  function Offset(row: int, col: int): (p: nat)
    ensures p < 1920
  {
    ((row - 1) * 80 + (col - 1)) % 1920
  }

  function Cell(f: Field, n: int): (c: nat)
    ensures c < 1920
  {
    (Offset(f.row, f.col) + n) % 1920
  }

  predicate Covers(f: Field, row: int, col: int) {
    (((row - 1) * 80 + (col - 1)) - ((f.row - 1) * 80 + (f.col - 1))) % 1920 < f.length
  }

  // Covering a position is having it among the field's cells.
  lemma CoversIsCell(f: Field, row: int, col: int)
    ensures Covers(f, row, col) <==> exists n: nat | n < f.length :: Cell(f, n) == Offset(row, col)
  {
    var here, start := (row - 1) * 80 + (col - 1), (f.row - 1) * 80 + (f.col - 1);
    var delta := (here - start) % 1920;
    assert Cell(f, delta) == Offset(row, col);
    forall n: nat | n < f.length && Cell(f, n) == Offset(row, col)
      ensures delta < f.length
    {
      assert (start % 1920 + n) % 1920 == here % 1920;
      assert (n - delta) % 1920 == 0;
    }
  }

  function FieldAt(fields: seq<Field>, row: int, col: int): (r: Option<Field>)
    ensures r.Some? ==> r.value in fields && r.value.IsInput() && Covers(r.value, row, col)
    ensures r.None? ==> forall f | f in fields && f.IsInput() :: !Covers(f, row, col)
  {
    if fields == [] then None
    else if fields[0].IsInput() && Covers(fields[0], row, col) then Some(fields[0])
    else FieldAt(fields[1..], row, col)
  }

  // ---- return order --------------------------------------------------------------

  function Inputs(fields: seq<Field>): seq<Field> {
    if fields == [] then [] else (if fields[0].IsInput() then [fields[0]] else []) + Inputs(fields[1..])
  }

  function InsertField(list: seq<Field>, f: Field): seq<Field> {
    if list == [] || Offset(f.row, f.col) <= Offset(list[0].row, list[0].col) then [f] + list
    else [list[0]] + InsertField(list[1..], f)
  }

  // Screen order; fields that start in the same cell keep their table order.
  function ScreenOrder(list: seq<Field>): seq<Field> {
    if list == [] then [] else InsertField(ScreenOrder(list[1..]), list[0])
  }

  // Follow the resequencing chain by one-based field numbers.  `seen` holds
  // the indices returned so far.
  function Chain(list: seq<Field>, number: int, seen: seq<nat>): (r: seq<nat>)
    requires forall i | 0 <= i < |seen| :: seen[i] < |list|
    ensures forall i | 0 <= i < |r| :: r[i] < |list|
    decreases |list| - |seen|
  {
    if !(1 <= number <= |list|) || |seen| >= |list| || number - 1 in seen then seen
    else
      var next := list[number - 1].successor;
      if next == 0xFF then seen + [number - 1]
      else Chain(list, if next >= 0 then next else number + 1, seen + [number - 1])
  }

  function Pick(list: seq<Field>, indices: seq<nat>): (r: seq<Field>)
    requires forall i | 0 <= i < |indices| :: indices[i] < |list|
    ensures |r| == |indices| && forall i | 0 <= i < |r| :: r[i] == list[indices[i]]
  {
    seq(|indices|, i requires 0 <= i < |indices| => list[indices[i]])
  }

  function InputFields(d: Display): seq<Field> {
    var list := ScreenOrder(Inputs(d.fields));
    if d.firstInput == 0 then list else Pick(list, Chain(list, d.firstInput, []))
  }

  ghost predicate NoRepeats(indices: seq<nat>) {
    forall i, j | 0 <= i < j < |indices| :: indices[i] != indices[j]
  }

  // However the chain loops, no field is returned twice.
  lemma {:induction false} ChainIsDistinct(list: seq<Field>, number: int, seen: seq<nat>)
    requires (forall i | 0 <= i < |seen| :: seen[i] < |list|) && NoRepeats(seen)
    ensures NoRepeats(Chain(list, number, seen))
    decreases |list| - |seen|
  {
    if 1 <= number <= |list| && |seen| < |list| && number - 1 !in seen {
      var next := list[number - 1].successor;
      if next != 0xFF {
        ChainIsDistinct(list, if next >= 0 then next else number + 1, seen + [number - 1]);
      }
    }
  }

  // Every returned field but the last names the one after it, or is followed
  // by its screen-order neighbour.
  ghost predicate Linked(list: seq<Field>, r: seq<nat>, i: nat)
    requires i + 1 < |r| && forall k | 0 <= k < |r| :: r[k] < |list|
  {
    var next := list[r[i]].successor;
    next != 0xFF && r[i + 1] == (if next >= 0 then next else r[i] + 2) - 1
  }

  lemma {:induction false} ChainIsLinked(list: seq<Field>, number: int, seen: seq<nat>)
    requires forall i | 0 <= i < |seen| :: seen[i] < |list|
    requires forall i: nat | i + 1 < |seen| :: Linked(list, seen, i)
    requires seen != [] ==> var last := list[seen[|seen| - 1]].successor;
                            last != 0xFF && number == if last >= 0 then last else seen[|seen| - 1] + 2
    ensures var r := Chain(list, number, seen);
            && |seen| <= |r| && r[..|seen|] == seen && forall i: nat | i + 1 < |r| :: Linked(list, r, i)
    decreases |list| - |seen|
  {
    if 1 <= number <= |list| && |seen| < |list| && number - 1 !in seen {
      var more := seen + [number - 1];
      forall i: nat | i + 1 < |more|
        ensures Linked(list, more, i)
      {
        if i + 1 < |seen| {
          assert Linked(list, seen, i);
        }
      }
      var next := list[number - 1].successor;
      if next != 0xFF {
        ChainIsLinked(list, if next >= 0 then next else number + 1, more);
        assert more[..|seen|] == seen;
      } else {
        assert more[..|seen|] == seen;
      }
    }
  }

  // With resequencing on, the fields come back from the first named, each
  // linked to the next, none twice.
  lemma ResequencedOrder(d: Display)
    requires d.firstInput != 0
    ensures var list := ScreenOrder(Inputs(d.fields));
            var r := Chain(list, d.firstInput, []);
            && InputFields(d) == Pick(list, r) && NoRepeats(r)
            && (forall i: nat | i + 1 < |r| :: Linked(list, r, i))
            && (d.firstInput <= |list| ==> r != [] && r[0] == d.firstInput - 1)
            && (d.firstInput > |list| ==> r == [])
  {
    var list := ScreenOrder(Inputs(d.fields));
    ChainIsDistinct(list, d.firstInput, []);
    ChainIsLinked(list, d.firstInput, []);
    if d.firstInput <= |list| {
      ChainStarts(list, d.firstInput);
    }
  }

  lemma ChainStarts(list: seq<Field>, number: int)
    requires 1 <= number <= |list|
    ensures Chain(list, number, []) != [] && Chain(list, number, [])[0] == number - 1
  {
    var next := list[number - 1].successor;
    assert [] + [number - 1] == [number - 1];
    if next == 0xFF {
      assert Chain(list, number, []) == [] + [number - 1];
    } else {
      var more := if next >= 0 then next else number + 1;
      assert Chain(list, number, []) == Chain(list, more, [] + [number - 1]);
      ChainExtends(list, more, [number - 1]);
      assert Chain(list, more, [number - 1])[..1] == [number - 1];
    }
  }

  lemma ChainDone(list: seq<Field>, number: int, seen: seq<nat>)
    requires forall i | 0 <= i < |seen| :: seen[i] < |list|
    ensures !(1 <= number <= |list|) || |seen| >= |list| || number - 1 in seen ==> Chain(list, number, seen) == seen
    ensures Pick(list, []) == []
  {
  }

  lemma ChainStep(list: seq<Field>, number: int, seen: seq<nat>)
    requires (forall i | 0 <= i < |seen| :: seen[i] < |list|) && 1 <= number <= |list| && |seen| < |list|
    requires number - 1 !in seen
    ensures var next, more := list[number - 1].successor, seen + [number - 1];
            && Pick(list, more) == Pick(list, seen) + [list[number - 1]]
            && Chain(list, number, seen)
               == if next == 0xFF then more else Chain(list, if next >= 0 then next else number + 1, more)
  {
  }

  lemma {:induction false} ChainExtends(list: seq<Field>, number: int, seen: seq<nat>)
    requires forall i | 0 <= i < |seen| :: seen[i] < |list|
    ensures |seen| <= |Chain(list, number, seen)| && Chain(list, number, seen)[..|seen|] == seen
    decreases |list| - |seen|
  {
    if 1 <= number <= |list| && |seen| < |list| && number - 1 !in seen {
      var next := list[number - 1].successor;
      var more := seen + [number - 1];
      assert more[..|seen|] == seen;
      if next != 0xFF {
        ChainExtends(list, if next >= 0 then next else number + 1, more);
      }
    }
  }

  ghost predicate InOrder(list: seq<Field>) {
    forall i, j | 0 <= i < j < |list| :: Offset(list[i].row, list[i].col) <= Offset(list[j].row, list[j].col)
  }

  // The fields that start in one cell, in list order.
  function StartingAt(list: seq<Field>, p: nat): seq<Field> {
    if list == [] then []
    else (if Offset(list[0].row, list[0].col) == p then [list[0]] else []) + StartingAt(list[1..], p)
  }

  lemma {:induction false} InsertAdds(list: seq<Field>, f: Field)
    ensures multiset(InsertField(list, f)) == multiset(list) + multiset{f}
  {
    if list != [] && Offset(f.row, f.col) > Offset(list[0].row, list[0].col) {
      InsertAdds(list[1..], f);
      assert list == [list[0]] + list[1..];
    }
  }

  lemma {:induction false} InsertOrders(list: seq<Field>, f: Field)
    requires InOrder(list)
    ensures InOrder(InsertField(list, f))
  {
    if list != [] && Offset(f.row, f.col) > Offset(list[0].row, list[0].col) {
      InsertOrders(list[1..], f);
      var r := InsertField(list[1..], f);
      forall i | 0 <= i < |r|
        ensures Offset(list[0].row, list[0].col) <= Offset(r[i].row, r[i].col)
      {
        InsertHas(list[1..], f, i);
      }
    }
  }

  lemma InsertHas(list: seq<Field>, f: Field, i: nat)
    requires i < |InsertField(list, f)|
    ensures InsertField(list, f)[i] == f || InsertField(list, f)[i] in list
  {
    hide InsertField;
    InsertAdds(list, f);
    assert InsertField(list, f)[i] in multiset(InsertField(list, f));
  }

  lemma {:induction false} InsertIsStable(list: seq<Field>, f: Field, p: nat)
    requires InOrder(list)
    ensures StartingAt(InsertField(list, f), p)
         == (if Offset(f.row, f.col) == p then [f] else []) + StartingAt(list, p)
  {
    hide StartingAt;
    if list == [] || Offset(f.row, f.col) <= Offset(list[0].row, list[0].col) {
      StartingStep(f, list, p);
    } else {
      InsertIsStable(list[1..], f, p);
      StartingStep(list[0], InsertField(list[1..], f), p);
      StartingStep(list[0], list[1..], p);
      assert list == [list[0]] + list[1..];
    }
  }

  lemma StartingStep(f: Field, rest: seq<Field>, p: nat)
    ensures StartingAt([f] + rest, p) == (if Offset(f.row, f.col) == p then [f] else []) + StartingAt(rest, p)
  {
    assert ([f] + rest)[1..] == rest;
  }

  // Screen order is a stable sort of the input fields.
  lemma {:induction false} ScreenOrderSorts(list: seq<Field>, p: nat)
    ensures InOrder(ScreenOrder(list)) && multiset(ScreenOrder(list)) == multiset(list)
    ensures StartingAt(ScreenOrder(list), p) == StartingAt(list, p)
  {
    hide InsertField, StartingAt, InOrder;
    if list == [] {
      NothingInOrder();
    } else {
      ScreenOrderSorts(list[1..], p);
      InsertOrders(ScreenOrder(list[1..]), list[0]);
      InsertAdds(ScreenOrder(list[1..]), list[0]);
      InsertIsStable(ScreenOrder(list[1..]), list[0], p);
      assert list == [list[0]] + list[1..];
      StartingStep(list[0], list[1..], p);
    }
  }

  lemma NothingInOrder()
    ensures InOrder([])
  {
  }

  // ---- the screen image ----------------------------------------------------------------

  function Blanked(b: byte): byte {
    if b == 0 then 0x40 else b
  }

  // A field's bytes as the application sees them: a null cell is a blank.
  function Content(cells: screen, f: Field): (r: seq<byte>)
    ensures |r| == f.length
  {
    seq(f.length, n requires 0 <= n < f.length => Blanked(cells[Cell(f, n)]))
  }

  // Write bytes into a field's cells from its first, wrapping at the end of
  // the screen.
  function WriteCells(cells: screen, f: Field, values: seq<byte>): screen {
    if values == [] then cells
    else WriteCells(cells, f, values[..|values| - 1])[Cell(f, |values| - 1) := values[|values| - 1]]
  }

  function BlankAll(data: seq<byte>): (r: seq<byte>)
    ensures |r| == |data| && forall i | 0 <= i < |data| :: r[i] == Blanked(data[i])
  {
    seq(|data|, i requires 0 <= i < |data| => Blanked(data[i]))
  }

  // What a named field holds afterwards: its data, cut or blank-padded to
  // full width; blanks when it came empty; nothing new for an empty bypass.
  function Supplied(f: Field, data: seq<byte>): (r: Option<seq<byte>>)
    ensures r.Some? ==> |r.value| == f.length
  {
    var take := Min(f.length, |data|);
    if take > 0 then Some(BlankAll(data[..take]) + Repeat(0x40, f.length - take))
    else if !f.Bypass() then Some(Repeat(0x40, f.length))
    else None
  }

  datatype Group = Group(row: byte, col: byte, data: seq<byte>)

  function Merge(cells: screen, fields: seq<Field>, g: Group): screen {
    match FieldAt(fields, g.row, g.col)
    case None => cells
    case Some(f) => (match Supplied(f, g.data) case None => cells case Some(v) => WriteCells(cells, f, v))
  }

  // How far the data of a group runs: to the next SBA order or the end.
  function Run(bytes: seq<byte>): (n: nat)
    ensures n <= |bytes|
    ensures forall i | 0 <= i < n :: bytes[i] != 0x11
    ensures n < |bytes| ==> bytes[n] == 0x11
  {
    if bytes == [] || bytes[0] == 0x11 then 0 else 1 + Run(bytes[1..])
  }

  function MergeAll(cells: screen, fields: seq<Field>, bytes: seq<byte>): screen
    decreases |bytes|
  {
    if |bytes| < 3 || bytes[0] != 0x11 then cells
    else
      var n := Run(bytes[3..]);
      MergeAll(Merge(cells, fields, Group(bytes[1], bytes[2], bytes[3..3 + n])), fields, bytes[3 + n..])
  }

  function Contents(cells: screen, list: seq<Field>): seq<byte> {
    if list == [] then [] else Content(cells, list[0]) + Contents(cells, list[1..])
  }

  datatype Expanded = Expanded(display: Display, record: seq<byte>)

  // Merge a terminal's reply into the screen and build the record of every
  // input field.  A reply with field bytes but no SBA is already positional.
  function Expand(d: Display, response: seq<byte>): Expanded {
    if |response| < 3 then Expanded(d, response)
    else
      var merged := d.(cells := MergeAll(d.cells, d.fields, response[3..]));
      if |response| > 3 && (|response| < 6 || response[3] != 0x11) then Expanded(d, response)
      else Expanded(merged, response[..3] + Contents(merged.cells, InputFields(merged)))
  }

  // ---- what an expanded record holds -----------------------------------------------------

  // Two fields share no cell.
  ghost predicate Apart(f: Field, g: Field) {
    forall i: nat, j: nat | i < f.length && j < g.length :: Cell(f, i) != Cell(g, j)
  }

  // The input fields fit the screen and do not overlap.
  ghost predicate Disjoint(fields: seq<Field>) {
    && (forall i | 0 <= i < |fields| && fields[i].IsInput() :: fields[i].length <= 1920)
    && forall i, j | 0 <= i < j < |fields| && fields[i].IsInput() && fields[j].IsInput() :: Apart(fields[i], fields[j])
  }

  function Encode(groups: seq<Group>): seq<byte> {
    if groups == [] then [] else [0x11, groups[0].row, groups[0].col] + groups[0].data + Encode(groups[1..])
  }

  ghost predicate Unescaped(groups: seq<Group>) {
    forall i, k | 0 <= i < |groups| && 0 <= k < |groups[i].data| :: groups[i].data[k] != 0x11
  }

  // What field f holds after these groups, said field by field: the last
  // group that supplied it, else what was on the screen.
  ghost function Value(d: Display, groups: seq<Group>, f: Field): seq<byte> {
    if groups == [] then Content(d.cells, f)
    else
      var g := groups[|groups| - 1];
      if FieldAt(d.fields, g.row, g.col) == Some(f) && Supplied(f, g.data).Some? then Supplied(f, g.data).value
      else Value(d, groups[..|groups| - 1], f)
  }

  ghost function Values(d: Display, groups: seq<Group>, list: seq<Field>): seq<byte> {
    if list == [] then [] else Value(d, groups, list[0]) + Values(d, groups, list[1..])
  }

  ghost function MergeGroups(cells: screen, fields: seq<Field>, groups: seq<Group>): screen {
    if groups == [] then cells
    else Merge(MergeGroups(cells, fields, groups[..|groups| - 1]), fields, groups[|groups| - 1])
  }

  lemma {:induction false} CellsWritten(cells: screen, f: Field, values: seq<byte>)
    requires |values| <= 1920
    ensures var w := WriteCells(cells, f, values);
            && (forall n | 0 <= n < |values| :: w[Cell(f, n)] == values[n])
            && forall c | 0 <= c < 1920 && (forall n | 0 <= n < |values| :: Cell(f, n) != c) :: w[c] == cells[c]
  {
    if values != [] {
      var k := |values| - 1;
      CellsWritten(cells, f, values[..k]);
      forall n | 0 <= n < k
        ensures Cell(f, n) != Cell(f, k)
      {
        OwnCellsDiffer(f, n, k);
      }
      var before, w := WriteCells(cells, f, values[..k]), WriteCells(cells, f, values);
      forall c | 0 <= c < 1920 && (forall n | 0 <= n < |values| :: Cell(f, n) != c)
        ensures w[c] == cells[c]
      {
        assert Cell(f, k) != c;
        assert forall n | 0 <= n < k :: Cell(f, n) != c;
        assert before[c] == cells[c];
      }
    }
  }

  lemma OwnCellsDiffer(f: Field, i: nat, j: nat)
    requires i < j < 1920
    ensures Cell(f, i) != Cell(f, j)
  {
  }

  // Writing one field's full width gives it those bytes and leaves every
  // field apart from it alone.
  lemma WriteGives(cells: screen, f: Field, values: seq<byte>, g: Field)
    requires |values| == f.length <= 1920 && forall i | 0 <= i < |values| :: values[i] != 0
    ensures Content(WriteCells(cells, f, values), f) == values
    ensures Apart(f, g) ==> Content(WriteCells(cells, f, values), g) == Content(cells, g)
  {
    CellsWritten(cells, f, values);
    var w := WriteCells(cells, f, values);
    if Apart(f, g) {
      forall n: nat | n < g.length
        ensures w[Cell(g, n)] == cells[Cell(g, n)]
      {
        forall i | 0 <= i < |values|
          ensures Cell(f, i) != Cell(g, n)
        {
        }
      }
    }
  }

  lemma SuppliedNonNull(f: Field, data: seq<byte>)
    ensures Supplied(f, data).Some? ==> forall i | 0 <= i < f.length :: Supplied(f, data).value[i] != 0
  {
  }

  lemma InputsDiffer(fields: seq<Field>, f: Field, g: Field)
    requires Disjoint(fields) && f in fields && g in fields && f.IsInput() && g.IsInput() && f != g
    ensures Apart(f, g) && f.length <= 1920
  {
    var i :| 0 <= i < |fields| && fields[i] == f;
    var j :| 0 <= j < |fields| && fields[j] == g;
    if i < j {
      assert Apart(fields[i], fields[j]);
    } else {
      assert Apart(fields[j], fields[i]);
    }
  }

  // One group changes the field it names and no other.
  lemma MergeGives(cells: screen, fields: seq<Field>, group: Group, f: Field)
    requires Disjoint(fields) && f in fields && f.IsInput()
    ensures Content(Merge(cells, fields, group), f)
         == if FieldAt(fields, group.row, group.col) == Some(f) && Supplied(f, group.data).Some?
            then Supplied(f, group.data).value else Content(cells, f)
  {
    hide Content, WriteCells, Supplied, Covers;
    var named := FieldAt(fields, group.row, group.col);
    if named.Some? && Supplied(named.value, group.data).Some? {
      var g := named.value;
      var i :| 0 <= i < |fields| && fields[i] == g;
      SuppliedNonNull(g, group.data);
      WriteGives(cells, g, Supplied(g, group.data).value, f);
      if g != f {
        InputsDiffer(fields, g, f);
      }
    }
  }

  lemma {:induction false} GroupsGive(d: Display, groups: seq<Group>, f: Field)
    requires Disjoint(d.fields) && f in d.fields && f.IsInput()
    ensures Content(MergeGroups(d.cells, d.fields, groups), f) == Value(d, groups, f)
  {
    hide Content, Merge, Supplied;
    if groups != [] {
      GroupsGive(d, groups[..|groups| - 1], f);
      MergeGives(MergeGroups(d.cells, d.fields, groups[..|groups| - 1]), d.fields, groups[|groups| - 1], f);
    }
  }

  lemma RunStops(data: seq<byte>, rest: seq<byte>)
    requires forall k | 0 <= k < |data| :: data[k] != 0x11
    requires rest != [] ==> rest[0] == 0x11
    ensures Run(data + rest) == |data|
  {
    assert forall k | 0 <= k < |data| :: (data + rest)[k] == data[k];
    assert rest != [] ==> (data + rest)[|data|] == rest[0];
  }

  // Reading the encoded groups merges exactly those groups.
  lemma {:induction false} GroupsParse(cells: screen, fields: seq<Field>, done: seq<Group>, todo: seq<Group>)
    requires Unescaped(todo)
    ensures MergeAll(MergeGroups(cells, fields, done), fields, Encode(todo)) == MergeGroups(cells, fields, done + todo)
    decreases |todo|
  {
    if todo == [] {
      assert done + todo == done;
    } else {
      var g, rest := todo[0], Encode(todo[1..]);
      var bytes := Encode(todo);
      assert bytes[3..] == g.data + rest;
      RunStops(g.data, rest);
      assert bytes[3..3 + |g.data|] == g.data && bytes[3 + |g.data|..] == rest;
      assert (done + [g])[..|done|] == done && done + [g] + todo[1..] == done + todo;
      assert forall i | 0 <= i < |todo[1..]| :: todo[1..][i] == todo[i + 1];
      GroupsParse(cells, fields, done + [g], todo[1..]);
    }
  }

  lemma {:induction false} ContentsAreValues(d: Display, groups: seq<Group>, list: seq<Field>)
    requires Disjoint(d.fields) && forall i | 0 <= i < |list| :: list[i] in d.fields && list[i].IsInput()
    ensures Contents(MergeGroups(d.cells, d.fields, groups), list) == Values(d, groups, list)
  {
    if list != [] {
      GroupsGive(d, groups, list[0]);
      ContentsAreValues(d, groups, list[1..]);
    }
  }

  lemma {:induction false} InputsAreFields(fields: seq<Field>, f: Field)
    ensures f in Inputs(fields) <==> f in fields && f.IsInput()
  {
    if fields != [] {
      InputsAreFields(fields[1..], f);
      assert fields == [fields[0]] + fields[1..];
    }
  }

  lemma InputFieldsAreFields(d: Display, i: nat)
    requires i < |InputFields(d)|
    ensures InputFields(d)[i] in d.fields && InputFields(d)[i].IsInput()
  {
    var list := ScreenOrder(Inputs(d.fields));
    ScreenOrderSorts(Inputs(d.fields), 0);
    var f := InputFields(d)[i];
    assert f in list;
    assert f in multiset(list);
    assert f in Inputs(d.fields);
    InputsAreFields(d.fields, f);
  }

  // A reply of SBA groups over input fields that do not overlap expands to
  // cursor and AID, then each field in return order at full width, holding
  // exactly what the reply said about it.
  lemma ReplyExpands(d: Display, head: seq<byte>, groups: seq<Group>)
    requires |head| == 3 && Disjoint(d.fields) && Unescaped(groups)
    ensures var e := Expand(d, head + Encode(groups));
            && e.record == head + Values(d, groups, InputFields(d))
            && e.display == d.(cells := MergeGroups(d.cells, d.fields, groups))
  {
    hide InputFields, Merge, Run;
    var response := head + Encode(groups);
    assert response[3..] == Encode(groups) && response[..3] == head;
    GroupsParse(d.cells, d.fields, [], groups);
    assert [] + groups == groups;
    var merged := d.(cells := MergeGroups(d.cells, d.fields, groups));
    assert InputFields(merged) == InputFields(d) by {
      SameFormat(d, merged);
    }
    forall i | 0 <= i < |InputFields(d)|
      ensures InputFields(d)[i] in d.fields && InputFields(d)[i].IsInput()
    {
      InputFieldsAreFields(d, i);
    }
    ContentsAreValues(d, groups, InputFields(d));
  }

  lemma SameFormat(d: Display, e: Display)
    requires e.fields == d.fields && e.firstInput == d.firstInput
    ensures InputFields(e) == InputFields(d)
  {
  }

  // The width of every field is in the record whatever the reply left out.
  lemma {:induction false} ValuesWidth(d: Display, groups: seq<Group>, list: seq<Field>)
    ensures |Values(d, groups, list)| == Width(list)
  {
    if list != [] {
      ValueWidth(d, groups, list[0]);
      ValuesWidth(d, groups, list[1..]);
    }
  }

  function Width(list: seq<Field>): nat {
    if list == [] then 0 else list[0].length + Width(list[1..])
  }

  lemma {:induction false} ValueWidth(d: Display, groups: seq<Group>, f: Field)
    ensures |Value(d, groups, f)| == f.length
  {
    if groups != [] {
      ValueWidth(d, groups[..|groups| - 1], f);
    }
  }

  // ---- the format table ------------------------------------------------------------------

  datatype Order = Order(ffw: int, successor: int, attribute: Option<byte>, length: nat, next: nat)

  function ControlWords(data: seq<byte>, i: nat, successor: int): (r: (nat, int))
    requires i <= |data|
    ensures i <= r.0 <= |data|
    decreases |data| - i
  {
    if i + 1 < |data| && data[i] >= 0x80 then
      ControlWords(data, i + 2, if data[i] == 0x80 then data[i + 1] else successor)
    else (i, successor)
  }

  // The operands of a Start of Field order: an optional format word, control
  // words, an attribute and a length, each only if the record still has it.
  function Decode(data: seq<byte>, at: nat): (o: Order)
    requires at <= |data|
    ensures at <= o.next <= |data| && o.length < 0x1_0000
  {
    var formatted := at + 1 < |data| && data[at] / 0x40 % 2 == 1;
    var words := ControlWords(data, if formatted then at + 2 else at, -1);
    var i := words.0;
    var sized := if i < |data| then i + 1 else i;
    Order(if formatted then Half(data[at], data[at + 1]) else -1, words.1,
          if i < |data| then Some(data[i]) else None,
          if sized + 1 < |data| then Half(data[sized], data[sized + 1]) else 0,
          if sized + 1 < |data| then sized + 2 else sized)
  }

  function Remove(fields: seq<Field>, row: int, col: int): (r: seq<Field>)
    ensures forall i | 0 <= i < |r| :: !(r[i].row == row && r[i].col == col)
  {
    if fields == [] then []
    else (if fields[0].row == row && fields[0].col == col then [] else [fields[0]]) + Remove(fields[1..], row, col)
  }

  function Step(row: int, col: int): (int, int) {
    if col + 1 > 80 then (if row + 1 > 24 then 1 else row + 1, 1) else (row, col + 1)
  }

  // Define a field after the current buffer address: its attribute takes that
  // cell, an entry for the same first cell is replaced, and an input field is
  // closed by an attribute after its last cell.
  function StartField(d: Display, o: Order): Display {
    var f := Field(d.row, d.col + 1, o.length, o.ffw, o.successor, match o.attribute case None => 0 case Some(a) => a);
    var marked := match o.attribute case None => d.cells case Some(a) => d.cells[Offset(d.row, d.col) := a];
    var closed := if f.IsInput() then marked[(Offset(f.row, f.col) + f.length) % 1920 := 0x20] else marked;
    var moved := if o.attribute.Some? then Step(d.row, d.col) else (d.row, d.col);
    Display(closed, Remove(d.fields, f.row, f.col) + [f], d.firstInput, moved.0, moved.1)
  }

  ghost predicate OneEach(fields: seq<Field>) {
    forall i, j | 0 <= i < j < |fields| :: !(fields[i].row == fields[j].row && fields[i].col == fields[j].col)
  }

  lemma {:induction false} RemoveKeeps(fields: seq<Field>, row: int, col: int)
    requires OneEach(fields)
    ensures OneEach(Remove(fields, row, col))
    ensures forall f :: f in Remove(fields, row, col) <==> f in fields && !(f.row == row && f.col == col)
  {
    if fields != [] {
      RemoveKeeps(fields[1..], row, col);
      var rest := Remove(fields[1..], row, col);
      assert fields == [fields[0]] + fields[1..];
      forall j | 0 <= j < |rest|
        ensures rest[j] in fields[1..]
      {
        assert rest[j] in rest;
      }
    }
  }

  // The format table never holds two fields for one first cell; a new field
  // replaces the one there and joins the end.
  lemma TableStaysUnique(d: Display, o: Order)
    requires OneEach(d.fields)
    ensures var e := StartField(d, o);
            && OneEach(e.fields)
            && (forall f :: f in e.fields <==>
                  f == e.fields[|e.fields| - 1] || (f in d.fields && !(f.row == d.row && f.col == d.col + 1)))
            && e.fields[|e.fields| - 1].row == d.row && e.fields[|e.fields| - 1].col == d.col + 1
  {
    RemoveKeeps(d.fields, d.row, d.col + 1);
  }

  // ---- in place -----------------------------------------------------------------------------

  class ConsoleDisplay {
    const image: array<byte>
    var fields: seq<Field>
    var firstInputField: byte
    var row: int
    var col: int

    ghost predicate Valid() {
      image.Length == 1920
    }

    ghost function View(): Display
      requires Valid()
      reads this, image
    {
      Display(image[..], fields, firstInputField, row, col)
    }

    constructor ()
      ensures Valid() && fresh(image) && View() == Display(Repeat(0x40, 1920), [], 0, 1, 1)
    {
      var blank := new byte[1920](_ => 0x40);
      image := blank;
      fields, firstInputField, row, col := [], 0, 1, 1;
      new;
      assert image[..] == Repeat(0x40, 1920);
    }

    method FindField(row: int, col: int) returns (f: Option<Field>)
      ensures f == FieldAt(fields, row, col)
    {
      for i := 0 to |fields|
        invariant FieldAt(fields, row, col) == FieldAt(fields[i..], row, col)
      {
        assert fields[i..][1..] == fields[i + 1..];
        if fields[i].IsInput() && Covers(fields[i], row, col) {
          return Some(fields[i]);
        }
      }
      return None;
    }

    method InputList() returns (list: seq<Field>)
      ensures list == Inputs(fields)
    {
      list := [];
      for i := 0 to |fields|
        invariant list + Inputs(fields[i..]) == Inputs(fields)
      {
        assert fields[i..][1..] == fields[i + 1..];
        if fields[i].IsInput() {
          list := list + [fields[i]];
        }
      }
    }

    method ReturnOrder() returns (ordered: seq<Field>)
      requires Valid()
      ensures ordered == InputFields(View())
    {
      var list := InputList();
      list := ScreenOrder(list);
      if firstInputField == 0 {
        return list;
      }
      hide Chain, Pick, Inputs, ScreenOrder;
      var seen := new bool[|list|](_ => false);
      ghost var indices: seq<nat> := [];
      ordered := [];
      var number: int := firstInputField;
      ChainDone(list, number, []);
      while 1 <= number <= |list| && |ordered| < |list|
        invariant |indices| == |ordered| && forall i | 0 <= i < |indices| :: indices[i] < |list|
        invariant ordered == Pick(list, indices)
        invariant forall k | 0 <= k < |list| :: seen[k] == (k in indices)
        invariant Chain(list, firstInputField, []) == Chain(list, number, indices)
        decreases |list| - |ordered|
      {
        var index := number - 1;
        if seen[index] {
          break;
        }
        ChainStep(list, number, indices);
        seen[index] := true;
        ordered := ordered + [list[index]];
        indices := indices + [index];
        var next := list[index].successor;
        if next == 0xFF {
          return;
        }
        number := if next >= 0 then next else number + 1;
      }
      ChainDone(list, number, indices);
    }

    method ScreenContent(f: Field) returns (bytes: seq<byte>)
      requires Valid()
      ensures bytes == Content(image[..], f)
    {
      bytes := [];
      for n := 0 to f.length
        invariant |bytes| == n && forall k | 0 <= k < n :: bytes[k] == Blanked(image[Cell(f, k)])
      {
        var value := image[(Offset(f.row, f.col) + n) % 1920];
        bytes := bytes + [if value == 0 then 0x40 else value];
      }
    }

    method StoreBytes(f: Field, at: nat, values: seq<byte>, ghost before: screen, ghost done: seq<byte>)
      requires Valid() && image[..] == WriteCells(before, f, done) && |done| == at
      modifies image
      ensures image[..] == WriteCells(before, f, done + values)
    {
      assert done + values[..0] == done;
      for n := 0 to |values|
        invariant image[..] == WriteCells(before, f, done + values[..n])
      {
        image[(Offset(f.row, f.col) + at + n) % 1920] := values[n];
        var written := done + values[..n + 1];
        assert written[..|written| - 1] == done + values[..n];
      }
      assert values[..|values|] == values;
    }

    method MergeGroup(g: Group)
      requires Valid()
      modifies image
      ensures image[..] == Merge(old(image[..]), fields, g)
    {
      hide Covers, WriteCells;
      var named := FindField(g.row, g.col);
      if named == None {
        return;
      }
      var f := named.value;
      var take := Min(f.length, |g.data|);
      ghost var before: screen := image[..];
      NothingWritten(before, f);
      ghost var supplied := Supplied(f, g.data);
      assert Merge(before, fields, g) == if supplied.Some? then WriteCells(before, f, supplied.value) else before;
      if take > 0 {
        StoreBytes(f, 0, BlankAll(g.data[..take]), before, []);
        assert [] + BlankAll(g.data[..take]) == BlankAll(g.data[..take]);
        StoreBytes(f, take, Repeat(0x40, f.length - take), before, BlankAll(g.data[..take]));
      } else if !f.Bypass() {
        var blanks: seq<byte> := Repeat(0x40, f.length);
        assert supplied == Some(blanks);
        StoreBytes(f, 0, blanks, before, []);
        assert [] + blanks == blanks;
      }
    }

    method MergeReply(response: seq<byte>) returns (sawSba: bool)
      requires Valid() && |response| >= 3
      modifies image
      ensures image[..] == MergeAll(old(image[..]), fields, response[3..])
      ensures sawSba <==> |response| >= 6 && response[3] == 0x11
      ensures !sawSba ==> image[..] == old(image[..])
    {
      hide Merge, Run, MergeAll;
      var i := 3;
      sawSba := false;
      ghost var whole := MergeAll(image[..], fields, response[3..]);
      while i + 2 < |response| && response[i] == 0x11
        invariant 3 <= i <= |response|
        invariant MergeAll(image[..], fields, response[i..]) == whole
        invariant sawSba || (i == 3 && image[..] == old(image[..]))
        invariant sawSba ==> |response| >= 6 && response[3] == 0x11
      {
        sawSba := true;
        var n := RunLength(response, i + 3);
        var group := Group(response[i + 1], response[i + 2], response[i + 3..i + 3 + n]);
        TailSlices(response, i, n);
        MergeStep(image[..], fields, response[i..]);
        MergeGroup(group);
        i := i + 3 + n;
      }
      MergeEnd(image[..], fields, response[i..]);
    }

    method AppendContents(head: seq<byte>, ordered: seq<Field>) returns (record: seq<byte>)
      requires Valid()
      ensures record == head + Contents(image[..], ordered)
    {
      hide Content;
      record := head;
      for k := 0 to |ordered|
        invariant record + Contents(image[..], ordered[k..]) == head + Contents(image[..], ordered)
      {
        assert ordered[k..][1..] == ordered[k + 1..];
        var c := ScreenContent(ordered[k]);
        record := record + c;
      }
    }

    method ExpandModifiedInput(response: seq<byte>) returns (record: seq<byte>)
      requires Valid()
      modifies image
      ensures Expanded(View(), record) == Expand(old(View()), response)
    {
      hide MergeAll, InputFields, Contents;
      if |response| < 3 {
        return response;
      }
      var sawSba := MergeReply(response);
      if !sawSba && |response| != 3 {
        return response;
      }
      var ordered := ReturnOrder();
      record := AppendContents(response[..3], ordered);
    }

    // Start of Field, from the octet after the order.
    method StartOfField(data: seq<byte>, at: nat) returns (next: nat)
      requires Valid() && at <= |data|
      modifies this`fields, this`row, this`col, image
      ensures Valid() && next == Decode(data, at).next
      ensures View() == StartField(old(View()), Decode(data, at))
    {
      hide Decode, StartField;
      var o := DecodeOrder(data, at);
      DefineField(o);
      next := o.next;
    }

    method DefineField(o: Order)
      requires Valid()
      modifies this`fields, this`row, this`col, image
      ensures Valid() && View() == StartField(old(View()), o)
    {
      hide Remove, Offset;
      var f := Field(row, col + 1, o.length, o.ffw, o.successor, match o.attribute case None => 0 case Some(a) => a);
      if o.attribute.Some? {
        image[Offset(row, col)] := o.attribute.value;
        col := col + 1;
        if col > 80 {
          col, row := 1, row + 1;
          if row > 24 {
            row := 1;
          }
        }
      }
      fields := Remove(fields, f.row, f.col) + [f];
      if f.IsInput() {
        image[(Offset(f.row, f.col) + f.length) % 1920] := 0x20;
      }
    }
  }

  method DecodeOrder(data: seq<byte>, at: nat) returns (o: Order)
    requires at <= |data|
    ensures o == Decode(data, at)
  {
    var i := at;
    var ffw: int, successor: int := -1, -1;
    if i + 1 < |data| && data[i] / 0x40 % 2 == 1 {
      ffw := Half(data[i], data[i + 1]);
      i := i + 2;
    }
    ghost var words := ControlWords(data, i, -1);
    while i + 1 < |data| && data[i] >= 0x80
      invariant i <= |data| && ControlWords(data, i, successor) == words
    {
      if data[i] == 0x80 {
        successor := data[i + 1];
      }
      i := i + 2;
    }
    var attribute: Option<byte> := None;
    if i < |data| {
      attribute := Some(data[i]);
      i := i + 1;
    }
    var length: nat := 0;
    if i + 1 < |data| {
      length := Half(data[i], data[i + 1]);
      i := i + 2;
    }
    o := Order(ffw, successor, attribute, length, i);
  }

  lemma NothingWritten(cells: screen, f: Field)
    ensures WriteCells(cells, f, []) == cells
  {
  }

  lemma TailSlices(s: seq<byte>, i: nat, n: nat)
    requires i + 3 + n <= |s|
    ensures s[i..][3..] == s[i + 3..]
    ensures s[i..][3..3 + n] == s[i + 3..i + 3 + n]
    ensures s[i..][3 + n..] == s[i + 3 + n..]
  {
  }

  lemma MergeStep(cells: screen, fields: seq<Field>, bytes: seq<byte>)
    requires |bytes| >= 3 && bytes[0] == 0x11
    ensures var n := Run(bytes[3..]);
            MergeAll(cells, fields, bytes)
            == MergeAll(Merge(cells, fields, Group(bytes[1], bytes[2], bytes[3..3 + n])), fields, bytes[3 + n..])
  {
    hide Merge, Run;
  }

  lemma MergeEnd(cells: screen, fields: seq<Field>, bytes: seq<byte>)
    requires |bytes| < 3 || bytes[0] != 0x11
    ensures MergeAll(cells, fields, bytes) == cells
  {
  }

  method RunLength(data: seq<byte>, at: nat) returns (n: nat)
    requires at <= |data|
    ensures n == Run(data[at..]) && at + n <= |data|
  {
    var next := at;
    while next < |data| && data[next] != 0x11
      invariant at <= next <= |data| && Run(data[at..]) == next - at + Run(data[next..])
    {
      assert data[next..][1..] == data[next + 1..];
      next := next + 1;
    }
    n := next - at;
  }
}
