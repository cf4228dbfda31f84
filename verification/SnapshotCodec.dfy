// The checkpoint stream's encodings: little-endian integers, one-byte flags,
// strings behind a 7-bit length, and counted lists, each with the reader's
// bounds.
module SnapshotCodec {
  import opened Bytes

  type i32 = x: int | -0x8000_0000 <= x < 0x8000_0000
  type i64 = x: int | -0x8000_0000_0000_0000 <= x < 0x8000_0000_0000_0000
  type u64 = x: int | 0 <= x < 0x1_0000_0000_0000_0000

  const MAX_TEXT: nat := 0x10_0000
  const MAX_COUNT: nat := 0x10_0000

  // What one call of the writer puts out.  A blob carries the longest length
  // its reader takes.
  datatype Value =
    | Byte(b: byte)
    | Flag(f: bool)
    | Word(h: halfword)
    | Int(i: i32)
    | Long(l: i64)
    | Unsigned(u: u64)
    | Text(s: seq<byte>)
    | Ints(list: seq<i32>)
    | Texts(texts: seq<seq<byte>>)
    | Blob(max: nat, data: Option<seq<byte>>)

  // What one call of the reader asks for.
  datatype Shape = BYTE | FLAG | WORD | INT | LONG | UNSIGNED | TEXT | INTS | TEXTS | BLOB(max: nat)

  function ShapeOf(v: Value): Shape {
    match v
    case Byte(_) => BYTE
    case Flag(_) => FLAG
    case Word(_) => WORD
    case Int(_) => INT
    case Long(_) => LONG
    case Unsigned(_) => UNSIGNED
    case Text(_) => TEXT
    case Ints(_) => INTS
    case Texts(_) => TEXTS
    case Blob(max, _) => BLOB(max)
  }

  // A value and what is left of the stream.
  datatype Got<T> = Got(value: T, rest: seq<byte>)

  // ---- integers -----------------------------------------------------------------

  function LittleEndian(n: nat, k: nat): (r: seq<byte>)
    ensures |r| == k
  {
    if k == 0 then [] else [n % 0x100] + LittleEndian(n / 0x100, k - 1)
  }

  function FromLittleEndian(b: seq<byte>): nat {
    if b == [] then 0 else b[0] + 0x100 * FromLittleEndian(b[1..])
  }

  function Power256(k: nat): nat {
    if k == 0 then 1 else 0x100 * Power256(k - 1)
  }

  lemma {:induction false} LittleEndianReadsBack(n: nat, k: nat)
    requires n < Power256(k)
    ensures FromLittleEndian(LittleEndian(n, k)) == n
    decreases k
  {
    if k > 0 {
      LittleEndianReadsBack(n / 0x100, k - 1);
      assert LittleEndian(n, k)[1..] == LittleEndian(n / 0x100, k - 1);
    }
  }

  lemma {:induction false} FromLittleEndianFits(b: seq<byte>)
    ensures FromLittleEndian(b) < Power256(|b|)
  {
    if b != [] {
      FromLittleEndianFits(b[1..]);
    }
  }

  lemma Powers()
    ensures Power256(2) == 0x1_0000 && Power256(4) == 0x1_0000_0000 && Power256(8) == 0x1_0000_0000_0000_0000
  {
    assert Power256(1) == 0x100 && Power256(3) == 0x100_0000;
    assert Power256(5) == 0x100_0000_0000 && Power256(6) == 0x1_0000_0000_0000 && Power256(7) == 0x100_0000_0000_0000;
  }

  // Two's complement.
  function IntBits(i: i32): nat {
    if i < 0 then i + 0x1_0000_0000 else i
  }

  function IntOf(n: nat): i32
    requires n < 0x1_0000_0000
  {
    if n >= 0x8000_0000 then n - 0x1_0000_0000 else n
  }

  function LongBits(l: i64): nat {
    if l < 0 then l + 0x1_0000_0000_0000_0000 else l
  }

  function LongOf(n: nat): i64
    requires n < 0x1_0000_0000_0000_0000
  {
    if n >= 0x8000_0000_0000_0000 then n - 0x1_0000_0000_0000_0000 else n
  }

  function TakeNumber(s: seq<byte>, k: nat): (r: Option<Got<nat>>)
    ensures r.Some? ==> r.value.value < Power256(k)
  {
    if |s| < k then None
    else
      FromLittleEndianFits(s[..k]);
      Some(Got(FromLittleEndian(s[..k]), s[k..]))
  }

  lemma NumberReadsBack(n: nat, k: nat, rest: seq<byte>)
    requires n < Power256(k)
    ensures TakeNumber(LittleEndian(n, k) + rest, k) == Some(Got(n, rest))
  {
    var s := LittleEndian(n, k) + rest;
    assert s[..k] == LittleEndian(n, k) && s[k..] == rest;
    LittleEndianReadsBack(n, k);
  }

  function TakeInt(s: seq<byte>): Option<Got<i32>> {
    Powers();
    match TakeNumber(s, 4)
    case None => None
    case Some(g) => Some(Got(IntOf(g.value), g.rest))
  }

  function IntBytes(i: i32): (r: seq<byte>)
    ensures |r| == 4
  {
    LittleEndian(IntBits(i), 4)
  }

  lemma IntReadsBack(i: i32, rest: seq<byte>)
    ensures TakeInt(IntBytes(i) + rest) == Some(Got(i, rest))
  {
    Powers();
    NumberReadsBack(IntBits(i), 4, rest);
  }

  // ---- strings ---------------------------------------------------------------------

  // Seven bits a byte, low group first, the high bit saying more follows.
  function Length7(n: nat): (r: seq<byte>)
    ensures r != []
  {
    if n < 0x80 then [n] else [n % 0x80 + 0x80] + Length7(n / 0x80)
  }

  // The reader gives up on a seventh group.
  function TakeLength7(s: seq<byte>, group: nat): Option<Got<nat>>
    decreases |s|
  {
    if s == [] then None
    else if s[0] < 0x80 then Some(Got(s[0] as nat, s[1..]))
    else if group >= 5 then None
    else
      match TakeLength7(s[1..], group + 1)
      case None => None
      case Some(g) => Some(Got(s[0] - 0x80 + 0x80 * g.value, g.rest))
  }

  predicate Fits7(n: nat, group: nat) {
    n < 0x80 || (group < 5 && Fits7(n / 0x80, group + 1))
  }

  lemma {:induction false} Length7ReadsBack(n: nat, group: nat, rest: seq<byte>)
    ensures TakeLength7(Length7(n) + rest, group) == if Fits7(n, group) then Some(Got(n, rest)) else None
    decreases n
  {
    var s := Length7(n) + rest;
    if n < 0x80 {
      assert s[1..] == rest;
    } else {
      assert s[1..] == Length7(n / 0x80) + rest;
      Length7ReadsBack(n / 0x80, group + 1, rest);
    }
  }

  lemma TextLengthsFit(n: nat)
    requires n <= MAX_TEXT
    ensures Fits7(n, 0)
  {
    var a := n / 0x80;
    var b := a / 0x80;
    assert b < 0x80 && Fits7(b, 2);
    assert Fits7(a, 1);
  }

  // A presence flag, the length, the bytes.
  function TextBytes(s: seq<byte>): seq<byte> {
    [1] + (Length7(|s|) + s)
  }

  function TakeText(s: seq<byte>): Option<Got<seq<byte>>> {
    if s == [] then None
    else if s[0] == 0 then Some(Got([], s[1..]))
    else
      match TakeLength7(s[1..], 0)
      case None => None
      case Some(g) =>
        if g.value > MAX_TEXT || |g.rest| < g.value then None
        else Some(Got(g.rest[..g.value], g.rest[g.value..]))
  }

  // A string comes back exactly when it is no longer than the reader takes.
  lemma TextReadsBack(t: seq<byte>, rest: seq<byte>)
    ensures TakeText(TextBytes(t) + rest) == if |t| <= MAX_TEXT then Some(Got(t, rest)) else None
  {
    var s := TextBytes(t) + rest;
    assert s[1..] == Length7(|t|) + (t + rest);
    Length7ReadsBack(|t|, 0, t + rest);
    if |t| <= MAX_TEXT {
      TextLengthsFit(|t|);
      assert (t + rest)[..|t|] == t && (t + rest)[|t|..] == rest;
    }
  }

  // ---- lists --------------------------------------------------------------------------

  function IntList(list: seq<i32>): seq<byte> {
    if list == [] then [] else IntBytes(list[0]) + IntList(list[1..])
  }

  function TakeInts(s: seq<byte>, n: nat): (r: Option<Got<seq<i32>>>)
    ensures r.Some? ==> |r.value.value| == n
    decreases n
  {
    if n == 0 then Some(Got([], s))
    else
      match TakeInt(s)
      case None => None
      case Some(g) =>
        match TakeInts(g.rest, n - 1)
        case None => None
        case Some(more) => Some(Got([g.value] + more.value, more.rest))
  }

  lemma {:induction false} IntListReadsBack(list: seq<i32>, rest: seq<byte>)
    ensures TakeInts(IntList(list) + rest, |list|) == Some(Got(list, rest))
  {
    if list == [] {
      assert IntList(list) + rest == rest;
    } else {
      assert IntList(list) + rest == IntBytes(list[0]) + (IntList(list[1..]) + rest);
      IntReadsBack(list[0], IntList(list[1..]) + rest);
      IntListReadsBack(list[1..], rest);
      assert [list[0]] + list[1..] == list;
    }
  }

  function TextList(texts: seq<seq<byte>>): seq<byte> {
    if texts == [] then [] else TextBytes(texts[0]) + TextList(texts[1..])
  }

  function TakeTexts(s: seq<byte>, n: nat): Option<Got<seq<seq<byte>>>>
    decreases n
  {
    if n == 0 then Some(Got([], s))
    else
      match TakeText(s)
      case None => None
      case Some(g) =>
        match TakeTexts(g.rest, n - 1)
        case None => None
        case Some(more) => Some(Got([g.value] + more.value, more.rest))
  }

  predicate ShortTexts(texts: seq<seq<byte>>) {
    forall i | 0 <= i < |texts| :: |texts[i]| <= MAX_TEXT
  }

  lemma {:induction false} TextListReadsBack(texts: seq<seq<byte>>, rest: seq<byte>)
    ensures TakeTexts(TextList(texts) + rest, |texts|) == if ShortTexts(texts) then Some(Got(texts, rest)) else None
  {
    if texts == [] {
      assert TextList(texts) + rest == rest;
    } else {
      assert TextList(texts) + rest == TextBytes(texts[0]) + (TextList(texts[1..]) + rest);
      TextReadsBack(texts[0], TextList(texts[1..]) + rest);
      TextListReadsBack(texts[1..], rest);
      assert [texts[0]] + texts[1..] == texts;
      assert ShortTexts(texts) <==> |texts[0]| <= MAX_TEXT && ShortTexts(texts[1..]) by {
        assert ShortTexts(texts) ==> |texts[0]| <= MAX_TEXT;
        assert ShortTexts(texts[1..]) ==> forall i | 1 <= i < |texts| :: texts[i] == texts[1..][i - 1];
      }
    }
  }

  // ---- one call ----------------------------------------------------------------------------

  // A count or length as the writer's 32-bit cast leaves it.
  function Narrow(n: nat): i32 {
    IntOf(n % 0x1_0000_0000)
  }

  function Encode(v: Value): seq<byte> {
    match v
    case Byte(b) => [b]
    case Flag(f) => [if f then 1 else 0]
    case Word(h) => LittleEndian(h, 2)
    case Int(i) => IntBytes(i)
    case Long(l) => LittleEndian(LongBits(l), 8)
    case Unsigned(u) => LittleEndian(u, 8)
    case Text(s) => TextBytes(s)
    case Ints(list) => IntBytes(Narrow(|list|)) + IntList(list)
    case Texts(texts) => IntBytes(Narrow(|texts|)) + TextList(texts)
    case Blob(_, data) =>
      match data
      case None => [0]
      case Some(d) => [1] + (IntBytes(Narrow(|d|)) + d)
  }

  function TakeCount(s: seq<byte>, max: nat): (r: Option<Got<nat>>)
    ensures r.Some? ==> r.value.value <= max
  {
    match TakeInt(s)
    case None => None
    case Some(g) => if g.value < 0 || g.value > max then None else Some(Got(g.value as nat, g.rest))
  }

  lemma CountReadsBack(n: nat, max: nat, rest: seq<byte>)
    requires n < 0x8000_0000
    ensures TakeCount(IntBytes(Narrow(n)) + rest, max) == if n <= max then Some(Got(n, rest)) else None
  {
    IntReadsBack(Narrow(n), rest);
  }

  function TakeBlob(s: seq<byte>, max: nat): Option<Got<Option<seq<byte>>>> {
    if s == [] then None
    else if s[0] == 0 then Some(Got(None, s[1..]))
    else
      match TakeCount(s[1..], max)
      case None => None
      case Some(g) => if |g.rest| < g.value then None else Some(Got(Some(g.rest[..g.value]), g.rest[g.value..]))
  }

  function Take(shape: Shape, s: seq<byte>): (r: Option<Got<Value>>)
    ensures r.Some? ==> ShapeOf(r.value.value) == shape
  {
    Powers();
    match shape
    case BYTE => if s == [] then None else Some(Got(Byte(s[0]), s[1..]))
    case FLAG => if s == [] then None else Some(Got(Flag(s[0] != 0), s[1..]))
    case WORD => (match TakeNumber(s, 2) case None => None case Some(g) => Some(Got(Word(g.value), g.rest)))
    case INT => (match TakeInt(s) case None => None case Some(g) => Some(Got(Int(g.value), g.rest)))
    case LONG => (match TakeNumber(s, 8) case None => None case Some(g) => Some(Got(Long(LongOf(g.value)), g.rest)))
    case UNSIGNED => (match TakeNumber(s, 8) case None => None case Some(g) => Some(Got(Unsigned(g.value), g.rest)))
    case TEXT => (match TakeText(s) case None => None case Some(g) => Some(Got(Text(g.value), g.rest)))
    case INTS =>
      (match TakeCount(s, MAX_COUNT)
       case None => None
       case Some(n) =>
         match TakeInts(n.rest, n.value) case None => None case Some(g) => Some(Got(Ints(g.value), g.rest)))
    case TEXTS =>
      (match TakeCount(s, MAX_COUNT)
       case None => None
       case Some(n) =>
         match TakeTexts(n.rest, n.value) case None => None case Some(g) => Some(Got(Texts(g.value), g.rest)))
    case BLOB(max) => (match TakeBlob(s, max) case None => None case Some(g) => Some(Got(Blob(max, g.value), g.rest)))
  }

  // The reader's own bounds on one value.
  predicate Readable(v: Value) {
    match v
    case Text(s) => |s| <= MAX_TEXT
    case Ints(list) => |list| <= MAX_COUNT
    case Texts(texts) => |texts| <= MAX_COUNT && ShortTexts(texts)
    case Blob(max, data) => data.Some? ==> |data.value| <= max
    case _ => true
  }

  // Counts the 32-bit cast keeps.
  predicate Countable(v: Value) {
    match v
    case Ints(list) => |list| < 0x8000_0000
    case Texts(texts) => |texts| < 0x8000_0000
    case Blob(_, data) => data.Some? ==> |data.value| < 0x8000_0000
    case _ => true
  }

  // Every value written comes back, leaving exactly what followed it, when it
  // is within the reader's bounds; else the reader refuses it.
  lemma ValueReadsBack(v: Value, rest: seq<byte>)
    requires Countable(v)
    ensures Take(ShapeOf(v), Encode(v) + rest) == if Readable(v) then Some(Got(v, rest)) else None
  {
    hide LittleEndian, IntBytes, TextBytes, TakeInt, TakeText, TakeNumber, TakeCount, TakeInts, TakeTexts, Power256;
    Powers();
    match v {
      case Byte(b) =>
      case Flag(f) =>
      case Word(h) => NumberReadsBack(h, 2, rest);
      case Int(i) => IntReadsBack(i, rest);
      case Long(l) => NumberReadsBack(LongBits(l), 8, rest);
      case Unsigned(u) => NumberReadsBack(u, 8, rest);
      case Text(s) => TextReadsBack(s, rest);
      case Ints(list) =>
        assert Encode(v) + rest == IntBytes(Narrow(|list|)) + (IntList(list) + rest);
        CountReadsBack(|list|, MAX_COUNT, IntList(list) + rest);
        IntListReadsBack(list, rest);
      case Texts(texts) =>
        assert Encode(v) + rest == IntBytes(Narrow(|texts|)) + (TextList(texts) + rest);
        CountReadsBack(|texts|, MAX_COUNT, TextList(texts) + rest);
        TextListReadsBack(texts, rest);
      case Blob(max, data) => BlobReadsBack(max, data, rest);
    }
  }

  lemma BlobReadsBack(max: nat, data: Option<seq<byte>>, rest: seq<byte>)
    requires data.Some? ==> |data.value| < 0x8000_0000
    ensures TakeBlob(Encode(Blob(max, data)) + rest, max)
         == if data.Some? && |data.value| > max then None else Some(Got(data, rest))
  {
    var s := Encode(Blob(max, data)) + rest;
    match data {
      case None => assert s[1..] == rest;
      case Some(d) =>
        assert s[1..] == IntBytes(Narrow(|d|)) + (d + rest);
        CountReadsBack(|d|, max, d + rest);
        assert (d + rest)[..|d|] == d && (d + rest)[|d|..] == rest;
    }
  }

  // ---- a run of calls ------------------------------------------------------------------------

  function EncodeAll(values: seq<Value>): seq<byte> {
    if values == [] then [] else Encode(values[0]) + EncodeAll(values[1..])
  }

  function Shapes(values: seq<Value>): (r: seq<Shape>)
    ensures |r| == |values| && forall i | 0 <= i < |values| :: r[i] == ShapeOf(values[i])
  {
    seq(|values|, i requires 0 <= i < |values| => ShapeOf(values[i]))
  }

  function TakeAll(shapes: seq<Shape>, s: seq<byte>): (r: Option<Got<seq<Value>>>)
    ensures r.Some? ==> |r.value.value| == |shapes|
    ensures r.Some? ==> forall i | 0 <= i < |shapes| :: ShapeOf(r.value.value[i]) == shapes[i]
  {
    if shapes == [] then Some(Got([], s))
    else
      match Take(shapes[0], s)
      case None => None
      case Some(g) =>
        match TakeAll(shapes[1..], g.rest)
        case None => None
        case Some(more) => Some(Got([g.value] + more.value, more.rest))
  }

  predicate AllReadable(values: seq<Value>) {
    forall i | 0 <= i < |values| :: Readable(values[i])
  }

  predicate AllCountable(values: seq<Value>) {
    forall i | 0 <= i < |values| :: Countable(values[i])
  }

  lemma {:induction false} AllReadBack(values: seq<Value>, rest: seq<byte>)
    requires AllCountable(values)
    ensures TakeAll(Shapes(values), EncodeAll(values) + rest)
         == if AllReadable(values) then Some(Got(values, rest)) else None
  {
    hide Take, Encode, Readable, Countable;
    if values == [] {
      assert EncodeAll(values) + rest == rest;
    } else {
      var tail := values[1..];
      assert EncodeAll(values) + rest == Encode(values[0]) + (EncodeAll(tail) + rest);
      ValueReadsBack(values[0], EncodeAll(tail) + rest);
      AllReadBack(tail, rest);
      assert Shapes(values)[1..] == Shapes(tail) && [values[0]] + tail == values;
      assert AllReadable(values) <==> Readable(values[0]) && AllReadable(tail) by {
        assert forall i | 1 <= i < |values| :: values[i] == tail[i - 1];
      }
    }
  }

  lemma {:induction false} EncodeAppend(a: seq<Value>, b: seq<Value>)
    ensures EncodeAll(a + b) == EncodeAll(a) + EncodeAll(b)
  {
    if a == [] {
      assert a + b == b;
    } else {
      assert (a + b)[1..] == a[1..] + b;
      EncodeAppend(a[1..], b);
    }
  }

  // ---- the octets themselves -------------------------------------------------------

  // Four or eight octets of a number, low first; a negative one is two's
  // complement, which is what flooring division gives.
  function FourOctets(n: int): seq<byte> {
    var a, b, c := n / 0x100, n / 0x100 / 0x100, n / 0x100 / 0x100 / 0x100;
    [n % 0x100, a % 0x100, b % 0x100, c % 0x100]
  }

  function EightOctets(n: int): seq<byte> {
    FourOctets(n) + FourOctets(n / 0x100 / 0x100 / 0x100 / 0x100)
  }

  lemma {:induction false} FourLittle(n: nat, k: nat)
    ensures LittleEndian(n, 4 + k) == FourOctets(n) + LittleEndian(n / 0x100 / 0x100 / 0x100 / 0x100, k)
  {
    var a, b, c := n / 0x100, n / 0x100 / 0x100, n / 0x100 / 0x100 / 0x100;
    var rest := LittleEndian(c / 0x100, k);
    assert LittleEndian(c, 1 + k) == [c % 0x100] + rest;
    assert LittleEndian(b, 2 + k) == [b % 0x100] + LittleEndian(c, 1 + k);
    assert LittleEndian(a, 3 + k) == [a % 0x100] + LittleEndian(b, 2 + k);
    assert LittleEndian(n, 4 + k) == [n % 0x100] + LittleEndian(a, 3 + k);
  }

  lemma SameFour(n: int, up: int)
    ensures FourOctets(n + up * 0x1_0000_0000) == FourOctets(n)
    ensures (n + up * 0x1_0000_0000) / 0x100 / 0x100 / 0x100 / 0x100 == n / 0x100 / 0x100 / 0x100 / 0x100 + up
  {
    var m := n + up * 0x1_0000_0000;
    assert m / 0x100 == n / 0x100 + up * 0x100_0000;
    assert m / 0x100 / 0x100 == n / 0x100 / 0x100 + up * 0x1_0000;
    assert m / 0x100 / 0x100 / 0x100 == n / 0x100 / 0x100 / 0x100 + up * 0x100;
  }

  lemma IntOctets(i: i32)
    ensures IntBytes(i) == FourOctets(i)
  {
    FourLittle(IntBits(i), 0);
    SameFour(i, 1);
  }

  lemma LongOctets(l: i64)
    ensures LittleEndian(LongBits(l), 8) == EightOctets(l)
  {
    var n := LongBits(l);
    FourLittle(n, 4);
    var high := n / 0x100 / 0x100 / 0x100 / 0x100;
    FourLittle(high, 0);
    if l < 0 {
      SameFour(l, 0x1_0000_0000);
      SameFour(l / 0x100 / 0x100 / 0x100 / 0x100, 1);
    }
  }

  function FlatInts(list: seq<i32>): seq<byte> {
    if list == [] then [] else FlatInts(list[..|list| - 1]) + FourOctets(list[|list| - 1])
  }

  lemma {:induction false} IntsFlat(list: seq<i32>)
    ensures IntList(list) == FlatInts(list)
    decreases |list|
  {
    if list != [] {
      IntsLast(list);
      IntsFlat(list[..|list| - 1]);
      IntOctets(list[|list| - 1]);
    }
  }

  lemma {:induction false} IntsLast(list: seq<i32>)
    requires list != []
    ensures IntList(list) == IntList(list[..|list| - 1]) + IntBytes(list[|list| - 1])
    decreases |list|
  {
    if |list| > 1 {
      IntsLast(list[1..]);
      assert list[1..][..|list| - 2] == list[..|list| - 1][1..];
      var a, b, c := IntBytes(list[0]), IntList(list[1..][..|list| - 2]), IntBytes(list[|list| - 1]);
      assert a + (b + c) == a + b + c;
    } else {
      assert list[..0] == [] && list[1..] == [];
    }
  }

  // What each call puts on the stream: a byte, a flag, numbers low octet
  // first, a string behind a 1 and its length in groups of seven bits low
  // group first, a list behind its count, a blob behind a presence octet and
  // its count.
  lemma ValueOctets(v: Value)
    ensures match v
            case Byte(b) => Encode(v) == [b]
            case Flag(f) => Encode(v) == [if f then 1 else 0]
            case Word(h) => Encode(v) == [h % 0x100, h / 0x100]
            case Int(i) => Encode(v) == FourOctets(i)
            case Long(l) => Encode(v) == EightOctets(l)
            case Unsigned(u) => Encode(v) == EightOctets(u)
            case Text(s) =>
              && (|s| < 0x80 ==> Encode(v) == [1, |s|] + s)
              && (0x80 <= |s| < 0x4000 ==> Encode(v) == [1, |s| % 0x80 + 0x80, |s| / 0x80] + s)
            case Ints(list) => |list| < 0x8000_0000 ==> Encode(v) == FourOctets(|list|) + FlatInts(list)
            case Texts(texts) => |texts| < 0x8000_0000 ==> FourOctets(|texts|) <= Encode(v)
            case Blob(_, None) => Encode(v) == [0]
            case Blob(_, Some(d)) => |d| < 0x8000_0000 ==> Encode(v) == [1] + FourOctets(|d|) + d
  {
    hide FourOctets, EightOctets, LittleEndian, IntList, FlatInts, TextList, TextBytes, IntBytes, LongBits, IntOf;
    match v {
      case Word(h) => TwoLittle(h);
      case Int(i) => IntOctets(i);
      case Long(l) => LongOctets(l);
      case Unsigned(u) => UnsignedOctets(u);
      case Text(s) => TextOctets(s);
      case Ints(list) =>
        if |list| < 0x8000_0000 {
          CountOctets(|list|);
          IntsFlat(list);
        }
      case Texts(texts) =>
        if |texts| < 0x8000_0000 {
          CountOctets(|texts|);
        }
      case Blob(_, Some(d)) =>
        if |d| < 0x8000_0000 {
          CountOctets(|d|);
          assert [1] + (FourOctets(|d|) + d) == [1] + FourOctets(|d|) + d;
        }
      case _ =>
    }
  }

  lemma CountOctets(n: nat)
    requires n < 0x8000_0000
    ensures IntBytes(Narrow(n)) == FourOctets(n)
  {
    hide FourOctets, IntBytes;
    IntOctets(n);
  }

  lemma TwoLittle(h: halfword)
    ensures LittleEndian(h, 2) == [h % 0x100, h / 0x100]
  {
    assert LittleEndian(h / 0x100, 1) == [h / 0x100 % 0x100] + LittleEndian(h / 0x100 / 0x100, 0);
    assert h / 0x100 % 0x100 == h / 0x100;
  }

  lemma UnsignedOctets(u: u64)
    ensures LittleEndian(u, 8) == EightOctets(u)
  {
    FourLittle(u, 4);
    FourLittle(u / 0x100 / 0x100 / 0x100 / 0x100, 0);
  }

  lemma TextOctets(s: seq<byte>)
    ensures |s| < 0x80 ==> TextBytes(s) == [1, |s|] + s
    ensures 0x80 <= |s| < 0x4000 ==> TextBytes(s) == [1, |s| % 0x80 + 0x80, |s| / 0x80] + s
  {
    if 0x80 <= |s| < 0x4000 {
      assert Length7(|s| / 0x80) == [|s| / 0x80];
      assert Length7(|s|) == [|s| % 0x80 + 0x80, |s| / 0x80];
    }
  }
}
