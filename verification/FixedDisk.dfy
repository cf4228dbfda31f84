// SVC 40, the fixed disk: reads, the three writes and the key scan, as
// functions of guest storage and the volume, with what the scan finds stated
// independently of how it searches.
module FixedDisk {
  import opened Bytes
  import opened GuestStorage

  const OFF_COMMAND := 0x0A
  const OFF_MODIFIER := 0x0B
  const OFF_BUFFER := 13
  const OFF_COUNT := 16
  const OFF_SECTOR := 19
  const OFF_WORK := 23
  const OFF_FIRST_KEY := 37
  const OFF_KEY_LENGTH := 38
  const OFF_LAST_KEY := 39
  const OFF_KEY_GAP := 40
  const OFF_SCAN_HIT := 42

  type sector = s: seq<byte> | |s| == 256 witness Repeat(0, 256)

  datatype Disk = Disk(guest: Guest, volume: seq<sector>)

  datatype Reply = Reply(disk: Disk, accepted: bool)

  // ---- collating -----------------------------------------------------------

  // The sign of the first difference, byte by byte.
  function Compare(image: sector, at: nat, argument: seq<byte>, i: nat): int
    requires at + |argument| <= 256 && i <= |argument|
    decreases |argument| - i
  {
    if i == |argument| then 0
    else
      var d := (image[at + i] as int) - argument[i];
      if d != 0 then d else Compare(image, at, argument, i + 1)
  }

  // Unsigned lexicographic order on keys of one length.
  ghost predicate LexLess(a: seq<byte>, b: seq<byte>)
    requires |a| == |b|
  {
    exists i | 0 <= i < |a| :: a[i] < b[i] && a[..i] == b[..i]
  }

  lemma {:induction false} CompareFrom(image: sector, at: nat, argument: seq<byte>, i: nat)
    requires at + |argument| <= 256 && i <= |argument|
    requires image[at..at + i] == argument[..i]
    ensures var key, c := image[at..at + |argument|], Compare(image, at, argument, i);
              (c < 0 <==> LexLess(key, argument)) && (c > 0 <==> LexLess(argument, key))
              && (c == 0 <==> key == argument)
    decreases |argument| - i
  {
    var key := image[at..at + |argument|];
    assert key[..i] == argument[..i];
    if i == |argument| {
      assert key == argument;
    } else if key[i] == argument[i] {
      assert image[at..at + i + 1] == image[at..at + i] + [image[at + i]];
      assert argument[..i + 1] == argument[..i] + [argument[i]];
      CompareFrom(image, at, argument, i + 1);
    } else {
      DifferAt(key, argument, i);
    }
  }

  lemma DifferAt(a: seq<byte>, b: seq<byte>, i: nat)
    requires |a| == |b| && i < |a| && a[..i] == b[..i] && a[i] != b[i]
    ensures LexLess(a, b) <==> a[i] < b[i]
    ensures LexLess(b, a) <==> b[i] < a[i]
    ensures a != b
  {
    forall j | 0 <= j < |a| && j != i
      ensures !(a[j] != b[j] && a[..j] == b[..j])
    {
      if j < i {
        assert a[..i][j] == b[..i][j];
      } else {
        assert a[..j][i] == a[i] && b[..j][i] == b[i];
      }
    }
  }

  // Comparing a key in place is unsigned lexicographic comparison.
  lemma CompareIsLexicographic(image: sector, at: nat, argument: seq<byte>)
    requires at + |argument| <= 256
    ensures var key, c := image[at..at + |argument|], Compare(image, at, argument, 0);
              (c < 0 <==> LexLess(key, argument)) && (c > 0 <==> LexLess(argument, key))
              && (c == 0 <==> key == argument)
  {
    CompareFrom(image, at, argument, 0);
  }

  // ---- where the keys are ----------------------------------------------------

  datatype Keys = Keys(first: byte, length: nat, last: byte, gap: byte) {
    predicate Usable() {
      1 <= length && first + length <= 256
    }
  }

  function KeyAt(k: Keys, j: nat): (p: nat)
    ensures p >= k.first
  {
    if j == 0 then k.first else KeyAt(k, j - 1) + k.length + k.gap
  }

  predicate InSector(k: Keys, j: nat) {
    KeyAt(k, j) <= k.last && KeyAt(k, j) + k.length <= 256
  }

  lemma {:induction false} KeysAscend(k: Keys, i: nat, j: nat)
    requires i <= j && InSector(k, j)
    ensures InSector(k, i)
    decreases j - i
  {
    if i < j {
      KeysAscend(k, i, j - 1);
    }
  }

  predicate Satisfies(relation: nat, c: int) {
    if relation == 0 then c == 0 else if relation == 1 then c <= 0 else c >= 0
  }

  // Key j of this sector satisfies the relation to the argument.
  predicate Matches(image: sector, k: Keys, relation: nat, argument: seq<byte>, j: nat)
    requires |argument| == k.length
  {
    InSector(k, j) && Satisfies(relation, Compare(image, KeyAt(k, j), argument, 0))
  }

  datatype Hit = Hit(sector: nat, key: nat)

  function SearchSector(image: sector, k: Keys, relation: nat, argument: seq<byte>, j: nat): Option<nat>
    requires |argument| == k.length && k.Usable()
    decreases 512 - KeyAt(k, j)
  {
    if !InSector(k, j) then None
    else if Matches(image, k, relation, argument, j) then Some(j)
    else SearchSector(image, k, relation, argument, j + 1)
  }

  function Search(volume: seq<sector>, k: Keys, relation: nat, argument: seq<byte>, s: nat): Option<Hit>
    requires |argument| == k.length && k.Usable() && s <= |volume|
    decreases |volume| - s
  {
    if s == |volume| then None
    else
      match SearchSector(volume[s], k, relation, argument, 0)
      case Some(j) => Some(Hit(s, j))
      case None => Search(volume, k, relation, argument, s + 1)
  }

  lemma {:induction false} SearchSectorIsFirst(image: sector, k: Keys, relation: nat, argument: seq<byte>, j: nat)
    requires |argument| == k.length && k.Usable()
    ensures var r := SearchSector(image, k, relation, argument, j);
              && (r.Some? ==> j <= r.value && Matches(image, k, relation, argument, r.value)
                              && forall i: nat | j <= i < r.value :: !Matches(image, k, relation, argument, i))
              && (r.None? ==> forall i: nat | j <= i :: !Matches(image, k, relation, argument, i))
    decreases 512 - KeyAt(k, j)
  {
    if !InSector(k, j) {
      forall i: nat | j <= i
        ensures !InSector(k, i)
      {
        if InSector(k, i) {
          KeysAscend(k, j, i);
        }
      }
    } else if !Matches(image, k, relation, argument, j) {
      SearchSectorIsFirst(image, k, relation, argument, j + 1);
    }
  }

  ghost predicate MatchesAt(volume: seq<sector>, k: Keys, relation: nat, argument: seq<byte>, h: Hit)
    requires |argument| == k.length
  {
    h.sector < |volume| && Matches(volume[h.sector], k, relation, argument, h.key)
  }

  predicate Earlier(a: Hit, b: Hit) {
    a.sector < b.sector || (a.sector == b.sector && a.key < b.key)
  }

  // The hit named is a match with none earlier in (sector, key) order; no hit
  // means nothing in any sector matches.
  ghost predicate IsFirst(volume: seq<sector>, k: Keys, relation: nat, argument: seq<byte>, r: Option<Hit>)
    requires |argument| == k.length
  {
    match r
    case Some(h) =>
      && MatchesAt(volume, k, relation, argument, h)
      && forall e: Hit | MatchesAt(volume, k, relation, argument, e) :: e == h || Earlier(h, e)
    case None => forall e: Hit :: !MatchesAt(volume, k, relation, argument, e)
  }

  lemma {:induction false} SearchFrom(volume: seq<sector>, k: Keys, relation: nat, argument: seq<byte>, s: nat)
    requires |argument| == k.length && k.Usable() && s <= |volume|
    requires forall e: Hit | e.sector < s :: !MatchesAt(volume, k, relation, argument, e)
    ensures IsFirst(volume, k, relation, argument, Search(volume, k, relation, argument, s))
    decreases |volume| - s
  {
    if s < |volume| {
      SearchSectorIsFirst(volume[s], k, relation, argument, 0);
      if SearchSector(volume[s], k, relation, argument, 0).None? {
        SearchFrom(volume, k, relation, argument, s + 1);
      }
    }
  }

  // The scan's answer is the first hit, and the only answer that is.
  lemma SearchIsFirst(volume: seq<sector>, k: Keys, relation: nat, argument: seq<byte>, r: Option<Hit>)
    requires |argument| == k.length && k.Usable()
    ensures r == Search(volume, k, relation, argument, 0) <==> IsFirst(volume, k, relation, argument, r)
  {
    SearchFrom(volume, k, relation, argument, 0);
  }

  // ---- buffers -----------------------------------------------------------------

  // Every byte of the buffer is mapped and inside main storage.
  ghost predicate Reachable(g: Guest, field: addr24, length: int)
    requires g.Valid()
  {
    GuestAddresses(g, field, length).Some? && Inside(|g.mem|, GuestAddresses(g, field, length).value)
  }

  ghost function Image(sectors: seq<sector>): (r: seq<byte>)
    ensures |r| == |sectors| * 256
  {
    seq(|sectors| * 256, k requires 0 <= k < |sectors| * 256 => sectors[k / 256][k % 256])
  }

  ghost function Overwrite(volume: seq<sector>, at: nat, data: seq<byte>): (r: seq<sector>)
    requires |data| % 256 == 0 && at + |data| / 256 <= |volume|
    ensures |r| == |volume|
    ensures forall i | 0 <= i < |volume| ::
              r[i] == if at <= i < at + |data| / 256 then data[(i - at) * 256..(i - at) * 256 + 256] else volume[i]
  {
    seq(|volume|, i requires 0 <= i < |volume| =>
      if at <= i < at + |data| / 256 then data[(i - at) * 256..(i - at) * 256 + 256] else volume[i])
  }

  // ---- commands -----------------------------------------------------------------

  function Finish(d: Disk, iob: int, code: nat): Reply {
    Reply(d.(guest := Complete(d.guest, iob, code)), code != 4)
  }

  function Advance(g: Guest, iob: int, sector: nat): Guest {
    WriteAddr24(g, iob + OFF_WORK, sector % 0x100_0000)
  }

  ghost function Read(d: Disk, iob: int, sector: nat, sectors: nat, field: addr24): Reply
    requires d.guest.Valid() && sector + sectors <= |d.volume|
  {
    if !Reachable(d.guest, field, sectors * 256) then Finish(d, iob, 4)
    else
      var a := GuestAddresses(d.guest, field, sectors * 256).value;
      var g := d.guest.(mem := PokeAll(d.guest.mem, a, Image(d.volume[sector..sector + sectors])));
      Finish(d.(guest := Advance(g, iob, sector + sectors)), iob, 0)
  }

  // What a write puts on the volume: the fill character, the one wrapped
  // sector over and over, or the whole buffer.
  ghost function Source(g: Guest, sectors: nat, modifier: byte, field: addr24): (r: Option<seq<byte>>)
    requires g.Valid()
    ensures r.Some? ==> |r.value| == sectors * 256
  {
    if modifier == 0xC0 then Some(Repeat((field / 0x1_0000) as byte, sectors * 256))
    else if modifier == 0x80 then
      if !Reachable(g, field, 256) then None
      else
        var one := Gather(g.mem, GuestAddresses(g, field, 256).value);
        Some(seq(sectors * 256, k requires 0 <= k < sectors * 256 => one[k % 256]))
    else
      if !Reachable(g, field, sectors * 256) then None
      else Some(Gather(g.mem, GuestAddresses(g, field, sectors * 256).value))
  }

  ghost function Write(d: Disk, writable: bool, iob: int, sector: nat, sectors: nat, modifier: byte,
                       field: addr24): Reply
    requires d.guest.Valid() && sector + sectors <= |d.volume|
  {
    var data := Source(d.guest, sectors, modifier, field);
    if data == None || !writable then Finish(d, iob, 4)
    else
      Finish(Disk(Advance(d.guest, iob, sector + sectors), Overwrite(d.volume, sector, data.value)), iob, 0)
  }

  function ReadKeys(g: Guest, iob: int): Keys {
    Keys(ByteAt(g, iob + OFF_FIRST_KEY), ByteAt(g, iob + OFF_KEY_LENGTH) + 1,
         ByteAt(g, iob + OFF_LAST_KEY), ByteAt(g, iob + OFF_KEY_GAP))
  }

  function KeysRead(g: Guest, iob: int): (r: Guest)
    ensures r.mem == g.mem && r.atr == g.atr
  {
    Touch(Touch(Touch(Touch(g, iob + OFF_FIRST_KEY, 1), iob + OFF_KEY_LENGTH, 1), iob + OFF_LAST_KEY, 1),
          iob + OFF_KEY_GAP, 1)
  }

  // The hit byte, the 1-based work sector, and the sector over the argument.
  ghost function Found(g: Guest, iob: int, position: byte, sector: nat, addresses: seq<int>, image: sector): (r: Guest)
    requires |addresses| == 256 && Inside(|g.mem|, addresses)
    ensures |r.mem| == |g.mem| && r.atr == g.atr
  {
    var named := Advance(WriteByte(g, iob + OFF_SCAN_HIT, position), iob, sector + 1);
    named.(mem := PokeAll(named.mem, addresses, image))
  }

  // A scan whose 256-byte buffer lies at `a`: the argument is its first bytes.
  ghost function ScanBuffer(d: Disk, iob: int, sector: nat, sectors: nat, k: Keys, relation: byte, a: seq<int>): Reply
    requires sector + sectors <= |d.volume| && k.Usable() && |a| == 256 && Inside(|d.guest.mem|, a)
  {
    var argument := Gather(d.guest.mem, a)[..k.length];
    match Search(d.volume[sector..sector + sectors], k, relation, argument, 0)
    case None => Finish(d.(guest := Advance(d.guest, iob, sector + sectors)), iob, 2)
    case Some(h) =>
      SearchIsFirst(d.volume[sector..sector + sectors], k, relation, argument, Some(h));
      var image, p := d.volume[sector + h.sector], KeyAt(k, h.key);
      HitReply(d.(guest := Found(d.guest, iob, p + k.length - 1, sector + h.sector, a, image)), iob,
               Compare(image, p, argument, 0) == 0)
  }

  ghost function Scan(d: Disk, iob: int, sector: nat, sectors: nat, relation: byte, field: addr24): Reply
    requires d.guest.Valid() && sector + sectors <= |d.volume|
  {
    var k, g := ReadKeys(d.guest, iob), KeysRead(d.guest, iob);
    if relation >= 3 || !k.Usable() || !Reachable(g, field, 256) then Finish(d.(guest := g), iob, 4)
    else ScanBuffer(d.(guest := g), iob, sector, sectors, k, relation, GuestAddresses(g, field, 256).value)
  }

  // A hit is never an error: 44 when exactly equal, 40 otherwise.
  function HitReply(d: Disk, iob: int, equal: bool): Reply {
    Reply(d.(guest := Complete(d.guest, iob, if equal then 4 else 0)), true)
  }

  function FieldsRead(g: Guest, iob: int): (r: Guest)
    ensures r.mem == g.mem && r.atr == g.atr
  {
    Touch(Touch(Touch(Touch(Touch(g, iob + OFF_COMMAND, 1), iob + OFF_MODIFIER, 1), iob + OFF_SECTOR, 3),
                iob + OFF_COUNT, 3), iob + OFF_BUFFER, 3)
  }

  ghost function Dispatch(d: Disk, writable: bool, iob: int, command: byte, modifier: byte,
                          start: addr24, count: addr24, field: addr24): Reply
    requires d.guest.Valid()
  {
    if command == 0x00 || command == 0xA0 || command == 0xA4 then Finish(d, iob, 0)
    else if command == 0xA1 && start == 0 then Finish(d, iob, 0)
    else if command != 0xA1 && command != 0xA2 && command != 0xA3 then Finish(d, iob, 4)
    else if start == 0 || start > |d.volume| || start + count > |d.volume| then Finish(d, iob, 4)
    else if command == 0xA2 then Write(d, writable, iob, start - 1, count + 1, modifier, field)
    else if command == 0xA3 then Scan(d, iob, start - 1, count + 1, modifier, field)
    else Read(d, iob, start - 1, count + 1, field)
  }

  // The work sector is seeded from the start sector before the command is
  // looked at.
  ghost function Execute(d: Disk, writable: bool, iob: int): Reply
    requires d.guest.Valid()
  {
    var g := d.guest;
    var start := Addr24At(g, iob + OFF_SECTOR);
    Dispatch(d.(guest := WriteAddr24(FieldsRead(g, iob), iob + OFF_WORK, start)), writable, iob,
             ByteAt(g, iob + OFF_COMMAND), ByteAt(g, iob + OFF_MODIFIER), start,
             Addr24At(g, iob + OFF_COUNT), Addr24At(g, iob + OFF_BUFFER))
  }

  // ---- what a request achieves ---------------------------------------------------

  // The block lies in storage and no byte of the buffer lies in the block.
  ghost predicate Apart(g: Guest, iob: int, addresses: seq<int>) {
    InRange(|g.mem|, iob, 43) && forall i | 0 <= i < |addresses| :: addresses[i] < iob || iob + 43 <= addresses[i]
  }

  lemma SameAddresses(g: Guest, h: Guest, field: addr24, length: int)
    requires g.Valid() && h.Valid() && h.atr == g.atr && |h.mem| == |g.mem|
    ensures GuestAddresses(h, field, length) == GuestAddresses(g, field, length)
  {
  }

  lemma FirstMatches(volume: seq<sector>, k: Keys, relation: nat, argument: seq<byte>, h: Hit)
    requires |argument| == k.length && IsFirst(volume, k, relation, argument, Some(h))
    ensures h.sector < |volume| && InSector(k, h.key)
  {
  }

  // The bytes written come back, and the sectors around them are untouched.
  lemma VolumeRoundTrip(volume: seq<sector>, at: nat, data: seq<byte>)
    requires |data| % 256 == 0 && at + |data| / 256 <= |volume|
    ensures var v, n := Overwrite(volume, at, data), |data| / 256;
              Image(v[at..at + n]) == data && v[..at] == volume[..at] && v[at + n..] == volume[at + n..]
  {
    var v, n := Overwrite(volume, at, data), |data| / 256;
    forall x | 0 <= x < |data|
      ensures Image(v[at..at + n])[x] == data[x]
    {
      assert v[at..at + n][x / 256] == data[x / 256 * 256..x / 256 * 256 + 256];
    }
  }

  lemma ReadRefused(d: Disk, iob: int, sector: nat, sectors: nat, field: addr24)
    requires d.guest.Valid() && sector + sectors <= |d.volume|
    ensures var r := Read(d, iob, sector, sectors, field); r.accepted || r == Finish(d, iob, 4)
  {
    hide Complete, Advance, PokeAll, Image;
  }

  lemma WriteRefused(d: Disk, writable: bool, iob: int, sector: nat, sectors: nat, modifier: byte, field: addr24)
    requires d.guest.Valid() && sector + sectors <= |d.volume|
    ensures var r := Write(d, writable, iob, sector, sectors, modifier, field); r.accepted || r == Finish(d, iob, 4)
    ensures !writable ==> !Write(d, writable, iob, sector, sectors, modifier, field).accepted
  {
    hide Complete, Advance, Source, Overwrite;
  }

  lemma ScanRefused(d: Disk, iob: int, sector: nat, sectors: nat, relation: byte, field: addr24)
    requires d.guest.Valid() && sector + sectors <= |d.volume|
    ensures var r := Scan(d, iob, sector, sectors, relation, field);
            r.accepted || r == Finish(d.(guest := KeysRead(d.guest, iob)), iob, 4)
  {
    hide Complete, Advance, Search, Found, Gather, Compare, ReadKeys, KeysRead, Inside;
  }

  // A refused request moves nothing: the volume stays, and guest storage
  // changes only in the event mask and the seeded work sector.
  lemma RefusalMovesNothing(d: Disk, writable: bool, iob: int)
    requires d.guest.Valid() && !Execute(d, writable, iob).accepted
    ensures var r := Execute(d, writable, iob);
              && r.disk.volume == d.volume && |r.disk.guest.mem| == |d.guest.mem| && r.disk.guest.atr == d.guest.atr
              && forall x | 0 <= x < |d.guest.mem| && !(iob + 2 <= x < iob + 7) && !(iob + 23 <= x < iob + 26) ::
                   r.disk.guest.mem[x] == d.guest.mem[x]
  {
    var start, g := Addr24At(d.guest, iob + OFF_SECTOR), FieldsRead(d.guest, iob);
    var seeded := d.(guest := WriteAddr24(g, iob + OFF_WORK, start));
    DispatchRefused(seeded, writable, iob, ByteAt(d.guest, iob + OFF_COMMAND), ByteAt(d.guest, iob + OFF_MODIFIER),
                    start, Addr24At(d.guest, iob + OFF_COUNT), Addr24At(d.guest, iob + OFF_BUFFER));
  }

  lemma DispatchRefused(d: Disk, writable: bool, iob: int, command: byte, modifier: byte,
                        start: addr24, count: addr24, field: addr24)
    requires d.guest.Valid() && !Dispatch(d, writable, iob, command, modifier, start, count, field).accepted
    ensures var r := Dispatch(d, writable, iob, command, modifier, start, count, field);
              && r.disk.volume == d.volume && |r.disk.guest.mem| == |d.guest.mem| && r.disk.guest.atr == d.guest.atr
              && forall x | 0 <= x < |d.guest.mem| && !(iob + 2 <= x < iob + 7) :: r.disk.guest.mem[x] == d.guest.mem[x]
  {
    hide Read, Write, Scan, KeysRead;
    if start > 0 && start + count <= |d.volume| {
      ReadRefused(d, iob, start - 1, count + 1, field);
      WriteRefused(d, writable, iob, start - 1, count + 1, modifier, field);
      ScanRefused(d, iob, start - 1, count + 1, modifier, field);
    }
  }
}
