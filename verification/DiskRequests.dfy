// What a fixed disk request does, told from the bytes of its block, the
// registers its buffer goes through and the volume alone: the laws here name
// no part of the way `FixedDisk` works a request out.
module DiskRequests {
  import opened Bytes
  import opened GuestStorage
  import opened FixedDisk

  // What a request leaves: the completion byte, the mask off its queue, the
  // work sector, and no other byte but the buffer's and, on a hit, byte 42.
  ghost predicate Served(g: Guest, h: Guest, iob: int, code: byte, work: int, a: seq<int>, hit: bool) {
    && InRange(|g.mem|, iob, 43) && |h.mem| == |g.mem| && h.atr == g.atr && h.faulted == g.faulted
    && h.mem[iob + 6] == code && h.mem[iob + 2..iob + 5] == [0, 0, 0]
    && Number(h.mem, iob + 23) == work % 0x100_0000
    && forall x | 0 <= x < |g.mem| && !(iob + 2 <= x < iob + 7) && !(iob + 23 <= x < iob + 26)
                  && !(hit && x == iob + 42) && Untouched(a, x) ::
         h.mem[x] == g.mem[x]
  }

  // Byte i of the buffer is data[i], unless a later byte shares its address.
  ghost predicate Holds(mem: seq<byte>, a: seq<int>, data: seq<byte>)
    requires |a| == |data| && Inside(|mem|, a)
  {
    forall i | 0 <= i < |a| && LastUse(a, i) :: mem[a[i]] == data[i]
  }

  // ---- the block --------------------------------------------------------------

  ghost predicate InBlock(d: Disk, iob: int) {
    d.guest.Valid() && InRange(|d.guest.mem|, iob, 43)
  }

  ghost function Command(d: Disk, iob: int): byte
    requires InBlock(d, iob)
  {
    d.guest.mem[iob + 10]
  }

  ghost function Modifier(d: Disk, iob: int): byte
    requires InBlock(d, iob)
  {
    d.guest.mem[iob + 11]
  }

  ghost function Buffer(d: Disk, iob: int): addr24
    requires InBlock(d, iob)
  {
    Number(d.guest.mem, iob + 13)
  }

  ghost function Count(d: Disk, iob: int): addr24
    requires InBlock(d, iob)
  {
    Number(d.guest.mem, iob + 16)
  }

  ghost function Start(d: Disk, iob: int): addr24
    requires InBlock(d, iob)
  {
    Number(d.guest.mem, iob + 19)
  }

  ghost function FirstKey(mem: seq<byte>, iob: int): nat
    requires InRange(|mem|, iob, 43)
  {
    mem[iob + 37]
  }

  // The block holds one less than the length of a key.
  ghost function KeyLength(mem: seq<byte>, iob: int): nat
    requires InRange(|mem|, iob, 43)
  {
    (mem[iob + 38] as int) + 1
  }

  // Sectors are named from 1 and the count is one less than the sectors moved.
  ghost predicate OnVolume(d: Disk, iob: int)
    requires InBlock(d, iob)
  {
    1 <= Start(d, iob) && Start(d, iob) + Count(d, iob) <= |d.volume|
  }

  // ---- how the specification meets the bytes -----------------------------------

  lemma Posted(g: Guest, iob: int, code: nat)
    requires InRange(|g.mem|, iob, 43) && code < 0x10
    ensures var h := Complete(g, iob, code);
            && |h.mem| == |g.mem| && h.atr == g.atr && h.faulted == g.faulted
            && h.mem[iob + 6] == 0x40 + code && h.mem[iob + 2..iob + 5] == [0, 0, 0]
            && Number(h.mem, iob + 23) == Number(g.mem, iob + 23)
            && forall x | 0 <= x < |g.mem| && !(iob + 2 <= x < iob + 7) :: h.mem[x] == g.mem[x]
  {
    assert Addr24Bytes(0) == [0, 0, 0];
  }

  lemma Worked(g: Guest, iob: int, work: addr24)
    requires InRange(|g.mem|, iob, 43)
    ensures var h := WriteAddr24(g, iob + 23, work);
            && |h.mem| == |g.mem| && h.atr == g.atr && h.faulted == g.faulted
            && Number(h.mem, iob + 23) == work
            && forall x | 0 <= x < |g.mem| && !(iob + 23 <= x < iob + 26) :: h.mem[x] == g.mem[x]
  {
    var h := WriteAddr24(g, iob + 23, work);
    assert h.mem[iob + 23] == work / 0x1_0000;
    assert h.mem[iob + 24] == work / 0x100 % 0x100;
    assert h.mem[iob + 25] == work % 0x100;
    ThreeBytes(work);
  }

  lemma ThreeBytes(v: addr24)
    ensures v == v / 0x1_0000 * 0x1_0000 + v / 0x100 % 0x100 * 0x100 + v % 0x100
  {
  }

  // The request as the bytes of the block give it, with the work sector
  // already seeded.
  ghost function Seed(d: Disk, iob: int): (r: Disk)
    requires InBlock(d, iob)
    ensures InBlock(r, iob) && r.volume == d.volume && |r.guest.mem| == |d.guest.mem|
    ensures r.guest.atr == d.guest.atr && r.guest.faulted == d.guest.faulted
    ensures Number(r.guest.mem, iob + 23) == Start(d, iob)
    ensures forall x | 0 <= x < |d.guest.mem| && !(iob + 23 <= x < iob + 26) :: r.guest.mem[x] == d.guest.mem[x]
  {
    Worked(d.guest, iob, Start(d, iob));
    d.(guest := WriteAddr24(d.guest, iob + 23, Start(d, iob)))
  }

  lemma ExecuteDispatches(d: Disk, writable: bool, iob: int)
    requires InBlock(d, iob)
    ensures Execute(d, writable, iob)
         == Dispatch(Seed(d, iob), writable, iob, Command(d, iob), Modifier(d, iob), Start(d, iob), Count(d, iob),
                     Buffer(d, iob))
  {
    hide Dispatch, Addr24At, WriteAddr24, Number;
    var g := d.guest;
    NumberAt(g, iob + 13);
    NumberAt(g, iob + 16);
    NumberAt(g, iob + 19);
    assert FieldsRead(g, iob) == g;
  }

  // ---- the commands -------------------------------------------------------------

  lemma SeedPosted(d: Disk, iob: int, code: nat)
    requires InBlock(d, iob) && code < 0x10
    ensures Served(d.guest, Complete(Seed(d, iob).guest, iob, code), iob, 0x40 + code, Start(d, iob), [], false)
  {
    hide Complete, Seed;
    Posted(Seed(d, iob).guest, iob, code);
  }

  // Commands 00, A0 and A4, and a read of sector 0, complete without moving a
  // byte; the work sector still holds the start sector.
  lemma ImmediateRequest(d: Disk, writable: bool, iob: int)
    requires InBlock(d, iob)
    requires Command(d, iob) in {0x00, 0xA0, 0xA4} || (Command(d, iob) == 0xA1 && Start(d, iob) == 0)
    ensures var r := Execute(d, writable, iob);
            && r.accepted && r.disk.volume == d.volume
            && Served(d.guest, r.disk.guest, iob, 0x40, Start(d, iob), [], false)
  {
    hide Complete, Execute, Seed, Served, Read, FixedDisk.Write, Scan;
    ExecuteDispatches(d, writable, iob);
    SeedPosted(d, iob, 0);
  }

  // The storage a transfer needs: the whole buffer, the one sector a wrapped
  // write repeats, none for a fill.
  ghost function Needs(command: byte, modifier: byte, count: addr24): nat {
    if command == 0xA3 || (command == 0xA2 && modifier == 0x80) then 256 else (count + 1) * 256
  }

  ghost function Needed(d: Disk, iob: int): nat
    requires InBlock(d, iob)
  {
    Needs(Command(d, iob), Modifier(d, iob), Count(d, iob))
  }

  ghost predicate NeedsMet(d: Disk, iob: int)
    requires InBlock(d, iob)
  {
    || (Command(d, iob) == 0xA2 && Modifier(d, iob) == 0xC0)
    || exists a: seq<int> | |a| == Needed(d, iob) :: BufferAt(d.guest, Buffer(d, iob), a)
  }

  lemma BufferExists(g: Guest, field: addr24, length: nat)
    requires g.Valid() && length > 0
    ensures Reachable(g, field, length) <==> exists a: seq<int> | |a| == length :: BufferAt(g, field, a)
  {
    hide BufferAt, GuestAddresses, Inside;
    if Reachable(g, field, length) {
      BufferIs(g, field, GuestAddresses(g, field, length).value);
    }
    if exists a: seq<int> | |a| == length :: BufferAt(g, field, a) {
      var a: seq<int> :| |a| == length && BufferAt(g, field, a);
      BufferIs(g, field, a);
    }
  }

  lemma SeedReaches(d: Disk, iob: int, length: nat)
    requires InBlock(d, iob) && length > 0
    ensures Reachable(Seed(d, iob).guest, Buffer(d, iob), length)
       <==> exists a: seq<int> | |a| == length :: BufferAt(d.guest, Buffer(d, iob), a)
  {
    hide BufferAt, GuestAddresses, Inside, Buffer;
    SameReach(d.guest, Seed(d, iob).guest, Buffer(d, iob), length);
    BufferExists(d.guest, Buffer(d, iob), length);
  }

  lemma SameReach(g: Guest, h: Guest, field: addr24, length: int)
    requires g.Valid() && h.Valid() && h.atr == g.atr && |h.mem| == |g.mem|
    ensures GuestAddresses(h, field, length) == GuestAddresses(g, field, length)
    ensures Reachable(h, field, length) <==> Reachable(g, field, length)
  {
    SameAddresses(g, h, field, length);
  }

  lemma ReadServed(d: Disk, iob: int, sector: nat, sectors: nat, field: addr24)
    requires d.guest.Valid() && sector + sectors <= |d.volume|
    ensures var r := Read(d, iob, sector, sectors, field);
            && (r.accepted <==> Reachable(d.guest, field, sectors * 256)) && (!r.accepted ==> r == Finish(d, iob, 4))
  {
    hide Complete, Advance, PokeAll, Image, Reachable;
  }

  lemma WriteServed(d: Disk, writable: bool, iob: int, sector: nat, sectors: nat, modifier: byte, field: addr24)
    requires d.guest.Valid() && sector + sectors <= |d.volume|
    ensures var r := FixedDisk.Write(d, writable, iob, sector, sectors, modifier, field);
            && (r.accepted <==> && writable
                                && (modifier == 0xC0 ||
                                    Reachable(d.guest, field, if modifier == 0x80 then 256 else sectors * 256)))
            && (!r.accepted ==> r == Finish(d, iob, 4))
  {
    hide Complete, Advance, Overwrite, Reachable, Gather;
  }

  lemma ScanServed(d: Disk, iob: int, sector: nat, sectors: nat, relation: byte, field: addr24)
    requires InBlock(d, iob) && sector + sectors <= |d.volume|
    ensures var r := Scan(d, iob, sector, sectors, relation, field);
            && (r.accepted <==> && relation < 3 && FirstKey(d.guest.mem, iob) + KeyLength(d.guest.mem, iob) <= 256
                                && Reachable(d.guest, field, 256))
            && (!r.accepted ==> r == Finish(d, iob, 4))
  {
    hide Complete, Advance, Search, Found, Gather, Compare, Reachable;
    KeysLie(d.guest, iob);
  }

  lemma KeysLie(g: Guest, iob: int)
    requires InRange(|g.mem|, iob, 43)
    ensures ReadKeys(g, iob) == Keys(g.mem[iob + 37], KeyLength(g.mem, iob), g.mem[iob + 39], g.mem[iob + 40])
    ensures KeysRead(g, iob) == g
  {
  }

  lemma DispatchServed(d: Disk, writable: bool, iob: int, c: byte, m: byte, start: addr24, count: addr24,
                       field: addr24)
    requires InBlock(d, iob)
    ensures var r := Dispatch(d, writable, iob, c, m, start, count, field);
            && (r.accepted
                <==> || c in {0x00, 0xA0, 0xA4} || (c == 0xA1 && start == 0)
                     || (&& c in {0xA1, 0xA2, 0xA3} && 1 <= start && start + count <= |d.volume|
                         && ((c == 0xA2 && m == 0xC0) || Reachable(d.guest, field, Needs(c, m, count)))
                         && (c == 0xA2 ==> writable)
                         && (c == 0xA3 ==> m < 3 && FirstKey(d.guest.mem, iob) + KeyLength(d.guest.mem, iob) <= 256)))
            && (!r.accepted ==> r == Finish(d, iob, 4))
  {
    hide Complete, Read, FixedDisk.Write, Scan, Reachable, FirstKey, KeyLength;
    if 1 <= start && start + count <= |d.volume| {
      ReadServed(d, iob, start - 1, count + 1, field);
      WriteServed(d, writable, iob, start - 1, count + 1, m, field);
      ScanServed(d, iob, start - 1, count + 1, m, field);
    }
  }

  // Exactly these requests are served; every other posts 44 and leaves the
  // volume as it is.
  lemma RequestServedIff(d: Disk, writable: bool, iob: int)
    requires InBlock(d, iob)
    ensures var c, r := Command(d, iob), Execute(d, writable, iob);
            && (r.accepted
                <==> || c in {0x00, 0xA0, 0xA4} || (c == 0xA1 && Start(d, iob) == 0)
                     || (&& c in {0xA1, 0xA2, 0xA3} && OnVolume(d, iob) && NeedsMet(d, iob)
                         && (c == 0xA2 ==> writable)
                         && (c == 0xA3 ==> && Modifier(d, iob) < 3
                                           && FirstKey(d.guest.mem, iob) + KeyLength(d.guest.mem, iob) <= 256)))
            && (!r.accepted ==> && r.disk.volume == d.volume
                                && Served(d.guest, r.disk.guest, iob, 0x44, Start(d, iob), [], false))
  {
    hide Complete, Execute, Seed, Dispatch, Served, Reachable, BufferAt, Start, Count, Buffer, Command, Modifier;
    ExecuteDispatches(d, writable, iob);
    DispatchServed(Seed(d, iob), writable, iob, Command(d, iob), Modifier(d, iob), Start(d, iob), Count(d, iob),
                   Buffer(d, iob));
    SeedPosted(d, iob, 4);
    SeedReaches(d, iob, Needed(d, iob));
  }

  // ---- reading and writing -------------------------------------------------------

  // The buffer a write takes its bytes from: none for a fill, and otherwise
  // clear of the work sector, which the request fills in first.
  ghost predicate WritesFrom(d: Disk, iob: int, a: seq<int>)
    requires InBlock(d, iob)
  {
    if Modifier(d, iob) == 0xC0 then a == []
    else
      && |a| == Needs(0xA2, Modifier(d, iob), Count(d, iob)) && BufferAt(d.guest, Buffer(d, iob), a)
      && Inside(|d.guest.mem|, a) && forall i | 0 <= i < |a| :: !(iob + 23 <= a[i] < iob + 26)
  }

  // What a write puts in byte j of the i-th sector: the fill character at byte
  // 13 of the block, the wrapped buffer over and over, or the buffer's own
  // byte.
  ghost function Put(d: Disk, iob: int, a: seq<int>, i: nat, j: nat): byte
    requires InBlock(d, iob) && WritesFrom(d, iob, a) && j < 256 && i <= Count(d, iob)
  {
    if Modifier(d, iob) == 0xC0 then d.guest.mem[iob + 13]
    else if Modifier(d, iob) == 0x80 then d.guest.mem[a[j]]
    else d.guest.mem[a[i * 256 + j]]
  }

  lemma SourceIs(d: Disk, iob: int, a: seq<int>)
    requires InBlock(d, iob) && WritesFrom(d, iob, a)
    ensures var source := Source(Seed(d, iob).guest, Count(d, iob) + 1, Modifier(d, iob), Buffer(d, iob));
            && source.Some?
            && forall i, j | 0 <= i <= Count(d, iob) && 0 <= j < 256 ::
                 source.value[i * 256 + j] == Put(d, iob, a, i, j)
  {
    hide BufferAt, GuestAddresses, Seed, Count;
    var g := Seed(d, iob).guest;
    if Modifier(d, iob) == 0xC0 {
      FillCharacter(d.guest.mem, iob + 13);
    } else {
      BufferIs(d.guest, Buffer(d, iob), a);
      SameReach(d.guest, g, Buffer(d, iob), |a|);
      forall i | 0 <= i < |a|
        ensures g.mem[a[i]] == d.guest.mem[a[i]]
      {
      }
    }
  }

  lemma FillCharacter(mem: seq<byte>, at: int)
    requires InRange(|mem|, at, 3)
    ensures Number(mem, at) / 0x1_0000 == mem[at]
  {
  }

  // An accepted write puts every sector where the block says, and nothing else
  // on the volume moves.
  lemma WriteRequest(d: Disk, iob: int, a: seq<int>)
    requires InBlock(d, iob) && Command(d, iob) == 0xA2 && OnVolume(d, iob) && WritesFrom(d, iob, a)
    ensures var r, at, n := Execute(d, true, iob), Start(d, iob) - 1, Count(d, iob) + 1;
            && r.accepted && |r.disk.volume| == |d.volume|
            && Served(d.guest, r.disk.guest, iob, 0x40, at + n, [], false)
            && (forall i | 0 <= i < |d.volume| && !(at <= i < at + n) :: r.disk.volume[i] == d.volume[i])
            && forall i, j | 0 <= i < n && 0 <= j < 256 :: r.disk.volume[at + i][j] == Put(d, iob, a, i, j)
  {
    hide Execute, Dispatch, Complete, Seed, Served, WritesFrom, Put, Source, Start, Count, Buffer;
    ExecuteDispatches(d, true, iob);
    SourceIs(d, iob, a);
    var s, at, n := Seed(d, iob), Start(d, iob) - 1, Count(d, iob) + 1;
    var data := Source(s.guest, n, Modifier(d, iob), Buffer(d, iob)).value;
    DispatchesWrite(s, iob, Modifier(d, iob), Start(d, iob), Count(d, iob), Buffer(d, iob));
    MovedOn(d, s.guest, iob, at + n);
    var v := Overwrite(d.volume, at, data);
    forall i, j | 0 <= i < n && 0 <= j < 256
      ensures v[at + i][j] == Put(d, iob, a, i, j)
    {
      assert v[at + i] == data[i * 256..i * 256 + 256];
    }
  }

  lemma DispatchesWrite(d: Disk, iob: int, m: byte, start: addr24, count: addr24, field: addr24)
    requires d.guest.Valid() && 1 <= start && start + count <= |d.volume|
    requires Source(d.guest, count + 1, m, field).Some?
    ensures Dispatch(d, true, iob, 0xA2, m, start, count, field)
         == Reply(Disk(Complete(Advance(d.guest, iob, start + count), iob, 0),
                       Overwrite(d.volume, start - 1, Source(d.guest, count + 1, m, field).value)), true)
  {
    hide Complete, Advance, Source, Overwrite;
  }

  // Advancing the work sector and posting 40 on top of the seed.
  lemma MovedOn(d: Disk, g: Guest, iob: int, work: nat)
    requires InBlock(d, iob) && g == Seed(d, iob).guest
    ensures Served(d.guest, Complete(Advance(g, iob, work), iob, 0), iob, 0x40, work, [], false)
  {
    hide Complete, Seed, WriteAddr24;
    Worked(g, iob, work % 0x100_0000);
    Posted(Advance(g, iob, work), iob, 0);
  }

  // Storing a record in a buffer clear of the block.
  lemma Stored(g: Guest, iob: int, a: seq<int>, data: seq<byte>)
    requires InRange(|g.mem|, iob, 43) && Apart(g, iob, a) && |a| == |data| && Inside(|g.mem|, a)
    ensures var mem := PokeAll(g.mem, a, data);
            && Holds(mem, a, data) && (forall x | iob <= x < iob + 43 :: mem[x] == g.mem[x])
            && forall x | 0 <= x < |mem| && Untouched(a, x) :: mem[x] == g.mem[x]
  {
    hide PokeAll;
    PokeAllBytes(g.mem, a, data);
    forall x | iob <= x < iob + 43
      ensures PokeAll(g.mem, a, data)[x] == g.mem[x]
    {
      assert Untouched(a, x);
    }
  }

  // Storing the record and then posting 40 with the work sector moved on.
  lemma StoredAndPosted(d: Disk, g: Guest, iob: int, a: seq<int>, data: seq<byte>, work: nat)
    requires InBlock(d, iob) && g == Seed(d, iob).guest
    requires Apart(d.guest, iob, a) && |a| == |data| && Inside(|g.mem|, a)
    ensures var h := Complete(Advance(g.(mem := PokeAll(g.mem, a, data)), iob, work), iob, 0);
            && Served(d.guest, h, iob, 0x40, work, a, false) && Inside(|h.mem|, a) && Holds(h.mem, a, data)
  {
    hide Complete, Seed, WriteAddr24, PokeAll;
    var stored := g.(mem := PokeAll(g.mem, a, data));
    Stored(g, iob, a, data);
    Worked(stored, iob, work % 0x100_0000);
    Posted(Advance(stored, iob, work), iob, 0);
  }

  // A read of those sectors puts their bytes in the buffer, in order.
  lemma ReadRequest(d: Disk, writable: bool, iob: int, a: seq<int>)
    requires InBlock(d, iob) && Command(d, iob) == 0xA1 && OnVolume(d, iob)
    requires |a| == (Count(d, iob) + 1) * 256 && BufferAt(d.guest, Buffer(d, iob), a) && Apart(d.guest, iob, a)
    ensures var r, at, n := Execute(d, writable, iob), Start(d, iob) - 1, Count(d, iob) + 1;
            && r.accepted && r.disk.volume == d.volume
            && Served(d.guest, r.disk.guest, iob, 0x40, at + n, a, false) && Inside(|r.disk.guest.mem|, a)
            && forall k | 0 <= k < |a| && LastUse(a, k) ::
                 r.disk.guest.mem[a[k]] == d.volume[at + k / 256][k % 256]
  {
    hide Execute, Dispatch, Complete, Seed, Served, Start, Count, Buffer, BufferAt, GuestAddresses, PokeAll, LastUse,
         Apart;
    var s, at, n := Seed(d, iob), Start(d, iob) - 1, Count(d, iob) + 1;
    ExecuteDispatches(d, writable, iob);
    BufferIs(d.guest, Buffer(d, iob), a);
    SameReach(d.guest, s.guest, Buffer(d, iob), |a|);
    var data := Image(d.volume[at..at + n]);
    DispatchesRead(s, writable, iob, Modifier(d, iob), Start(d, iob), Count(d, iob), Buffer(d, iob), a);
    StoredAndPosted(d, s.guest, iob, a, data, at + n);
    var r := Execute(d, writable, iob);
    forall k | 0 <= k < |a| && LastUse(a, k)
      ensures r.disk.guest.mem[a[k]] == d.volume[at + k / 256][k % 256]
    {
      assert data[k] == d.volume[at..at + n][k / 256][k % 256];
    }
  }

  lemma DispatchesRead(d: Disk, writable: bool, iob: int, m: byte, start: addr24, count: addr24, field: addr24,
                       a: seq<int>)
    requires d.guest.Valid() && 1 <= start && start + count <= |d.volume|
    requires Reachable(d.guest, field, (count + 1) * 256) && GuestAddresses(d.guest, field, (count + 1) * 256)
             == Some(a)
    ensures var stored := d.guest.(mem := PokeAll(d.guest.mem, a, Image(d.volume[start - 1..start + count])));
              Dispatch(d, writable, iob, 0xA1, m, start, count, field)
              == Reply(d.(guest := Complete(Advance(stored, iob, start + count), iob, 0)), true)
  {
    hide Complete, Advance, PokeAll, Image;
  }

  // What the write put on the volume is in buffer b.
  ghost predicate Delivered(d: Disk, iob: int, a: seq<int>, mem: seq<byte>, other: int, b: seq<int>)
    requires InBlock(d, iob) && WritesFrom(d, iob, a) && |b| == (Count(d, iob) + 1) * 256
  {
    && InRange(|mem|, other, 43) && mem[other + 6] == 0x40 && Inside(|mem|, b)
    && forall k | 0 <= k < |b| && LastUse(b, k) :: mem[b[k]] == Put(d, iob, a, k / 256, k % 256)
  }

  // Two requests on one stretch of the volume: the sectors a write takes from
  // its buffer are what a later read of them delivers, whatever storage and
  // the registers hold by then.
  lemma WrittenIsRead(d: Disk, iob: int, a: seq<int>, later: Disk, writable: bool, other: int, b: seq<int>)
    requires InBlock(d, iob) && Command(d, iob) == 0xA2 && OnVolume(d, iob) && WritesFrom(d, iob, a)
    requires later.volume == Execute(d, true, iob).disk.volume
    requires InBlock(later, other) && Command(later, other) == 0xA1
    requires Start(later, other) == Start(d, iob) && Count(later, other) == Count(d, iob)
    requires |b| == (Count(d, iob) + 1) * 256 && BufferAt(later.guest, Buffer(later, other), b)
    requires Apart(later.guest, other, b)
    ensures Execute(later, writable, other).accepted
    ensures Delivered(d, iob, a, Execute(later, writable, other).disk.guest.mem, other, b)
  {
    hide Execute, BufferAt, WritesFrom, Put, Apart, LastUse, Start, Count, Buffer;
    WriteRequest(d, iob, a);
    ReadRequest(later, writable, other, b);
  }

  // ---- scanning --------------------------------------------------------------------

  // Key j of a sector starts j steps of a key and a gap after the first one,
  // at or before the last, and lies in the sector whole; relation 0 asks for
  // the argument itself, 1 for no more than it and 2 for no less.
  ghost predicate KeyMatches(image: sector, first: nat, length: nat, last: nat, gap: nat, relation: nat,
                             argument: seq<byte>, j: nat)
    requires |argument| == length
  {
    var p := first + j * (length + gap);
    && p <= last && p + length <= 256
    && var key := image[p..p + length];
       if relation == 0 then key == argument
       else if relation == 1 then !LexLess(argument, key)
       else !LexLess(key, argument)
  }

  lemma {:induction false} KeysAreSpaced(k: Keys, j: nat)
    ensures KeyAt(k, j) == k.first + j * (k.length + k.gap)
  {
    if j > 0 {
      KeysAreSpaced(k, j - 1);
      assert j * (k.length + k.gap) == (j - 1) * (k.length + k.gap) + (k.length + k.gap);
    }
  }

  lemma MatchesIsLiteral(image: sector, k: Keys, relation: nat, argument: seq<byte>, j: nat)
    requires |argument| == k.length && relation < 3
    ensures Matches(image, k, relation, argument, j)
       <==> KeyMatches(image, k.first, k.length, k.last, k.gap, relation, argument, j)
  {
    hide LexLess, Compare, KeyAt;
    KeysAreSpaced(k, j);
    if InSector(k, j) {
      CompareIsLexicographic(image, KeyAt(k, j), argument);
    }
  }

  // A scan block: an argument relation the machine has, keys that fit a
  // sector, and a 256-byte buffer clear of the block.
  ghost predicate ScanBlock(d: Disk, iob: int, a: seq<int>) {
    && InBlock(d, iob) && Command(d, iob) == 0xA3 && Modifier(d, iob) < 3 && OnVolume(d, iob)
    && FirstKey(d.guest.mem, iob) + KeyLength(d.guest.mem, iob) <= 256
    && |a| == 256 && BufferAt(d.guest, Buffer(d, iob), a) && Apart(d.guest, iob, a) && Inside(|d.guest.mem|, a)
  }

  // The argument is the head of the buffer.
  ghost function Argument(d: Disk, iob: int, a: seq<int>): (r: seq<byte>)
    requires ScanBlock(d, iob, a)
    ensures |r| == KeyLength(d.guest.mem, iob)
  {
    Gather(d.guest.mem, a)[..KeyLength(d.guest.mem, iob)]
  }

  // Key j of the s-th sector scanned.
  ghost predicate HitAt(d: Disk, iob: int, a: seq<int>, s: nat, j: nat)
    requires ScanBlock(d, iob, a)
  {
    && s <= Count(d, iob)
    && KeyMatches(d.volume[Start(d, iob) - 1 + s], FirstKey(d.guest.mem, iob), KeyLength(d.guest.mem, iob),
                  d.guest.mem[iob + 39], d.guest.mem[iob + 40], Modifier(d, iob), Argument(d, iob, a), j)
  }

  ghost predicate FirstHit(d: Disk, iob: int, a: seq<int>, s: nat, j: nat)
    requires ScanBlock(d, iob, a)
  {
    && HitAt(d, iob, a, s, j)
    && forall t: nat, i: nat | HitAt(d, iob, a, t, i) :: s < t || (s == t && j <= i)
  }

  // What a scan leaves when it names the key at p of the s-th sector: 44 for
  // the argument itself and 40 for another key, the last byte of the key at
  // 42, the sector named from 1, and the sector in the buffer.
  ghost predicate KeyNamed(d: Disk, after: Disk, iob: int, a: seq<int>, s: nat, p: nat)
    requires ScanBlock(d, iob, a) && s <= Count(d, iob) && p + KeyLength(d.guest.mem, iob) <= 256
  {
    var image, length := d.volume[Start(d, iob) - 1 + s], KeyLength(d.guest.mem, iob);
    && Served(d.guest, after.guest, iob, if image[p..p + length] == Argument(d, iob, a) then 0x44 else 0x40,
              Start(d, iob) + s, a, true)
    && after.guest.mem[iob + 42] == p + length - 1
    && Inside(|after.guest.mem|, a) && Holds(after.guest.mem, a, image)
  }

  ghost predicate HitNamed(d: Disk, after: Disk, iob: int, a: seq<int>, s: nat, j: nat)
    requires ScanBlock(d, iob, a) && s <= Count(d, iob)
  {
    var length := KeyLength(d.guest.mem, iob);
    var p := FirstKey(d.guest.mem, iob) + j * (length + d.guest.mem[iob + 40]);
    p + length <= 256 && KeyNamed(d, after, iob, a, s, p)
  }

  ghost function BlockKeys(d: Disk, iob: int): Keys
    requires InBlock(d, iob)
  {
    Keys(d.guest.mem[iob + 37], KeyLength(d.guest.mem, iob), d.guest.mem[iob + 39], d.guest.mem[iob + 40])
  }

  // The stretch of the volume the block names.
  ghost function Scanned(d: Disk, iob: int): (r: seq<sector>)
    requires InBlock(d, iob) && OnVolume(d, iob)
    ensures |r| == Count(d, iob) + 1
  {
    d.volume[Start(d, iob) - 1..Start(d, iob) + Count(d, iob)]
  }

  lemma HitIsMatch(d: Disk, iob: int, a: seq<int>, h: Hit)
    requires ScanBlock(d, iob, a)
    ensures MatchesAt(Scanned(d, iob), BlockKeys(d, iob), Modifier(d, iob), Argument(d, iob, a), h)
       <==> HitAt(d, iob, a, h.sector, h.key)
  {
    hide KeyMatches, Matches, Argument, BufferAt, Start, Count, Buffer;
    if h.sector <= Count(d, iob) {
      MatchesIsLiteral(Scanned(d, iob)[h.sector], BlockKeys(d, iob), Modifier(d, iob), Argument(d, iob, a), h.key);
    }
  }

  lemma FirstIsFirst(d: Disk, iob: int, a: seq<int>, answer: Option<Hit>)
    requires ScanBlock(d, iob, a)
    ensures IsFirst(Scanned(d, iob), BlockKeys(d, iob), Modifier(d, iob), Argument(d, iob, a), answer)
       <==> match answer
            case Some(h) => FirstHit(d, iob, a, h.sector, h.key)
            case None => forall s: nat, j: nat :: !HitAt(d, iob, a, s, j)
  {
    hide MatchesAt, HitAt, Argument, BufferAt, Apart, Inside, Buffer, FirstKey;
    var v, k, m, argument := Scanned(d, iob), BlockKeys(d, iob), Modifier(d, iob), Argument(d, iob, a);
    forall h: Hit
      ensures MatchesAt(v, k, m, argument, h) <==> HitAt(d, iob, a, h.sector, h.key)
    {
      HitIsMatch(d, iob, a, h);
    }
    forall s: nat, j: nat
      ensures MatchesAt(v, k, m, argument, Hit(s, j)) <==> HitAt(d, iob, a, s, j)
    {
      HitIsMatch(d, iob, a, Hit(s, j));
    }
    match answer {
      case None =>
      case Some(h) =>
        if IsFirst(v, k, m, argument, answer) {
          forall t: nat, i: nat | HitAt(d, iob, a, t, i)
            ensures h.sector < t || (h.sector == t && h.key <= i)
          {
            assert MatchesAt(v, k, m, argument, Hit(t, i));
          }
        }
        if FirstHit(d, iob, a, h.sector, h.key) {
          forall e: Hit | MatchesAt(v, k, m, argument, e)
            ensures e == h || Earlier(h, e)
          {
            assert HitAt(d, iob, a, e.sector, e.key);
          }
        }
    }
  }

  // The request comes down to one search of those sectors.
  lemma ScanSearches(d: Disk, writable: bool, iob: int, a: seq<int>)
    requires ScanBlock(d, iob, a)
    ensures Execute(d, writable, iob)
         == ScanBuffer(Seed(d, iob), iob, Start(d, iob) - 1, Count(d, iob) + 1, BlockKeys(d, iob), Modifier(d, iob), a)
    ensures Gather(Seed(d, iob).guest.mem, a)[..KeyLength(d.guest.mem, iob)] == Argument(d, iob, a)
  {
    hide Execute, Dispatch, Complete, Seed, Start, Count, Buffer, BufferAt, GuestAddresses, ScanBuffer, Inside;
    var s := Seed(d, iob);
    ExecuteDispatches(d, writable, iob);
    BufferIs(d.guest, Buffer(d, iob), a);
    SameReach(d.guest, s.guest, Buffer(d, iob), |a|);
    KeysLie(s.guest, iob);
    DispatchesScan(s, writable, iob, Modifier(d, iob), Start(d, iob), Count(d, iob), Buffer(d, iob), a);
    SameArgument(d, iob, a);
  }

  lemma SameArgument(d: Disk, iob: int, a: seq<int>)
    requires InBlock(d, iob) && Apart(d.guest, iob, a) && Inside(|d.guest.mem|, a)
    ensures Gather(Seed(d, iob).guest.mem, a) == Gather(d.guest.mem, a)
  {
    hide Seed;
    forall i | 0 <= i < |a|
      ensures Seed(d, iob).guest.mem[a[i]] == d.guest.mem[a[i]]
    {
    }
  }

  lemma DispatchesScan(d: Disk, writable: bool, iob: int, m: byte, start: addr24, count: addr24, field: addr24,
                       a: seq<int>)
    requires d.guest.Valid() && 1 <= start && start + count <= |d.volume| && m < 3
    requires Reachable(d.guest, field, 256) && GuestAddresses(d.guest, field, 256) == Some(a) && |a| == 256
    requires ReadKeys(d.guest, iob).Usable() && KeysRead(d.guest, iob) == d.guest
    ensures Dispatch(d, writable, iob, 0xA3, m, start, count, field)
         == ScanBuffer(d, iob, start - 1, count + 1, ReadKeys(d.guest, iob), m, a)
  {
    hide Complete, ScanBuffer, ReadKeys, KeysRead, GuestAddresses;
  }

  // A scan names the first key that answers and no other; 42 says there is
  // none in any sector of the request.
  lemma ScanRequest(d: Disk, writable: bool, iob: int, a: seq<int>)
    requires ScanBlock(d, iob, a)
    ensures var r := Execute(d, writable, iob);
            && r.accepted && r.disk.volume == d.volume && |r.disk.guest.mem| == |d.guest.mem|
            && (r.disk.guest.mem[iob + 6] == 0x42 <==> forall s: nat, j: nat :: !HitAt(d, iob, a, s, j))
            && (r.disk.guest.mem[iob + 6] == 0x42 ==>
                  Served(d.guest, r.disk.guest, iob, 0x42, Start(d, iob) + Count(d, iob), [], false))
            && (r.disk.guest.mem[iob + 6] != 0x42 ==> exists s: nat, j: nat :: FirstHit(d, iob, a, s, j))
            && forall s: nat, j: nat | FirstHit(d, iob, a, s, j) :: HitNamed(d, r.disk, iob, a, s, j)
  {
    hide Execute, HitAt, HitNamed, Search, IsFirst, Argument, BufferAt, Apart, Inside, Buffer, Number, Untouched;
    var v, k, m, argument := Scanned(d, iob), BlockKeys(d, iob), Modifier(d, iob), Argument(d, iob, a);
    var answer := Search(v, k, m, argument, 0);
    SearchIsFirst(v, k, m, argument, answer);
    FirstIsFirst(d, iob, a, answer);
    match answer {
      case None => ScanRequestMisses(d, writable, iob, a);
      case Some(h) => ScanRequestHits(d, writable, iob, a, h);
    }
    forall s: nat, j: nat | FirstHit(d, iob, a, s, j)
      ensures answer == Some(Hit(s, j))
    {
      FirstIsFirst(d, iob, a, Some(Hit(s, j)));
      SearchIsFirst(v, k, m, argument, Some(Hit(s, j)));
    }
  }

  lemma ScanRequestMisses(d: Disk, writable: bool, iob: int, a: seq<int>)
    requires ScanBlock(d, iob, a)
    requires Search(Scanned(d, iob), BlockKeys(d, iob), Modifier(d, iob), Argument(d, iob, a), 0) == None
    ensures var r := Execute(d, writable, iob);
            && r.accepted && r.disk.volume == d.volume
            && Served(d.guest, r.disk.guest, iob, 0x42, Start(d, iob) + Count(d, iob), [], false)
  {
    hide Execute, Complete, Search, Seed, Served, Advance, Argument, BufferAt, Buffer, Apart;
    ScanSearches(d, writable, iob, a);
    var s, work := Seed(d, iob), Start(d, iob) + Count(d, iob);
    AdvancedOn(s.guest, iob, work);
    Posted(Advance(s.guest, iob, work), iob, 2);
    ServedOver(d, Advance(s.guest, iob, work), iob, 2, work);
  }

  lemma AdvancedOn(g: Guest, iob: int, work: nat)
    requires InRange(|g.mem|, iob, 43)
    ensures var h := Advance(g, iob, work);
            && |h.mem| == |g.mem| && h.atr == g.atr && h.faulted == g.faulted
            && Number(h.mem, iob + 23) == work % 0x100_0000
            && forall x | 0 <= x < |g.mem| && !(iob + 23 <= x < iob + 26) :: h.mem[x] == g.mem[x]
  {
    Worked(g, iob, work % 0x100_0000);
  }

  lemma ServedOver(d: Disk, g: Guest, iob: int, code: nat, work: nat)
    requires InBlock(d, iob) && |g.mem| == |d.guest.mem| && g.atr == d.guest.atr && g.faulted == d.guest.faulted
    requires Number(g.mem, iob + 23) == work % 0x100_0000 && code < 0x10
    requires forall x | 0 <= x < |g.mem| && !(iob + 23 <= x < iob + 26) :: g.mem[x] == d.guest.mem[x]
    ensures Served(d.guest, Complete(g, iob, code), iob, 0x40 + code, work, [], false)
  {
    hide Complete;
    Posted(g, iob, code);
  }

  lemma ScanRequestHits(d: Disk, writable: bool, iob: int, a: seq<int>, h: Hit)
    requires ScanBlock(d, iob, a)
    requires Search(Scanned(d, iob), BlockKeys(d, iob), Modifier(d, iob), Argument(d, iob, a), 0) == Some(h)
    requires FirstHit(d, iob, a, h.sector, h.key)
    ensures var r := Execute(d, writable, iob);
            && r.accepted && r.disk.volume == d.volume && |r.disk.guest.mem| == |d.guest.mem|
            && HitNamed(d, r.disk, iob, a, h.sector, h.key) && r.disk.guest.mem[iob + 6] != 0x42
  {
    hide Execute, Complete, Search, Seed, Found, Argument, BufferAt, Buffer, KeyAt, LexLess, Compare, Holds, Served,
         ScanBuffer, Inside, Apart, FirstHit;
    ScanSearches(d, writable, iob, a);
    var s, at, k, argument := Seed(d, iob), Start(d, iob) - 1, BlockKeys(d, iob), Argument(d, iob, a);
    KeysAreSpaced(k, h.key);
    assert HitAt(d, iob, a, h.sector, h.key) by {
      HitFirst(d, iob, a, h);
    }
    var image, p := d.volume[at + h.sector], KeyAt(k, h.key);
    BufferHit(s, iob, at, Count(d, iob) + 1, k, Modifier(d, iob), a, h);
    HitServed(d, s.guest, iob, p + k.length - 1, at + h.sector, a, image,
              if image[p..p + k.length] == argument then 4 else 0);
    HitPosted(d, Execute(d, writable, iob).disk, iob, a, h.sector, h.key);
  }

  lemma HitFirst(d: Disk, iob: int, a: seq<int>, h: Hit)
    requires ScanBlock(d, iob, a) && FirstHit(d, iob, a, h.sector, h.key)
    ensures HitAt(d, iob, a, h.sector, h.key)
  {
  }

  lemma HitPosted(d: Disk, after: Disk, iob: int, a: seq<int>, s: nat, j: nat)
    requires ScanBlock(d, iob, a) && s <= Count(d, iob) && HitNamed(d, after, iob, a, s, j)
    ensures |after.guest.mem| == |d.guest.mem| && after.guest.mem[iob + 6] != 0x42
  {
    hide Untouched, Number, Holds, Argument, ScanBlock;
  }

  lemma BufferHit(d: Disk, iob: int, sector: nat, sectors: nat, k: Keys, relation: byte, a: seq<int>, h: Hit)
    requires sector + sectors <= |d.volume| && k.Usable() && |a| == 256 && Inside(|d.guest.mem|, a)
    requires Search(d.volume[sector..sector + sectors], k, relation, Gather(d.guest.mem, a)[..k.length], 0) == Some(h)
    ensures h.sector < sectors && InSector(k, h.key)
    ensures var image, p := d.volume[sector + h.sector], KeyAt(k, h.key);
            var code := if image[p..p + k.length] == Gather(d.guest.mem, a)[..k.length] then 4 else 0;
            ScanBuffer(d, iob, sector, sectors, k, relation, a)
            == Reply(d.(guest := Complete(Found(d.guest, iob, p + k.length - 1, sector + h.sector, a, image),
                                          iob, code)),
                     true)
  {
    hide Complete, Found, Search, Matches, KeyAt, LexLess, Compare, Inside;
    var v, argument := d.volume[sector..sector + sectors], Gather(d.guest.mem, a)[..k.length];
    SearchIsFirst(v, k, relation, argument, Some(h));
    FirstMatches(v, k, relation, argument, h);
    CompareIsLexicographic(d.volume[sector + h.sector], KeyAt(k, h.key), argument);
  }

  lemma HitServed(d: Disk, g: Guest, iob: int, position: byte, sector: nat, a: seq<int>, image: sector, code: nat)
    requires InBlock(d, iob) && g == Seed(d, iob).guest && Apart(d.guest, iob, a) && Inside(|g.mem|, a) && |a| == 256
    requires code < 0x10
    ensures var h := Complete(Found(g, iob, position, sector, a, image), iob, code);
            && Served(d.guest, h, iob, 0x40 + code, sector + 1, a, true)
            && h.mem[iob + 42] == position && Inside(|h.mem|, a) && Holds(h.mem, a, image)
  {
    hide Complete, Seed, Advance, PokeAll;
    var marked := WriteByte(g, iob + 42, position);
    AdvancedOn(marked, iob, sector + 1);
    var named := Advance(marked, iob, sector + 1);
    Stored(named, iob, a, image);
    Posted(named.(mem := PokeAll(named.mem, a, image)), iob, code);
  }
}
