// The fixed disk as the supervisor calls it: guest storage and the volume
// updated in place, each command proved to be the function `FixedDisk` gives.
module VirtualFixedDisks {
  import opened Bytes
  import opened GuestStorage
  import opened MachineStates
  import D = FixedDisk

  class VirtualFixedDisk {
    const m: MachineState
    const writable: bool
    var volume: seq<D.sector>

    ghost predicate Valid() {
      m.Valid()
    }

    ghost function View(): D.Disk
      requires Valid()
      reads this, m, m.mainStorage, m.atr
    {
      D.Disk(m.View(), volume)
    }

    constructor (m: MachineState, volume: seq<D.sector>, writable: bool)
      requires m.Valid()
      ensures Valid() && this.m == m && this.writable == writable && this.volume == volume
    {
      this.m, this.volume, this.writable := m, volume, writable;
    }

    method Finish(iob: int, code: nat) returns (ok: bool)
      requires Valid()
      modifies m`faulted, m.mainStorage
      ensures D.Reply(View(), ok) == D.Finish(old(View()), iob, code)
    {
      m.Post(iob, code);
      ok := code != 4;
    }

    method AdvanceWorkSector(iob: int, sector: nat)
      requires Valid()
      modifies m`faulted, m.mainStorage
      ensures View() == old(View()).(guest := D.Advance(old(View()).guest, iob, sector))
    {
      m.WriteBytes(iob + D.OFF_WORK, Addr24Bytes(sector % 0x100_0000));
    }

    method ResolveBufferExtents(field: addr24, length: nat) returns (ok: bool, extents: seq<Extent>)
      requires Valid() && length > 0
      ensures field >= TRANSLATED_BIT ==> (ok <==> GuestAddresses(m.View(), field, length).Some?)
      ensures ok && field >= TRANSLATED_BIT ==> extents == Coalesce(GuestAddresses(m.View(), field, length).value)
      ensures field < TRANSLATED_BIT ==> ok && extents == Coalesce(Range(field, length)) == [Extent(field, length)]
    {
      if field / 0x80_0000 == 0 {
        CoalesceChunk([], field % 0x80_0000, length);
        assert [] + Range(field, length) == Range(field, length);
        return true, [Extent(field % 0x80_0000, length)];
      }
      var fault;
      ok, extents, fault := m.TranslatedExtents(field % 0x1_0000, TASK_GROUP_0, length);
    }

    method ExtentsInStorage(extents: seq<Extent>) returns (ok: bool)
      requires Valid()
      ensures ok <==> forall i | 0 <= i < |extents| ::
                        extents[i].first >= 0 && InRange(m.mainStorage.Length, extents[i].first, extents[i].count)
    {
      for i := 0 to |extents|
        invariant forall k | 0 <= k < i ::
                    extents[k].first >= 0 && InRange(m.mainStorage.Length, extents[k].first, extents[k].count)
      {
        if extents[i].first < 0 || !InRange(m.mainStorage.Length, extents[i].first, extents[i].count) {
          return false;
        }
      }
      return true;
    }

    // Both checks together: every byte mapped and inside storage, before any
    // of them is touched.
    method Buffer(field: addr24, length: nat) returns (ok: bool, extents: seq<Extent>)
      requires Valid() && length > 0
      ensures ok <==> D.Reachable(m.View(), field, length)
      ensures ok ==> extents == Coalesce(GuestAddresses(m.View(), field, length).value)
      ensures ok ==> ExtentsInside(m.mainStorage.Length, extents)
    {
      ok, extents := ResolveBufferExtents(field, length);
      if !ok {
        return;
      }
      ok := ExtentsInStorage(extents);
      if field >= TRANSLATED_BIT {
        var a := GuestAddresses(m.View(), field, length).value;
        InsideBothWays(m.mainStorage.Length, a);
      } else {
        assert extents[0] == Extent(field, length);
      }
    }

    method Gathered(extents: seq<Extent>) returns (data: seq<byte>)
      requires Valid() && Maximal(extents) && ExtentsInside(m.mainStorage.Length, extents)
      modifies m`faulted
      ensures View() == old(View())
      ensures Inside(m.mainStorage.Length, Flatten(extents)) && data == Gather(m.mainStorage[..], Flatten(extents))
    {
      FetchExtentsGathers(m.View(), extents);
      data := m.ReadExtents(extents);
    }

    method Scatter(extents: seq<Extent>, data: seq<byte>)
      requires Valid() && Maximal(extents) && ExtentsInside(m.mainStorage.Length, extents)
      requires |data| == |Flatten(extents)|
      modifies m`faulted, m.mainStorage
      ensures Inside(m.mainStorage.Length, Flatten(extents))
      ensures m.View() == old(m.View()).(mem := PokeAll(old(m.View()).mem, Flatten(extents), data))
    {
      WriteExtentsPokes(m.View(), extents, data);
      m.WriteExtents(extents, data);
    }

    // The first `length` bytes of a buffer given as extents.
    method ArgumentExtents(extents: seq<Extent>, length: nat) returns (head: seq<Extent>)
      requires Maximal(extents) && length <= |Flatten(extents)|
      requires ExtentsInside(m.mainStorage.Length, extents)
      ensures Counted(head) && Flatten(head) == Flatten(extents)[..length]
      ensures ExtentsInside(m.mainStorage.Length, head)
    {
      hide Flatten;
      head := [];
      var left: int := length;
      assert Flatten(head) == Flatten(extents)[..0] by {
        FlattenNone();
      }
      FlattenNone();
      for i := 0 to |extents|
        invariant 0 <= left <= length && Counted(head)
        invariant Flatten(head) == Flatten(extents)[..length - left]
        invariant left > 0 ==> |Flatten(extents[..i])| == length - left
        invariant ExtentsInside(m.mainStorage.Length, head)
      {
        if left <= 0 {
          break;
        }
        var n := if extents[i].count < left then extents[i].count else left;
        HeadStep(extents, i, head, length - left, n);
        head := head + [Extent(extents[i].first, n)];
        left := left - n;
      }
      assert extents[..|extents|] == extents;
    }

    // Look at every key of every sector in turn, and stop at the first hit.
    method Scan(iob: int, sector: nat, sectors: nat, relation: byte, field: addr24) returns (ok: bool)
      requires Valid() && sector + sectors <= |volume|
      modifies m`faulted, m.mainStorage
      ensures D.Reply(View(), ok) == D.Scan(old(View()), iob, sector, sectors, relation, field)
    {
      hide D.ScanBuffer, D.Finish, D.Reachable, D.ReadKeys, D.KeysRead, Gather, GuestAddresses, Inside, Flatten,
           Maximal;
      var k := ReadKeys(iob);
      if relation >= 3 {
        ok := Finish(iob, 4);
        return;
      }
      if k.length + k.gap <= 0 || k.first + k.length > 256 {
        ok := Finish(iob, 4);
        return;
      }
      var mapped, extents := Buffer(field, 256);
      if !mapped {
        ok := Finish(iob, 4);
        return;
      }
      ghost var a := ReachableAddresses(m.View(), field, 256, extents);
      ok := ScanBuffer(iob, sector, sectors, k, relation, extents, a);
    }

    method ScanBuffer(iob: int, sector: nat, sectors: nat, k: D.Keys, relation: byte, extents: seq<Extent>,
                      ghost a: seq<int>)
      returns (ok: bool)
      requires Valid() && sector + sectors <= |volume| && k.Usable()
      requires Maximal(extents) && ExtentsInside(m.mainStorage.Length, extents) && Flatten(extents) == a
      requires |a| == 256 && Inside(m.mainStorage.Length, a)
      modifies m`faulted, m.mainStorage
      ensures D.Reply(View(), ok) == D.ScanBuffer(old(View()), iob, sector, sectors, k, relation, a)
    {
      hide D.Search, D.Finish, D.HitReply, D.Found, D.Advance, D.Compare, Gather, Flatten, Maximal, ExtentsInside,
           Inside;
      var argument := Argument(extents, k.length);
      var hit := FirstHit(volume[sector..sector + sectors], k, relation, argument);
      if hit == None {
        AdvanceWorkSector(iob, sector + sectors);
        ok := Finish(iob, 2);
        return;
      }
      D.SearchIsFirst(volume[sector..sector + sectors], k, relation, argument, hit);
      D.FirstMatches(volume[sector..sector + sectors], k, relation, argument, hit.value);
      ok := Deliver(iob, sector + hit.value.sector, D.KeyAt(k, hit.value.key), extents, argument, a);
    }

    // What a hit at position p of a sector leaves for the guest.
    method Deliver(iob: int, sector: nat, p: nat, extents: seq<Extent>, argument: seq<byte>, ghost a: seq<int>)
      returns (ok: bool)
      requires Valid() && sector < |volume| && |argument| > 0 && p + |argument| <= 256
      requires Maximal(extents) && ExtentsInside(m.mainStorage.Length, extents) && Flatten(extents) == a
      requires |a| == 256 && Inside(m.mainStorage.Length, a)
      modifies m`faulted, m.mainStorage
      ensures D.Reply(View(), ok)
           == D.HitReply(old(View()).(guest := D.Found(old(m.View()), iob, p + |argument| - 1, sector, a,
                                                       volume[sector])), iob,
                         D.Compare(volume[sector], p, argument, 0) == 0)
    {
      hide Complete, D.Compare, PokeAll, Flatten, Maximal, ExtentsInside;
      m.WriteBytes(iob + D.OFF_SCAN_HIT, [p + |argument| - 1]);
      AdvanceWorkSector(iob, sector + 1);
      Scatter(extents, volume[sector]);
      var cmp := CompareKey(volume[sector], p, argument);
      m.Post(iob, if cmp == 0 then 4 else 0);
      ok := true;
    }

    method ReadKeys(iob: int) returns (k: D.Keys)
      requires Valid()
      modifies m`faulted
      ensures k == D.ReadKeys(old(m.View()), iob) && m.View() == D.KeysRead(old(m.View()), iob)
      ensures 1 <= k.length <= 256
    {
      var first := m.ReadByte(iob + D.OFF_FIRST_KEY);
      var length := m.ReadByte(iob + D.OFF_KEY_LENGTH);
      var last := m.ReadByte(iob + D.OFF_LAST_KEY);
      var gap := m.ReadByte(iob + D.OFF_KEY_GAP);
      k := D.Keys(first, (length as int) + 1, last, gap);
    }

    method Argument(extents: seq<Extent>, length: nat) returns (argument: seq<byte>)
      requires Valid() && Maximal(extents) && ExtentsInside(m.mainStorage.Length, extents)
      requires length <= |Flatten(extents)|
      modifies m`faulted
      ensures View() == old(View())
      ensures Inside(m.mainStorage.Length, Flatten(extents))
      ensures argument == Gather(m.mainStorage[..], Flatten(extents))[..length]
    {
      var head := ArgumentExtents(extents, length);
      FetchExtentsGathers(m.View(), extents);
      FetchExtentsGathers(m.View(), head);
      argument := m.ReadExtents(head);
    }

    method Write(iob: int, sector: nat, sectors: nat, modifier: byte, field: addr24) returns (ok: bool)
      requires Valid() && 0 < sectors && sector + sectors <= |volume|
      modifies this`volume, m`faulted, m.mainStorage
      ensures D.Reply(View(), ok) == D.Write(old(View()), writable, iob, sector, sectors, modifier, field)
    {
      hide D.Source, D.Finish, D.Advance, D.Overwrite;
      var source := Source(sectors, modifier, field);
      if source == None {
        ok := Finish(iob, 4);
        return;
      }
      if !writable {
        ok := Finish(iob, 4);
        return;
      }
      StoreSectors(sector, sectors, source.value);
      AdvanceWorkSector(iob, sector + sectors);
      ok := Finish(iob, 0);
    }

    method StoreSectors(sector: nat, sectors: nat, data: seq<byte>)
      requires sector + sectors <= |volume| && |data| == sectors * 256
      modifies this`volume
      ensures volume == D.Overwrite(old(volume), sector, data)
    {
      for i := 0 to sectors
        invariant |volume| == old(|volume|)
        invariant forall j | 0 <= j < |volume| ::
                    volume[j] == if sector <= j < sector + i then data[(j - sector) * 256..(j - sector) * 256 + 256]
                                 else old(volume[j])
      {
        volume := volume[sector + i := data[i * 256..i * 256 + 256]];
      }
    }

    method Source(sectors: nat, modifier: byte, field: addr24) returns (source: Option<seq<byte>>)
      requires Valid() && 0 < sectors
      modifies m`faulted
      ensures View() == old(View()) && source == D.Source(m.View(), sectors, modifier, field)
    {
      if modifier == 0xC0 {
        return Some(Repeat((field / 0x1_0000) as byte, sectors * 256));
      }
      var one := BufferBytes(field, if modifier == 0x80 then 256 else sectors * 256);
      if one == None || modifier != 0x80 {
        return one;
      }
      var wrapped := Wrapped(one.value, sectors);
      return Some(wrapped);
    }

    // The buffer's bytes, when every one of them is mapped and in storage.
    method BufferBytes(field: addr24, length: nat) returns (r: Option<seq<byte>>)
      requires Valid() && 0 < length
      modifies m`faulted
      ensures View() == old(View())
      ensures r == if D.Reachable(m.View(), field, length)
                   then Some(Gather(m.mainStorage[..], GuestAddresses(m.View(), field, length).value)) else None
    {
      hide GuestAddresses, Gather, Coalesce, Flatten;
      var mapped, extents := Buffer(field, length);
      if !mapped {
        return None;
      }
      ghost var a := ReachableAddresses(m.View(), field, length, extents);
      var data := Gathered(extents);
      return Some(data);
    }

    method Read(iob: int, sector: nat, sectors: nat, field: addr24) returns (ok: bool)
      requires Valid() && 0 < sectors && sector + sectors <= |volume|
      modifies m`faulted, m.mainStorage
      ensures D.Reply(View(), ok) == D.Read(old(View()), iob, sector, sectors, field)
    {
      hide GuestAddresses, Coalesce, Flatten, D.Finish, D.Advance, PokeAll, D.Image, Inside;
      var buffer := FetchSectors(sector, sectors);
      var mapped, extents := Buffer(field, |buffer|);
      if !mapped {
        ok := Finish(iob, 4);
        return;
      }
      ghost var a := ReachableAddresses(m.View(), field, |buffer|, extents);
      Scatter(extents, buffer);
      AdvanceWorkSector(iob, sector + sectors);
      ok := Finish(iob, 0);
    }

    method FetchSectors(sector: nat, sectors: nat) returns (buffer: seq<byte>)
      requires sector + sectors <= |volume|
      ensures buffer == D.Image(volume[sector..sector + sectors])
    {
      buffer := [];
      for i := 0 to sectors
        invariant |buffer| == i * 256 && forall k | 0 <= k < |buffer| :: buffer[k] == volume[sector + k / 256][k % 256]
      {
        buffer := buffer + volume[sector + i];
      }
    }

    method Execute(iob: int) returns (ok: bool)
      requires Valid()
      modifies this`volume, m`faulted, m.mainStorage
      ensures D.Reply(View(), ok) == D.Execute(old(View()), writable, iob)
    {
      hide D.Dispatch, GuestStorage.Write;
      var command := m.ReadByte(iob + D.OFF_COMMAND);
      var modifier := m.ReadByte(iob + D.OFF_MODIFIER);
      var start := m.ReadAddr24(iob + D.OFF_SECTOR);
      var count := m.ReadAddr24(iob + D.OFF_COUNT);
      var field := m.ReadAddr24(iob + D.OFF_BUFFER);
      m.WriteBytes(iob + D.OFF_WORK, Addr24Bytes(start));
      ok := Dispatch(iob, command, modifier, start, count, field);
    }

    method Dispatch(iob: int, command: byte, modifier: byte, start: addr24, count: addr24, field: addr24)
      returns (ok: bool)
      requires Valid()
      modifies this`volume, m`faulted, m.mainStorage
      ensures D.Reply(View(), ok) == D.Dispatch(old(View()), writable, iob, command, modifier, start, count, field)
    {
      hide D.Write, D.Scan, D.Read, D.Finish;
      if command == 0x00 || command == 0xA0 || command == 0xA4 {
        ok := Finish(iob, 0);
        return;
      }
      if command == 0xA1 && start == 0 {
        ok := Finish(iob, 0);
        return;
      }
      if command != 0xA1 && command != 0xA2 && command != 0xA3 {
        ok := Finish(iob, 4);
        return;
      }
      var sector: int := start - 1;
      if sector < 0 || sector >= |volume| {
        ok := Finish(iob, 4);
        return;
      }
      var sectors := count + 1;
      if sector + sectors > |volume| {
        ok := Finish(iob, 4);
        return;
      }
      if command == 0xA2 {
        ok := Write(iob, sector, sectors, modifier, field);
      } else if command == 0xA3 {
        ok := Scan(iob, sector, sectors, modifier, field);
      } else {
        ok := Read(iob, sector, sectors, field);
      }
    }
  }

  method CompareKey(image: D.sector, at: nat, argument: seq<byte>) returns (c: int)
    requires at + |argument| <= 256
    ensures c == D.Compare(image, at, argument, 0)
  {
    for i := 0 to |argument|
      invariant D.Compare(image, at, argument, 0) == D.Compare(image, at, argument, i)
    {
      var d: int := (image[at + i] as int) - argument[i];
      if d != 0 {
        return d;
      }
    }
    return 0;
  }

  method FirstHit(volume: seq<D.sector>, k: D.Keys, relation: byte, argument: seq<byte>) returns (hit: Option<D.Hit>)
    requires k.Usable() && |argument| == k.length
    ensures hit == D.Search(volume, k, relation, argument, 0)
  {
    for s := 0 to |volume|
      invariant D.Search(volume, k, relation, argument, 0) == D.Search(volume, k, relation, argument, s)
    {
      var image, p, j := volume[s], k.first as int, 0;
      while p <= k.last && p + k.length <= 256
        invariant p == D.KeyAt(k, j)
        invariant D.SearchSector(image, k, relation, argument, 0) == D.SearchSector(image, k, relation, argument, j)
        decreases 512 - p
      {
        var cmp := CompareKey(image, p, argument);
        var found := if relation == 0 then cmp == 0 else if relation == 1 then cmp <= 0 else cmp >= 0;
        if found {
          return Some(D.Hit(s, j));
        }
        p, j := p + k.length + k.gap, j + 1;
      }
    }
    return None;
  }

  lemma {:induction false} FlattenAppend(a: seq<Extent>, b: seq<Extent>)
    requires Counted(a) && Counted(b)
    ensures Flatten(a + b) == Flatten(a) + Flatten(b)
  {
    if b == [] {
      assert a + b == a;
    } else {
      assert (a + b)[..|a + b| - 1] == a + b[..|b| - 1];
      FlattenAppend(a, b[..|b| - 1]);
    }
  }

  lemma FlattenNone()
    ensures Flatten([]) == []
  {
  }

  lemma FlattenOne(e: Extent)
    requires e.count >= 0
    ensures Flatten([e]) == Range(e.first, e.count)
  {
    assert [e][..0] == [];
  }

  lemma FlattenAt(extents: seq<Extent>, i: nat)
    requires Counted(extents) && i < |extents|
    ensures var e := extents[i];
            && Flatten(extents[..i + 1]) == Flatten(extents[..i]) + Range(e.first, e.count)
            && Flatten(extents) == Flatten(extents[..i]) + Range(e.first, e.count) + Flatten(extents[i + 1..])
  {
    hide Flatten;
    FlattenOne(extents[i]);
    FlattenAppend(extents[..i], [extents[i]]);
    assert extents[..i + 1] == extents[..i] + [extents[i]];
    assert extents == extents[..i + 1] + extents[i + 1..];
    FlattenAppend(extents[..i + 1], extents[i + 1..]);
  }

  lemma HeadStep(extents: seq<Extent>, i: nat, head: seq<Extent>, done: nat, n: nat)
    requires Counted(extents) && i < |extents| && Counted(head) && n <= extents[i].count
    requires done == |Flatten(extents[..i])| && done <= |Flatten(extents)| && Flatten(head) == Flatten(extents)[..done]
    ensures var more := head + [Extent(extents[i].first, n)];
            Counted(more) && done + n <= |Flatten(extents)| && Flatten(more) == Flatten(extents)[..done + n]
    ensures n == extents[i].count ==> |Flatten(extents[..i + 1])| == done + n
  {
    hide Flatten;
    var e := Extent(extents[i].first, n);
    FlattenAt(extents, i);
    FlattenOne(e);
    FlattenAppend(head, [e]);
  }

  // One sector's bytes over and over.
  method Wrapped(one: seq<byte>, sectors: nat) returns (buffer: seq<byte>)
    requires |one| == 256
    ensures buffer == seq(sectors * 256, k requires 0 <= k < sectors * 256 => one[k % 256])
  {
    buffer := [];
    for i := 0 to sectors
      invariant |buffer| == i * 256 && forall k | 0 <= k < |buffer| :: buffer[k] == one[k % 256]
    {
      buffer := buffer + one;
    }
  }

  ghost function ReachableAddresses(g: Guest, field: addr24, length: nat, extents: seq<Extent>): (a: seq<int>)
    requires g.Valid() && D.Reachable(g, field, length)
    requires extents == Coalesce(GuestAddresses(g, field, length).value)
    ensures a == GuestAddresses(g, field, length).value && |a| == length && Inside(|g.mem|, a)
    ensures Maximal(extents) && Flatten(extents) == a
  {
    var a := GuestAddresses(g, field, length).value;
    CoalesceIsExact(a);
    a
  }

  lemma InsideBothWays(size: nat, a: seq<int>)
    ensures ExtentsInside(size, Coalesce(a)) <==> Inside(size, a)
  {
    CoalesceIsExact(a);
    if Inside(size, a) {
      CoalesceInside(size, a);
    }
    if ExtentsInside(size, Coalesce(a)) {
      FetchExtentsGathers(Guest(Repeat(0, size), Repeat(0, ATR_COUNT), false), Coalesce(a));
    }
  }
}
