// The shared machine state: main storage, translation registers and the fault
// latch, updated in place, each method proved against the function of the
// whole state that `GuestStorage` gives.
module MachineStates {
  import opened Bytes
  import opened GuestStorage

  // The addresses a page-frame transfer touches, byte by byte.
  function FrameAddress(frames: seq<int>, at: nat): int
    requires at / 0x800 < |frames|
  {
    frames[at / 0x800] + at % 0x800
  }

  ghost predicate FramesReach(frames: seq<int>, displacement: int, length: int) {
    0 <= displacement && 0 <= length && (length > 0 ==> displacement + length <= |frames| * 0x800)
  }

  ghost predicate FrameResident(size: nat, frames: seq<int>, at: nat)
  {
    at / 0x800 < |frames| && frames[at / 0x800] != 0 && 0 <= FrameAddress(frames, at) < size
  }

  // Every byte of the record has a resident page frame inside storage.
  ghost predicate FramesAccept(size: nat, frames: seq<int>, displacement: int, length: int) {
    && FramesReach(frames, displacement, length)
    && forall at | displacement <= at < displacement + length :: FrameResident(size, frames, at)
  }

  ghost function FrameAddresses(frames: seq<int>, displacement: nat, length: nat): (r: seq<int>)
    requires FramesReach(frames, displacement, length)
    ensures |r| == length
    ensures forall i | 0 <= i < length :: r[i] == FrameAddress(frames, displacement + i)
  {
    seq(length, i requires 0 <= i < length => FrameAddress(frames, displacement + i))
  }

  // The frames a record reaches share no byte.
  ghost predicate FramesApart(frames: seq<int>, displacement: nat, length: nat)
    requires FramesReach(frames, displacement, length)
  {
    forall i, j | displacement / 0x800 <= i < j <= (displacement + length - 1) / 0x800 < |frames| ::
      frames[i] + 0x800 <= frames[j] || frames[j] + 0x800 <= frames[i]
  }

  lemma FramesDistinct(frames: seq<int>, displacement: nat, length: nat)
    requires FramesReach(frames, displacement, length) && FramesApart(frames, displacement, length)
    ensures Distinct(FrameAddresses(frames, displacement, length))
  {
    var addresses := FrameAddresses(frames, displacement, length);
    forall i, j | 0 <= i < j < length
      ensures addresses[i] != addresses[j]
    {
      var p, q := (displacement + i) / 0x800, (displacement + j) / 0x800;
      assert displacement / 0x800 <= p <= q <= (displacement + length - 1) / 0x800;
      if p < q {
        assert frames[p] + 0x800 <= frames[q] || frames[q] + 0x800 <= frames[p];
      }
    }
  }

  // In frames that share no byte, byte i of the record is stored at its own
  // frame address and no other byte changes.
  lemma FramesLand(mem: seq<byte>, frames: seq<int>, displacement: nat, data: seq<byte>)
    requires FramesAccept(|mem|, frames, displacement, |data|) && FramesApart(frames, displacement, |data|)
    ensures var addresses := FrameAddresses(frames, displacement, |data|);
            && Inside(|mem|, addresses) && Distinct(addresses)
            && (forall i | 0 <= i < |data| :: PokeAll(mem, addresses, data)[addresses[i]] == data[i])
            && (forall a | 0 <= a < |mem| && Untouched(addresses, a) :: PokeAll(mem, addresses, data)[a] == mem[a])
  {
    hide PokeAll;
    var addresses := FrameAddresses(frames, displacement, |data|);
    FramesInside(|mem|, frames, displacement, |data|);
    FramesDistinct(frames, displacement, |data|);
    DistinctReadBack(mem, addresses, data);
    var back := Gather(PokeAll(mem, addresses, data), addresses);
    forall i | 0 <= i < |data|
      ensures PokeAll(mem, addresses, data)[addresses[i]] == data[i]
    {
      assert back[i] == data[i];
    }
  }

  // A translation that stopped at byte k, the first whose page is protected,
  // with the runs before it gathered.
  ghost predicate StoppedAt(atr: seq<halfword>, base: nat, logical: halfword, k: nat,
                            fault: Option<halfword>, extents: seq<Extent>)
    requires base + 32 <= |atr|
  {
    && AllTranslate(atr, base, logical, k) && ByteAddress(atr, base, logical, k) == None
    && fault == Some(LogicalAt(logical, k))
    && extents == Coalesce(TranslatedAddresses(atr, base, logical, k))
  }

  // The runs of the first `done` bytes are gathered and `at` is the next one.
  ghost predicate Gathering(atr: seq<halfword>, base: nat, logical: halfword, done: nat, at: halfword,
                            extents: seq<Extent>)
    requires base + 32 <= |atr|
  {
    && at == LogicalAt(logical, done) && AllTranslate(atr, base, logical, done)
    && extents == Coalesce(TranslatedAddresses(atr, base, logical, done))
  }

  class MachineState {
    const mainStorage: array<byte>
    const atr: array<halfword>
    const installedBytes: int
    var faulted: bool

    ghost predicate Valid() {
      atr.Length == ATR_COUNT && mainStorage as object != atr as object
    }

    ghost function View(): (g: Guest)
      requires Valid()
      reads this, mainStorage, atr
      ensures g.Valid() && |g.mem| == mainStorage.Length
    {
      Guest(mainStorage[..], atr[..], faulted)
    }

    // Sizes outside 1 byte to 16 MB fall back to the defaults; the backing
    // is never smaller than the installed store.
    constructor (mainStorageBytes: int, backingBytes: int)
      ensures Valid() && fresh(mainStorage) && fresh(atr)
      ensures var installed := if 0 < mainStorageBytes <= 0x100_0000 then mainStorageBytes else 0x10_0000;
              && installedBytes == installed
              && mainStorage.Length == if installed <= backingBytes <= 0x100_0000 then backingBytes else installed
      ensures View() == Guest(Repeat(0, mainStorage.Length), Repeat(0, ATR_COUNT), false)
    {
      var installed := mainStorageBytes;
      if mainStorageBytes <= 0 || mainStorageBytes > 16 * 1024 * 1024 {
        installed := 1024 * 1024;
      }
      var backing := backingBytes;
      if backingBytes < installed || backingBytes > 16 * 1024 * 1024 {
        backing := installed;
      }
      var storage := new byte[backing](_ => 0);
      var registers := new halfword[ATR_COUNT](_ => 0);
      mainStorage, atr := storage, registers;
      installedBytes := installed;
      faulted := false;
    }

    method ReadBytes(addr: int, len: nat) returns (b: seq<byte>)
      requires Valid()
      modifies this`faulted
      ensures View() == Touch(old(View()), addr, len)
      ensures b == Fetch(old(View()), addr, len)
    {
      if 0 <= addr && addr + len <= mainStorage.Length {
        b := mainStorage[addr..addr + len];
      } else {
        faulted := true;
        b := Repeat(0, len);
      }
    }

    method WriteBytes(addr: int, src: seq<byte>)
      requires Valid()
      modifies this`faulted, mainStorage
      ensures View() == Write(old(View()), addr, src)
    {
      if 0 <= addr && addr + |src| <= mainStorage.Length {
        for i := 0 to |src|
          invariant faulted == old(faulted)
          invariant forall k | 0 <= k < mainStorage.Length ::
                      mainStorage[k] == if addr <= k < addr + i then src[k - addr] else old(mainStorage[k])
        {
          mainStorage[addr + i] := src[i];
        }
      } else {
        faulted := true;
      }
      assert View().mem == Write(old(View()), addr, src).mem;
    }

    method ReadByte(addr: int) returns (v: byte)
      requires Valid()
      modifies this`faulted
      ensures v == ByteAt(old(View()), addr) && View() == Touch(old(View()), addr, 1)
    {
      var b := ReadBytes(addr, 1);
      v := b[0];
    }

    method ReadHalf(addr: int) returns (v: halfword)
      requires Valid()
      modifies this`faulted
      ensures v == HalfAt(old(View()), addr) && View() == Touch(old(View()), addr, 2)
    {
      var b := ReadBytes(addr, 2);
      v := Half(b[0], b[1]);
    }

    method ReadAddr24(addr: int) returns (v: addr24)
      requires Valid()
      modifies this`faulted
      ensures v == Addr24At(old(View()), addr) && View() == Touch(old(View()), addr, 3)
    {
      var b := ReadBytes(addr, 3);
      v := (b[0] as int) * 0x1_0000 + (b[1] as int) * 0x100 + b[2];
    }

    // IoBlock::complete, by way of Ecm::post.
    method Post(iob: int, code: nat)
      requires Valid()
      modifies this`faulted, mainStorage
      ensures View() == Complete(old(View()), iob, code)
    {
      WriteBytes(iob + 6, [0x40 + code % 0x10]);
      WriteBytes(iob + 2, Addr24Bytes(0));
    }

    method TranslatedExtents(logical: halfword, atrBase: nat, length: int)
      returns (ok: bool, extents: seq<Extent>, fault: Option<halfword>)
      requires Valid() && atrBase + 32 <= ATR_COUNT
      ensures ok <==> AllTranslate(atr[..], atrBase, logical, length)
      ensures ok ==> fault == None && extents == Coalesce(TranslatedAddresses(atr[..], atrBase, logical, length))
      // A refused transfer names the first byte whose page is protected and
      // has gathered the runs before it.
      ensures !ok ==> exists k | 0 <= k < length :: StoppedAt(atr[..], atrBase, logical, k, fault, extents)
      // In terms of the registers alone.
      ensures ok <==> forall i | 0 <= i < length :: Unprotected(atr[..], atrBase, logical, i)
      ensures ok ==> && Counted(extents) && |Flatten(extents)| == Max(0, length)
                     && forall i | 0 <= i < length :: MappedTo(atr[..], atrBase, logical, i, Flatten(extents)[i])
      ensures !ok ==> exists k | 0 <= k < length ::
                        && fault == Some((logical + k) % 0x1_0000) && !Unprotected(atr[..], atrBase, logical, k)
                        && forall i | 0 <= i < k :: Unprotected(atr[..], atrBase, logical, i)
    {
      hide Gathering, TranslatedAddresses, AllTranslate, Attach, LogicalAt, Coalesce, StoppedAt;
      extents, fault := [], None;
      var at: halfword, left := logical, length;
      ghost var done: nat := 0;
      ghost var a := atr[..];
      GatherStart(a, atrBase, logical, length);
      while left > 0
        invariant left == length - done && (length >= 0 ==> left >= 0) && (length < 0 ==> done == 0)
        invariant Gathering(a, atrBase, logical, done, at, extents) && fault == None
      {
        var first := Translate(atr[..], atrBase, at);
        if first == None {
          fault := Some(at);
          GatherStop(a, atrBase, logical, done, at, extents, length);
          StopIsFirst(a, atrBase, logical, length, fault, extents);
          return false, extents, fault;
        }
        var inPage := 0x800 - at % 0x800;
        var n := if inPage < left then inPage else left;
        GatherChunk(a, atrBase, logical, done, at, extents, n);
        extents := Attach(extents, first.value, n);
        left, at, done := left - n, LogicalAt(at, n), done + n;
      }
      GatherEnd(a, atrBase, logical, done, at, extents, length);
      ExtentsAreMapped(a, atrBase, logical, length);
      return true, extents, None;
    }

    method Guest24Extents(field: addr24, length: int) returns (ok: bool, extents: seq<Extent>)
      requires Valid()
      ensures ok <==> GuestAddresses(View(), field, length).Some?
      ensures ok ==> extents == Coalesce(GuestAddresses(View(), field, length).value)
      ensures ok <==> length >= 0
                      && if field >= 0x80_0000 then
                           forall i | 0 <= i < length :: Unprotected(atr[..], 64, field % 0x1_0000, i)
                         else field + length <= mainStorage.Length
      ensures ok ==> && Counted(extents) && |Flatten(extents)| == length
                     && forall i | 0 <= i < length :: LiesAt(View(), field, i, Flatten(extents)[i])
    {
      GuestAddressesLie(View(), field, length);
      ghost var a := GuestAddresses(View(), field, length);
      if a.Some? {
        CoalesceIsExact(a.value);
      }
      if length < 0 {
        return false, [];
      }
      if field >= TRANSLATED_BIT {
        var fault;
        ok, extents, fault := TranslatedExtents(field % 0x1_0000, TASK_GROUP_0, length);
        return;
      }
      if field + length > mainStorage.Length {
        return false, [];
      }
      ok, extents := true, [];
      if length != 0 {
        extents := [Extent(field, length)];
        CoalesceChunk([], field, length);
        assert [] + Range(field, length) == Range(field, length);
      }
    }

    method ReadExtents(extents: seq<Extent>) returns (data: seq<byte>)
      requires Valid() && Counted(extents)
      modifies this`faulted
      ensures View() == TouchExtents(old(View()), extents)
      ensures data == FetchExtents(old(View()), extents)
    {
      ghost var g := View();
      data := [];
      for i := 0 to |extents|
        invariant View() == TouchExtents(g, extents[..i])
        invariant data == FetchExtents(g, extents[..i])
      {
        var b := ReadBytes(extents[i].first, extents[i].count);
        data := data + b;
        assert extents[..i + 1][..i] == extents[..i];
      }
      assert extents[..|extents|] == extents;
    }

    method WriteExtents(extents: seq<Extent>, source: seq<byte>)
      requires Valid() && Counted(extents) && |source| == |Flatten(extents)|
      modifies this`faulted, mainStorage
      ensures View() == GuestStorage.WriteExtents(old(View()), extents, source)
    {
      ghost var g := View();
      var offset := 0;
      for i := 0 to |extents|
        invariant 0 <= offset <= |source| && offset == |Flatten(extents[..i])|
        invariant View() == GuestStorage.WriteExtents(g, extents[..i], source[..offset])
      {
        var next := offset + extents[i].count;
        FlattenPrefix(extents, i + 1);
        assert extents[..i + 1][..i] == extents[..i];
        WriteBytes(extents[i].first, source[offset..next]);
        assert source[..next][..offset] == source[..offset];
        assert source[..next][offset..] == source[offset..next];
        offset := next;
      }
      assert extents[..|extents|] == extents && source[..offset] == source;
    }

    method ReadGuest24Range(field: addr24, length: int) returns (ok: bool, data: seq<byte>)
      requires Valid()
      modifies this`faulted
      ensures Transfer(ok, View(), data) == ReadRange(old(View()), field, length)
    {
      var extents;
      ok, extents := Guest24Extents(field, length);
      if !ok {
        return false, [];
      }
      CoalesceIsExact(GuestAddresses(View(), field, length).value);
      data := ReadExtents(extents);
      return !faulted, data;
    }

    method WriteGuest24Range(field: addr24, source: seq<byte>) returns (ok: bool)
      requires Valid()
      modifies this`faulted, mainStorage
      ensures Transfer(ok, View(), source) == WriteRange(old(View()), field, source)
    {
      var extents;
      ok, extents := Guest24Extents(field, |source|);
      if !ok {
        return false;
      }
      CoalesceIsExact(GuestAddresses(View(), field, |source|).value);
      WriteExtents(extents, source);
      return !faulted;
    }

    // All or nothing: the whole range is validated before any byte moves.
    method WritePageFrames(frames: seq<int>, displacement: int, source: Option<seq<byte>>, length: int)
      returns (ok: bool)
      requires Valid()
      requires source.Some? ==> length <= |source.value|
      modifies this`faulted, mainStorage
      ensures ok <==> FramesAccept(mainStorage.Length, frames, displacement, length) && (length != 0 ==> source.Some?)
      ensures !ok || length == 0 ==> View() == old(View())
      ensures ok && length != 0 ==>
                && Inside(mainStorage.Length, FrameAddresses(frames, displacement, length))
                && View() == old(View()).(mem := PokeAll(old(View()).mem, FrameAddresses(frames, displacement, length),
                                                        source.value[..length]))
      ensures ok && length != 0 && FramesApart(frames, displacement, length) ==>
                var addresses := FrameAddresses(frames, displacement, length);
                && (forall i | 0 <= i < length :: mainStorage[addresses[i]] == source.value[i])
                && (forall a | 0 <= a < mainStorage.Length && Untouched(addresses, a) ::
                      mainStorage[a] == old(mainStorage[a]))
    {
      if displacement < 0 || length < 0 || (length != 0 && source == None) {
        return false;
      }
      if length == 0 {
        return true;
      }
      if displacement + length > |frames| * 0x800 {
        return false;
      }
      var valid := FramesValidated(frames, displacement, length);
      if !valid {
        return false;
      }
      CopyToFrames(frames, displacement, source.value[..length]);
      ghost var before := old(View()).mem;
      if FramesApart(frames, displacement, length) {
        FramesLand(before, frames, displacement, source.value[..length]);
      }
      return true;
    }

    method CopyToFrames(frames: seq<int>, displacement: nat, source: seq<byte>)
      requires Valid() && FramesAccept(mainStorage.Length, frames, displacement, |source|)
      modifies this`faulted, mainStorage
      ensures Inside(mainStorage.Length, FrameAddresses(frames, displacement, |source|))
      ensures View() == old(View()).(mem := PokeAll(old(View()).mem, FrameAddresses(frames, displacement, |source|),
                                                    source))
    {
      hide PokeAll, FrameAddresses;
      ghost var start, addresses := View(), FrameAddresses(frames, displacement, |source|);
      FramesInside(mainStorage.Length, frames, displacement, |source|);
      PokeNone(start.mem);
      assert addresses[..0] == [] && source[..0] == [];
      var at, sent := displacement, 0;
      while sent < |source|
        invariant 0 <= sent <= |source| && at == displacement + sent
        invariant View() == start.(mem := PokeAll(start.mem, addresses[..sent], source[..sent]))
      {
        var page, offset := at / 0x800, at % 0x800;
        var chunk := Min(|source| - sent, 0x800 - offset);
        FramePoke(start.mem, frames, displacement, source, sent, sent + chunk, addresses, frames[page] + offset);
        WriteBytes(frames[page] + offset, source[sent..sent + chunk]);
        at, sent := at + chunk, sent + chunk;
      }
      assert addresses[..sent] == addresses && source[..sent] == source;
    }

    method FramesValidated(frames: seq<int>, displacement: nat, length: nat) returns (ok: bool)
      requires Valid() && displacement + length <= |frames| * 0x800
      ensures ok <==> FramesAccept(mainStorage.Length, frames, displacement, length)
    {
      var at, left := displacement, length;
      while left > 0
        invariant at + left == displacement + length && displacement <= at
        invariant forall x | displacement <= x < at :: FrameResident(mainStorage.Length, frames, x)
      {
        var page, offset := at / 0x800, at % 0x800;
        var chunk := Min(left, 0x800 - offset);
        var frame := frames[page];
        InPage(at, chunk - 1);
        if frame == 0 || frame + offset < 0 || frame + offset + chunk > mainStorage.Length {
          assert !FrameResident(mainStorage.Length, frames, at)
              || !FrameResident(mainStorage.Length, frames, at + chunk - 1);
          return false;
        }
        forall x | at <= x < at + chunk
          ensures x / 0x800 == page && FrameResident(mainStorage.Length, frames, x)
        {
          InPage(at, x - at);
        }
        at, left := at + chunk, left - chunk;
      }
      return true;
    }
  }

  lemma InPage(at: nat, k: nat)
    requires at % 0x800 + k < 0x800
    ensures (at + k) / 0x800 == at / 0x800 && (at + k) % 0x800 == at % 0x800 + k
  {
  }

  lemma FramesInside(size: nat, frames: seq<int>, displacement: nat, length: nat)
    requires FramesAccept(size, frames, displacement, length)
    ensures Inside(size, FrameAddresses(frames, displacement, length))
  {
    forall i | 0 <= i < length
      ensures 0 <= FrameAddresses(frames, displacement, length)[i] < size
    {
      assert FrameResident(size, frames, displacement + i);
    }
  }

  lemma FrameChunk(frames: seq<int>, displacement: nat, length: nat, sent: nat, chunk: nat)
    requires FramesReach(frames, displacement, length) && sent + chunk <= length && chunk > 0
    requires (displacement + sent) % 0x800 + chunk <= 0x800
    ensures (displacement + sent) / 0x800 < |frames|
    ensures forall i | sent <= i < sent + chunk ::
              FrameAddresses(frames, displacement, length)[i] == FrameAddress(frames, displacement + sent) + (i - sent)
  {
    var all := FrameAddresses(frames, displacement, length);
    forall i | sent <= i < sent + chunk
      ensures all[i] == FrameAddress(frames, displacement + sent) + (i - sent)
    {
      InPage(displacement + sent, i - sent);
      assert displacement + sent + (i - sent) == displacement + i;
      assert all[i] == FrameAddress(frames, displacement + i);
    }
  }

  // Storing one page's chunk continues the byte-by-byte transfer.
  lemma FramePoke(mem: seq<byte>, frames: seq<int>, displacement: nat, source: seq<byte>, sent: nat, next: nat,
                  addresses: seq<int>, first: int)
    requires FramesAccept(|mem|, frames, displacement, |source|) && sent < next <= |source|
    requires (displacement + sent) % 0x800 + next - sent <= 0x800
    requires addresses == FrameAddresses(frames, displacement, |source|)
    requires first == FrameAddress(frames, displacement + sent)
    ensures Inside(|mem|, addresses) && InRange(|mem|, first, next - sent)
    ensures PokeAll(mem, addresses[..next], source[..next])
         == Splice(PokeAll(mem, addresses[..sent], source[..sent]), first, source[sent..next])
  {
    FramesInside(|mem|, frames, displacement, |source|);
    assert forall i | sent <= i < next :: addresses[i] == first + (i - sent) by {
      FrameChunk(frames, displacement, |source|, sent, next - sent);
    }
    PokeRun(mem, addresses, source, sent, next, first);
  }

  lemma ChunkTranslates(atr: seq<halfword>, base: nat, logical: halfword, done: nat, at: halfword, n: nat)
    requires base + 32 <= |atr| && at == LogicalAt(logical, done)
    requires 0 < n <= 0x800 - at % 0x800
    requires AllTranslate(atr, base, logical, done) && Translate(atr, base, at).Some?
    ensures AllTranslate(atr, base, logical, done + n)
    ensures TranslatedAddresses(atr, base, logical, done + n)
         == TranslatedAddresses(atr, base, logical, done) + Range(Translate(atr, base, at).value, n)
  {
    var first := Translate(atr, base, at).value;
    forall i | done <= i < done + n
      ensures ByteAddress(atr, base, logical, i) == Some(first + (i - done))
    {
      LogicalInPage(logical, done, at, i - done);
    }
    assert AllTranslate(atr, base, logical, done + n);
    var short, long := TranslatedAddresses(atr, base, logical, done), TranslatedAddresses(atr, base, logical, done + n);
    forall i | 0 <= i < done + n
      ensures long[i] == (short + Range(first, n))[i]
    {
      assert ByteAddress(atr, base, logical, i) == Some(long[i]);
    }
  }

  lemma ChunkExtents(atr: seq<halfword>, base: nat, logical: halfword, done: nat, at: halfword, n: nat)
    requires base + 32 <= |atr| && at == LogicalAt(logical, done)
    requires 0 < n <= 0x800 - at % 0x800
    requires AllTranslate(atr, base, logical, done) && Translate(atr, base, at).Some?
    ensures AllTranslate(atr, base, logical, done + n)
    ensures Coalesce(TranslatedAddresses(atr, base, logical, done + n))
         == Attach(Coalesce(TranslatedAddresses(atr, base, logical, done)), Translate(atr, base, at).value, n)
  {
    ChunkTranslates(atr, base, logical, done, at, n);
    CoalesceChunk(TranslatedAddresses(atr, base, logical, done), Translate(atr, base, at).value, n);
  }

  lemma GatherChunk(atr: seq<halfword>, base: nat, logical: halfword, done: nat, at: halfword, extents: seq<Extent>,
                    n: nat)
    requires base + 32 <= |atr| && Gathering(atr, base, logical, done, at, extents)
    requires 0 < n <= 0x800 - at % 0x800 && Translate(atr, base, at).Some?
    ensures Gathering(atr, base, logical, done + n, LogicalAt(at, n),
                      Attach(extents, Translate(atr, base, at).value, n))
  {
    hide Coalesce, Attach, Translate, AllTranslate;
    ChunkExtents(atr, base, logical, done, at, n);
    NextChunk(logical, done, at, n);
  }

  lemma ExtentsAreMapped(atr: seq<halfword>, base: nat, logical: halfword, length: int)
    requires base + 32 <= |atr| && AllTranslate(atr, base, logical, length)
    ensures var extents := Coalesce(TranslatedAddresses(atr, base, logical, length));
            && (forall i | 0 <= i < length :: Unprotected(atr, base, logical, i))
            && Counted(extents) && |Flatten(extents)| == Max(0, length)
            && forall i | 0 <= i < length :: MappedTo(atr, base, logical, i, Flatten(extents)[i])
  {
    hide Unprotected, MappedTo;
    TransferIsMapped(atr, base, logical, length);
    CoalesceIsExact(TranslatedAddresses(atr, base, logical, length));
  }

  lemma StopIsFirst(atr: seq<halfword>, base: nat, logical: halfword, length: int, fault: Option<halfword>,
                    extents: seq<Extent>)
    requires base + 32 <= |atr| && exists k | 0 <= k < length :: StoppedAt(atr, base, logical, k, fault, extents)
    ensures !forall i | 0 <= i < length :: Unprotected(atr, base, logical, i)
    ensures exists k | 0 <= k < length ::
              && fault == Some((logical + k) % 0x1_0000) && !Unprotected(atr, base, logical, k)
              && forall i | 0 <= i < k :: Unprotected(atr, base, logical, i)
  {
    hide Unprotected;
    var k :| 0 <= k < length && StoppedAt(atr, base, logical, k, fault, extents);
    AddressIsMapped(atr, base, logical, k);
    TransferIsMapped(atr, base, logical, k);
  }

  lemma GatherStart(atr: seq<halfword>, base: nat, logical: halfword, length: int)
    requires base + 32 <= |atr|
    ensures Gathering(atr, base, logical, 0, logical, [])
  {
    assert TranslatedAddresses(atr, base, logical, 0) == [];
  }

  lemma GatherStop(atr: seq<halfword>, base: nat, logical: halfword, done: nat, at: halfword, extents: seq<Extent>,
                   length: int)
    requires base + 32 <= |atr| && Gathering(atr, base, logical, done, at, extents) && done < length
    requires Translate(atr, base, at) == None
    ensures !AllTranslate(atr, base, logical, length)
    ensures StoppedAt(atr, base, logical, done, Some(at), extents)
  {
    assert ByteAddress(atr, base, logical, done) == None;
  }

  lemma GatherEnd(atr: seq<halfword>, base: nat, logical: halfword, done: nat, at: halfword, extents: seq<Extent>,
                  length: int)
    requires base + 32 <= |atr| && Gathering(atr, base, logical, done, at, extents)
    requires done == Max(0, length)
    ensures AllTranslate(atr, base, logical, length)
    ensures extents == Coalesce(TranslatedAddresses(atr, base, logical, length))
  {
    if length < 0 {
      assert TranslatedAddresses(atr, base, logical, length) == TranslatedAddresses(atr, base, logical, 0);
    }
  }

  lemma NextChunk(logical: halfword, done: nat, at: halfword, n: nat)
    requires at == LogicalAt(logical, done)
    ensures LogicalAt(at, n) == LogicalAt(logical, done + n)
  {
  }

  lemma FlattenPrefix(extents: seq<Extent>, i: nat)
    requires Counted(extents) && i <= |extents|
    ensures |Flatten(extents[..i])| <= |Flatten(extents)|
    decreases |extents| - i
  {
    if i == |extents| {
      assert extents[..i] == extents;
    } else {
      assert extents[..i + 1][..i] == extents[..i];
      FlattenPrefix(extents, i + 1);
    }
  }
}
