// Guest main storage and the 2 KB address translation in front of it.
//
// `Guest` is the value of the machine state the devices reach: the bytes, the
// 128 address translation registers and the sticky fault latch.  The class
// `MachineState` holds the same three things in place and is proved against
// functions of that value.
module GuestStorage {
  import opened Bytes

  const ATR_COUNT: nat := 128
  const TASK_GROUP_0: nat := 64
  const TRANSLATED_BIT: nat := 0x80_0000

  datatype Extent = Extent(first: int, count: int)

  datatype Guest = Guest(mem: seq<byte>, atr: seq<halfword>, faulted: bool) {
    ghost predicate Valid() {
      |atr| == ATR_COUNT
    }
  }

  // ---- plain storage access -----------------------------------------------

  predicate InRange(size: nat, addr: int, len: int) {
    0 <= addr && 0 <= len && addr + len <= size
  }

  function Splice(mem: seq<byte>, addr: int, src: seq<byte>): (r: seq<byte>)
    requires InRange(|mem|, addr, |src|)
    ensures |r| == |mem|
    ensures forall i | 0 <= i < |mem| :: r[i] == if addr <= i < addr + |src| then src[i - addr] else mem[i]
  {
    mem[..addr] + src + mem[addr + |src|..]
  }

  // An access outside main storage latches the fault and moves nothing.
  function Write(g: Guest, addr: int, src: seq<byte>): (r: Guest)
    ensures |r.mem| == |g.mem| && r.atr == g.atr
    ensures g.faulted ==> r.faulted
  {
    if InRange(|g.mem|, addr, |src|) then g.(mem := Splice(g.mem, addr, src)) else g.(faulted := true)
  }

  function Touch(g: Guest, addr: int, len: int): Guest {
    if InRange(|g.mem|, addr, len) then g else g.(faulted := true)
  }

  function Fetch(g: Guest, addr: int, len: nat): (r: seq<byte>)
    ensures |r| == len
  {
    if InRange(|g.mem|, addr, len) then g.mem[addr..addr + len] else Repeat(0, len)
  }

  function ByteAt(g: Guest, addr: int): byte {
    Fetch(g, addr, 1)[0]
  }

  function HalfAt(g: Guest, addr: int): halfword {
    var b := Fetch(g, addr, 2);
    Half(b[0], b[1])
  }

  function Addr24At(g: Guest, addr: int): addr24 {
    var b := Fetch(g, addr, 3);
    (b[0] as int) * 0x1_0000 + (b[1] as int) * 0x100 + b[2]
  }

  function WriteByte(g: Guest, addr: int, v: byte): Guest {
    Write(g, addr, [v])
  }

  function WriteHalf(g: Guest, addr: int, v: halfword): Guest {
    Write(g, addr, [High(v), Low(v)])
  }

  function Addr24Bytes(v: addr24): seq<byte> {
    [v / 0x1_0000, v / 0x100 % 0x100, v % 0x100]
  }

  function WriteAddr24(g: Guest, addr: int, v: addr24): Guest {
    Write(g, addr, Addr24Bytes(v))
  }

  // Posting a completion stores hex 4n at byte 6 of the event control mask and
  // unlinks the mask.
  function Complete(g: Guest, iob: int, code: nat): Guest {
    WriteAddr24(WriteByte(g, iob + 6, 0x40 + code % 0x10), iob + 2, 0)
  }

  // ---- address translation ------------------------------------------------

  // Address bits 0-4 choose a register; any of its bits 0-2 on protects the
  // page, otherwise bits 3-15 are the page frame.
  function Translate(atr: seq<halfword>, base: nat, logical: halfword): Option<int>
    requires base + 32 <= |atr|
  {
    var a := atr[base + logical / 0x800];
    if a >= 0x2000 then None else Some(a * 0x800 + logical % 0x800)
  }

  function LogicalAt(logical: halfword, i: int): halfword {
    (logical + i) % 0x1_0000
  }

  function ByteAddress(atr: seq<halfword>, base: nat, logical: halfword, i: int): Option<int>
    requires base + 32 <= |atr|
  {
    Translate(atr, base, LogicalAt(logical, i))
  }

  ghost predicate AllTranslate(atr: seq<halfword>, base: nat, logical: halfword, length: int)
    requires base + 32 <= |atr|
  {
    forall i | 0 <= i < length :: ByteAddress(atr, base, logical, i).Some?
  }

  // The simple form: every byte of the transfer translated on its own.
  ghost function TranslatedAddresses(atr: seq<halfword>, base: nat, logical: halfword, length: int): (r: seq<int>)
    requires base + 32 <= |atr|
    requires AllTranslate(atr, base, logical, length)
    ensures |r| == Max(0, length)
    ensures forall i | 0 <= i < length :: ByteAddress(atr, base, logical, i) == Some(r[i])
  {
    seq(Max(0, length), i requires 0 <= i < Max(0, length) => ByteAddress(atr, base, logical, i).value)
  }

  // What the registers say, byte by byte: x is the logical address i bytes on,
  // its page's register has bits 0-2 off, and the real address is that
  // register's frame and the offset of x in its page.
  ghost predicate Unprotected(atr: seq<halfword>, base: nat, logical: halfword, i: int)
    requires base + 32 <= |atr|
  {
    var x := (logical + i) % 0x1_0000;
    atr[base + x / 0x800] / 0x2000 == 0
  }

  ghost predicate MappedTo(atr: seq<halfword>, base: nat, logical: halfword, i: int, r: int)
    requires base + 32 <= |atr|
  {
    var x := (logical + i) % 0x1_0000;
    r / 0x800 == atr[base + x / 0x800] && r % 0x800 == x % 0x800
  }

  lemma AddressIsMapped(atr: seq<halfword>, base: nat, logical: halfword, i: int)
    requires base + 32 <= |atr|
    ensures ByteAddress(atr, base, logical, i).Some? <==> Unprotected(atr, base, logical, i)
    ensures ByteAddress(atr, base, logical, i).Some? ==>
              MappedTo(atr, base, logical, i, ByteAddress(atr, base, logical, i).value)
  {
    var x := LogicalAt(logical, i);
    var a := atr[base + x / 0x800];
    FrameAndOffset(a, x % 0x800);
    assert a < 0x2000 <==> a / 0x2000 == 0;
  }

  lemma FrameAndOffset(frame: nat, offset: nat)
    requires offset < 0x800
    ensures (frame * 0x800 + offset) / 0x800 == frame && (frame * 0x800 + offset) % 0x800 == offset
  {
  }

  // A transfer translates exactly when no page it touches is protected, and
  // then byte i lies where its own page's register says.
  lemma TransferIsMapped(atr: seq<halfword>, base: nat, logical: halfword, length: int)
    requires base + 32 <= |atr|
    ensures AllTranslate(atr, base, logical, length)
       <==> forall i | 0 <= i < length :: Unprotected(atr, base, logical, i)
    ensures AllTranslate(atr, base, logical, length) ==>
              forall i | 0 <= i < length ::
                MappedTo(atr, base, logical, i, TranslatedAddresses(atr, base, logical, length)[i])
  {
    hide Unprotected, MappedTo;
    forall i | 0 <= i < length
      ensures ByteAddress(atr, base, logical, i).Some? <==> Unprotected(atr, base, logical, i)
      ensures ByteAddress(atr, base, logical, i).Some? ==>
                MappedTo(atr, base, logical, i, ByteAddress(atr, base, logical, i).value)
    {
      AddressIsMapped(atr, base, logical, i);
    }
  }

  // No other register plays a part.
  ghost predicate SameRegister(atr: seq<halfword>, other: seq<halfword>, base: nat, logical: halfword, i: int)
    requires base + 32 <= |atr| == |other|
  {
    var x := (logical + i) % 0x1_0000;
    atr[base + x / 0x800] == other[base + x / 0x800]
  }

  lemma OtherRegisters(atr: seq<halfword>, other: seq<halfword>, base: nat, logical: halfword, length: int)
    requires base + 32 <= |atr| == |other|
    requires forall i | 0 <= i < length :: SameRegister(atr, other, base, logical, i)
    ensures AllTranslate(atr, base, logical, length) <==> AllTranslate(other, base, logical, length)
    ensures AllTranslate(atr, base, logical, length) ==>
              TranslatedAddresses(atr, base, logical, length) == TranslatedAddresses(other, base, logical, length)
  {
    forall i | 0 <= i < length
      ensures ByteAddress(atr, base, logical, i) == ByteAddress(other, base, logical, i)
    {
      assert SameRegister(atr, other, base, logical, i);
    }
  }

  function Range(first: int, n: nat): (r: seq<int>)
    ensures |r| == n
    ensures forall i | 0 <= i < n :: r[i] == first + i
  {
    seq(n, i => first + i)
  }

  // Group a list of byte addresses into its maximal runs, one byte at a time.
  function Coalesce(addresses: seq<int>): (r: seq<Extent>)
    ensures addresses == [] <==> r == []
    ensures r != [] ==> r[|r| - 1].first + r[|r| - 1].count == addresses[|addresses| - 1] + 1
  {
    if addresses == [] then []
    else
      var x := addresses[|addresses| - 1];
      var p := Coalesce(addresses[..|addresses| - 1]);
      if p != [] && p[|p| - 1].first + p[|p| - 1].count == x then
        p[|p| - 1 := Extent(p[|p| - 1].first, p[|p| - 1].count + 1)]
      else
        p + [Extent(x, 1)]
  }

  // What one page-sized chunk does to the runs gathered so far.
  function Attach(extents: seq<Extent>, first: int, n: nat): seq<Extent> {
    if extents != [] && extents[|extents| - 1].first + extents[|extents| - 1].count == first then
      extents[|extents| - 1 := Extent(extents[|extents| - 1].first, extents[|extents| - 1].count + n)]
    else
      extents + [Extent(first, n)]
  }

  lemma CoalesceStep(all: seq<int>, runs: seq<Extent>, x: int)
    requires |all| > 0 && all[|all| - 1] == x && runs == Coalesce(all[..|all| - 1])
    ensures Coalesce(all) == Attach(runs, x, 1)
  {
  }

  lemma {:induction false} CoalesceChunk(addresses: seq<int>, first: int, n: nat)
    requires n > 0
    ensures Coalesce(addresses + Range(first, n)) == Attach(Coalesce(addresses), first, n)
  {
    var all := addresses + Range(first, n);
    assert all[..|all| - 1] == addresses + Range(first, n - 1);
    if n == 1 {
      assert addresses + Range(first, 0) == addresses;
      CoalesceStep(all, Coalesce(addresses), first);
    } else {
      CoalesceChunk(addresses, first, n - 1);
      CoalesceStep(all, Attach(Coalesce(addresses), first, n - 1), first + n - 1);
    }
  }

  ghost predicate Counted(extents: seq<Extent>) {
    forall i | 0 <= i < |extents| :: extents[i].count >= 0
  }

  ghost function Flatten(extents: seq<Extent>): seq<int>
    requires Counted(extents)
  {
    if extents == [] then []
    else
      var e := extents[|extents| - 1];
      Flatten(extents[..|extents| - 1]) + Range(e.first, e.count)
  }

  ghost predicate Maximal(extents: seq<Extent>) {
    && (forall i | 0 <= i < |extents| :: extents[i].count > 0)
    && (forall i | 0 < i < |extents| :: extents[i - 1].first + extents[i - 1].count != extents[i].first)
  }

  lemma AttachIsExact(extents: seq<Extent>, first: int, n: nat)
    requires n > 0 && Maximal(extents)
    ensures Maximal(Attach(extents, first, n))
    ensures Flatten(Attach(extents, first, n)) == Flatten(extents) + Range(first, n)
  {
    var r := Attach(extents, first, n);
    if |r| == |extents| {
      var e := extents[|extents| - 1];
      assert r[..|r| - 1] == extents[..|r| - 1];
      assert Range(e.first, e.count + n) == Range(e.first, e.count) + Range(first, n);
    } else {
      assert r[..|r| - 1] == extents;
    }
  }

  // Coalescing loses nothing and leaves no two neighbours that could merge.
  lemma {:induction false} CoalesceIsExact(addresses: seq<int>)
    ensures Maximal(Coalesce(addresses))
    ensures Flatten(Coalesce(addresses)) == addresses
  {
    if addresses != [] {
      var head, x := addresses[..|addresses| - 1], addresses[|addresses| - 1];
      assert addresses == head + Range(x, 1);
      CoalesceChunk(head, x, 1);
      CoalesceIsExact(head);
      AttachIsExact(Coalesce(head), x, 1);
    }
  }

  // Maximal runs are determined by what they flatten to.
  lemma {:induction false} MaximalIsCoalesced(extents: seq<Extent>)
    requires Maximal(extents)
    ensures extents == Coalesce(Flatten(extents))
  {
    if extents != [] {
      var n := |extents| - 1;
      var e := extents[n];
      assert extents == extents[..n] + [e];
      MaximalIsCoalesced(extents[..n]);
      CoalesceChunk(Flatten(extents[..n]), e.first, e.count);
      if n > 0 {
        assert extents[..n][n - 1] == extents[n - 1];
      }
    }
  }

  // The number of places where a list of addresses does not step by one,
  // counted the way the buffer capture reports its physical spans.
  function Spans(addresses: seq<int>): nat {
    if addresses == [] then 0
    else if |addresses| == 1 then 1
    else Spans(addresses[..|addresses| - 1]) +
         if addresses[|addresses| - 1] != addresses[|addresses| - 2] + 1 then 1 else 0
  }

  lemma {:induction false} SpansCountExtents(addresses: seq<int>)
    ensures Spans(addresses) == |Coalesce(addresses)|
  {
    if |addresses| > 1 {
      SpansCountExtents(addresses[..|addresses| - 1]);
    } else if |addresses| == 1 {
      assert Coalesce(addresses[..0]) == [];
    }
  }

  lemma LogicalInPage(logical: halfword, done: nat, at: halfword, k: nat)
    requires at == LogicalAt(logical, done)
    requires at % 0x800 + k < 0x800
    ensures LogicalAt(logical, done + k) == at + k
    ensures (at + k) / 0x800 == at / 0x800
    ensures (at + k) % 0x800 == at % 0x800 + k
  {
    var page := at / 0x800;
    assert at == page * 0x800 + at % 0x800;
    assert page <= 31;
    assert at + k < 0x1_0000;
    var q := (logical + done) / 0x1_0000;
    assert logical + done + k == q * 0x1_0000 + (at + k);
  }

  // ---- what a multi-extent transfer means byte by byte ----------------------

  ghost function WriteExtents(g: Guest, extents: seq<Extent>, data: seq<byte>): (r: Guest)
    requires Counted(extents) && |data| == |Flatten(extents)|
    ensures |r.mem| == |g.mem| && r.atr == g.atr
    ensures g.faulted ==> r.faulted
  {
    if extents == [] then g
    else
      var n := |extents| - 1;
      var split := |Flatten(extents[..n])|;
      Write(WriteExtents(g, extents[..n], data[..split]), extents[n].first, data[split..])
  }

  ghost function TouchExtents(g: Guest, extents: seq<Extent>): (r: Guest)
    ensures r.mem == g.mem && r.atr == g.atr
    ensures g.faulted ==> r.faulted
  {
    if extents == [] then g
    else
      var n := |extents| - 1;
      Touch(TouchExtents(g, extents[..n]), extents[n].first, extents[n].count)
  }

  ghost function FetchExtents(g: Guest, extents: seq<Extent>): (r: seq<byte>)
    requires Counted(extents)
    ensures |r| == |Flatten(extents)|
  {
    if extents == [] then []
    else
      var n := |extents| - 1;
      FetchExtents(g, extents[..n]) + Fetch(g, extents[n].first, extents[n].count)
  }

  ghost predicate Inside(size: nat, addresses: seq<int>) {
    forall i | 0 <= i < |addresses| :: 0 <= addresses[i] < size
  }

  ghost predicate ExtentsInside(size: nat, extents: seq<Extent>) {
    forall i | 0 <= i < |extents| :: InRange(size, extents[i].first, extents[i].count)
  }

  // Store a list of bytes at a list of addresses, in order.
  ghost function PokeAll(mem: seq<byte>, addresses: seq<int>, data: seq<byte>): (r: seq<byte>)
    requires |addresses| == |data| && Inside(|mem|, addresses)
    ensures |r| == |mem|
  {
    if addresses == [] then mem
    else
      var n := |addresses| - 1;
      PokeAll(mem, addresses[..n], data[..n])[addresses[n] := data[n]]
  }

  ghost function Gather(mem: seq<byte>, addresses: seq<int>): (r: seq<byte>)
    requires Inside(|mem|, addresses)
    ensures |r| == |addresses|
  {
    seq(|addresses|, i requires 0 <= i < |addresses| => mem[addresses[i]])
  }

  ghost predicate Distinct(addresses: seq<int>) {
    forall i, j | 0 <= i < j < |addresses| :: addresses[i] != addresses[j]
  }

  ghost predicate LastUse(addresses: seq<int>, i: nat)
    requires i < |addresses|
  {
    forall j | i < j < |addresses| :: addresses[j] != addresses[i]
  }

  ghost predicate Untouched(addresses: seq<int>, a: int) {
    forall i | 0 <= i < |addresses| :: addresses[i] != a
  }

  // Every stored byte is the last one sent to its address; all others keep
  // their old value.
  lemma {:induction false} PokeAllBytes(mem: seq<byte>, addresses: seq<int>, data: seq<byte>)
    requires |addresses| == |data| && Inside(|mem|, addresses)
    ensures forall a | 0 <= a < |mem| && Untouched(addresses, a) :: PokeAll(mem, addresses, data)[a] == mem[a]
    ensures forall i | 0 <= i < |addresses| && LastUse(addresses, i) ::
              PokeAll(mem, addresses, data)[addresses[i]] == data[i]
  {
    if addresses != [] {
      var n := |addresses| - 1;
      PokeAllBytes(mem, addresses[..n], data[..n]);
      forall a | 0 <= a < |mem| && Untouched(addresses, a)
        ensures PokeAll(mem, addresses, data)[a] == mem[a]
      {
        assert Untouched(addresses[..n], a);
      }
      forall i | 0 <= i < |addresses| && LastUse(addresses, i)
        ensures PokeAll(mem, addresses, data)[addresses[i]] == data[i]
      {
        if i < n {
          assert LastUse(addresses[..n], i);
        }
      }
    }
  }

  lemma DistinctReadBack(mem: seq<byte>, addresses: seq<int>, data: seq<byte>)
    requires |addresses| == |data| && Inside(|mem|, addresses) && Distinct(addresses)
    ensures Gather(PokeAll(mem, addresses, data), addresses) == data
    ensures forall a | 0 <= a < |mem| && Untouched(addresses, a) :: PokeAll(mem, addresses, data)[a] == mem[a]
  {
    PokeAllBytes(mem, addresses, data);
    assert forall i | 0 <= i < |addresses| :: LastUse(addresses, i);
  }

  // Writing through a list of addresses and reading back through it is the
  // identity for every record exactly when the addresses do not alias.
  lemma ReadBackIffDistinct(mem: seq<byte>, addresses: seq<int>)
    requires Inside(|mem|, addresses)
    ensures (forall data: seq<byte> | |data| == |addresses| ::
               Gather(PokeAll(mem, addresses, data), addresses) == data)
            <==> Distinct(addresses)
  {
    if Distinct(addresses) {
      forall data: seq<byte> | |data| == |addresses|
        ensures Gather(PokeAll(mem, addresses, data), addresses) == data
      {
        DistinctReadBack(mem, addresses, data);
      }
    } else {
      var i, j :| 0 <= i < j < |addresses| && addresses[i] == addresses[j];
      var data: seq<byte> := Repeat(0, |addresses|)[j := 1];
      AliasesLose(mem, addresses, data, i, j);
    }
  }

  lemma AliasesLose(mem: seq<byte>, addresses: seq<int>, data: seq<byte>, i: nat, j: nat)
    requires |addresses| == |data| && Inside(|mem|, addresses)
    requires i < j < |addresses| && addresses[i] == addresses[j] && data[i] != data[j]
    ensures Gather(PokeAll(mem, addresses, data), addresses) != data
  {
    var back := Gather(PokeAll(mem, addresses, data), addresses);
    assert back[i] == back[j];
  }

  lemma {:induction false} PokeAllAppend(mem: seq<byte>, addresses: seq<int>, data: seq<byte>,
                                         first: int, src: seq<byte>)
    requires |addresses| == |data| && Inside(|mem|, addresses)
    requires InRange(|mem|, first, |src|)
    ensures Inside(|mem|, addresses + Range(first, |src|))
    ensures PokeAll(mem, addresses + Range(first, |src|), data + src)
         == Splice(PokeAll(mem, addresses, data), first, src)
  {
    hide PokeAll, Splice;
    var all, bytes := addresses + Range(first, |src|), data + src;
    var before := PokeAll(mem, addresses, data);
    if src == [] {
      assert all == addresses && bytes == data;
      SpliceNothing(before, first);
    } else {
      var k := |src| - 1;
      PokeAllAppend(mem, addresses, data, first, src[..k]);
      assert all[..|all| - 1] == addresses + Range(first, k);
      assert bytes[..|all| - 1] == data + src[..k];
      PokeLast(mem, all, bytes, |all|);
      assert all[..|all|] == all && bytes[..|all|] == bytes;
      SpliceLast(before, Splice(before, first, src[..k]), first, src);
    }
  }

  // A run of consecutive addresses inside a transfer is one block store.
  lemma {:induction false} PokeRun(mem: seq<byte>, addresses: seq<int>, data: seq<byte>, lo: nat, hi: nat, first: int)
    requires |addresses| == |data| && Inside(|mem|, addresses) && lo < hi <= |data|
    requires forall i | lo <= i < hi :: addresses[i] == first + (i - lo)
    ensures InRange(|mem|, first, hi - lo)
    ensures PokeAll(mem, addresses[..hi], data[..hi])
         == Splice(PokeAll(mem, addresses[..lo], data[..lo]), first, data[lo..hi])
    decreases hi
  {
    hide PokeAll, Splice;
    assert addresses[lo] == first && addresses[hi - 1] == first + (hi - 1 - lo);
    PokeLast(mem, addresses, data, hi);
    var before := PokeAll(mem, addresses[..lo], data[..lo]);
    var most := PokeAll(mem, addresses[..hi - 1], data[..hi - 1]);
    if hi - lo > 1 {
      PokeRun(mem, addresses, data, lo, hi - 1, first);
    } else {
      SpliceNothing(before, first);
      assert data[lo..hi][..0] == [];
    }
    assert data[lo..hi][..hi - lo - 1] == data[lo..hi - 1];
    SpliceLast(before, most, first, data[lo..hi]);
  }

  lemma PokeLast(mem: seq<byte>, addresses: seq<int>, data: seq<byte>, hi: nat)
    requires |addresses| == |data| && Inside(|mem|, addresses) && 0 < hi <= |data|
    ensures PokeAll(mem, addresses[..hi], data[..hi])
         == PokeAll(mem, addresses[..hi - 1], data[..hi - 1])[addresses[hi - 1] := data[hi - 1]]
  {
    hide PokeAll;
    assert addresses[..hi][..hi - 1] == addresses[..hi - 1] && data[..hi][..hi - 1] == data[..hi - 1];
    PokeStep(mem, addresses[..hi], data[..hi]);
  }

  lemma PokeStep(mem: seq<byte>, addresses: seq<int>, data: seq<byte>)
    requires |addresses| == |data| > 0 && Inside(|mem|, addresses)
    ensures var n := |addresses| - 1;
            && Inside(|mem|, addresses[..n])
            && PokeAll(mem, addresses, data) == PokeAll(mem, addresses[..n], data[..n])[addresses[n] := data[n]]
  {
  }

  lemma PokeNone(mem: seq<byte>)
    ensures PokeAll(mem, [], []) == mem
  {
  }

  lemma SpliceNothing(mem: seq<byte>, first: int)
    requires InRange(|mem|, first, 0)
    ensures Splice(mem, first, []) == mem
  {
  }

  lemma SpliceLast(before: seq<byte>, most: seq<byte>, first: int, src: seq<byte>)
    requires |src| > 0 && InRange(|before|, first, |src|)
    requires most == Splice(before, first, src[..|src| - 1])
    ensures Splice(before, first, src) == most[first + |src| - 1 := src[|src| - 1]]
  {
  }

  lemma {:induction false} WriteExtentsPokes(g: Guest, extents: seq<Extent>, data: seq<byte>)
    requires Counted(extents) && |data| == |Flatten(extents)|
    requires ExtentsInside(|g.mem|, extents)
    ensures Inside(|g.mem|, Flatten(extents))
    ensures WriteExtents(g, extents, data) == g.(mem := PokeAll(g.mem, Flatten(extents), data))
  {
    if extents != [] {
      var n := |extents| - 1;
      var split := |Flatten(extents[..n])|;
      WriteExtentsPokes(g, extents[..n], data[..split]);
      assert data == data[..split] + data[split..];
      PokeAllAppend(g.mem, Flatten(extents[..n]), data[..split], extents[n].first, data[split..]);
    }
  }

  lemma GatherAppend(mem: seq<byte>, addresses: seq<int>, first: int, n: nat)
    requires Inside(|mem|, addresses) && InRange(|mem|, first, n)
    ensures Inside(|mem|, addresses + Range(first, n))
    ensures Gather(mem, addresses + Range(first, n)) == Gather(mem, addresses) + mem[first..first + n]
  {
  }

  lemma {:induction false} FetchExtentsGathers(g: Guest, extents: seq<Extent>)
    requires Counted(extents)
    requires ExtentsInside(|g.mem|, extents)
    ensures Inside(|g.mem|, Flatten(extents))
    ensures FetchExtents(g, extents) == Gather(g.mem, Flatten(extents))
    ensures TouchExtents(g, extents) == g
  {
    if extents != [] {
      var n := |extents| - 1;
      FetchExtentsGathers(g, extents[..n]);
      GatherAppend(g.mem, Flatten(extents[..n]), extents[n].first, extents[n].count);
    }
  }

  // For runs of in-range addresses the extents are themselves in range.
  lemma {:induction false} CoalesceInside(size: nat, addresses: seq<int>)
    requires Inside(size, addresses)
    ensures ExtentsInside(size, Coalesce(addresses))
  {
    if addresses != [] {
      CoalesceInside(size, addresses[..|addresses| - 1]);
    }
  }

  // ---- the 24-bit device-path address ---------------------------------------

  ghost function GuestAddresses(g: Guest, field: addr24, length: int): (r: Option<seq<int>>)
    requires g.Valid()
    ensures r.Some? ==> |r.value| == length
  {
    if length < 0 then None
    else if field >= TRANSLATED_BIT then
      if AllTranslate(g.atr, TASK_GROUP_0, field % 0x1_0000, length) then
        Some(TranslatedAddresses(g.atr, TASK_GROUP_0, field % 0x1_0000, length))
      else None
    else if InRange(|g.mem|, field, length) then Some(Range(field, length))
    else None
  }

  // Byte i of the buffer a 24-bit device address names lies at this real
  // address: through task group 0, registers 64 to 95, when bit 800000 is on,
  // else where it says.
  ghost predicate LiesAt(g: Guest, field: addr24, i: int, r: int)
    requires g.Valid()
  {
    if field >= 0x80_0000 then MappedTo(g.atr, 64, field % 0x1_0000, i, r) else r == field + i
  }

  lemma GuestAddressesLie(g: Guest, field: addr24, length: int)
    requires g.Valid()
    ensures GuestAddresses(g, field, length).Some?
       <==> length >= 0
            && if field >= 0x80_0000 then forall i | 0 <= i < length :: Unprotected(g.atr, 64, field % 0x1_0000, i)
               else field + length <= |g.mem|
    ensures GuestAddresses(g, field, length).Some? ==>
              forall i | 0 <= i < length :: LiesAt(g, field, i, GuestAddresses(g, field, length).value[i])
  {
    hide Unprotected, MappedTo;
    TransferIsMapped(g.atr, 64, field % 0x1_0000, length);
  }

  datatype Transfer = Transfer(ok: bool, guest: Guest, data: seq<byte>)

  // The fault latch is sticky, so a transfer reports failure after an earlier
  // fault even though its own bytes moved.
  ghost function ReadRange(g: Guest, field: addr24, length: int): (r: Transfer)
    requires g.Valid()
    ensures r.guest.mem == g.mem && r.guest.atr == g.atr
    ensures r.ok ==> |r.data| == length && !r.guest.faulted
  {
    match GuestAddresses(g, field, length)
    case None => Transfer(false, g, [])
    case Some(a) =>
      CoalesceIsExact(a);
      var t := TouchExtents(g, Coalesce(a));
      Transfer(!t.faulted, t, FetchExtents(g, Coalesce(a)))
  }

  ghost function WriteRange(g: Guest, field: addr24, data: seq<byte>): (r: Transfer)
    requires g.Valid()
    ensures r.guest.Valid() && |r.guest.mem| == |g.mem| && r.guest.atr == g.atr
    ensures r.data == data
    ensures r.ok ==> !r.guest.faulted
  {
    match GuestAddresses(g, field, |data|)
    case None => Transfer(false, g, data)
    case Some(a) =>
      CoalesceIsExact(a);
      var t := WriteExtents(g, Coalesce(a), data);
      Transfer(!t.faulted, t, data)
  }

  // A buffer the guest can use: mapped, inside storage, and with no fault
  // already latched.
  ghost predicate Usable(g: Guest, field: addr24, length: int) {
    && g.Valid() && !g.faulted
    && GuestAddresses(g, field, length).Some?
    && Inside(|g.mem|, GuestAddresses(g, field, length).value)
  }

  lemma UsableRead(g: Guest, field: addr24, length: int)
    requires Usable(g, field, length)
    ensures ReadRange(g, field, length)
         == Transfer(true, g, Gather(g.mem, GuestAddresses(g, field, length).value))
  {
    var a := GuestAddresses(g, field, length).value;
    CoalesceIsExact(a);
    CoalesceInside(|g.mem|, a);
    FetchExtentsGathers(g, Coalesce(a));
  }

  lemma UsableWrite(g: Guest, field: addr24, data: seq<byte>)
    requires Usable(g, field, |data|)
    ensures WriteRange(g, field, data)
         == Transfer(true, g.(mem := PokeAll(g.mem, GuestAddresses(g, field, |data|).value, data)), data)
  {
    var a := GuestAddresses(g, field, |data|).value;
    CoalesceIsExact(a);
    CoalesceInside(|g.mem|, a);
    WriteExtentsPokes(g, Coalesce(a), data);
  }

  // Write then read back through the same field: the identity, with nothing
  // else changed, when the mapped addresses are in range and do not alias.
  lemma GuestRoundTrip(g: Guest, field: addr24, data: seq<byte>)
    requires Usable(g, field, |data|)
    requires Distinct(GuestAddresses(g, field, |data|).value)
    ensures var w := WriteRange(g, field, data);
            && w.ok
            && ReadRange(w.guest, field, |data|) == Transfer(true, w.guest, data)
            && forall x | 0 <= x < |g.mem| && Untouched(GuestAddresses(g, field, |data|).value, x) ::
                 w.guest.mem[x] == g.mem[x]
  {
    var a := GuestAddresses(g, field, |data|).value;
    UsableWrite(g, field, data);
    var w := WriteRange(g, field, data);
    assert GuestAddresses(w.guest, field, |data|) == Some(a);
    UsableRead(w.guest, field, |data|);
    DistinctReadBack(g.mem, a, data);
  }

  // ---- buffers and fields in a reader's terms ---------------------------------

  ghost function Number(mem: seq<byte>, at: int): addr24
    requires InRange(|mem|, at, 3)
  {
    (mem[at] as int) * 0x1_0000 + (mem[at + 1] as int) * 0x100 + mem[at + 2]
  }

  // Byte i of the buffer is the storage byte at r.
  ghost predicate Lands(g: Guest, field: addr24, i: int, r: int)
    requires g.Valid()
  {
    && 0 <= r < |g.mem| && LiesAt(g, field, i, r)
    && (field >= 0x80_0000 ==> Unprotected(g.atr, 64, field % 0x1_0000, i))
  }

  ghost predicate BufferAt(g: Guest, field: addr24, a: seq<int>)
    requires g.Valid()
  {
    forall i | 0 <= i < |a| :: Lands(g, field, i, a[i])
  }

  lemma LandsOnce(g: Guest, field: addr24, i: int, r: int, s: int)
    requires g.Valid() && Lands(g, field, i, r) && LiesAt(g, field, i, s)
    ensures r == s
  {
  }

  lemma BufferIs(g: Guest, field: addr24, a: seq<int>)
    requires g.Valid() && a != []
    ensures BufferAt(g, field, a) <==> GuestAddresses(g, field, |a|) == Some(a) && Inside(|g.mem|, a)
  {
    hide LiesAt, Unprotected, GuestAddresses;
    GuestAddressesLie(g, field, |a|);
    if BufferAt(g, field, a) {
      assert Lands(g, field, |a| - 1, a[|a| - 1]);
      if field < 0x80_0000 {
        RealLands(g, field, |a| - 1, a[|a| - 1]);
      } else {
        forall i | 0 <= i < |a|
          ensures Unprotected(g.atr, 64, field % 0x1_0000, i)
        {
          assert Lands(g, field, i, a[i]);
        }
      }
      var b := GuestAddresses(g, field, |a|).value;
      forall i | 0 <= i < |a|
        ensures a[i] == b[i] && 0 <= b[i] < |g.mem|
      {
        assert Lands(g, field, i, a[i]);
        LandsOnce(g, field, i, a[i], b[i]);
      }
      assert a == b;
    }
    if GuestAddresses(g, field, |a|) == Some(a) && Inside(|g.mem|, a) {
      forall i | 0 <= i < |a|
        ensures Lands(g, field, i, a[i])
      {
      }
    }
  }

  lemma RealLands(g: Guest, field: addr24, i: int, r: int)
    requires g.Valid() && field < 0x80_0000 && Lands(g, field, i, r)
    ensures field + i < |g.mem|
  {
  }

  lemma NumberAt(g: Guest, at: int)
    requires InRange(|g.mem|, at, 3)
    ensures Addr24At(g, at) == Number(g.mem, at)
  {
    assert g.mem[at..at + 3] == [g.mem[at], g.mem[at + 1], g.mem[at + 2]];
  }

  lemma {:induction false} TouchedInside(g: Guest, extents: seq<Extent>)
    requires !TouchExtents(g, extents).faulted
    ensures ExtentsInside(|g.mem|, extents) && !g.faulted
  {
    if extents != [] {
      TouchedInside(g, extents[..|extents| - 1]);
    }
  }

  lemma {:induction false} WrittenInside(g: Guest, extents: seq<Extent>, data: seq<byte>)
    requires Counted(extents) && |data| == |Flatten(extents)| && !WriteExtents(g, extents, data).faulted
    ensures ExtentsInside(|g.mem|, extents) && !g.faulted
  {
    if extents != [] {
      var n := |extents| - 1;
      WrittenInside(g, extents[..n], data[..|Flatten(extents[..n])|]);
    }
  }

  // A transfer that succeeds moves exactly the bytes of the buffer.
  lemma ReadIsBuffer(g: Guest, field: addr24, length: int)
    requires g.Valid() && ReadRange(g, field, length).ok && length > 0
    ensures var r := ReadRange(g, field, length);
            && r.guest == g
            && exists a: seq<int> | |a| == length ::
                 BufferAt(g, field, a) && Inside(|g.mem|, a) && Gather(g.mem, a) == r.data
  {
    hide GuestAddresses, BufferAt, Coalesce, Flatten, TouchExtents, FetchExtents;
    var a := GuestAddresses(g, field, length).value;
    CoalesceIsExact(a);
    TouchedInside(g, Coalesce(a));
    FetchExtentsGathers(g, Coalesce(a));
    BufferIs(g, field, a);
  }

  lemma WriteIsBuffer(g: Guest, field: addr24, data: seq<byte>)
    requires g.Valid() && WriteRange(g, field, data).ok && data != []
    ensures exists a: seq<int> | |a| == |data| ::
              && BufferAt(g, field, a) && Inside(|g.mem|, a)
              && WriteRange(g, field, data).guest == g.(mem := PokeAll(g.mem, a, data))
  {
    hide GuestAddresses, BufferAt, Coalesce, Flatten, WriteExtents, PokeAll;
    var a := GuestAddresses(g, field, |data|).value;
    CoalesceIsExact(a);
    WrittenInside(g, Coalesce(a), data);
    WriteExtentsPokes(g, Coalesce(a), data);
    BufferIs(g, field, a);
  }

  // And a buffer that is there can be read and written.
  lemma BufferReads(g: Guest, field: addr24, a: seq<int>)
    requires g.Valid() && !g.faulted && a != [] && BufferAt(g, field, a)
    ensures Inside(|g.mem|, a) && ReadRange(g, field, |a|) == Transfer(true, g, Gather(g.mem, a))
  {
    hide GuestAddresses, BufferAt;
    BufferIs(g, field, a);
    UsableRead(g, field, |a|);
  }

  lemma BufferWrites(g: Guest, field: addr24, a: seq<int>, data: seq<byte>)
    requires g.Valid() && !g.faulted && a != [] && |a| == |data| && BufferAt(g, field, a)
    ensures Inside(|g.mem|, a) && WriteRange(g, field, data) == Transfer(true, g.(mem := PokeAll(g.mem, a, data)), data)
  {
    hide GuestAddresses, BufferAt;
    BufferIs(g, field, a);
    UsableWrite(g, field, data);
  }
}
