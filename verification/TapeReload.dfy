// Command 13/00, the reload of an initial program: every block of the file,
// joined end to end, lands so that its last byte is just below the work area
// the block names.
module TapeReloads {
  import opened Bytes
  import opened GuestStorage
  import opened TapeMedium
  import opened TapeCommands
  import opened TapeSessions
  import opened StandardVolumes
  import opened TapeExports

  ghost function Joined(blocks: seq<seq<byte>>): (r: seq<byte>)
    ensures |r| == Total(blocks)
  {
    if blocks == [] then [] else blocks[0] + Joined(blocks[1..])
  }

  // Good blocks under the head, and the mark that ends their file.
  ghost predicate FileAhead(t: Tape, blocks: seq<seq<byte>>) {
    && t.cursor + |blocks| < |t.items| && t.items[t.cursor + |blocks|] == Mark
    && forall i | t.cursor <= i < t.cursor + |blocks| ::
         t.items[i] == Good(blocks[i - t.cursor]) && blocks[i - t.cursor] != []
  }

  lemma {:induction false} FileScanned(t: Tape, blocks: seq<seq<byte>>)
    requires t.Valid() && t.loaded && FileAhead(t, blocks)
    ensures ScanFile(t) == FileScan(blocks, TapeMark, t.(cursor := t.cursor + |blocks| + 1))
    decreases |blocks|
  {
    if blocks != [] {
      assert t.items[t.cursor] == Good(blocks[0]);
      FileScanned(t.(cursor := t.cursor + 1), blocks[1..]);
      assert blocks == [blocks[0]] + blocks[1..];
    }
  }

  // ---- buffers side by side -----------------------------------------------------

  // A stretch of addresses that does not run across bit 800000.
  ghost predicate OneSide(field: addr24, length: nat) {
    field % 0x80_0000 + length <= 0x80_0000
  }

  lemma LandsFurther(g: Guest, field: addr24, n: nat, i: nat, r: int)
    requires g.Valid() && field + n < 0x100_0000 && field % 0x80_0000 + n < 0x80_0000
    ensures Lands(g, field + n, i, r) <==> Lands(g, field, n + i, r)
  {
    assert (field + n >= 0x80_0000) == (field >= 0x80_0000);
    Wraps(field, n, i);
  }

  lemma Wraps(field: nat, n: nat, i: nat)
    ensures ((field + n) % 0x1_0000 + i) % 0x1_0000 == (field % 0x1_0000 + n + i) % 0x1_0000
  {
    var q := field / 0x1_0000;
    var p := (field + n) / 0x1_0000;
    assert (field + n) % 0x1_0000 + i == field % 0x1_0000 + n + i + (q - p) * 0x1_0000;
  }

  lemma BufferJoins(g: Guest, field: addr24, a: seq<int>, b: seq<int>)
    requires g.Valid() && b != [] && OneSide(field, |a| + |b|)
    ensures BufferAt(g, field, a + b) <==> BufferAt(g, field, a) && BufferAt(g, field + |a|, b)
  {
    hide Lands;
    forall i | 0 <= i < |b|
      ensures Lands(g, field + |a|, i, b[i]) <==> Lands(g, field, |a| + i, b[i])
    {
      LandsFurther(g, field, |a|, i, b[i]);
    }
    var all := a + b;
    if BufferAt(g, field, all) {
      forall i | 0 <= i < |a|
        ensures Lands(g, field, i, a[i])
      {
        assert Lands(g, field, i, all[i]);
      }
      forall i | 0 <= i < |b|
        ensures Lands(g, field + |a|, i, b[i])
      {
        assert Lands(g, field, |a| + i, all[|a| + i]);
      }
    }
  }

  lemma SameLands(g: Guest, h: Guest, field: addr24, a: seq<int>)
    requires g.Valid() && h.Valid() && h.atr == g.atr && |h.mem| == |g.mem|
    ensures BufferAt(h, field, a) <==> BufferAt(g, field, a)
  {
    forall i | 0 <= i < |a|
      ensures Lands(h, field, i, a[i]) <==> Lands(g, field, i, a[i])
    {
    }
  }

  lemma {:induction false} PokesJoin(mem: seq<byte>, a: seq<int>, x: seq<byte>, b: seq<int>, y: seq<byte>)
    requires |a| == |x| && |b| == |y| && Inside(|mem|, a) && Inside(|mem|, b)
    ensures Inside(|mem|, a + b)
    ensures PokeAll(mem, a + b, x + y) == PokeAll(PokeAll(mem, a, x), b, y)
    decreases |b|
  {
    if b == [] {
      assert a + b == a && x + y == x;
    } else {
      var n := |b| - 1;
      PokesJoin(mem, a, x, b[..n], y[..n]);
      assert (a + b)[..|a| + n] == a + b[..n] && (x + y)[..|a| + n] == x + y[..n];
      hide PokeAll;
      PokeStep(mem, a + b, x + y);
      PokeStep(PokeAll(mem, a, x), b, y);
    }
  }

  // ---- the copy --------------------------------------------------------------------

  ghost predicate NoneEmpty(blocks: seq<seq<byte>>) {
    forall i | 0 <= i < |blocks| :: blocks[i] != []
  }

  // The copy of a file into a stretch that is there is one store of the
  // joined blocks.
  lemma {:induction false} StretchStored(g: Guest, at: addr24, blocks: seq<seq<byte>>, a: seq<int>)
    requires g.Valid() && NoneEmpty(blocks) && OneSide(at, Total(blocks)) && at + Total(blocks) <= 0xFF_FFFF
    requires !g.faulted && |a| == Total(blocks) && BufferAt(g, at, a) && Inside(|g.mem|, a)
    ensures StoreBlocks(g, at, blocks) == (true, g.(mem := PokeAll(g.mem, a, Joined(blocks))))
    decreases |blocks|
  {
    hide BufferAt, WriteRange, PokeAll;
    if blocks == [] {
      assert Joined(blocks) == [] && a == [];
      PokeNone(g.mem);
    } else {
      var n := |blocks[0]|;
      if |blocks| > 1 {
        MoreIsMore(blocks);
      }
      var first, rest := a[..n], a[n..];
      assert a == first + rest;
      if rest == [] {
        assert first == a;
      } else {
        BufferJoins(g, at, first, rest);
      }
      BufferWrites(g, at, first, blocks[0]);
      var h := WriteRange(g, at, blocks[0]).guest;
      if rest == [] {
        assert BufferAt(h, at + n, rest) by {
          NoBytes(h, at + n);
        }
      } else {
        SameLands(g, h, at + n, rest);
      }
      StretchStored(h, at + n, blocks[1..], rest);
      PokesJoin(g.mem, first, blocks[0], rest, Joined(blocks[1..]));
    }
  }

  lemma MoreIsMore(blocks: seq<seq<byte>>)
    requires |blocks| > 1 && NoneEmpty(blocks)
    ensures Total(blocks) > |blocks[0]|
  {
    assert blocks[1..][0] == blocks[1];
  }

  lemma NoBytes(g: Guest, at: addr24)
    requires g.Valid()
    ensures BufferAt(g, at, [])
  {
  }

  // And a copy that succeeds found the whole stretch there.
  lemma {:induction false} StretchThere(g: Guest, at: addr24, blocks: seq<seq<byte>>) returns (a: seq<int>)
    requires g.Valid() && NoneEmpty(blocks) && OneSide(at, Total(blocks)) && at + Total(blocks) <= 0xFF_FFFF
    requires StoreBlocks(g, at, blocks).0 && blocks != []
    ensures !g.faulted && |a| == Total(blocks) && BufferAt(g, at, a) && Inside(|g.mem|, a)
    decreases |blocks|
  {
    hide BufferAt, WriteRange, PokeAll;
    var n := |blocks[0]|;
    WriteIsBuffer(g, at, blocks[0]);
    var first: seq<int> :| |first| == n && BufferAt(g, at, first) && Inside(|g.mem|, first)
                           && WriteRange(g, at, blocks[0]).guest == g.(mem := PokeAll(g.mem, first, blocks[0]));
    a := first;
    if blocks[1..] != [] {
      var h := WriteRange(g, at, blocks[0]).guest;
      var rest := StretchThere(h, at + n, blocks[1..]);
      SameLands(g, h, at + n, rest);
      BufferJoins(g, at, first, rest);
      a := first + rest;
    }
  }

  // ---- the command --------------------------------------------------------------------

  // The state the reload runs in: the two labels of the data set retained, its
  // file under the head, and the work area named.
  ghost predicate ReloadAsked(d: Drive, c: Call, blocks: seq<seq<byte>>) {
    && d.tape.Valid() && d.tape.loaded && |d.active| == 160 && !d.reload && FileAhead(d.tape, blocks)
    && Asks(c, 0x13, 0) && BlockLength(c) == 0x370
  }

  ghost function WorkArea(c: Call): addr24
    requires c.Valid()
  {
    Number(c.guest.mem, c.iob + 13)
  }

  // The blocks, joined, end just below the work area, on its side of bit
  // 800000.
  ghost predicate StretchBelow(c: Call, length: nat, a: seq<int>)
    requires c.Valid()
  {
    && 0 < length <= WorkArea(c) % 0x80_0000 && |a| == length
    && BufferAt(c.guest, WorkArea(c) - length, a) && Inside(|c.guest.mem|, a)
  }

  lemma ReloadDispatched(d: Drive, c: Call, blocks: seq<seq<byte>>)
    requires ReloadAsked(d, c, blocks)
    ensures Issue(d, c)
         == LayBelow(World(d.(tape := d.tape.(cursor := d.tape.cursor + |blocks| + 1),
                              lastRead := LastOr(blocks, d.lastRead)), c.guest), c.iob, WorkArea(c), blocks)
  {
    hide LayBelow, Refuse, AnswerNotReady, ScanFile, WriteRange, Number, FindDataSet, ReadData, WriteData,
         InitializeStandard, WriteHeaderLabels, FinishDataSet, FinalizeVolume, FinishReadDataSet;
    FieldsInStorage(c);
    BlockFields(c);
    FileScanned(d.tape, blocks);
  }

  // The reload completes exactly when there is something to load, room for it
  // below the work area, and storage behind all of it.
  lemma ReloadPostsIff(d: Drive, c: Call, blocks: seq<seq<byte>>)
    requires ReloadAsked(d, c, blocks)
    ensures Posts(d, c, 0x13, 0)
       <==> !c.guest.faulted && exists a: seq<int> :: StretchBelow(c, Total(blocks), a)
  {
    hide Issue, LayBelow, BufferAt, StoreBlocks, Asks, BlockLength, Inside;
    ReloadDispatched(d, c, blocks);
    AheadNoneEmpty(d.tape, blocks);
    assert c.Valid() && Command(c) == 0x13 by {
      AskedCommand(c);
    }
    LayPosts(World(d.(tape := d.tape.(cursor := d.tape.cursor + |blocks| + 1), lastRead := LastOr(blocks, d.lastRead)),
                   c.guest), c.iob, WorkArea(c), blocks);
    var total := Total(blocks);
    if 0 < total <= WorkArea(c) % 0x80_0000 {
      var at := WorkArea(c) - total;
      BelowTheArea(WorkArea(c), total);
      if StoreBlocks(c.guest, at, blocks).0 {
        var a := StretchThere(c.guest, at, blocks);
        assert StretchBelow(c, total, a);
      }
      forall a: seq<int> | !c.guest.faulted && StretchBelow(c, total, a)
        ensures StoreBlocks(c.guest, at, blocks).0
      {
        StretchStored(c.guest, at, blocks, a);
      }
    }
  }

  lemma AskedCommand(c: Call)
    requires Asks(c, 0x13, 0)
    ensures c.Valid() && Command(c) == 0x13
  {
    BlockFields(c);
  }

  lemma AheadNoneEmpty(t: Tape, blocks: seq<seq<byte>>)
    requires FileAhead(t, blocks)
    ensures NoneEmpty(blocks) && t.cursor + |blocks| + 1 <= |t.items|
  {
    forall i | 0 <= i < |blocks|
      ensures blocks[i] != []
    {
      assert t.items[t.cursor + i] == Good(blocks[t.cursor + i - t.cursor]);
    }
  }

  lemma BelowTheArea(area: addr24, total: nat)
    requires 0 < total <= area % 0x80_0000
    ensures area - area % 0x80_0000 + (area % 0x80_0000 - total) == area - total
    ensures OneSide(area - total, total) && area - total + total <= 0xFF_FFFF
  {
    var q := area / 0x80_0000;
    assert area - total == q * 0x80_0000 + (area % 0x80_0000 - total);
    assert (area - total) % 0x80_0000 == area % 0x80_0000 - total;
  }

  lemma LayPosts(w: World, iob: int, field: addr24, blocks: seq<seq<byte>>)
    requires w.Valid() && InRange(|w.guest.mem|, iob, 0x22)
    ensures var total, r := Total(blocks), LayBelow(w, iob, field, blocks);
            && iob + 6 < |r.world.guest.mem|
            && (r.world.guest.mem[iob + 6] == 0x40
                <==> && 0 < total <= field % 0x80_0000
                     && StoreBlocks(w.guest, field - field % 0x80_0000 + (field % 0x80_0000 - total), blocks).0)
  {
    hide Complete, Total;
    var total := Total(blocks);
    if 0 < total <= field % 0x80_0000 {
      StoresKeepSize(w.guest, field - field % 0x80_0000 + (field % 0x80_0000 - total), blocks);
    }
    hide StoreBlocks;
  }

  lemma {:induction false} StoresKeepSize(g: Guest, at: nat, blocks: seq<seq<byte>>)
    requires g.Valid() && at + Total(blocks) <= 0xFF_FFFF
    ensures |StoreBlocks(g, at, blocks).1.mem| == |g.mem|
    decreases |blocks|
  {
    if blocks != [] {
      var t := WriteRange(g, at, blocks[0]);
      if t.ok {
        StoresKeepSize(t.guest, at + |blocks[0]|, blocks[1..]);
      }
    }
  }

  // What it leaves: the joined blocks in that stretch, 40 and a returned
  // length of 0 in the block, and no other byte outside the block changed.
  ghost predicate Reloaded(before: seq<byte>, mem: seq<byte>, iob: int, a: seq<int>, data: seq<byte>) {
    && |mem| == |before| && InRange(|mem|, iob, 0x22) && Inside(|mem|, a) && |a| == |data|
    && mem[iob + 6] == 0x40 && mem[iob + 18] == 0 && mem[iob + 19] == 0
    && (forall k | 0 <= k < |a| && LastUse(a, k) :: mem[a[k]] == data[k])
    && forall x | 0 <= x < |mem| && Untouched(a, x) && !(iob <= x < iob + 0x22) :: mem[x] == before[x]
  }

  // The head is then past the file's mark, and the next 13/00 finds the reload
  // done.
  lemma ReloadLands(d: Drive, c: Call, blocks: seq<seq<byte>>, a: seq<int>)
    requires ReloadAsked(d, c, blocks) && !c.guest.faulted && StretchBelow(c, Total(blocks), a)
    requires forall i | 0 <= i < |a| :: !(c.iob <= a[i] < c.iob + 0x22)
    ensures Reloaded(c.guest.mem, Issue(d, c).world.guest.mem, c.iob, a, Joined(blocks))
    ensures var r := Issue(d, c).world.drive;
            && r.tape == d.tape.(cursor := d.tape.cursor + |blocks| + 1) && r.active == d.active && r.reload
  {
    hide Issue, LayBelow, BufferAt, StoreBlocks, Asks, BlockLength, FileAhead, Joined, PokeAll, LastOr, Reloaded,
         WorkArea, Complete, WriteHalf;
    ReloadDispatched(d, c, blocks);
    AheadNoneEmpty(d.tape, blocks);
    assert c.Valid() by {
      AskedCommand(c);
    }
    BelowTheArea(WorkArea(c), Total(blocks));
    StretchStored(c.guest, WorkArea(c) - Total(blocks), blocks, a);
    var after := d.(tape := d.tape.(cursor := d.tape.cursor + |blocks| + 1), lastRead := LastOr(blocks, d.lastRead));
    Laid(World(after, c.guest), c.iob, WorkArea(c), blocks, c.guest.(mem := PokeAll(c.guest.mem, a, Joined(blocks))));
    Settled(c.guest, c.iob, a, Joined(blocks));
  }

  lemma Laid(w: World, iob: int, field: addr24, blocks: seq<seq<byte>>, g: Guest)
    requires w.Valid() && 0 < Total(blocks) <= field % 0x80_0000 && g.Valid()
    requires field - field % 0x80_0000 + (field % 0x80_0000 - Total(blocks)) == field - Total(blocks)
    requires StoreBlocks(w.guest, field - Total(blocks), blocks) == (true, g)
    ensures LayBelow(w, iob, field, blocks).world
         == World(w.drive.(reload := true), Complete(WriteHalf(g, iob + 18, 0), iob, 0))
  {
    hide Complete, Total, StoreBlocks;
  }

  lemma Settled(g: Guest, iob: int, a: seq<int>, data: seq<byte>)
    requires InRange(|g.mem|, iob, 0x22) && |a| == |data| && Inside(|g.mem|, a)
    requires forall i | 0 <= i < |a| :: !(iob <= a[i] < iob + 0x22)
    ensures Reloaded(g.mem, Complete(WriteHalf(g.(mem := PokeAll(g.mem, a, data)), iob + 18, 0), iob, 0).mem, iob, a,
                     data)
  {
    PokeAllBytes(g.mem, a, data);
    hide PokeAll;
    InTheBlock(g.(mem := PokeAll(g.mem, a, data)), iob);
  }

  // The returned length and the completion stay in the block.
  lemma InTheBlock(g: Guest, iob: int)
    requires InRange(|g.mem|, iob, 0x22)
    ensures var h := Complete(WriteHalf(g, iob + 18, 0), iob, 0);
            && |h.mem| == |g.mem| && h.mem[iob + 6] == 0x40 && h.mem[iob + 18] == 0 && h.mem[iob + 19] == 0
            && forall x | 0 <= x < |g.mem| && !(iob <= x < iob + 0x22) :: h.mem[x] == g.mem[x]
  {
  }
}
