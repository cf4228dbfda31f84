// The device controller's own reading of a guest buffer: every byte resolved
// separately at issue time, next to the coalesced form in `MachineStates`.
module BufferCapture {
  import opened Bytes
  import opened GuestStorage
  import opened MachineStates

  // A device-path address is real unless bit 0x800000 is on; then its low 16
  // bits go through task group 0.
  function ResolveGuest24(g: Guest, field: int): Option<int>
    requires g.Valid()
  {
    if field / 0x80_0000 % 2 == 0 then Some(field % 0x80_0000)
    else Translate(g.atr, TASK_GROUP_0, field % 0x1_0000)
  }

  // The field naming byte n of a buffer: a translated address wraps inside 16
  // bits, a real one simply counts on.
  function FieldAt(field: addr24, n: nat): int {
    if field >= TRANSLATED_BIT then TRANSLATED_BIT + LogicalAt(field % 0x1_0000, n) else field + n
  }

  predicate Captured(g: Guest, field: addr24, n: nat)
    requires g.Valid()
  {
    var r := ResolveGuest24(g, FieldAt(field, n));
    r.Some? && r.value < |g.mem|
  }

  ghost function CaptureAddresses(g: Guest, field: addr24, length: int): (r: Option<seq<int>>)
    requires g.Valid()
  {
    if length < 0 || exists n: nat | n < length :: !Captured(g, field, n) then None
    else
      Some(seq(length, n requires 0 <= n < length =>
        assert Captured(g, field, n); ResolveGuest24(g, FieldAt(field, n)).value))
  }

  // The capture reads the registers and the size of storage, nothing else.
  lemma SameCapture(g: Guest, h: Guest, field: addr24, length: int)
    requires g.Valid() && h.Valid() && h.atr == g.atr && |h.mem| == |g.mem|
    ensures CaptureAddresses(h, field, length) == CaptureAddresses(g, field, length)
  {
    forall n: nat
      ensures Captured(h, field, n) == Captured(g, field, n)
    {
    }
    var a, b := CaptureAddresses(g, field, length), CaptureAddresses(h, field, length);
    if length < 0 || exists n: nat | n < length :: !Captured(g, field, n) {
      assert a == None && b == None;
    } else {
      assert a.Some? && b.Some? && a.value == b.value;
    }
  }

  // Byte n of a captured buffer, in the registers' terms: a translated field
  // wraps inside 16 bits, a real one counts on, and wherever bit 800000 comes
  // out on the byte goes through registers 64 to 95.
  ghost function CountedTo(field: addr24, n: nat): nat {
    if field >= 0x80_0000 then 0x80_0000 + (field % 0x1_0000 + n) % 0x1_0000 else field + n
  }

  ghost predicate Reachable(g: Guest, field: addr24, n: nat)
    requires g.Valid()
  {
    var y := CountedTo(field, n);
    if y / 0x80_0000 % 2 == 0 then y % 0x80_0000 < |g.mem|
    else Unprotected(g.atr, 64, y % 0x1_0000, 0) && g.atr[64 + y % 0x1_0000 / 0x800] * 0x800 + y % 0x800 < |g.mem|
  }

  ghost predicate CapturedAt(g: Guest, field: addr24, n: nat, r: int)
    requires g.Valid()
  {
    var y := CountedTo(field, n);
    if y / 0x80_0000 % 2 == 0 then r == y % 0x80_0000 else MappedTo(g.atr, 64, y % 0x1_0000, 0, r)
  }

  lemma CapturedLies(g: Guest, field: addr24, n: nat)
    requires g.Valid()
    ensures Captured(g, field, n) <==> Reachable(g, field, n)
    ensures Captured(g, field, n) ==> CapturedAt(g, field, n, ResolveGuest24(g, FieldAt(field, n)).value)
  {
    var y := FieldAt(field, n);
    hide Unprotected, MappedTo;
    assert y == CountedTo(field, n);
    var l: halfword := y % 0x1_0000;
    SamePage(y);
    assert (l + 0) % 0x1_0000 == l;
    AddressIsMapped(g.atr, 64, l, 0);
  }

  lemma SamePage(y: nat)
    ensures y % 0x1_0000 % 0x800 == y % 0x800
  {
    var q := y / 0x1_0000;
    assert y == (q * 32) * 0x800 + y % 0x1_0000;
  }

  method CaptureBuffer(m: MachineState, field: addr24, length: int)
    returns (ok: bool, addresses: seq<int>, boundaries: nat)
    requires m.Valid()
    ensures CaptureAddresses(m.View(), field, length) == if ok then Some(addresses) else None
    ensures ok && field >= TRANSLATED_BIT && length != 0 ==> boundaries == Spans(addresses)
    ensures ok <==> length >= 0 && forall n: nat | n < length :: Reachable(m.View(), field, n)
    ensures ok ==> |addresses| == length && forall n: nat | n < length :: CapturedAt(m.View(), field, n, addresses[n])
  {
    CaptureLies(m.View(), field, length);
    addresses, boundaries := [], 0;
    if length < 0 {
      return false, [], 0;
    }
    hide Spans;
    ghost var g := m.View();
    var captured: seq<int> := [];
    for n := 0 to length
      invariant |captured| == n && m.View() == g
      invariant forall k: nat | k < n ::
                  Captured(g, field, k) && captured[k] == ResolveGuest24(g, FieldAt(field, k)).value
    {
      var at := FieldAt(field, n);
      var r: Option<int>;
      if at / 0x80_0000 % 2 == 0 {
        r := Some(at % 0x80_0000);
      } else {
        r := Translate(m.atr[..], TASK_GROUP_0, at % 0x1_0000);
      }
      if r == None || r.value < 0 || r.value >= m.mainStorage.Length {
        assert !Captured(g, field, n);
        return false, [], 0;
      }
      captured := captured + [r.value];
    }
    addresses := captured;
    assert addresses == CaptureAddresses(g, field, length).value;
    if field >= TRANSLATED_BIT && length != 0 {
      boundaries := CountSpans(addresses);
    }
    return true, addresses, boundaries;
  }

  lemma CaptureLies(g: Guest, field: addr24, length: int)
    requires g.Valid()
    ensures CaptureAddresses(g, field, length).Some?
       <==> length >= 0 && forall n: nat | n < length :: Reachable(g, field, n)
    ensures var a := CaptureAddresses(g, field, length);
            a.Some? ==> |a.value| == length && forall n: nat | n < length :: CapturedAt(g, field, n, a.value[n])
  {
    hide CapturedAt, Reachable;
    forall n: nat
      ensures Captured(g, field, n) <==> Reachable(g, field, n)
      ensures Captured(g, field, n) ==> CapturedAt(g, field, n, ResolveGuest24(g, FieldAt(field, n)).value)
    {
      CapturedLies(g, field, n);
    }
  }

  method CountSpans(addresses: seq<int>) returns (boundaries: nat)
    requires addresses != []
    ensures boundaries == Spans(addresses)
  {
    boundaries := 1;
    for n := 1 to |addresses|
      invariant boundaries == Spans(addresses[..n])
    {
      assert addresses[..n + 1][..n] == addresses[..n];
      if addresses[n] != addresses[n - 1] + 1 {
        boundaries := boundaries + 1;
      }
    }
    assert addresses[..|addresses|] == addresses;
  }

  // A translated buffer is captured exactly when its extents exist and stay
  // inside storage, byte for byte the same addresses, and the span count
  // reported is the number of extents.
  lemma TranslatedCaptureAgrees(g: Guest, field: addr24, length: nat)
    requires g.Valid() && field >= TRANSLATED_BIT
    ensures CaptureAddresses(g, field, length).Some?
       <==> GuestAddresses(g, field, length).Some? && Inside(|g.mem|, GuestAddresses(g, field, length).value)
    ensures CaptureAddresses(g, field, length).Some? ==>
              && CaptureAddresses(g, field, length) == GuestAddresses(g, field, length)
              && Spans(CaptureAddresses(g, field, length).value)
              == |Coalesce(GuestAddresses(g, field, length).value)|
  {
    var logical := field % 0x1_0000;
    forall n: nat
      ensures ResolveGuest24(g, FieldAt(field, n)) == ByteAddress(g.atr, TASK_GROUP_0, logical, n)
    {
      ResolveTranslated(g, field, n);
    }
    var a := GuestAddresses(g, field, length);
    if a.Some? && Inside(|g.mem|, a.value) {
      forall n: nat | n < length
        ensures Captured(g, field, n)
      {
        assert ByteAddress(g.atr, TASK_GROUP_0, logical, n) == Some(a.value[n]);
      }
    }
    if CaptureAddresses(g, field, length).Some? {
      forall i: nat | i < length
        ensures ByteAddress(g.atr, TASK_GROUP_0, logical, i).Some?
      {
        assert Captured(g, field, i);
      }
      assert AllTranslate(g.atr, TASK_GROUP_0, logical, length);
      assert CaptureAddresses(g, field, length).value == a.value;
      SpansCountExtents(a.value);
      forall i | 0 <= i < length
        ensures 0 <= a.value[i] < |g.mem|
      {
        assert Captured(g, field, i);
      }
    }
  }

  lemma ResolveTranslated(g: Guest, field: addr24, n: nat)
    requires g.Valid() && field >= TRANSLATED_BIT
    ensures ResolveGuest24(g, FieldAt(field, n)) == ByteAddress(g.atr, TASK_GROUP_0, field % 0x1_0000, n)
  {
    var l := LogicalAt(field % 0x1_0000, n);
    assert (TRANSLATED_BIT + l) / 0x80_0000 == 1 && (TRANSLATED_BIT + l) % 0x1_0000 == l;
  }

  // A real buffer is a different matter: its per-byte addresses count up into
  // bit 0x800000, where the capture starts to translate while the extents do
  // not.  So for an in-range buffer the two agree under every register file
  // exactly when the buffer ends at or below 0x800000.
  lemma RealCaptureAgreesIff(g: Guest, field: addr24, length: nat)
    requires g.Valid() && field < TRANSLATED_BIT && InRange(|g.mem|, field, length)
    ensures (forall atr: seq<halfword> | |atr| == ATR_COUNT ::
               CaptureAddresses(g.(atr := atr), field, length) == GuestAddresses(g, field, length))
       <==> field + length <= TRANSLATED_BIT
  {
    if field + length <= TRANSLATED_BIT {
      forall atr: seq<halfword> | |atr| == ATR_COUNT
        ensures CaptureAddresses(g.(atr := atr), field, length) == GuestAddresses(g, field, length)
      {
        var h := g.(atr := atr);
        forall n: nat | n < length
          ensures Captured(h, field, n) && ResolveGuest24(h, FieldAt(field, n)) == Some(field + n)
        {
        }
        assert CaptureAddresses(h, field, length).Some?;
        assert CaptureAddresses(h, field, length).value == Range(field, length);
      }
    } else {
      var protect: seq<halfword> := Repeat(0xFFFF, ATR_COUNT);
      var h := g.(atr := protect);
      var n := TRANSLATED_BIT - field;
      assert FieldAt(field, n) == TRANSLATED_BIT && TRANSLATED_BIT / 0x80_0000 % 2 == 1;
      assert !Captured(h, field, n);
      assert CaptureAddresses(g.(atr := protect), field, length) != GuestAddresses(g, field, length);
    }
  }

  // Two bytes across that line, with every page protected: the extents take
  // them and the capture refuses them.
  lemma CaptureRefusesAcross(g: Guest)
    requires |g.mem| > TRANSLATED_BIT && g.atr == Repeat(0xFFFF as halfword, ATR_COUNT)
    ensures GuestAddresses(g, 0x7F_FFFF, 2) == Some([0x7F_FFFF, 0x80_0000])
    ensures CaptureAddresses(g, 0x7F_FFFF, 2) == None
  {
    assert FieldAt(0x7F_FFFF, 1) == TRANSLATED_BIT;
    assert !Captured(g, 0x7F_FFFF, 1);
    assert Range(0x7F_FFFF, 2) == [0x7F_FFFF, 0x80_0000];
  }

  lemma CapturedInside(g: Guest, field: addr24, length: int)
    requires g.Valid()
    ensures var a := CaptureAddresses(g, field, length);
            a.Some? ==> |a.value| == length && Inside(|g.mem|, a.value)
  {
    if CaptureAddresses(g, field, length).Some? {
      forall n: nat | n < length
        ensures 0 <= CaptureAddresses(g, field, length).value[n] < |g.mem|
      {
        assert Captured(g, field, n);
      }
    }
  }
}
