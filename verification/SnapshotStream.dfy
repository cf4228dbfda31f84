// The checkpoint's writer and reader in place: one appends to the stream, the
// other advances through it, and the machine definition goes through both.
module SnapshotStreams {
  import opened Bytes
  import opened SnapshotCodec
  import S = Snapshots

  class Writer {
    var out: seq<byte>
    // What the calls so far have written.
    ghost var values: seq<Value>

    ghost predicate Valid()
      reads this
    {
      out == EncodeAll(values)
    }

    constructor ()
      ensures Valid() && values == []
    {
      out, values := [], [];
    }

    ghost method Record(v: Value)
      requires out == EncodeAll(values) + Encode(v)
      modifies this`values
      ensures Valid() && values == old(values) + [v]
    {
      EncodeAppend(values, [v]);
      S.OneValue(v);
      values := values + [v];
    }

    method U8(b: byte)
      requires Valid()
      modifies this
      ensures Valid() && values == old(values) + [Byte(b)]
    {
      out := out + [b];
      Record(Byte(b));
    }

    method Boolean(f: bool)
      requires Valid()
      modifies this
      ensures Valid() && values == old(values) + [Flag(f)]
    {
      out := out + [if f then 1 else 0];
      Record(Flag(f));
    }

    method Integer(i: i32)
      requires Valid()
      modifies this
      ensures Valid() && values == old(values) + [Int(i)]
    {
      var u := if i < 0 then i + 0x1_0000_0000 else i;
      var b: seq<byte> := [u % 0x100, u / 0x100 % 0x100, u / 0x1_0000 % 0x100, u / 0x100_0000 % 0x100];
      FourBytes(u, b);
      out := out + b;
      Record(Int(i));
    }

    // The low seven bits first, the high bit saying more follows.
    method DotnetString(s: seq<byte>)
      modifies this`out
      ensures out == old(out) + (Length7(|s|) + s)
    {
      var n: int := |s|;
      ghost var whole := out + Length7(|s|);
      while true
        invariant n >= 0 && out + Length7(n) == whole
        decreases n
      {
        var b, more := n % 0x80, n / 0x80;
        if more == 0 {
          out := out + [b];
          break;
        }
        out := out + [b + 0x80];
        n := more;
      }
      out := out + s;
      assert out == old(out) + (Length7(|s|) + s);
    }

    method String(s: seq<byte>)
      requires Valid()
      modifies this
      ensures Valid() && values == old(values) + [Text(s)]
    {
      hide Length7, EncodeAll;
      ghost var before := out;
      out := out + [1];
      DotnetString(s);
      assert out == before + ([1] + (Length7(|s|) + s));
      assert Encode(Text(s)) == [1] + (Length7(|s|) + s);
      Record(Text(s));
    }

    method Definition(x: S.Definition)
      requires Valid()
      modifies this
      ensures Valid() && values == old(values) + S.WriteDefinition(x)
    {
      hide EncodeAll, Encode;
      String(x.model);
      String(x.cspType);
      Integer(x.taskWorkAreaSectors);
      String(x.hostModel);
      Integer(x.hostProcessorFeature);
      String(x.hostProcessorModel);
      String(x.iplType);
      String(x.iplSourceName);
    }

    method Switches(x: S.Switches)
      requires Valid()
      modifies this
      ensures Valid() && values == old(values) + S.WriteSwitches(x)
    {
      hide EncodeAll, Encode;
      SignOnSwitches(x);
      Integer(x.consoleSignOnRouterKey);
      Boolean(x.wsInteractive);
      Boolean(x.volumeReadOnly);
      Boolean(x.disketteReadOnly);
    }

    method SignOnSwitches(x: S.Switches)
      requires Valid()
      modifies this
      ensures Valid()
      ensures values == old(values) + [Flag(x.listenerAutoSignOn), Flag(x.consoleSignOnUseRouter),
                                       Flag(x.consoleSignOnStatement), Flag(x.consoleSignOnRequest)]
    {
      hide EncodeAll, Encode;
      Boolean(x.listenerAutoSignOn);
      Boolean(x.consoleSignOnUseRouter);
      Boolean(x.consoleSignOnStatement);
      Boolean(x.consoleSignOnRequest);
    }

    method Station(x: S.StationConfig)
      requires Valid()
      modifies this
      ensures Valid() && values == old(values) + S.WriteStationConfig(x)
    {
      hide EncodeAll, Encode;
      Integer(x.port);
      Integer(x.address);
      String(x.role);
      String(x.deviceCode);
      Boolean(x.deviceCodeGiven);
      String(x.listenHost);
      Integer(x.listenPort);
      Boolean(x.signOnAtIpl);
      String(x.printerOutput);
      String(x.printerOutputPath);
      String(x.printerPaper);
    }

    method WriteConfig(c: S.Config)
      requires Valid() && |c.stations| < 0x8000_0000
      modifies this
      ensures Valid() && values == old(values) + S.WriteConfig(c)
    {
      hide EncodeAll, Encode, S.WriteDefinition, S.WriteSwitches, S.WriteStationConfig;
      Definition(c.definition);
      Switches(c.switches);
      Boolean(c.tapeReadOnly.Some?);
      if c.tapeReadOnly.Some? {
        Boolean(c.tapeReadOnly.value);
      }
      ghost var d, w, t := S.WriteDefinition(c.definition), S.WriteSwitches(c.switches), S.WriteTape(c.tapeReadOnly);
      assert values == old(values) + d + w + t;
      Integer(|c.stations|);
      ghost var head := values;
      for i := 0 to |c.stations|
        invariant Valid() && values + S.WriteList(S.STATION_CONFIG, c.stations[i..])
                  == head + S.WriteList(S.STATION_CONFIG, c.stations)
      {
        assert c.stations[i..][1..] == c.stations[i + 1..];
        Station(c.stations[i]);
      }
      assert head + S.WriteList(S.STATION_CONFIG, c.stations) == old(values) + S.WriteConfig(c) by {
        Regroup(old(values), d, w, t, [Int(|c.stations|)], S.WriteList(S.STATION_CONFIG, c.stations));
      }
    }
  }

  lemma Regroup(a: seq<Value>, b: seq<Value>, c: seq<Value>, d: seq<Value>, e: seq<Value>, f: seq<Value>)
    ensures a + b + c + d + e + f == a + (b + (c + (d + (e + f))))
  {
  }

  lemma FourBytes(u: nat, b: seq<byte>)
    requires u < 0x1_0000_0000
    requires b == [u % 0x100, u / 0x100 % 0x100, u / 0x1_0000 % 0x100, u / 0x100_0000 % 0x100]
    ensures b == LittleEndian(u, 4)
  {
    var u1 := u / 0x100;
    var u2 := u1 / 0x100;
    var u3 := u2 / 0x100;
    assert u2 == u / 0x1_0000 && u3 == u / 0x100_0000;
    assert LittleEndian(u3, 1) == [u3 % 0x100] + LittleEndian(u3 / 0x100, 0);
    assert LittleEndian(u2, 2) == [u2 % 0x100] + LittleEndian(u3, 1);
    assert LittleEndian(u1, 3) == [u1 % 0x100] + LittleEndian(u2, 2);
    assert LittleEndian(u, 4) == [u % 0x100] + LittleEndian(u1, 3);
  }

  class Reader {
    const input: seq<byte>
    var at: nat

    ghost predicate Valid()
      reads this
    {
      at <= |input|
    }

    ghost function Rest(): seq<byte>
      requires Valid()
      reads this
    {
      input[at..]
    }

    constructor (input: seq<byte>)
      ensures Valid() && this.input == input && Rest() == input
    {
      this.input, at := input, 0;
    }

    method Raw(n: nat) returns (r: Option<seq<byte>>)
      requires Valid()
      modifies this
      ensures Valid()
      ensures r == if |old(Rest())| < n then None else Some(old(Rest())[..n])
      ensures Rest() == if r.Some? then old(Rest())[n..] else old(Rest())
    {
      if |input| - at < n {
        return None;
      }
      assert input[at..at + n] == input[at..][..n] && input[at + n..] == input[at..][n..];
      r := Some(input[at..at + n]);
      at := at + n;
    }

    method U8() returns (r: Option<byte>)
      requires Valid()
      modifies this
      ensures Valid()
      ensures r == if old(Rest()) == [] then None else Some(old(Rest())[0])
      ensures Rest() == if r.Some? then old(Rest())[1..] else old(Rest())
    {
      var b := Raw(1);
      return if b == None then None else Some(b.value[0]);
    }

    method Boolean() returns (r: Option<bool>)
      requires Valid()
      modifies this
      ensures Valid()
      ensures match Take(FLAG, old(Rest()))
              case None => r == None
              case Some(g) => r == Some(g.value.f) && Rest() == g.rest
    {
      var b := U8();
      return if b == None then None else Some(b.value != 0);
    }

    method Integer() returns (r: Option<i32>)
      requires Valid()
      modifies this
      ensures Valid()
      ensures match TakeInt(old(Rest()))
              case None => r == None
              case Some(g) => r == Some(g.value) && Rest() == g.rest
    {
      hide FromLittleEndian;
      var b := Raw(4);
      if b == None {
        return None;
      }
      var u := Four(b.value);
      FourRead(b.value);
      return Some(IntOf(u));
    }

    // At most six groups; then the bound, then the bytes.
    method DotnetString() returns (r: Option<seq<byte>>)
      requires Valid()
      modifies this
      ensures Valid()
      ensures match TakeLength7(old(Rest()), 0)
              case None => r == None
              case Some(g) =>
                if g.value > MAX_TEXT || |g.rest| < g.value then r == None
                else r == Some(g.rest[..g.value]) && Rest() == g.rest[g.value..]
    {
      var length := Length();
      if length == None || length.value > MAX_TEXT {
        return None;
      }
      r := Raw(length.value);
    }

    method Length() returns (r: Option<nat>)
      requires Valid()
      modifies this
      ensures Valid()
      ensures match TakeLength7(old(Rest()), 0)
              case None => r == None
              case Some(g) => r == Some(g.value) && Rest() == g.rest
    {
      hide TakeLength7;
      var n, unit, group := 0, 1, 0;
      ghost var whole := TakeLength7(Rest(), 0);
      while true
        invariant Valid() && 0 <= group <= 5 && unit > 0
        invariant whole.Some? <==> TakeLength7(Rest(), group).Some?
        invariant whole.Some? ==>
                    && whole.value.rest == TakeLength7(Rest(), group).value.rest
                    && whole.value.value == n + unit * TakeLength7(Rest(), group).value.value
        decreases 5 - group
      {
        LengthGroup(Rest(), group);
        var b := U8();
        if b == None {
          return None;
        }
        if b.value < 0x80 {
          return Some(n + unit * b.value);
        }
        if group >= 5 {
          return None;
        }
        if whole.Some? {
          Distribute(unit, b.value - 0x80, TakeLength7(Rest(), group + 1).value.value);
        }
        n := n + unit * (b.value - 0x80);
        unit, group := unit * 0x80, group + 1;
      }
    }

    method String() returns (r: Option<seq<byte>>)
      requires Valid()
      modifies this
      ensures Valid()
      ensures match TakeText(old(Rest()))
              case None => r == None
              case Some(g) => r == Some(g.value) && Rest() == g.rest
    {
      var present := Boolean();
      if present == None {
        return None;
      }
      if !present.value {
        return Some([]);
      }
      r := DotnetString();
    }

    method Count(max: nat) returns (r: Option<nat>)
      requires Valid()
      modifies this
      ensures Valid()
      ensures match TakeCount(old(Rest()), max)
              case None => r == None
              case Some(g) => r == Some(g.value) && Rest() == g.rest
    {
      var n := Integer();
      return if n == None || n.value < 0 || n.value > max then None else Some(n.value as nat);
    }

    // A counted list of integers.
    method Ints() returns (r: Option<seq<i32>>)
      requires Valid()
      modifies this
      ensures Valid()
      ensures match Take(INTS, old(Rest()))
              case None => r == None
              case Some(g) => r == Some(g.value.list) && Rest() == g.rest
    {
      hide TakeInt;
      var n := Count(MAX_COUNT);
      if n == None {
        return None;
      }
      var list: seq<i32> := [];
      ghost var whole := TakeInts(Rest(), n.value);
      for i := 0 to n.value
        invariant Valid() && |list| == i
        invariant whole.Some? <==> TakeInts(Rest(), n.value - i).Some?
        invariant whole.Some? ==>
                    && whole.value.value == list + TakeInts(Rest(), n.value - i).value.value
                    && whole.value.rest == TakeInts(Rest(), n.value - i).value.rest
      {
        var x := Integer();
        if x == None {
          return None;
        }
        list := list + [x.value];
      }
      assert TakeInts(Rest(), 0) == Some(Got([], Rest()));
      assert list + [] == list;
      return Some(list);
    }
  }

  // One group of a 7-bit length.
  lemma LengthGroup(s: seq<byte>, group: nat)
    ensures s == [] ==> TakeLength7(s, group) == None
    ensures s != [] && s[0] < 0x80 ==> TakeLength7(s, group) == Some(Got(s[0] as nat, s[1..]))
    ensures s != [] && s[0] >= 0x80 && group >= 5 ==> TakeLength7(s, group) == None
    ensures s != [] && s[0] >= 0x80 && group < 5 ==>
              var next := TakeLength7(s[1..], group + 1);
              && (TakeLength7(s, group).Some? <==> next.Some?)
              && (next.Some? ==>
                    && TakeLength7(s, group).value.value == s[0] - 0x80 + 0x80 * next.value.value
                    && TakeLength7(s, group).value.rest == next.value.rest)
  {
  }

  lemma Distribute(unit: nat, low: nat, high: nat)
    ensures unit * (low + 0x80 * high) == unit * low + unit * 0x80 * high
  {
  }

  function Four(b: seq<byte>): nat
    requires |b| == 4
  {
    (b[0] as int) + 0x100 * (b[1] as int) + 0x1_0000 * (b[2] as int) + 0x100_0000 * (b[3] as int)
  }

  lemma FourRead(b: seq<byte>)
    requires |b| == 4
    ensures FromLittleEndian(b) == Four(b) < 0x1_0000_0000
  {
    var b1, b2, b3 := b[1..], b[2..], b[3..];
    assert b1[1..] == b2 && b2[1..] == b3 && b3[1..] == [];
    assert FromLittleEndian(b3) == b3[0];
    assert FromLittleEndian(b2) == b2[0] + 0x100 * FromLittleEndian(b3);
    assert FromLittleEndian(b1) == b1[0] + 0x100 * FromLittleEndian(b2);
  }
}
