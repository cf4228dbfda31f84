// The pending-request tables: a keyed table whose freed slots are reused, most
// recently freed first, and which is walked in slot order.
module SlotMaps {
  import opened Bytes

  datatype Entry<K, V> = Entry(key: K, value: V, live: bool)

  datatype Slots<K, V> = Slots(entries: seq<Entry<K, V>>, free: seq<nat>)

  // The slot of the first live entry with this key, or the number of slots.
  function Find<K(==), V>(entries: seq<Entry<K, V>>, key: K): (r: nat)
    ensures r <= |entries|
    ensures r < |entries| ==> entries[r].live && entries[r].key == key
    ensures forall i | 0 <= i < r :: !(entries[i].live && entries[i].key == key)
  {
    if entries == [] then 0
    else if entries[0].live && entries[0].key == key then 0
    else 1 + Find(entries[1..], key)
  }

  // Live keys are distinct; the free list is exactly the dead slots, each once.
  ghost predicate Valid<K, V>(s: Slots<K, V>) {
    && Unique(s.entries)
    && (forall i | 0 <= i < |s.free| :: s.free[i] < |s.entries| && !s.entries[s.free[i]].live)
    && (forall i, j | 0 <= i < j < |s.free| :: s.free[i] != s.free[j])
    && (forall i | 0 <= i < |s.entries| :: s.entries[i].live || i in s.free)
  }

  function Set<K(==), V>(s: Slots<K, V>, key: K, value: V): Slots<K, V>
    requires Valid(s)
  {
    var at := Find(s.entries, key);
    if at < |s.entries| then s.(entries := s.entries[at := Entry(s.entries[at].key, value, true)])
    else if s.free != [] then
      var n := |s.free| - 1;
      Slots(s.entries[s.free[n] := Entry(key, value, true)], s.free[..n])
    else s.(entries := s.entries + [Entry(key, value, true)])
  }

  // `blank` is the default value a released slot is left with.
  function Erase<K(==), V>(s: Slots<K, V>, key: K, blank: V): Slots<K, V> {
    var at := Find(s.entries, key);
    if at < |s.entries| then Slots(s.entries[at := Entry(s.entries[at].key, blank, false)], s.free + [at])
    else s
  }

  function Clear<K, V>(): Slots<K, V> {
    Slots([], [])
  }

  // ---- what the table means -----------------------------------------------------

  ghost function Keys<K, V>(entries: seq<Entry<K, V>>): seq<K> {
    if entries == [] then []
    else
      var e := entries[|entries| - 1];
      Keys(entries[..|entries| - 1]) + if e.live then [e.key] else []
  }

  // The finite map the live entries spell.
  ghost function Contents<K, V>(entries: seq<Entry<K, V>>): map<K, V> {
    if entries == [] then map[]
    else
      var e := entries[|entries| - 1];
      if e.live then Contents(entries[..|entries| - 1])[e.key := e.value] else Contents(entries[..|entries| - 1])
  }

  ghost predicate Unique<K, V>(entries: seq<Entry<K, V>>) {
    forall i, j | 0 <= i < j < |entries| :: entries[i].live && entries[j].live ==> entries[i].key != entries[j].key
  }

  // Key k is live in some slot.
  ghost predicate Occurs<K, V>(entries: seq<Entry<K, V>>, k: K) {
    exists i | 0 <= i < |entries| :: entries[i].live && entries[i].key == k
  }

  // The live entries are exactly the pairs of m.
  ghost predicate Spells<K, V>(entries: seq<Entry<K, V>>, m: map<K, V>) {
    && (forall i | 0 <= i < |entries| && entries[i].live ::
          entries[i].key in m && m[entries[i].key] == entries[i].value)
    && (forall k | k in m :: Occurs(entries, k))
  }

  lemma {:induction false} ContentsSpelled<K, V>(entries: seq<Entry<K, V>>)
    requires Unique(entries)
    ensures Spells(entries, Contents(entries))
  {
    if entries != [] {
      var n := |entries| - 1;
      var shorter, m := entries[..n], Contents(entries);
      ContentsSpelled(shorter);
      forall k | k in m
        ensures Occurs(entries, k)
      {
        if !(entries[n].live && entries[n].key == k) {
          assert Occurs(shorter, k);
          var i :| 0 <= i < |shorter| && shorter[i].live && shorter[i].key == k;
          assert entries[i] == shorter[i];
        }
      }
      forall i | 0 <= i < |entries| && entries[i].live
        ensures entries[i].key in m && m[entries[i].key] == entries[i].value
      {
        if i < n {
          assert shorter[i] == entries[i];
        }
      }
    }
  }

  lemma SpellingIsUnique<K, V>(entries: seq<Entry<K, V>>, m: map<K, V>, other: map<K, V>)
    requires Spells(entries, m) && Spells(entries, other)
    ensures m == other
  {
    forall k | k in m
      ensures k in other && m[k] == other[k]
    {
      assert Occurs(entries, k);
    }
    forall k | k in other
      ensures k in m
    {
      assert Occurs(entries, k);
    }
    assert m.Keys == other.Keys;
  }

  // A lookup sees exactly the map.
  lemma FindReads<K, V>(s: Slots<K, V>, key: K)
    requires Valid(s)
    ensures var at, m := Find(s.entries, key), Contents(s.entries);
              (at < |s.entries| <==> key in m) && (at < |s.entries| ==> m[key] == s.entries[at].value)
  {
    ContentsSpelled(s.entries);
    if key in Contents(s.entries) {
      assert Occurs(s.entries, key);
    }
  }

  function Lookup<K(==), V>(s: Slots<K, V>, key: K): Option<V> {
    var at := Find(s.entries, key);
    if at < |s.entries| then Some(s.entries[at].value) else None
  }

  // Which slot Set writes.
  function Slot<K(==), V>(s: Slots<K, V>, key: K): (at: nat)
    requires Valid(s)
  {
    var found := Find(s.entries, key);
    if found < |s.entries| || s.free == [] then found else s.free[|s.free| - 1]
  }

  // One slot is written; every other stays, and the key lives nowhere else.
  lemma SetWrites<K, V>(s: Slots<K, V>, key: K, value: V)
    requires Valid(s)
    ensures var r, slot := Set(s, key, value), Slot(s, key);
              && slot < |r.entries| && r.entries[slot] == Entry(key, value, true)
              && |s.entries| <= |r.entries| && (|r.entries| == |s.entries| || slot == |s.entries| == |r.entries| - 1)
              && (forall i | 0 <= i < |s.entries| && i != slot :: r.entries[i] == s.entries[i])
              && (forall i | 0 <= i < |s.entries| && i != slot :: !(s.entries[i].live && s.entries[i].key == key))
              && (slot < |s.entries| && s.entries[slot].live ==> s.entries[slot].key == key)
  {
    var at := Find(s.entries, key);
    if at == |s.entries| {
    } else {
      assert s.entries[at].live && s.entries[at].key == key;
    }
  }

  lemma SetSpells<K, V>(s: Slots<K, V>, key: K, value: V, m: map<K, V>)
    requires Valid(s) && Spells(s.entries, m)
    ensures Spells(Set(s, key, value).entries, m[key := value])
  {
    hide Set, Slot, Find;
    var r, slot := Set(s, key, value), Slot(s, key);
    SetWrites(s, key, value);
    forall k | k in m[key := value]
      ensures Occurs(r.entries, k)
    {
      if k == key {
        assert r.entries[slot].live;
      } else {
        assert Occurs(s.entries, k);
        var i :| 0 <= i < |s.entries| && s.entries[i].live && s.entries[i].key == k;
        assert r.entries[i] == s.entries[i];
      }
    }
    forall i | 0 <= i < |r.entries| && r.entries[i].live
      ensures r.entries[i].key in m[key := value] && m[key := value][r.entries[i].key] == r.entries[i].value
    {
      if i != slot {
        assert r.entries[i] == s.entries[i];
      }
    }
  }

  lemma SetRefines<K, V>(s: Slots<K, V>, key: K, value: V)
    requires Valid(s)
    ensures var r := Set(s, key, value); Valid(r) && Contents(r.entries) == Contents(s.entries)[key := value]
  {
    hide Set, Contents, Spells;
    var r := Set(s, key, value);
    SetValid(s, key, value);
    ContentsSpelled(s.entries);
    SetSpells(s, key, value, Contents(s.entries));
    ContentsSpelled(r.entries);
    SpellingIsUnique(r.entries, Contents(r.entries), Contents(s.entries)[key := value]);
  }

  lemma SetValid<K, V>(s: Slots<K, V>, key: K, value: V)
    requires Valid(s)
    ensures Valid(Set(s, key, value))
  {
    var at := Find(s.entries, key);
    if at == |s.entries| && s.free != [] {
      ReuseValid(s, key, value);
    }
  }

  lemma ReuseValid<K, V>(s: Slots<K, V>, key: K, value: V)
    requires Valid(s) && s.free != []
    requires forall i | 0 <= i < |s.entries| :: !(s.entries[i].live && s.entries[i].key == key)
    ensures var n := |s.free| - 1;
            Valid(Slots(s.entries[s.free[n] := Entry(key, value, true)], s.free[..n]))
  {
    var n := |s.free| - 1;
    var r := Slots(s.entries[s.free[n] := Entry(key, value, true)], s.free[..n]);
    forall i | 0 <= i < |r.entries|
      ensures r.entries[i].live || i in r.free
    {
      if !r.entries[i].live {
        var j :| 0 <= j < |s.free| && s.free[j] == i;
        assert r.free[j] == i;
      }
    }
  }

  lemma EraseSpells<K, V>(s: Slots<K, V>, key: K, blank: V, m: map<K, V>)
    requires Valid(s) && Spells(s.entries, m)
    ensures Spells(Erase(s, key, blank).entries, m - {key})
  {
    var r, at := Erase(s, key, blank), Find(s.entries, key);
    assert forall i | 0 <= i < |s.entries| && i != at :: r.entries[i] == s.entries[i];
    forall k | k in m - {key}
      ensures Occurs(r.entries, k)
    {
      assert Occurs(s.entries, k);
      var i :| 0 <= i < |s.entries| && s.entries[i].live && s.entries[i].key == k;
      assert r.entries[i] == s.entries[i];
    }
    forall i | 0 <= i < |r.entries| && r.entries[i].live
      ensures r.entries[i].key in m - {key} && (m - {key})[r.entries[i].key] == r.entries[i].value
    {
      assert r.entries[i] == s.entries[i];
    }
  }

  lemma EraseRefines<K, V>(s: Slots<K, V>, key: K, blank: V)
    requires Valid(s)
    ensures var r := Erase(s, key, blank); Valid(r) && Contents(r.entries) == Contents(s.entries) - {key}
  {
    hide Erase, Contents, Spells;
    var r := Erase(s, key, blank);
    EraseValid(s, key, blank);
    ContentsSpelled(s.entries);
    EraseSpells(s, key, blank, Contents(s.entries));
    ContentsSpelled(r.entries);
    SpellingIsUnique(r.entries, Contents(r.entries), Contents(s.entries) - {key});
  }

  lemma EraseValid<K, V>(s: Slots<K, V>, key: K, blank: V)
    requires Valid(s)
    ensures Valid(Erase(s, key, blank))
  {
    var r := Erase(s, key, blank);
    var at := Find(s.entries, key);
    if at < |s.entries| {
      forall i | 0 <= i < |r.entries|
        ensures r.entries[i].live || i in r.free
      {
        if i == at {
          assert r.free[|s.free|] == at;
        } else if !r.entries[i].live {
          var j :| 0 <= j < |s.free| && s.free[j] == i;
          assert r.free[j] == i;
        }
      }
    }
  }

  // Every lookup after a Set or an Erase.
  lemma SetLookup<K, V>(s: Slots<K, V>, key: K, value: V, other: K)
    requires Valid(s)
    ensures Valid(Set(s, key, value))
    ensures Lookup(Set(s, key, value), other) == if other == key then Some(value) else Lookup(s, other)
  {
    hide Set, Contents, Find;
    SetRefines(s, key, value);
    FindReads(s, other);
    FindReads(Set(s, key, value), other);
  }

  lemma EraseLookup<K, V>(s: Slots<K, V>, key: K, blank: V, other: K)
    requires Valid(s)
    ensures Valid(Erase(s, key, blank))
    ensures Lookup(Erase(s, key, blank), other) == if other == key then None else Lookup(s, other)
  {
    hide Erase, Contents, Find;
    EraseRefines(s, key, blank);
    FindReads(s, other);
    FindReads(Erase(s, key, blank), other);
  }

  // ---- enumeration order ----------------------------------------------------------

  // Replacing a key leaves the walk unchanged; a new key lands in the slot
  // freed last, or at the end when none is free.
  lemma SetOrder<K, V>(s: Slots<K, V>, key: K, value: V)
    requires Valid(s)
    ensures var r, at := Set(s, key, value), Find(s.entries, key);
              && (at < |s.entries| ==> Keys(r.entries) == Keys(s.entries) && r.free == s.free)
              && (at == |s.entries| && s.free == [] ==> Keys(r.entries) == Keys(s.entries) + [key])
              && (at == |s.entries| && s.free != [] ==>
                    var slot := s.free[|s.free| - 1];
                    Keys(r.entries) == Keys(s.entries[..slot]) + [key] + Keys(s.entries[slot + 1..]))
  {
    var r, at := Set(s, key, value), Find(s.entries, key);
    if at < |s.entries| {
      KeysUpdate(s.entries, at, Entry(s.entries[at].key, value, true));
      KeysSplit(s.entries, at);
    } else if s.free == [] {
      assert r.entries[..|s.entries|] == s.entries;
    } else {
      KeysUpdate(s.entries, s.free[|s.free| - 1], Entry(key, value, true));
    }
  }

  lemma EraseFrees<K, V>(s: Slots<K, V>, key: K, blank: V)
    requires Valid(s) && Find(s.entries, key) < |s.entries|
    ensures var e, at := Erase(s, key, blank), Find(s.entries, key);
              && e == Slots(s.entries[at := Entry(key, blank, false)], s.free + [at])
              && Find(e.entries, key) == |e.entries|
  {
    var e, at := Erase(s, key, blank), Find(s.entries, key);
    assert s.entries[at].live && s.entries[at].key == key;
    forall i | 0 <= i < |e.entries|
      ensures !(e.entries[i].live && e.entries[i].key == key)
    {
      if i != at {
        assert e.entries[i] == s.entries[i];
      }
    }
  }

  // Erasing takes the key out of the walk, and setting it again straight away
  // puts it back where it was.
  lemma EraseThenSetKeepsPlace<K, V>(s: Slots<K, V>, key: K, blank: V, value: V)
    requires Valid(s) && Find(s.entries, key) < |s.entries|
    ensures var at, e := Find(s.entries, key), Erase(s, key, blank);
              && Keys(e.entries) == Keys(s.entries[..at]) + Keys(s.entries[at + 1..])
              && Valid(e)
              && Set(e, key, value).free == s.free
              && Keys(Set(e, key, value).entries) == Keys(s.entries)
  {
    hide Keys, Erase, Valid;
    var at, e := Find(s.entries, key), Erase(s, key, blank);
    EraseValid(s, key, blank);
    EraseFrees(s, key, blank);
    KeysUpdate(s.entries, at, Entry(key, blank, false));
    KeysSplit(s.entries, at);
    KeysUpdate(e.entries, at, Entry(key, value, true));
    assert e.entries[..at] == s.entries[..at] && e.entries[at + 1..] == s.entries[at + 1..];
    assert e.free[..|e.free| - 1] == s.free;
  }

  lemma {:induction false} KeysAppend<K, V>(a: seq<Entry<K, V>>, b: seq<Entry<K, V>>)
    ensures Keys(a + b) == Keys(a) + Keys(b)
  {
    if b == [] {
      assert a + b == a;
    } else {
      assert (a + b)[..|a + b| - 1] == a + b[..|b| - 1];
      KeysAppend(a, b[..|b| - 1]);
    }
  }

  lemma KeysOne<K, V>(e: Entry<K, V>)
    ensures Keys([e]) == if e.live then [e.key] else []
  {
    assert [e][..0] == [];
  }

  lemma KeysSplit<K, V>(entries: seq<Entry<K, V>>, at: nat)
    requires at < |entries|
    ensures Keys(entries)
         == Keys(entries[..at]) + (if entries[at].live then [entries[at].key] else []) + Keys(entries[at + 1..])
  {
    hide Keys;
    var before, one, after := entries[..at], [entries[at]], entries[at + 1..];
    SplitAt(entries, at);
    KeysAppend(before + one, after);
    KeysAppend(before, one);
    KeysOne(entries[at]);
  }

  lemma SplitAt<T>(s: seq<T>, at: nat)
    requires at < |s|
    ensures s == s[..at] + [s[at]] + s[at + 1..]
  {
  }

  lemma KeysUpdate<K, V>(entries: seq<Entry<K, V>>, at: nat, e: Entry<K, V>)
    requires at < |entries|
    ensures Keys(entries[at := e])
         == Keys(entries[..at]) + (if e.live then [e.key] else []) + Keys(entries[at + 1..])
  {
    KeysSplit(entries[at := e], at);
    assert entries[at := e][..at] == entries[..at] && entries[at := e][at + 1..] == entries[at + 1..];
  }

  // ---- every run ------------------------------------------------------------------

  datatype Op<K, V> = DoSet(key: K, value: V) | DoErase(key: K) | DoClear

  ghost function Run<K, V>(ops: seq<Op<K, V>>, blank: V): (s: Slots<K, V>)
    ensures Valid(s)
  {
    if ops == [] then Clear()
    else
      var before := Run(ops[..|ops| - 1], blank);
      match ops[|ops| - 1]
      case DoSet(key, value) => SetValid(before, key, value); Set(before, key, value)
      case DoErase(key) => EraseValid(before, key, blank); Erase(before, key, blank)
      case DoClear => Clear()
  }

  ghost function MapRun<K, V>(ops: seq<Op<K, V>>): map<K, V> {
    if ops == [] then map[]
    else
      var before := MapRun(ops[..|ops| - 1]);
      match ops[|ops| - 1]
      case DoSet(key, value) => before[key := value]
      case DoErase(key) => before - {key}
      case DoClear => map[]
  }

  // Under every run of its operations the table is the finite map.
  lemma {:induction false} RunRefinesMap<K, V>(ops: seq<Op<K, V>>, blank: V)
    ensures Contents(Run(ops, blank).entries) == MapRun(ops)
  {
    if ops != [] {
      RunRefinesMap(ops[..|ops| - 1], blank);
      var before := Run(ops[..|ops| - 1], blank);
      match ops[|ops| - 1] {
        case DoSet(key, value) => SetRefines(before, key, value);
        case DoErase(key) => EraseRefines(before, key, blank);
        case DoClear =>
      }
    }
  }

  class SlotMap<K(==), V> {
    var entries: seq<Entry<K, V>>
    var freeList: seq<nat>
    const blank: V

    ghost function View(): Slots<K, V>
      reads this
    {
      Slots(entries, freeList)
    }

    constructor (blank: V)
      ensures View() == Clear<K, V>() && this.blank == blank
    {
      this.blank, entries, freeList := blank, [], [];
    }

    // The slot of a live key, or the number of slots.
    method IndexOf(key: K) returns (at: nat)
      ensures at == Find(entries, key)
    {
      at := 0;
      while at < |entries| && !(entries[at].live && entries[at].key == key)
        invariant at <= |entries| && Find(entries, key) == at + Find(entries[at..], key)
      {
        assert entries[at..][1..] == entries[at + 1..];
        at := at + 1;
      }
    }

    method Get(key: K) returns (r: Option<V>)
      requires Valid(View())
      ensures r == if key in Contents(entries) then Some(Contents(entries)[key]) else None
      ensures r == Lookup(View(), key)
    {
      FindReads(View(), key);
      var at := IndexOf(key);
      r := if at < |entries| then Some(entries[at].value) else None;
    }

    // Add or replace.
    method Put(key: K, value: V)
      requires Valid(View())
      modifies this
      ensures Valid(View()) && View() == Set(old(View()), key, value)
      ensures Contents(entries) == old(Contents(entries))[key := value]
    {
      SetRefines(View(), key, value);
      var at := IndexOf(key);
      if at < |entries| {
        entries := entries[at := entries[at].(value := value)];
        return;
      }
      if freeList != [] {
        var slot := freeList[|freeList| - 1];
        freeList := freeList[..|freeList| - 1];
        entries := entries[slot := Entry(key, value, true)];
        return;
      }
      entries := entries + [Entry(key, value, true)];
    }

    method Remove(key: K) returns (removed: bool)
      requires Valid(View())
      modifies this
      ensures Valid(View()) && View() == Erase(old(View()), key, blank)
      ensures Contents(entries) == old(Contents(entries)) - {key}
      ensures removed <==> key in old(Contents(entries))
    {
      EraseRefines(View(), key, blank);
      FindReads(View(), key);
      var at := IndexOf(key);
      if at == |entries| {
        return false;
      }
      entries := entries[at := entries[at].(live := false, value := blank)];
      freeList := freeList + [at];
      return true;
    }

    method Reset()
      modifies this
      ensures Valid(View()) && View() == Clear<K, V>()
    {
      entries, freeList := [], [];
    }

    method Size() returns (n: nat)
      ensures n == |Keys(entries)|
    {
      n := 0;
      for i := 0 to |entries|
        invariant n == |Keys(entries[..i])|
      {
        assert entries[..i + 1][..i] == entries[..i];
        if entries[i].live {
          n := n + 1;
        }
      }
      assert entries[..|entries|] == entries;
    }

    method LiveKeys() returns (keys: seq<K>)
      ensures keys == Keys(entries)
    {
      keys := [];
      for i := 0 to |entries|
        invariant keys == Keys(entries[..i])
      {
        assert entries[..i + 1][..i] == entries[..i];
        if entries[i].live {
          keys := keys + [entries[i].key];
        }
      }
      assert entries[..|entries|] == entries;
    }
  }
}
