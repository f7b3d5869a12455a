/** The hashed slot table of lib/dictionary.c, and the map it stands for. */
module Dictionaries {
  import opened Options

  /** A C string, without its terminator. */
  type Byte = b: int | 0 <= b < 256
  type Text = seq<Byte>

  const DICTMINSZ: nat := 128

  // ----- the hash

  /** `(unsigned)key[i]` where char is signed. */
  function Extended(b: Byte): bv32 {
    if b < 128 then b as bv32 else (0xFFFF_FF00 + b) as bv32
  }

  function Mixed(h: bv32, b: Byte): bv32 {
    var h := h + Extended(b);
    var h := h + (h << 10);
    h ^ (h >> 6)
  }

  function Mix(key: Text): bv32 {
    if key == [] then 0 else Mixed(Mix(key[..|key| - 1]), key[|key| - 1])
  }

  function Finished(h: bv32): bv32 {
    var h := h + (h << 3);
    var h := h ^ (h >> 11);
    h + (h << 15)
  }

  function Hash(key: Text): bv32 { Finished(Mix(key)) }

  method DictionaryHash(key: Text) returns (hash: bv32)
    ensures hash == Hash(key)
  {
    hide Mixed, Finished;
    var len := |key|;
    hash := 0;
    for i := 0 to len
      invariant hash == Mix(key[..i])
    {
      assert key[..i + 1][..i] == key[..i];
      hash := Mixed(hash, key[i]);
    }
    assert key[..len] == key;
    hash := Finished(hash);
  }

  // ----- slots

  datatype Slot = Slot(key: Option<Text>, val: Option<Text>, hash: bv32)

  const FREE := Slot(None, None, 0)

  function Occupied(t: seq<Slot>): (n: nat)
    ensures n <= |t|
  {
    if t == [] then 0 else Occupied(t[..|t| - 1]) + if t[|t| - 1].key.Some? then 1 else 0
  }

  /** No key is in two slots, stored hashes are those of their keys, and free slots are clean. */
  ghost predicate WellFormed(t: seq<Slot>) {
    && (forall i | 0 <= i < |t| && t[i].key.Some? :: t[i].hash == Hash(t[i].key.value))
    && (forall i, j | 0 <= i < j < |t| && t[i].key.Some? :: t[i].key != t[j].key)
    && (forall i | 0 <= i < |t| && t[i].key.None? :: t[i] == FREE)
  }

  /** The test made on each slot: equal hashes first, then equal keys. */
  predicate Hit(s: Slot, key: Text) {
    s.key.Some? && Hash(key) == s.hash && key == s.key.value
  }

  function Find(t: seq<Slot>, key: Text, i: nat): (j: nat)
    requires i <= |t|
    ensures i <= j <= |t| && (j < |t| ==> Hit(t[j], key))
    ensures forall k | i <= k < j :: !Hit(t[k], key)
    decreases |t| - i
  {
    if i == |t| || Hit(t[i], key) then i else Find(t, key, i + 1)
  }

  function FirstFree(t: seq<Slot>, i: nat): (j: nat)
    requires i <= |t|
    ensures i <= j <= |t| && (j < |t| ==> t[j].key.None?)
    ensures forall k | i <= k < j :: t[k].key.Some?
    decreases |t| - i
  {
    if i == |t| || t[i].key.None? then i else FirstFree(t, i + 1)
  }

  /** Twice as many slots, the new ones free, when all are taken. */
  function Grown(t: seq<Slot>): seq<Slot> {
    if Occupied(t) == |t| then t + seq(|t|, _ => FREE) else t
  }

  function Set(t: seq<Slot>, key: Text, val: Option<Text>): (u: seq<Slot>)
    requires t != []
    ensures |u| >= |t|
  {
    var i := Find(t, key, 0);
    if i < |t| then t[i := t[i].(val := val)]
    else
      var g := Grown(t);
      GrownHasRoom(t);
      g[FirstFree(g, 0) := Slot(Some(key), val, Hash(key))]
  }

  function Unset(t: seq<Slot>, key: Text): (u: seq<Slot>)
    ensures |u| == |t|
  {
    var i := Find(t, key, 0);
    if i < |t| then t[i := FREE] else t
  }

  // ----- counting

  lemma {:induction false} AllTaken(t: seq<Slot>)
    requires forall i | 0 <= i < |t| :: t[i].key.Some?
    ensures Occupied(t) == |t|
  {
    if t != [] { AllTaken(t[..|t| - 1]); }
  }

  lemma {:induction false} FullIsTaken(t: seq<Slot>, i: nat)
    requires Occupied(t) == |t| && i < |t|
    ensures t[i].key.Some?
  {
    if i < |t| - 1 { FullIsTaken(t[..|t| - 1], i); }
  }

  /** After the growth check a free slot always exists. */
  lemma GrownHasRoom(t: seq<Slot>)
    requires t != []
    ensures FirstFree(Grown(t), 0) < |Grown(t)|
  {
    if Occupied(t) == |t| {
      assert Grown(t)[|t|] == FREE;
    } else if forall i | 0 <= i < |t| :: t[i].key.Some? {
      AllTaken(t);
    }
  }

  lemma {:induction false} OccupiedUpdate(t: seq<Slot>, i: nat, s: Slot)
    requires i < |t|
    ensures Occupied(t[i := s]) ==
            Occupied(t) - (if t[i].key.Some? then 1 else 0) + (if s.key.Some? then 1 else 0)
  {
    var u := t[i := s];
    if i < |t| - 1 {
      OccupiedUpdate(t[..|t| - 1], i, s);
      assert u[..|t| - 1] == t[..|t| - 1][i := s];
    } else {
      assert u[..|t| - 1] == t[..|t| - 1];
    }
  }

  lemma {:induction false} OccupiedFree(t: seq<Slot>, n: nat)
    ensures Occupied(t + seq(n, _ => FREE)) == Occupied(t)
  {
    var u := t + seq(n, _ => FREE);
    if n == 0 {
      assert u == t;
    } else {
      OccupiedFree(t, n - 1);
      assert u[..|u| - 1] == t + seq(n - 1, _ => FREE);
      assert u[|u| - 1] == FREE;
    }
  }

  // ----- the map behind the slots

  /** The keys and values stored. */
  function Table(t: seq<Slot>): map<Text, Option<Text>> {
    if t == [] then map[]
    else
      var m := Table(t[..|t| - 1]);
      var s := t[|t| - 1];
      if s.key.Some? then m[s.key.value := s.val] else m
  }

  lemma {:induction false} TableHas(t: seq<Slot>, i: nat)
    requires WellFormed(t) && i < |t| && t[i].key.Some?
    ensures t[i].key.value in Table(t) && Table(t)[t[i].key.value] == t[i].val
  {
    if i < |t| - 1 { TableHas(t[..|t| - 1], i); }
  }

  lemma {:induction false} TableOnly(t: seq<Slot>, key: Text) returns (i: nat)
    requires key in Table(t)
    ensures i < |t| && t[i].key == Some(key)
  {
    i := |t| - 1;
    if t[i].key != Some(key) { i := TableOnly(t[..|t| - 1], key); }
  }

  /** Searching by hash and key finds exactly what is stored, collisions or not. */
  lemma FindIsLookup(t: seq<Slot>, key: Text)
    requires WellFormed(t)
    ensures var i := Find(t, key, 0);
            (key in Table(t) <==> i < |t|) && (i < |t| ==> Table(t)[key] == t[i].val)
  {
    var i := Find(t, key, 0);
    if i < |t| {
      TableHas(t, i);
    } else if key in Table(t) {
      var j := TableOnly(t, key);
      assert Hit(t[j], key);
    }
  }

  /** There are as many keys as taken slots. */
  lemma {:induction false} TableSize(t: seq<Slot>)
    requires WellFormed(t)
    ensures |Table(t)| == Occupied(t)
  {
    if t != [] {
      var before, s := t[..|t| - 1], t[|t| - 1];
      TableSize(before);
      if s.key.Some? && s.key.value in Table(before) {
        var j := TableOnly(before, s.key.value);
      }
      if s.key.Some? {
        assert Table(t).Keys == Table(before).Keys + {s.key.value};
        assert |Table(t)| == |Table(t).Keys| && |Table(before)| == |Table(before).Keys|;
      }
    }
  }

  // ----- the operations refine the map's

  lemma GrownKeeps(t: seq<Slot>)
    requires WellFormed(t)
    ensures WellFormed(Grown(t)) && Table(Grown(t)) == Table(t) && Occupied(Grown(t)) == Occupied(t)
  {
    if Occupied(t) == |t| {
      OccupiedFree(t, |t|);
      TableFree(t, |t|);
    }
  }

  lemma {:induction false} TableFree(t: seq<Slot>, n: nat)
    ensures Table(t + seq(n, _ => FREE)) == Table(t)
  {
    var u := t + seq(n, _ => FREE);
    if n == 0 {
      assert u == t;
    } else {
      TableFree(t, n - 1);
      assert u[..|u| - 1] == t + seq(n - 1, _ => FREE);
      assert u[|u| - 1] == FREE;
    }
  }

  /** Storing in a slot that is free or has the key already. */
  lemma TableStore(t: seq<Slot>, i: nat, key: Text, val: Option<Text>)
    requires WellFormed(t) && i < |t| && (t[i].key == Some(key) || (t[i].key.None? && key !in Table(t)))
    ensures var u := t[i := Slot(Some(key), val, Hash(key))];
            WellFormed(u) && Table(u) == Table(t)[key := val]
  {
    var u := t[i := Slot(Some(key), val, Hash(key))];
    forall j | 0 <= j < |t| && j != i ensures t[j].key != Some(key) {
      if t[j].key == Some(key) {
        TableHas(t, j);
        assert false;
      }
    }
    assert WellFormed(u);
    TableHas(u, i);
    forall k | k in Table(u) && k != key ensures k in Table(t) && Table(t)[k] == Table(u)[k] {
      var j := TableOnly(u, k);
      TableHas(u, j);
      TableHas(t, j);
    }
    forall k | k in Table(t) && k != key ensures k in Table(u) {
      var j := TableOnly(t, k);
      TableHas(u, j);
    }
  }

  lemma TableRemove(t: seq<Slot>, i: nat, key: Text)
    requires WellFormed(t) && i < |t| && t[i].key == Some(key)
    ensures WellFormed(t[i := FREE]) && Table(t[i := FREE]) == Table(t) - {key}
  {
    var u := t[i := FREE];
    forall k | k in Table(u) ensures k in Table(t) && k != key && Table(t)[k] == Table(u)[k] {
      var j := TableOnly(u, k);
      TableHas(u, j);
      TableHas(t, j);
    }
    forall k | k in Table(t) && k != key ensures k in Table(u) {
      var j := TableOnly(t, k);
      TableHas(u, j);
    }
  }

  lemma SetIsUpdate(t: seq<Slot>, key: Text, val: Option<Text>)
    requires WellFormed(t) && t != []
    ensures WellFormed(Set(t, key, val)) && Table(Set(t, key, val)) == Table(t)[key := val]
    ensures Occupied(Set(t, key, val)) == Occupied(t) + if key in Table(t) then 0 else 1
  {
    FindIsLookup(t, key);
    GrownKeeps(t);
    GrownHasRoom(t);
    var i, g := Find(t, key, 0), Grown(t);
    if i < |t| {
      TableStore(t, i, key, val);
      OccupiedUpdate(t, i, t[i].(val := val));
    } else {
      TableStore(g, FirstFree(g, 0), key, val);
      OccupiedUpdate(g, FirstFree(g, 0), Slot(Some(key), val, Hash(key)));
    }
  }

  lemma UnsetIsRemoval(t: seq<Slot>, key: Text)
    requires WellFormed(t)
    ensures WellFormed(Unset(t, key)) && Table(Unset(t, key)) == Table(t) - {key}
    ensures Occupied(Unset(t, key)) == Occupied(t) - if key in Table(t) then 1 else 0
  {
    FindIsLookup(t, key);
    var i := Find(t, key, 0);
    if i < |t| {
      TableRemove(t, i, key);
      OccupiedUpdate(t, i, FREE);
    }
  }

  lemma SetFound(t: seq<Slot>, key: Text, val: Option<Text>)
    requires t != []
    ensures var i := Find(t, key, 0); i < |t| ==> Set(t, key, val) == t[i := t[i].(val := val)]
  {}

  lemma NewSlots(size: nat)
    ensures var t := seq(size, _ => FREE); WellFormed(t) && Table(t) == map[] && Occupied(t) == 0
  {
    assert seq(size, _ => FREE) == [] + seq(size, _ => FREE);
    OccupiedFree([], size);
    TableFree([], size);
  }

  // ----- the code

  function Zipped(ks: seq<Option<Text>>, vs: seq<Option<Text>>, hs: seq<bv32>): (t: seq<Slot>)
    requires |ks| == |vs| == |hs|
    ensures |t| == |ks| && forall i | 0 <= i < |t| :: t[i] == Slot(ks[i], vs[i], hs[i])
  {
    seq(|ks|, i requires 0 <= i < |ks| => Slot(ks[i], vs[i], hs[i]))
  }

  /** mem_double: a copy in twice the room, the rest cleared. */
  method MemDouble<T>(ptr: array<T>, cleared: T) returns (newptr: array<T>)
    ensures fresh(newptr) && newptr[..] == ptr[..] + seq(ptr.Length, _ => cleared)
  {
    var size := ptr.Length;
    newptr := new T[2 * size](_ => cleared);
    forall i | 0 <= i < size { newptr[i] := ptr[i]; }
    assert newptr[..] == ptr[..] + seq(size, _ => cleared);
  }

  lemma ZippedFree(ks: seq<Option<Text>>, vs: seq<Option<Text>>, hs: seq<bv32>)
    requires |ks| == |vs| == |hs|
    ensures var n := |ks|;
            Zipped(ks + seq(n, _ => None), vs + seq(n, _ => None), hs + seq(n, _ => 0)) ==
            Zipped(ks, vs, hs) + seq(n, _ => FREE)
  {}

  class Dictionary {
    var n: nat
    var size: nat
    var key: array<Option<Text>>
    var val: array<Option<Text>>
    var hash: array<bv32>

    ghost predicate Shaped()
      reads this
    {
      && size > 0 && key.Length == size && val.Length == size && hash.Length == size
      && var h: object := hash; key != val && h != key && h != val
    }

    ghost function Slots(): (t: seq<Slot>)
      requires Shaped()
      reads this, key, val, hash
      ensures |t| == size
      ensures forall i | 0 <= i < size :: t[i] == Slot(key[i], val[i], hash[i])
    {
      Zipped(key[..], val[..], hash[..])
    }

    /** n counts the taken slots. */
    ghost predicate Valid()
      reads this, key, val, hash
    {
      Shaped() && WellFormed(Slots()) && n == Occupied(Slots())
    }

    constructor (wanted: int)
      ensures Valid() && fresh(key) && fresh(val) && fresh(hash)
      ensures Table(Slots()) == map[] && size >= DICTMINSZ
    {
      var size := if wanted < DICTMINSZ then DICTMINSZ else wanted;
      this.size := size;
      n := 0;
      var ks: array<Option<Text>> := new Option<Text>[size](_ => None);
      var vs: array<Option<Text>> := new Option<Text>[size](_ => None);
      var hs: array<bv32> := new bv32[size](_ => 0);
      key, val, hash := ks, vs, hs;
      new;
      NewSlots(size);
      hide WellFormed, Table, Occupied;
      assert Slots() == seq(size, _ => FREE);
    }

    /** The loop that all three operations search with. */
    method FindSlot(wanted: Text) returns (i: nat)
      requires Valid()
      ensures i == Find(Slots(), wanted, 0)
    {
      hide WellFormed, Occupied, Mixed, Finished, Mix;
      var h := DictionaryHash(wanted);
      i := 0;
      while i < size
        invariant i <= size && Find(Slots(), wanted, i) == Find(Slots(), wanted, 0)
      {
        assert Slots()[i] == Slot(key[i], val[i], hash[i]);
        if key[i].Some? && h == hash[i] && wanted == key[i].value { return; }
        i := i + 1;
      }
    }

    /** The value stored, or the default. */
    method Get(wanted: Text, def: Option<Text>) returns (r: Option<Text>)
      requires Valid()
      ensures r == if wanted in Table(Slots()) then Table(Slots())[wanted] else def
    {
      FindIsLookup(Slots(), wanted);
      var i := FindSlot(wanted);
      hide Table, WellFormed, Occupied;
      if i < size {
        assert Slots()[i] == Slot(key[i], val[i], hash[i]);
        return val[i];
      }
      r := def;
    }

    /** Doubles all three arrays when they are full. */
    method Grow()
      requires Valid()
      modifies this
      ensures Shaped() && n == old(n) && Slots() == Grown(old(Slots()))
      ensures (key == old(key) && val == old(val) && hash == old(hash)) || (fresh(key) && fresh(val) && fresh(hash))
    {
      hide WellFormed, Occupied;
      if n == size {
        ghost var ks, vs, hs := key[..], val[..], hash[..];
        var doubled := MemDouble(key, None);
        var values := MemDouble(val, None);
        var hashes := MemDouble(hash, 0);
        ZippedFree(ks, vs, hs);
        key, val, hash, size := doubled, values, hashes, 2 * size;
      }
    }

    method Put(i: nat, s: Slot)
      requires Shaped() && i < size
      modifies key, val, hash
      ensures Shaped() && Slots() == old(Slots())[i := s]
    {
      ghost var before := Slots();
      key[i] := s.key;
      val[i] := s.val;
      hash[i] := s.hash;
      assert Slots() == before[i := s];
    }

    method SetKey(k: Text, v: Option<Text>)
      requires Valid()
      modifies this, key, val, hash
      ensures Valid() && Slots() == Set(old(Slots()), k, v)
      ensures Table(Slots()) == old(Table(Slots()))[k := v]
      ensures (key == old(key) && val == old(val) && hash == old(hash)) || (fresh(key) && fresh(val) && fresh(hash))
    {
      hide WellFormed, Table, Occupied, Find, FirstFree, Grown, Hash, Set, Zipped;
      ghost var before := Slots();
      SetIsUpdate(before, k, v);
      FindIsLookup(before, k);
      SetFound(before, k, v);
      if n == 0 { NothingTaken(before, k); }
      var i := size;
      if n > 0 {
        i := FindSlot(k);
      }
      if i < size {
        SetValue(i, v);
        return;
      }
      AddKey(k, v);
      n := n + 1;
    }

    /** The rest of dictionary_set, when the key was not found. */
    method AddKey(k: Text, v: Option<Text>)
      requires Valid() && Find(Slots(), k, 0) == size
      modifies this, key, val, hash
      ensures Shaped() && Slots() == Set(old(Slots()), k, v) && n == old(n)
      ensures (key == old(key) && val == old(val) && hash == old(hash)) || (fresh(key) && fresh(val) && fresh(hash))
    {
      hide WellFormed, Occupied;
      GrownHasRoom(Slots());
      Grow();
      InsertFirstFree(k, v);
    }

    method SetValue(i: nat, v: Option<Text>)
      requires Shaped() && i < size
      modifies val
      ensures Shaped() && Slots() == old(Slots())[i := old(Slots())[i].(val := v)]
    {
      ghost var before := Slots();
      val[i] := v;
      assert Slots() == before[i := before[i].(val := v)];
    }

    method InsertFirstFree(k: Text, v: Option<Text>)
      requires Shaped() && FirstFree(Slots(), 0) < size
      modifies key, val, hash
      ensures Shaped() && Slots() == old(Slots())[FirstFree(old(Slots()), 0) := Slot(Some(k), v, Hash(k))]
    {
      var i := 0;
      while key[i].Some?
        invariant i < size && FirstFree(Slots(), i) == FirstFree(Slots(), 0)
        decreases size - i
      {
        assert Slots()[i] == Slot(key[i], val[i], hash[i]);
        i := i + 1;
      }
      assert Slots()[i] == Slot(key[i], val[i], hash[i]);
      var h := DictionaryHash(k);
      Put(i, Slot(Some(k), v, h));
    }

    method UnsetKey(k: Text)
      requires Valid()
      modifies this, key, val, hash
      ensures Valid() && Slots() == Unset(old(Slots()), k)
      ensures Table(Slots()) == old(Table(Slots())) - {k}
      ensures key == old(key) && val == old(val) && hash == old(hash)
    {
      hide WellFormed, Table, Occupied, Find, Zipped, Hash;
      ghost var before := Slots();
      UnsetIsRemoval(before, k);
      FindIsLookup(before, k);
      var i := FindSlot(k);
      if i >= size { return; }
      Put(i, FREE);
      n := n - 1;
    }
  }

  /** With nothing stored there is nothing to search for. */
  lemma {:induction false} NothingTaken(t: seq<Slot>, key: Text)
    requires Occupied(t) == 0
    ensures Find(t, key, 0) == |t|
  {
    var i := Find(t, key, 0);
    if i < |t| {
      OccupiedUpdate(t, i, FREE);
    }
  }

  // ----- runs

  datatype Op = SetOp(key: Text, val: Option<Text>) | UnsetOp(key: Text)

  /** The slots after a run of operations on a new dictionary ... */
  function SlotsAfter(size: nat, ops: seq<Op>): (t: seq<Slot>)
    requires size > 0
    ensures t != []
  {
    if ops == [] then seq(size, _ => FREE)
    else
      var t := SlotsAfter(size, ops[..|ops| - 1]);
      match ops[|ops| - 1]
      case SetOp(key, val) => Set(t, key, val)
      case UnsetOp(key) => Unset(t, key)
  }

  /** ... and the map after the same updates. */
  function MapAfter(ops: seq<Op>): map<Text, Option<Text>> {
    if ops == [] then map[]
    else
      var m := MapAfter(ops[..|ops| - 1]);
      match ops[|ops| - 1]
      case SetOp(key, val) => m[key := val]
      case UnsetOp(key) => m - {key}
  }

  /** Over every run the slots stand for the map, no key is stored twice, and the taken slots are as
      many as the map's keys. */
  lemma {:induction false} RunsRefineMap(size: nat, ops: seq<Op>)
    requires size > 0
    ensures var t := SlotsAfter(size, ops);
            WellFormed(t) && Table(t) == MapAfter(ops) && Occupied(t) == |MapAfter(ops)|
  {
    if ops == [] {
      NewSlots(size);
    } else {
      RunsRefineMap(size, ops[..|ops| - 1]);
      var t := SlotsAfter(size, ops[..|ops| - 1]);
      match ops[|ops| - 1] {
        case SetOp(key, val) => SetIsUpdate(t, key, val);
        case UnsetOp(key) => UnsetIsRemoval(t, key);
      }
    }
    TableSize(SlotsAfter(size, ops));
  }
}
