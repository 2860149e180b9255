/**
 The generation-tagged, bounded-probe table of src/gpu/native/native_asset_mapping_table.h.

 A frame reset bumps one generation number instead of erasing cells, and a lookup
 made earlier is the token a store presents. The table is shown to be a finite map
 of the keys stored since the last clear, also across a wrap of the generation,
 and the tokens for which that is so are characterised exactly.
 */
module MappingTable {

  import opened Wrappers

  /** A 64-bit key: guest address above, length below. */
  datatype Key = Key(bits: bv64)

  datatype Cell<V> = Cell(key: Key, value: V, generation: nat)

  /** A lookup's answer; `slot` is where a store may go, `capacity` when there is no such place. */
  datatype Lookup<V> = Lookup(value: Option<V>, key: Key, slot: nat, probes: nat, generation: nat)

  /** The avalanche of both halves of the key. */
  function Hash(key: Key): bv64 {
    var a := key.bits ^ (key.bits >> 30);
    var b := a * 0xbf58476d1ce4e5b9;
    var c := b ^ (b >> 27);
    var d := c * 0x94d049bb133111eb;
    d ^ (d >> 31)
  }

  /** The hash masked to a power-of-two capacity. */
  function Bucket(key: Key, capacity: nat): (r: nat)
    requires capacity > 0
    ensures r < capacity
  {
    hide Hash;
    (Hash(key) as int) % capacity
  }

  /** `(slot + 1) & (capacity - 1)`. */
  function Next(slot: nat, capacity: nat): (r: nat)
    requires slot < capacity
    ensures r < capacity
  {
    if slot + 1 == capacity then 0 else slot + 1
  }

  /** The slot probed at step `d` for a key. */
  function Path(key: Key, d: nat, capacity: nat): (r: nat)
    requires capacity > 0
    ensures r < capacity
  {
    if d == 0 then Bucket(key, capacity) else Next(Path(key, d - 1, capacity), capacity)
  }

  predicate Live<V>(cells: seq<Cell<V>>, generation: nat, slot: nat)
    requires slot < |cells|
  {
    cells[slot].generation == generation
  }

  /** The first `d` probes of a key meet live cells of other keys. */
  ghost predicate Occupied<V>(cells: seq<Cell<V>>, generation: nat, key: Key, d: nat)
    requires |cells| > 0
  {
    forall e | 0 <= e < d ::
      Live(cells, generation, Path(key, e, |cells|)) && cells[Path(key, e, |cells|)].key != key
  }

  // ----- the map a table stands for -----

  ghost function LiveSlots<V>(cells: seq<Cell<V>>, generation: nat): set<nat> {
    set s: nat | 0 <= s < |cells| && cells[s].generation == generation
  }

  ghost predicate KeysDistinct<V>(cells: seq<Cell<V>>, generation: nat) {
    forall s, t | 0 <= s < t < |cells| && Live(cells, generation, s) && Live(cells, generation, t) ::
      cells[s].key != cells[t].key
  }

  /** Every live key can be reached by probing. */
  ghost predicate Reachable<V>(cells: seq<Cell<V>>, generation: nat, limit: nat) {
    forall s | 0 <= s < |cells| && Live(cells, generation, s) ::
      exists d | 0 <= d < limit :: s == Path(cells[s].key, d, |cells|) && Occupied(cells, generation, cells[s].key, d)
  }

  /** The live cells are the entries of `m`. */
  ghost predicate Holds<V>(cells: seq<Cell<V>>, generation: nat, m: map<Key, V>) {
    && (forall s | 0 <= s < |cells| && Live(cells, generation, s) ::
          cells[s].key in m && m[cells[s].key] == cells[s].value)
    && (forall k | k in m :: exists s | 0 <= s < |cells| :: Live(cells, generation, s) && cells[s].key == k)
  }

  /** The map has one entry for each live cell. */
  lemma HoldsSize<V>(cells: seq<Cell<V>>, generation: nat, m: map<Key, V>)
    requires KeysDistinct(cells, generation) && Holds(cells, generation, m)
    ensures |m| == |LiveSlots(cells, generation)|
  {
    var slots := LiveSlots(cells, generation);
    ImageSize(cells, generation, slots);
    var image := set s | s in slots :: cells[s].key;
    forall k | k in m.Keys ensures k in image {
      var s :| 0 <= s < |cells| && Live(cells, generation, s) && cells[s].key == k;
      assert s in slots;
    }
    assert m.Keys == image;
    assert |m| == |m.Keys|;
  }

  lemma ImageSize<V>(cells: seq<Cell<V>>, generation: nat, slots: set<nat>)
    requires KeysDistinct(cells, generation) && slots <= LiveSlots(cells, generation)
    ensures |set s | s in slots :: cells[s].key| == |slots|
  {
    if slots != {} {
      var t :| t in slots;
      var rest := slots - {t};
      ImageSize(cells, generation, rest);
      var image := set s | s in rest :: cells[s].key;
      assert cells[t].key !in image;
      assert (set s | s in slots :: cells[s].key) == image + {cells[t].key};
    }
  }

  // ----- probing -----

  /** What probing from step `d` on answers. */
  function Probe<V>(cells: seq<Cell<V>>, generation: nat, key: Key, limit: nat, d: nat): Lookup<V>
    requires |cells| > 0 && d <= limit
    decreases limit - d
  {
    if d == limit then Lookup(None, key, |cells|, limit, generation)
    else
      var slot := Path(key, d, |cells|);
      if cells[slot].generation != generation then Lookup(None, key, slot, d + 1, generation)
      else if cells[slot].key == key then Lookup(Some(cells[slot].value), key, slot, d + 1, generation)
      else Probe(cells, generation, key, limit, d + 1)
  }

  /**
   A token matches the table when it names the place where probing for its key stops. Only the slot and the
   generation of a token are consulted by a store; a token of another generation is refused anyway.
   */
  ghost predicate Issued<V>(cells: seq<Cell<V>>, generation: nat, limit: nat, l: Lookup<V>)
    requires |cells| > 0
  {
    l.generation == generation && l.slot < |cells| ==>
      exists d | 0 <= d < limit :: l.slot == Path(l.key, d, |cells|) && Occupied(cells, generation, l.key, d)
  }

  /** Probing finds exactly the keys of the map, and stops at a place to store. */
  lemma {:induction false} ProbeCorrect<V>(cells: seq<Cell<V>>, generation: nat, m: map<Key, V>, key: Key,
                                           limit: nat, d: nat)
    requires |cells| > 0 && d <= limit
    requires KeysDistinct(cells, generation) && Reachable(cells, generation, limit) && Holds(cells, generation, m)
    requires Occupied(cells, generation, key, d)
    ensures var l := Probe(cells, generation, key, limit, d);
            && l.key == key && l.generation == generation && l.slot <= |cells|
            && l.value == (if key in m then Some(m[key]) else None)
            && (l.slot < |cells| && Live(cells, generation, l.slot) ==> cells[l.slot].key == key)
            && Issued(cells, generation, limit, l)
    decreases limit - d
  {
    hide Path;
    if d == limit || !Live(cells, generation, Path(key, d, |cells|)) {
      AbsentBeyond(cells, generation, key, limit, d);
    } else if cells[Path(key, d, |cells|)].key != key {
      ProbeCorrect(cells, generation, m, key, limit, d + 1);
    }
  }

  /** A key is in no live cell once its path reaches a free cell or its end. */
  lemma AbsentBeyond<V>(cells: seq<Cell<V>>, generation: nat, key: Key, limit: nat, d: nat)
    requires |cells| > 0 && d <= limit && Reachable(cells, generation, limit)
    requires Occupied(cells, generation, key, d)
    requires d == limit || !Live(cells, generation, Path(key, d, |cells|))
    ensures forall s | 0 <= s < |cells| && Live(cells, generation, s) :: cells[s].key != key
  {
    hide Path;
  }

  // ----- storing -----

  predicate Accepts<V>(cells: seq<Cell<V>>, generation: nat, l: Lookup<V>) {
    && l.slot < |cells| && l.generation == generation
    && (cells[l.slot].generation == generation ==> cells[l.slot].key == l.key)
  }

  function Stored<V>(cells: seq<Cell<V>>, generation: nat, l: Lookup<V>, v: V): seq<Cell<V>>
    requires l.slot < |cells|
  {
    cells[l.slot := Cell(l.key, v, generation)]
  }

  /** A store through a matching token updates the map at its key. */
  lemma StoreIsMapUpdate<V>(cells: seq<Cell<V>>, generation: nat, m: map<Key, V>, limit: nat, l: Lookup<V>, v: V)
    requires |cells| > 0 && Accepts(cells, generation, l) && Issued(cells, generation, limit, l)
    requires KeysDistinct(cells, generation) && Reachable(cells, generation, limit) && Holds(cells, generation, m)
    ensures var cells' := Stored(cells, generation, l, v);
            && KeysDistinct(cells', generation) && Reachable(cells', generation, limit)
            && Holds(cells', generation, m[l.key := v])
  {
    hide Path;
    var d :| 0 <= d < limit && l.slot == Path(l.key, d, |cells|) && Occupied(cells, generation, l.key, d);
    if !Live(cells, generation, l.slot) {
      AbsentBeyond(cells, generation, l.key, limit, d);
    }
    forall s | 0 <= s < |cells| && s != l.slot && Live(cells, generation, s) ensures cells[s].key != l.key {
      var t := l.slot;
      assert Live(cells, generation, t) ==> cells[t].key == l.key;
      assert s < t || t < s;
    }
    StoreKeepsDistinct(cells, generation, l, v);
    StoreKeepsReachable(cells, generation, limit, l, v, d);
    StoreHolds(cells, generation, m, l, v);
  }

  lemma StoreKeepsDistinct<V>(cells: seq<Cell<V>>, generation: nat, l: Lookup<V>, v: V)
    requires Accepts(cells, generation, l) && KeysDistinct(cells, generation)
    requires forall s | 0 <= s < |cells| && s != l.slot && Live(cells, generation, s) :: cells[s].key != l.key
    ensures KeysDistinct(Stored(cells, generation, l, v), generation)
  {
    var cells' := Stored(cells, generation, l, v);
    forall s, t | 0 <= s < t < |cells'| && Live(cells', generation, s) && Live(cells', generation, t)
      ensures cells'[s].key != cells'[t].key
    {
      assert s != l.slot ==> Live(cells, generation, s);
      assert t != l.slot ==> Live(cells, generation, t);
    }
  }

  lemma StoreKeepsReachable<V>(cells: seq<Cell<V>>, generation: nat, limit: nat, l: Lookup<V>, v: V, d: nat)
    requires |cells| > 0 && Accepts(cells, generation, l) && Reachable(cells, generation, limit)
    requires d < limit && l.slot == Path(l.key, d, |cells|) && Occupied(cells, generation, l.key, d)
    ensures Reachable(Stored(cells, generation, l, v), generation, limit)
  {
    hide Path;
    var cells' := Stored(cells, generation, l, v);
    forall s | 0 <= s < |cells'| && Live(cells', generation, s)
      ensures exists e | 0 <= e < limit ::
                s == Path(cells'[s].key, e, |cells'|) && Occupied(cells', generation, cells'[s].key, e)
    {
      if s == l.slot {
        OccupiedStays(cells, generation, l.key, d, l, v);
      } else {
        assert Live(cells, generation, s);
        var e :| 0 <= e < limit && s == Path(cells[s].key, e, |cells|) && Occupied(cells, generation, cells[s].key, e);
        OccupiedStays(cells, generation, cells[s].key, e, l, v);
        assert s == Path(cells'[s].key, e, |cells'|) && Occupied(cells', generation, cells'[s].key, e);
      }
    }
  }

  lemma OccupiedStays<V>(cells: seq<Cell<V>>, generation: nat, key: Key, d: nat, l: Lookup<V>, v: V)
    requires |cells| > 0 && Accepts(cells, generation, l) && Occupied(cells, generation, key, d)
    ensures Occupied(Stored(cells, generation, l, v), generation, key, d)
  {
    hide Path;
  }

  lemma StoreHolds<V>(cells: seq<Cell<V>>, generation: nat, m: map<Key, V>, l: Lookup<V>, v: V)
    requires Accepts(cells, generation, l) && Holds(cells, generation, m)
    requires forall s | 0 <= s < |cells| && s != l.slot && Live(cells, generation, s) :: cells[s].key != l.key
    ensures Holds(Stored(cells, generation, l, v), generation, m[l.key := v])
  {
    var cells', m' := Stored(cells, generation, l, v), m[l.key := v];
    forall s | 0 <= s < |cells'| && Live(cells', generation, s)
      ensures cells'[s].key in m' && m'[cells'[s].key] == cells'[s].value
    {
      assert s != l.slot ==> Live(cells, generation, s);
    }
    forall k | k in m' ensures exists s | 0 <= s < |cells'| :: Live(cells', generation, s) && cells'[s].key == k {
      if k == l.key {
        assert Live(cells', generation, l.slot);
      } else {
        var s :| 0 <= s < |cells| && Live(cells, generation, s) && cells[s].key == k;
        assert Live(cells', generation, s) && cells'[s].key == k;
      }
    }
  }

  /** Storing keeps every outstanding token matching. */
  lemma IssuedStays<V>(cells: seq<Cell<V>>, generation: nat, limit: nat, l: Lookup<V>, v: V, other: Lookup<V>)
    requires |cells| > 0 && Accepts(cells, generation, l) && Issued(cells, generation, limit, other)
    ensures Issued(Stored(cells, generation, l, v), generation, limit, other)
  {
    hide Path;
    if other.generation == generation && other.slot < |cells| {
      var d :| 0 <= d < limit && other.slot == Path(other.key, d, |cells|) && Occupied(cells, generation, other.key, d);
      OccupiedStays(cells, generation, other.key, d, l, v);
    }
  }

  /**
   The token condition is exact: when a store of a fresh key goes into a free cell, the key can be looked up
   afterwards if and only if the token matched the table. A token kept until its generation number comes
   round again may not match.
   */
  lemma StoredKeyFoundIffIssued<V>(cells: seq<Cell<V>>, generation: nat, m: map<Key, V>, limit: nat,
                                   l: Lookup<V>, v: V)
    requires |cells| > 0 && Accepts(cells, generation, l) && !Live(cells, generation, l.slot)
    requires KeysDistinct(cells, generation) && Reachable(cells, generation, limit) && Holds(cells, generation, m)
    requires l.key !in m
    ensures Probe(Stored(cells, generation, l, v), generation, l.key, limit, 0).value == Some(v)
       <==> Issued(cells, generation, limit, l)
  {
    hide Path, Probe;
    var cells' := Stored(cells, generation, l, v);
    if Issued(cells, generation, limit, l) {
      StoreIsMapUpdate(cells, generation, m, limit, l, v);
      ProbeCorrect(cells', generation, m[l.key := v], l.key, limit, 0);
    }
    if Probe(cells', generation, l.key, limit, 0).value == Some(v) {
      var d := ProbeFound(cells', generation, l.key, limit, 0);
      assert Path(l.key, d, |cells|) == l.slot;
      assert Occupied(cells, generation, l.key, d);
    }
  }

  lemma ProbeFound<V>(cells: seq<Cell<V>>, generation: nat, key: Key, limit: nat, d: nat) returns (e: nat)
    requires |cells| > 0 && d <= limit && Occupied(cells, generation, key, d)
    requires Probe(cells, generation, key, limit, d).value.Some?
    ensures e < limit && Live(cells, generation, Path(key, e, |cells|)) && cells[Path(key, e, |cells|)].key == key
    ensures Occupied(cells, generation, key, e)
    decreases limit - d
  {
    hide Path;
    var slot := Path(key, d, |cells|);
    if cells[slot].key == key {
      e := d;
    } else {
      e := ProbeFound(cells, generation, key, limit, d + 1);
    }
  }

  // ----- clearing -----

  function NextGeneration(generation: nat, generations: nat): nat {
    if generation + 1 == generations then 1 else generation + 1
  }

  /** After a clear: the cells, with their tags swept when the generation wraps. */
  function Cleared<V>(cells: seq<Cell<V>>, generation: nat, generations: nat): (r: seq<Cell<V>>)
    ensures |r| == |cells|
  {
    if generation + 1 == generations then seq(|cells|, s requires 0 <= s < |cells| => cells[s].(generation := 0)) else cells
  }

  // ----- the table -----

  class Table<V(0, ==, !new)> {
    const probeLimit: nat
    const generations: nat  // how many values the generation tag has
    var cells: array<Cell<V>>
    var generation: nat
    var size: nat

    ghost var model: map<Key, V>

    ghost predicate Shaped()
      reads this, cells
    {
      && cells.Length > 0 && 0 < probeLimit <= cells.Length
      && 2 < generations && 0 < generation < generations
      && (forall s | 0 <= s < cells.Length :: cells[s].generation <= generation)
    }

    /** The table is the map; a store through a token kept too long can end this, and the next clear restores it. */
    ghost predicate Valid()
      reads this, cells
    {
      && Shaped() && KeysDistinct(cells[..], generation) && Reachable(cells[..], generation, probeLimit)
      && Holds(cells[..], generation, model) && size == |model|
    }

    constructor (capacity: nat, probeLimit: nat, generations: nat, none: V)
      requires 0 < probeLimit <= capacity && 2 < generations
      ensures Valid() && fresh(cells) && cells.Length == capacity && model == map[] && generation == 1
    {
      this.probeLimit, this.generations := probeLimit, generations;
      generation, size, model := 1, 0, map[];
      cells := new Cell<V>[capacity](_ => Cell(Key(0), none, 0));
    }

    method Find(key: Key) returns (result: Lookup<V>)
      requires Shaped()
      ensures result == Probe(cells[..], generation, key, probeLimit, 0)
      ensures Valid() ==> result.value == if key in model then Some(model[key]) else None
      ensures Valid() ==> result.key == key && result.generation == generation
                          && Issued(cells[..], generation, probeLimit, result)
    {
      hide Bucket, Reachable, KeysDistinct, Holds, Issued;
      if Valid() {
        ProbeCorrect(cells[..], generation, model, key, probeLimit, 0) by {
          OccupiedNone(cells[..], generation, key);
        }
      }
      result := Lookup(None, key, cells.Length, 0, generation);
      var slot := Bucket(key, cells.Length);
      var step := 0;
      while step < probeLimit
        invariant 0 <= step <= probeLimit && slot == Path(key, step, cells.Length)
        invariant result == Lookup(None, key, cells.Length, step, generation)
        invariant Probe(cells[..], generation, key, probeLimit, step)
               == Probe(cells[..], generation, key, probeLimit, 0)
      {
        result := result.(probes := result.probes + 1);
        if cells[slot].generation != generation {
          result := result.(slot := slot);
          return;
        }
        if cells[slot].key == key {
          result := result.(slot := slot, value := Some(cells[slot].value));
          return;
        }
        step, slot := step + 1, Next(slot, cells.Length);
      }
    }

    /** Any lookup may be presented; the table stays a map when it is one that `TokensHonoured` speaks of. */
    method Store(lookup: Lookup<V>, value: V) returns (ok: bool)
      requires Shaped()
      modifies `size, `model, cells
      ensures Shaped() && (old(Valid() && Issued(cells[..], generation, probeLimit, lookup)) ==> Valid())
      ensures ok <==> Accepts(old(cells[..]), generation, lookup)
      ensures model == if ok then old(model)[lookup.key := value] else old(model)
      ensures cells[..] == if ok then Stored(old(cells[..]), generation, lookup, value) else old(cells[..])
      ensures size == old(size) + if ok && !Live(old(cells[..]), generation, lookup.slot) then 1 else 0
    {
      hide Reachable, KeysDistinct, Holds, Issued;
      ghost var before := cells[..];
      if lookup.slot >= cells.Length || lookup.generation != generation {
        return false;
      }
      var cell := cells[lookup.slot];
      if cell.generation == generation && cell.key != lookup.key {
        return false;
      }
      if Valid() && Issued(before, generation, probeLimit, lookup) {
        StoreIsMapUpdate(before, generation, model, probeLimit, lookup, value);
        StoreGrows(before, generation, model, probeLimit, lookup);
      }
      if cell.generation != generation {
        size := size + 1;
      }
      model := model[lookup.key := value];
      cells[lookup.slot] := Cell(lookup.key, value, generation);
      assert cells[..] == Stored(before, generation, lookup, value);
      return true;
    }

    /** Empties the map; true only when the generation wraps and the tags are swept. */
    method Clear() returns (swept: bool)
      requires Shaped()
      modifies this, cells
      ensures Valid() && cells == old(cells) && model == map[] && size == 0
      ensures swept <==> old(generation) + 1 == generations
      ensures generation == NextGeneration(old(generation), generations)
      ensures cells[..] == Cleared(old(cells[..]), old(generation), generations)
    {
      hide Reachable, KeysDistinct, Holds;
      size, model := 0, map[];
      generation := if generation + 1 == generations then 0 else generation + 1;
      swept := generation == 0;
      if swept {
        SweepTags();
        generation := 1;
      }
      NothingLive(cells[..], generation, probeLimit);
    }

    method SweepTags()
      modifies cells
      ensures forall s | 0 <= s < cells.Length :: cells[s] == old(cells[s]).(generation := 0)
    {
      for i := 0 to cells.Length
        invariant forall s | 0 <= s < i :: cells[s] == old(cells[s]).(generation := 0)
        invariant forall s | i <= s < cells.Length :: cells[s] == old(cells[s])
      {
        cells[i] := cells[i].(generation := 0);
      }
    }
  }

  lemma NothingLive<V>(cells: seq<Cell<V>>, generation: nat, limit: nat)
    requires forall s | 0 <= s < |cells| :: cells[s].generation != generation
    ensures KeysDistinct(cells, generation) && Reachable(cells, generation, limit) && Holds(cells, generation, map[])
  {}

  lemma OccupiedNone<V>(cells: seq<Cell<V>>, generation: nat, key: Key)
    requires |cells| > 0
    ensures Occupied(cells, generation, key, 0)
  {}

  /** A store into a free cell is a store of a new key. */
  lemma StoreGrows<V>(cells: seq<Cell<V>>, generation: nat, m: map<Key, V>, limit: nat, l: Lookup<V>)
    requires |cells| > 0 && Accepts(cells, generation, l) && Issued(cells, generation, limit, l)
    requires Reachable(cells, generation, limit) && Holds(cells, generation, m)
    ensures l.key in m <==> Live(cells, generation, l.slot)
  {
    hide Path;
    var d :| 0 <= d < limit && l.slot == Path(l.key, d, |cells|) && Occupied(cells, generation, l.key, d);
    if !Live(cells, generation, l.slot) {
      AbsentBeyond(cells, generation, l.key, limit, d);
    }
  }

  /** A lookup is good until the next clear, and a clear retires every lookup made since the one before. */
  lemma ClearRetiresTokens<V>(cells: seq<Cell<V>>, generation: nat, generations: nat, limit: nat, l: Lookup<V>)
    requires |cells| > 0 && 2 < generations && 0 < generation < generations && l.generation == generation
    ensures var next := NextGeneration(generation, generations);
            Issued(cells, next, limit, l) && !Accepts(cells, next, l)
  {}

  // ----- whole runs -----

  /** An answer of Find, and how many clears came before it. */
  datatype Token<V> = Token(lookup: Lookup<V>, born: nat)

  /** The table's cells and generation, the map they should stand for, all clears so far and every token given out. */
  datatype Machine<V> = Machine(cells: seq<Cell<V>>, generation: nat, m: map<Key, V>, clears: nat, tokens: seq<Token<V>>)

  datatype Op<V> = Finding(key: Key) | Storing(token: nat, value: V) | Clearing

  /** The limits of a table: how far it probes and how many values the generation tag has. */
  datatype Limits = Limits(probes: nat, generations: nat)

  /** A store presents a token with fewer clears since than the generation tag tells apart. */
  predicate Can<V>(c: Limits, x: Machine<V>, op: Op<V>) {
    op.Storing? ==> op.token < |x.tokens| && Young(c, x, x.tokens[op.token])
  }

  predicate Young<V>(c: Limits, x: Machine<V>, t: Token<V>) {
    t.born <= x.clears < t.born + c.generations - 1
  }

  function Step<V>(c: Limits, x: Machine<V>, op: Op<V>): Machine<V>
    requires |x.cells| > 0 && (op.Storing? ==> op.token < |x.tokens|)
  {
    match op
    case Finding(key) => x.(tokens := x.tokens + [Token(Probe(x.cells, x.generation, key, c.probes, 0), x.clears)])
    case Storing(token, value) =>
      var l := x.tokens[token].lookup;
      if Accepts(x.cells, x.generation, l)
      then x.(cells := Stored(x.cells, x.generation, l, value), m := x.m[l.key := value])
      else x
    case Clearing =>
      x.(cells := Cleared(x.cells, x.generation, c.generations),
         generation := NextGeneration(x.generation, c.generations), m := map[], clears := x.clears + 1)
  }

  /** The generation after some clears. */
  function GenerationAt(clears: nat, generations: nat): (g: nat)
    requires generations > 2
    ensures 0 < g < generations
  {
    if clears == 0 then 1 else NextGeneration(GenerationAt(clears - 1, generations), generations)
  }

  ghost predicate Sized<V>(c: Limits, x: Machine<V>) {
    && |x.cells| > 0 && 0 < c.probes <= |x.cells| && c.generations > 2
    && x.generation == GenerationAt(x.clears, c.generations)
    && forall s | 0 <= s < |x.cells| :: x.cells[s].generation <= x.generation
  }

  ghost predicate IsMap<V>(c: Limits, x: Machine<V>)
    requires |x.cells| > 0
  {
    KeysDistinct(x.cells, x.generation) && Reachable(x.cells, x.generation, c.probes) && Holds(x.cells, x.generation, x.m)
  }

  /** A token names the place where probing for its key stopped, as long as no clear came since. */
  ghost predicate TokenOk<V>(c: Limits, x: Machine<V>, t: Token<V>)
    requires |x.cells| > 0 && c.generations > 2
  {
    && t.born <= x.clears && t.lookup.generation == GenerationAt(t.born, c.generations)
    && (t.born == x.clears ==> Issued(x.cells, x.generation, c.probes, t.lookup))
  }

  ghost predicate Inv<V>(c: Limits, x: Machine<V>) {
    Sized(c, x) && IsMap(c, x) && forall i | 0 <= i < |x.tokens| :: TokenOk(c, x, x.tokens[i])
  }

  /** The generation counts up from any point, starting over at 1, so less than a cycle later it differs. */
  lemma {:induction false} GenerationLater(clears: nat, later: nat, generations: nat)
    requires generations > 2 && later < generations - 1
    ensures var g := GenerationAt(clears, generations);
            GenerationAt(clears + later, generations)
            == if g + later < generations then g + later else g + later - (generations - 1)
  {
    if later > 0 {
      GenerationLater(clears, later - 1, generations);
    }
  }

  /** A token with fewer clears since than a cycle matches the table. */
  lemma YoungIsIssued<V>(c: Limits, x: Machine<V>, t: Token<V>)
    requires Sized(c, x) && TokenOk(c, x, t) && Young(c, x, t)
    ensures Issued(x.cells, x.generation, c.probes, t.lookup)
  {
    hide GenerationAt;
    if t.born < x.clears {
      GenerationLater(t.born, x.clears - t.born, c.generations);
    }
  }

  lemma FindKeeps<V>(c: Limits, x: Machine<V>, key: Key)
    requires Inv(c, x)
    ensures Inv(c, Step(c, x, Finding(key)))
  {
    hide Path, Probe, Issued, KeysDistinct, Reachable, Holds, GenerationAt;
    OccupiedNone(x.cells, x.generation, key);
    ProbeCorrect(x.cells, x.generation, x.m, key, c.probes, 0);
    var y := Step(c, x, Finding(key));
    forall i | 0 <= i < |y.tokens| ensures TokenOk(c, y, y.tokens[i]) {
      if i < |x.tokens| { assert TokenOk(c, x, x.tokens[i]); }
    }
  }

  lemma StoreKeeps<V>(c: Limits, x: Machine<V>, token: nat, value: V)
    requires Inv(c, x) && Can(c, x, Storing(token, value))
    ensures Inv(c, Step(c, x, Storing(token, value)))
  {
    hide Path, Issued, KeysDistinct, Reachable, Holds, GenerationAt;
    var l := x.tokens[token].lookup;
    if Accepts(x.cells, x.generation, l) {
      YoungIsIssued(c, x, x.tokens[token]);
      StoreIsMapUpdate(x.cells, x.generation, x.m, c.probes, l, value);
      var y := Step(c, x, Storing(token, value));
      forall i | 0 <= i < |y.tokens| ensures TokenOk(c, y, y.tokens[i]) {
        assert TokenOk(c, x, x.tokens[i]);
        if x.tokens[i].born == x.clears {
          IssuedStays(x.cells, x.generation, c.probes, l, value, x.tokens[i].lookup);
        }
      }
    }
  }

  lemma ClearKeeps<V>(c: Limits, x: Machine<V>)
    requires Inv(c, x)
    ensures Inv(c, Step(c, x, Clearing))
  {
    hide Path, Issued, KeysDistinct, Reachable, Holds;
    var y := Step(c, x, Clearing);
    NothingLive(y.cells, y.generation, c.probes);
    forall i | 0 <= i < |y.tokens| ensures TokenOk(c, y, y.tokens[i]) {
      assert TokenOk(c, x, x.tokens[i]);
    }
  }

  ghost predicate Legal<V>(c: Limits, x: Machine<V>, ops: seq<Op<V>>)
    requires |x.cells| > 0
    decreases |ops|
  {
    ops == [] || (Can(c, x, ops[0]) && Legal(c, Step(c, x, ops[0]), ops[1..]))
  }

  function Run<V>(c: Limits, x: Machine<V>, ops: seq<Op<V>>): Machine<V>
    requires |x.cells| > 0 && Legal(c, x, ops)
    decreases |ops|
  {
    if ops == [] then x else Run(c, Step(c, x, ops[0]), ops[1..])
  }

  function Empty<V>(capacity: nat, none: V): Machine<V> {
    Machine(seq(capacity, _ => Cell(Key(0), none, 0)), 1, map[], 0, [])
  }

  lemma {:induction false} RunKeeps<V>(c: Limits, x: Machine<V>, ops: seq<Op<V>>)
    requires Inv(c, x) && Legal(c, x, ops)
    ensures Inv(c, Run(c, x, ops))
    decreases |ops|
  {
    if ops != [] {
      match ops[0] {
        case Finding(key) => FindKeeps(c, x, key);
        case Storing(token, value) => StoreKeeps(c, x, token, value);
        case Clearing => ClearKeeps(c, x);
      }
      hide Inv, Step, Can;
      RunKeeps(c, Step(c, x, ops[0]), ops[1..]);
    }
  }

  /**
   After every run in which no store presents a token older than a cycle of the generation: probing answers as the
   map of the accepted stores since the last clear does, the live cells are as many as its keys, and every token
   younger than a cycle names the place where probing for its key stops.
   */
  lemma TokensHonoured<V>(c: Limits, capacity: nat, none: V, ops: seq<Op<V>>, key: Key)
    requires 0 < c.probes <= capacity && c.generations > 2 && Legal(c, Empty(capacity, none), ops)
    ensures var x := Run(c, Empty(capacity, none), ops);
            && |x.cells| > 0
            && Probe(x.cells, x.generation, key, c.probes, 0).value == (if key in x.m then Some(x.m[key]) else None)
            && |x.m| == |LiveSlots(x.cells, x.generation)|
            && forall t | t in x.tokens && Young(c, x, t) :: Issued(x.cells, x.generation, c.probes, t.lookup)
  {
    hide Path, Probe, Issued, KeysDistinct, Reachable, Holds, Legal, Run, LiveSlots;
    var start := Empty(capacity, none);
    NothingLive(start.cells, 1, c.probes);
    RunKeeps(c, start, ops);
    var x := Run(c, start, ops);
    OccupiedNone(x.cells, x.generation, key);
    ProbeCorrect(x.cells, x.generation, x.m, key, c.probes, 0);
    HoldsSize(x.cells, x.generation, x.m);
    forall t | t in x.tokens && Young(c, x, t) ensures Issued(x.cells, x.generation, c.probes, t.lookup) {
      YoungIsIssued(c, x, t);
    }
  }

  // ----- a token kept a cycle too long -----

  /** Two cells, two probes and two live generations. */
  const SMALL: Limits := Limits(2, 3)

  const FIRST: Key := Key(0)
  const SECOND: Key := Key(2)

  /** Both keys begin at cell 0, so the second goes to cell 1 when the first is there. */
  lemma SameBucket()
    ensures Path(FIRST, 0, 2) == 0 && Path(SECOND, 0, 2) == 0 && Path(SECOND, 1, 2) == 1
  {
    assert Hash(FIRST) == 0;
  }

  /** The first key is stored and the second looked up; then two clears bring the same generation back. */
  function AfterCycle<V>(none: V, v: V): Machine<V> {
    var x1 := Step(SMALL, Empty(2, none), Finding(FIRST));
    var x2 := Step(SMALL, x1, Storing(0, v));
    var x3 := Step(SMALL, x2, Finding(SECOND));
    Step(SMALL, Step(SMALL, x3, Clearing), Clearing)
  }

  lemma AfterCycleIs<V>(none: V, v: V)
    ensures Can(SMALL, Step(SMALL, Empty(2, none), Finding(FIRST)), Storing(0, v))
    ensures var x := AfterCycle(none, v);
            && x.cells == [Cell(FIRST, v, 0), Cell(Key(0), none, 0)] && x.generation == 1 && x.m == map[] && x.clears == 2
            && |x.tokens| == 2 && x.tokens[1] == Token(Lookup(None, SECOND, 1, 2, 1), 0)
  {
    SameBucket();
    hide Path;
    var x0 := Empty(2, none);
    var free := Cell(Key(0), none, 0);
    assert x0.cells == [free, free];
    assert Probe(x0.cells, 1, FIRST, 2, 0) == Lookup(None, FIRST, 0, 1, 1);
    var x2 := Step(SMALL, Step(SMALL, x0, Finding(FIRST)), Storing(0, v));
    assert x2.cells == [Cell(FIRST, v, 1), free];
    SecondProbe(x2.cells, 1);
    var x4 := Step(SMALL, Step(SMALL, x2, Finding(SECOND)), Clearing);
    assert x4.cells == x2.cells && x4.generation == 2;
  }

  /** Where the second key goes. */
  lemma SecondProbe<V>(cells: seq<Cell<V>>, generation: nat)
    requires |cells| == 2
    ensures cells[0].generation == generation && cells[0].key == FIRST && cells[1].generation != generation ==>
              Probe(cells, generation, SECOND, 2, 0) == Lookup(None, SECOND, 1, 2, generation)
    ensures cells[0].generation != generation ==>
              Probe(cells, generation, SECOND, 2, 0) == Lookup(None, SECOND, 0, 1, generation)
  {
    SameBucket();
    hide Path;
    assert FIRST != SECOND;
    assert cells[0].generation == generation && cells[0].key == FIRST ==>
        Probe(cells, generation, SECOND, 2, 0) == Probe(cells, generation, SECOND, 2, 1);
  }

  /**
   The second key's token is exactly one cycle old. The table accepts it and stores the key where probing does not
   look, so the key cannot be found.
   */
  lemma StaleTokenLosesKey<V>(none: V, v: V, w: V)
    ensures var x := AfterCycle(none, v);
            var l := x.tokens[1].lookup;
            && x.clears == x.tokens[1].born + SMALL.generations - 1 && !Can(SMALL, x, Storing(1, w))
            && Accepts(x.cells, x.generation, l) && !Issued(x.cells, x.generation, SMALL.probes, l)
            && var y := Step(SMALL, x, Storing(1, w));
               y.m == map[SECOND := w] && Probe(y.cells, y.generation, SECOND, SMALL.probes, 0).value == None
  {
    AfterCycleIs(none, v);
    hide AfterCycle, Path, Probe;
    var x := AfterCycle(none, v);
    var y := Step(SMALL, x, Storing(1, w));
    assert y.cells == [Cell(FIRST, v, 0), Cell(SECOND, w, 1)];
    SecondProbe(y.cells, 1);
    SameBucket();
    assert !Live(x.cells, 1, Path(SECOND, 0, 2));
    assert !Occupied(x.cells, 1, SECOND, 1);
  }
}
