/** The bounded-probe hash map as the program changes it in place: every operation does to the map it
    stands for what its name says, and growing keeps that map. */
module BoundedHashMap {
  import opened Collections
  import opened HashGrowth
  import opened HashTable

  class HashMap {
    const hash: Hash
    var tableSize: nat
    var size: nat
    var data: array<Slot>

    ghost predicate Valid()
      reads this, data
    {
      && data.Length == tableSize && PowerOfTwo(tableSize) && tableSize < WORD
      && WellFormed(data[..], hash) && size == InUse(data[..])
    }

    ghost function Map(): map<Key, Pointer>
      reads this, data
    {
      Contents(data[..])
    }

    /** Creation fails for a size that is no power of two, and when there is no memory. */
    static method Create(hash: Hash, initialSize: nat, memory: bool) returns (m: HashMap?)
      requires initialSize < WORD
      ensures m != null <==> PowerOfTwo(initialSize) && memory
      ensures m != null ==> fresh(m) && fresh(m.data) && m.Valid() && m.Map() == map[]
      ensures m != null ==> m.tableSize == initialSize && m.hash == hash && m.data[..] == Blanks(initialSize)
    {
      if !PowerOfTwo(initialSize) || !memory {
        return null;
      }
      m := new HashMap(hash, initialSize);
    }

    constructor (hash: Hash, initialSize: nat)
      requires PowerOfTwo(initialSize) && initialSize < WORD
      ensures fresh(data) && Valid() && Map() == map[] && tableSize == initialSize && this.hash == hash
      ensures data[..] == Blanks(initialSize)
    {
      this.hash, tableSize, size := hash, initialSize, 0;
      data := new Slot[initialSize](i => BLANK);
      new;
      AllBlank(data[..]);
    }

    static lemma {:induction false} AllBlank(slots: seq<Slot>)
      requires forall i :: 0 <= i < |slots| ==> !slots[i].inUse
      ensures Contents(slots) == map[] && InUse(slots) == 0
    {
      if slots != [] {
        AllBlank(slots[..|slots| - 1]);
      }
    }

    method NumEntries() returns (n: nat)
      requires Valid()
      ensures n == |Map()|
    {
      ContentsSize(data[..]);
      n := size;
    }

    /** Looks a key up in the probe window. */
    method Locate(key: Key) returns (found: bool, curr: nat)
      requires Valid()
      ensures found <==> key in Map()
      ensures found ==> curr < tableSize && data[curr].inUse && data[curr].key == key && Map()[key] == data[curr].data
    {
      hide KeysInWindow, Contents, InUse, PowerOfTwo;
      var start := hash(key) % tableSize;
      curr := start;
      ProbeStart(start, tableSize);
      for i := 0 to MAX_CHAIN_LENGTH
        invariant curr == Probe(start, i, tableSize)
        invariant forall l: nat :: l < i ==> !Holds(data[..], Probe(start, l, tableSize), key)
      {
        if data[curr].inUse && data[curr].key == key {
          ContentsAt(data[..], curr);
          return true, curr;
        }
        ProbeNext(start, i, tableSize);
        curr := (curr + 1) % tableSize;
      }
      FoundByProbing(data[..], hash, key);
      found := false;
    }

    /** A null result says nothing about whether the key is there with a null value. */
    method Get(key: Key) returns (value: Pointer)
      requires Valid()
      ensures value == if key in Map() then Map()[key] else 0
    {
      var found, curr := Locate(key);
      value := if found then data[curr].data else 0;
    }

    method Remove(key: Key) returns (ok: bool)
      requires Valid()
      modifies `size, data
      ensures Valid() && Map() == old(Map()) - {key}
      ensures ok <==> key in old(Map())
    {
      var curr;
      ok, curr := Locate(key);
      if ok {
        Blank(curr, BLANK);
      } else {
        assert Map() - {key} == Map();
      }
    }

    /** Null unless the key was there. */
    method RemoveAndReturnKey(key: Key) returns (storedKey: seq<Key>)
      requires Valid()
      modifies `size, data
      ensures Valid() && Map() == old(Map()) - {key}
      ensures storedKey == if key in old(Map()) then [key] else []
    {
      var found, curr := Locate(key);
      if found {
        storedKey := [data[curr].key];
        Blank(curr, Slot([], false, 0));
      } else {
        storedKey := [];
        assert Map() - {key} == Map();
      }
    }

    method Blank(curr: nat, blank: Slot)
      requires Valid() && curr < tableSize && data[curr].inUse && !blank.inUse
      modifies `size, data
      ensures Valid() && Map() == old(Map()) - {old(data[curr].key)}
      ensures data[..] == old(data[..])[curr := blank]
    {
      ContentsRemove(data[..], curr, blank);
      InUseUpdate(data[..], curr, blank);
      StillInWindow(data[..], hash, curr, blank);
      data[curr] := blank;
      assert data[..] == old(data[..])[curr := blank];
      size := size - 1;
    }

    static lemma StillInWindow(slots: seq<Slot>, hash: Hash, i: nat, s: Slot)
      requires KeysInWindow(slots, hash) && i < |slots|
      requires s.inUse ==> InWindow(hash(s.key) % |slots|, |slots|, i)
      ensures KeysInWindow(slots[i := s], hash)
    {
      var after := slots[i := s];
      forall p | 0 <= p < |after| && after[p].inUse
        ensures InWindow(hash(after[p].key) % |after|, |after|, p)
      {
        assert p != i ==> after[p] == slots[p];
      }
    }

    static ghost predicate WindowFull(slots: seq<Slot>, start: nat)
      requires slots != []
    {
      forall i: nat :: i < MAX_CHAIN_LENGTH ==> slots[Probe(start, i, |slots|)].inUse
    }

    /** The first probe: the slot that holds the key, or how many slots of the window are in use. */
    method ProbeForKey(key: Key) returns (found: bool, curr: nat, totalInUse: nat)
      requires Valid()
      ensures found <==> key in Map()
      ensures var held := FirstHeld(data[..], hash(key) % tableSize, key, 0);
        found == held.Some? && (found ==> held == Some(curr))
      ensures !found ==> (totalInUse == MAX_CHAIN_LENGTH <==> WindowFull(data[..], hash(key) % tableSize))
    {
      hide KeysInWindow, KeysUnique, Contents, InUse, PowerOfTwo, FirstHeld;
      var start := hash(key) % tableSize;
      curr, totalInUse := start, 0;
      ProbeStart(start, tableSize);
      for i := 0 to MAX_CHAIN_LENGTH
        invariant curr == Probe(start, i, tableSize) && totalInUse <= i
        invariant forall l: nat :: l < i ==> !Holds(data[..], Probe(start, l, tableSize), key)
        invariant totalInUse < i ==> exists l: nat :: l < i && !data[Probe(start, l, tableSize)].inUse
        invariant totalInUse == i ==> forall l: nat :: l < i ==> data[Probe(start, l, tableSize)].inUse
        invariant FirstHeld(data[..], start, key, 0) == FirstHeld(data[..], start, key, i)
      {
        HeldStep(data[..], start, key, i);
        if data[curr].inUse {
          totalInUse := totalInUse + 1;
          if data[curr].key == key {
            HeldInMap(data[..], hash, curr);
            return true, curr, totalInUse;
          }
        }
        ProbeNext(start, i, tableSize);
        curr := (curr + 1) % tableSize;
      }
      FoundByProbing(data[..], hash, key);
      NoneHeld(data[..], start, key);
      found := false;
    }

    static lemma HeldInMap(slots: seq<Slot>, hash: Hash, i: nat)
      requires WellFormed(slots, hash) && i < |slots| && slots[i].inUse
      ensures slots[i].key in Contents(slots)
    {
      ContentsAt(slots, i);
    }

    static lemma HeldStep(slots: seq<Slot>, start: nat, key: Key, i: nat)
      requires slots != [] && i < MAX_CHAIN_LENGTH
      ensures var p := Probe(start, i, |slots|);
        FirstHeld(slots, start, key, i) == if Holds(slots, p, key) then Some(p) else FirstHeld(slots, start, key, i + 1)
    {
    }

    static lemma NoneHeld(slots: seq<Slot>, start: nat, key: Key)
      requires slots != []
      ensures FirstHeld(slots, start, key, MAX_CHAIN_LENGTH) == None
    {
    }

    /** The second probe: the first free slot of a window that has one. */
    method ProbeForFree(start: nat) returns (curr: nat)
      requires Valid() && start < tableSize && !WindowFull(data[..], start)
      ensures FirstFree(data[..], start, 0) == Some(curr) && InWindow(start, tableSize, curr)
    {
      hide KeysInWindow, Contents, InUse, PowerOfTwo;
      curr := start;
      ProbeStart(start, tableSize);
      for i := 0 to MAX_CHAIN_LENGTH
        invariant curr == Probe(start, i, tableSize)
        invariant forall l: nat :: l < i ==> data[Probe(start, l, tableSize)].inUse
        invariant FirstFree(data[..], start, 0) == FirstFree(data[..], start, i)
      {
        if !data[curr].inUse {
          return;
        }
        ProbeNext(start, i, tableSize);
        curr := (curr + 1) % tableSize;
      }
    }

    /** The slot for a key: where it is, or else the first free slot of its window. Fails on a full table,
        even for a key that is there, and when the window is full. */
    method FindSlot(key: Key) returns (found: bool, index: nat)
      requires Valid()
      ensures found ==> size < tableSize && index < tableSize && InWindow(hash(key) % tableSize, tableSize, index)
      ensures found ==> if key in Map() then Holds(data[..], index, key) else !data[index].inUse
      ensures !found ==> size == tableSize || (key !in Map() && WindowFull(data[..], hash(key) % tableSize))
      ensures SlotFor(data[..], hash, key) == if found then Some(index) else None
    {
      hide Contents, InUse, PowerOfTwo, FirstHeld, FirstFree, WindowFull, InWindow;
      if size >= tableSize {
        return false, 0;
      }
      var totalInUse;
      found, index, totalInUse := ProbeForKey(key);
      if !found {
        if totalInUse == MAX_CHAIN_LENGTH {
          FullWindow(data[..], hash(key) % tableSize, 0);
        } else {
          index := ProbeForFree(hash(key) % tableSize);
          found := true;
        }
      }
    }

    /** A window without a free slot has no first one. */
    static lemma {:induction false} FullWindow(slots: seq<Slot>, start: nat, i: nat)
      requires slots != [] && WindowFull(slots, start) && i <= MAX_CHAIN_LENGTH
      ensures FirstFree(slots, start, i) == None
      decreases MAX_CHAIN_LENGTH - i
    {
      if i < MAX_CHAIN_LENGTH {
        FullWindow(slots, start, i + 1);
      }
    }

    /** `memory` allocations still succeed, `left` of them afterwards. On success the map gains or changes the one
        key; that needs no growing if there is a slot. A failure leaves the table, which may have grown before,
        emptied up to the entry that could not be moved: entries are lost but none is invented. */
    method Put(key: Key, value: Pointer, memory: nat) returns (ok: bool, left: nat)
      requires Valid()
      modifies this, data
      ensures Valid() && (data == old(data) || fresh(data)) && tableSize >= old(tableSize)
      ensures Refines(ok, left, PutSlots(old(data[..]), hash, key, value, memory))
      ensures ok ==> Map() == old(Map())[key := value]
      ensures old(size < tableSize && (key in Map() || !WindowFull(data[..], hash(key) % tableSize))) ==>
        ok && left == memory && data == old(data)
      ensures !ok ==> SubMap(Map(), old(Map()))
      ensures !ok ==> var (last, m) := LastTable(old(data[..]), hash, key, memory);
        && Contents(last) == old(Map()) && exists k: nat :: k < |last| && EmptiedUpTo(last, data[..], k)
      ensures !ok ==> var (last, m) := LastTable(old(data[..]), hash, key, memory);
        Map() == old(Map()) <==> m == 0 || 2 * tableSize == WORD
      decreases WORD - tableSize, 1
    {
      hide PutSlots, RehashSlots, LastTable, Contents, InUse, KeysInWindow, KeysUnique, EmptiedUpTo;
      left := memory;
      var found, index: nat := FindSlot(key);
      while !found
        invariant Valid() && (data == old(data) || fresh(data)) && tableSize >= old(tableSize)
        invariant Map() == old(Map())
        invariant SlotFor(data[..], hash, key) == if found then Some(index) else None
        invariant found ==> index < tableSize && InWindow(hash(key) % tableSize, tableSize, index)
        invariant found ==> if key in Map() then Holds(data[..], index, key) else !data[index].inUse
        invariant PutSlots(old(data[..]), hash, key, value, memory) == PutSlots(data[..], hash, key, value, left)
        invariant LastTable(old(data[..]), hash, key, memory) == LastTable(data[..], hash, key, left)
        invariant old(size < tableSize && (key in Map() || !WindowFull(data[..], hash(key) % tableSize))) ==>
          found && left == memory && data == old(data)
        decreases WORD - tableSize, !found
      {
        ghost var before := data[..];
        var grown;
        PutGrows(before, hash, key, value, left);
        LastStep(before, hash, key, left);
        ghost var m := left;
        grown, left := Rehash(left);
        if !grown {
          NoSlotSomebodyIn(before, hash, key);
          FailureTold(before, hash, m, data[..]);
          return false, left;
        }
        found, index := FindSlot(key);
      }
      PutStores(data[..], hash, key, value, left);
      Store(index, key, value);
      ok := true;
    }

    /** What is left after a failing rehash. */
    static lemma FailureTold(before: seq<Slot>, hash: Hash, memory: nat, after: seq<Slot>)
      requires TableSize(|before|) && WellFormed(before, hash) && WellFormed(after, hash)
      requires InUse(before) > 0 && !RehashSlots(before, hash, memory).outcome.Done?
      requires after == RehashSlots(before, hash, memory).slots
      requires exists k: nat :: k < |before| && EmptiedUpTo(before, after, k)
      ensures SubMap(Contents(after), Contents(before))
      ensures Contents(after) == Contents(before) <==> memory == 0 || 2 * |before| == WORD
    {
      hide RehashSlots, Contents, KeysInWindow;
      var k: nat :| k < |before| && EmptiedUpTo(before, after, k);
      EmptiedSubMap(before, after, k);
      LostExactly(before, hash, memory);
    }

    /** The result is the specified one, for whatever reason it failed. */
    ghost predicate Refines(ok: bool, left: nat, spec: Grown)
      reads this, data
    {
      spec.outcome.Done? == ok && spec.slots == data[..] && spec.memory == left
    }

    method Store(index: nat, key: Key, value: Pointer)
      requires Valid() && index < tableSize && InWindow(hash(key) % |data[..]|, |data[..]|, index)
      requires if key in Map() then Holds(data[..], index, key) else !data[index].inUse
      modifies `size, data
      ensures Valid() && Map() == old(Map())[key := value]
      ensures data[..] == old(data[..])[index := Slot(key, true, value)]
    {
      ghost var slots := data[..];
      var slot := Slot(key, true, value);
      forall j | 0 <= j < |slots| && j != index && slots[j].inUse
        ensures slots[j].key != key
      {
        ContentsAt(slots, j);
      }
      ContentsPut(slots, index, slot);
      InUseUpdate(slots, index, slot);
      StillInWindow(slots, hash, index, slot);
      if !data[index].inUse {
        size := size + 1;
      }
      data[index] := slot;
      assert data[..] == slots[index := slot];
    }

    /** On success the table has at least doubled and stands for the same map. A failure leaves the table
        emptied up to the entry that could not be moved. Entries are lost exactly when there are any and the
        larger table could be made. */
    method Rehash(memory: nat) returns (ok: bool, left: nat)
      requires Valid()
      modifies this, data
      ensures Valid()
      ensures Refines(ok, left, RehashSlots(old(data[..]), hash, memory))
      ensures ok ==> fresh(data) && Map() == old(Map()) && tableSize >= 2 * old(tableSize)
      ensures !ok ==> data == old(data) && tableSize == old(tableSize)
      ensures !ok ==> exists k: nat :: k < tableSize && EmptiedUpTo(old(data[..]), data[..], k)
      decreases WORD - tableSize, 0
    {
      hide KeysInWindow, InUse, KeysUnique, MoveSlots, Contents;
      var newSize := 2 * tableSize % WORD;
      var newHash := Create(hash, newSize, memory > 0);
      if newHash == null {
        assert EmptiedUpTo(old(data[..]), data[..], 0);
        return false, memory;
      }
      HashGrowth.Doubled(tableSize);
      left := memory - 1;
      AllBlank(data[..0]);
      for i := 0 to tableSize
        invariant Valid() && data == old(data) && tableSize == old(tableSize)
        invariant fresh(newHash) && fresh(newHash.data) && newHash.hash == hash && newHash.Valid()
        invariant newHash.tableSize >= 2 * tableSize
        invariant EmptiedUpTo(old(data[..]), data[..], i)
        invariant newHash.Map() == Contents(old(data[..])[..i])
        invariant RehashSlots(old(data[..]), hash, memory) == MoveSlots(data[..], i, newHash.data[..], hash, left)
      {
        var moved;
        moved, left := MoveIfUsed(newHash, i, left, old(data[..]));
        if !moved {
          return false, left;
        }
      }
      assert old(data[..])[..tableSize] == old(data[..]);
      MoveEnds(data[..], newHash.data[..], hash, left);
      tableSize, size, data := newHash.tableSize, newHash.size, newHash.data;
      ok := true;
    }

    /** One iteration of the loop over the old slots; `before` is what the loop started from. */
    method MoveIfUsed(newHash: HashMap, i: nat, memory: nat, ghost before: seq<Slot>) returns (moved: bool, left: nat)
      requires Valid() && newHash.Valid() && newHash != this && newHash.data != data && newHash.tableSize > tableSize
      requires i < tableSize && newHash.hash == hash
      requires EmptiedUpTo(before, data[..], i) && newHash.Map() == Contents(before[..i])
      modifies `size, data, newHash, newHash.data
      ensures Valid() && newHash.Valid() && (newHash.data == old(newHash.data) || fresh(newHash.data))
      ensures newHash.tableSize >= old(newHash.tableSize)
      ensures moved ==> EmptiedUpTo(before, data[..], i + 1) && newHash.Map() == Contents(before[..i + 1])
      ensures moved ==> MoveSlots(old(data[..]), i, old(newHash.data[..]), hash, memory)
                        == MoveSlots(data[..], i + 1, newHash.data[..], hash, left)
      ensures !moved ==> data[..] == old(data[..])
      ensures !moved ==> Refines(false, left, MoveSlots(old(data[..]), i, old(newHash.data[..]), hash, memory))
      decreases WORD - newHash.tableSize, 3
    {
      hide WellFormed, InUse, PowerOfTwo, MoveSlots, PutSlots;
      moved, left := true, memory;
      assert before[..i + 1][..i] == before[..i];
      MoveStep(data[..], i, newHash.data[..], hash, memory);
      if data[i].inUse {
        moved, left := MoveSlot(newHash, i, memory);
      }
    }

    /** Moves one entry to the new table; the old one keeps it when that fails. */
    method MoveSlot(newHash: HashMap, i: nat, memory: nat) returns (moved: bool, left: nat)
      requires Valid() && newHash.Valid() && newHash != this && newHash.data != data && newHash.tableSize > tableSize
      requires i < tableSize && data[i].inUse
      modifies `size, data, newHash, newHash.data
      ensures Valid() && data[..] == (if moved then old(data[..])[i := BLANK] else old(data[..]))
      ensures newHash.Valid() && (newHash.data == old(newHash.data) || fresh(newHash.data))
      ensures newHash.tableSize >= old(newHash.tableSize)
      ensures newHash.Refines(moved, left, PutSlots(old(newHash.data[..]), newHash.hash, old(data[i].key), old(data[i].data), memory))
      ensures moved ==> newHash.Map() == old(newHash.Map())[old(data[i].key) := old(data[i].data)]
      decreases WORD - newHash.tableSize, 2
    {
      hide WellFormed, InUse, PowerOfTwo;
      moved, left := newHash.Put(data[i].key, data[i].data, memory);
      if moved {
        Blank(i, BLANK);
      }
    }
  }
}
