/**
 * Open addressing with linear probing as the implicit-producer tables use it: entries are filled in
 * and never removed.
 */
module OpenAddressing {
  type Id = int

  const INVALID_ID: Id := -1

  type Producer = int

  datatype Entry = Entry(key: Id, value: Producer)

  type Entries = seq<Entry>

  type Hash = Id -> nat

  /** The first slot to probe: `hash & (capacity - 1)`, for a capacity that is a power of two. */
  function Home(h: Hash, id: Id, capacity: nat): (j: nat)
    requires capacity > 0
    ensures j < capacity
  {
    h(id) % capacity
  }

  /** The slot of the `k`-th probe from `start`: the index wraps around at the capacity. */
  function Slot(start: nat, k: nat, capacity: nat): (j: nat)
    requires start < capacity && k <= capacity
    ensures j < capacity
  {
    if start + k < capacity then start + k else start + k - capacity
  }

  predicate Stops(es: Entries, start: nat, id: Id, k: nat)
    requires start < |es| && k < |es|
  {
    var key := es[Slot(start, k, |es|)].key;
    key == id || key == INVALID_ID
  }

  /** The first probe, from the `k`-th on, that meets `id` or an empty slot; |es| when none does. */
  function FirstStop(es: Entries, start: nat, id: Id, k: nat): (r: nat)
    requires start < |es| && k <= |es|
    ensures k <= r <= |es|
    ensures forall m: nat :: k <= m < r ==> !Stops(es, start, id, m)
    ensures r < |es| ==> Stops(es, start, id, r)
    decreases |es| - k
  {
    if k == |es| || Stops(es, start, id, k) then k else FirstStop(es, start, id, k + 1)
  }

  lemma FirstStopIs(es: Entries, start: nat, id: Id, k: nat, r: nat)
    requires start < |es| && k <= r < |es| && Stops(es, start, id, r)
    requires forall m: nat :: k <= m < r ==> !Stops(es, start, id, m)
    ensures FirstStop(es, start, id, k) == r
    decreases r - k
  {
    if k < r {
      assert !Stops(es, start, id, k);
      FirstStopIs(es, start, id, k + 1, r);
    }
  }

  predicate Holds(es: Entries, id: Id) {
    exists j :: 0 <= j < |es| && es[j].key == id
  }

  function StopSlot(es: Entries, h: Hash, id: Id): (j: nat)
    requires |es| > 0
    ensures j < |es|
  {
    Slot(Home(h, id, |es|), FirstStop(es, Home(h, id, |es|), id, 0), |es|)
  }

  /** Probing for the key of slot `j` ends at slot `j`. */
  predicate EntryFound(es: Entries, h: Hash, j: nat)
    requires j < |es|
  {
    es[j].key != INVALID_ID ==>
        FirstStop(es, Home(h, es[j].key, |es|), es[j].key, 0) < |es| && StopSlot(es, h, es[j].key) == j
  }

  /** Every entry is found; so every key stands once. */
  predicate Consistent(es: Entries, h: Hash) {
    |es| > 0 && forall j :: 0 <= j < |es| ==> EntryFound(es, h, j)
  }

  predicate HasFree(es: Entries) {
    Holds(es, INVALID_ID)
  }

  // ---------------------------------------------------------------- probing ends

  /** Every slot is met by some probe. */
  lemma SlotIsProbed(start: nat, j: nat, capacity: nat) returns (k: nat)
    requires start < capacity && j < capacity
    ensures k < capacity && Slot(start, k, capacity) == j
  {
    k := if start <= j then j - start else j + capacity - start;
  }

  /** Main result: with a free slot every probe loop ends. */
  lemma ProbeEnds(es: Entries, start: nat, id: Id)
    requires HasFree(es) && start < |es|
    ensures FirstStop(es, start, id, 0) < |es|
  {
    var j :| 0 <= j < |es| && es[j].key == INVALID_ID;
    var k := SlotIsProbed(start, j, |es|);
    assert Stops(es, start, id, k);
  }

  /** Main result: a probe meets the id exactly when the table holds it. */
  lemma ProbeFinds(es: Entries, h: Hash, id: Id)
    requires Consistent(es, h) && HasFree(es) && id != INVALID_ID
    ensures FirstStop(es, Home(h, id, |es|), id, 0) < |es|
    ensures es[StopSlot(es, h, id)].key == id <==> Holds(es, id)
    ensures es[StopSlot(es, h, id)].key in {id, INVALID_ID}
  {
    ProbeEnds(es, Home(h, id, |es|), id);
    if Holds(es, id) {
      var j :| 0 <= j < |es| && es[j].key == id;
      assert EntryFound(es, h, j);
    }
  }

  /** Every key stands in one slot only. */
  lemma KeyStandsOnce(es: Entries, h: Hash, i: nat, j: nat)
    requires Consistent(es, h) && i < |es| && j < |es| && es[i].key == es[j].key != INVALID_ID
    ensures i == j
  {
    assert EntryFound(es, h, i) && EntryFound(es, h, j);
  }

  // ---------------------------------------------------------------- filling a slot

  /** Main result: filling the slot where the probe for a new id stopped keeps the table consistent. */
  lemma FillKeeps(es: Entries, h: Hash, id: Id, value: Producer)
    requires Consistent(es, h) && HasFree(es) && id != INVALID_ID && !Holds(es, id)
    ensures es[StopSlot(es, h, id)].key == INVALID_ID
    ensures Consistent(es[StopSlot(es, h, id) := Entry(id, value)], h)
  {
    ProbeFinds(es, h, id);
    var j := StopSlot(es, h, id);
    var es' := es[j := Entry(id, value)];
    forall i | 0 <= i < |es'|
      ensures EntryFound(es', h, i)
    {
      if i == j {
        NewKeyIsFound(es, h, id, value);
      } else if es[i].key != INVALID_ID {
        assert EntryFound(es, h, i);
        OldKeyIsFound(es, es', Home(h, es[i].key, |es|), es[i].key, j);
      }
    }
  }

  lemma OldKeyIsFound(es: Entries, es': Entries, start: nat, x: Id, j: nat)
    requires start < |es| == |es'| && j < |es| && es[j].key == INVALID_ID
    requires forall i :: 0 <= i < |es| && i != j ==> es'[i] == es[i]
    requires x != INVALID_ID
    requires var r := FirstStop(es, start, x, 0); r < |es| && es[Slot(start, r, |es|)].key == x
    ensures FirstStop(es', start, x, 0) == FirstStop(es, start, x, 0)
  {
    var r := FirstStop(es, start, x, 0);
    forall m: nat | m < r
      ensures !Stops(es', start, x, m)
    {
      assert !Stops(es, start, x, m);
    }
    FirstStopIs(es', start, x, 0, r);
  }

  lemma NewKeyIsFound(es: Entries, h: Hash, id: Id, value: Producer)
    requires |es| > 0 && FirstStop(es, Home(h, id, |es|), id, 0) < |es| && id != INVALID_ID
    requires es[StopSlot(es, h, id)].key == INVALID_ID
    ensures var j := StopSlot(es, h, id); EntryFound(es[j := Entry(id, value)], h, j)
  {
    var j, r := StopSlot(es, h, id), FirstStop(es, Home(h, id, |es|), id, 0);
    var es' := es[j := Entry(id, value)];
    forall m: nat | m < r
      ensures !Stops(es', Home(h, id, |es|), id, m)
    {
      assert !Stops(es, Home(h, id, |es|), id, m);
    }
    FirstStopIs(es', Home(h, id, |es|), id, 0, r);
  }

  // ---------------------------------------------------------------- counting

  function Keys(es: Entries): set<Id> {
    set j | 0 <= j < |es| && es[j].key != INVALID_ID :: es[j].key
  }

  lemma KeysAre(es: Entries, id: Id)
    ensures id in Keys(es) <==> id != INVALID_ID && Holds(es, id)
  {
  }

  predicate AllDifferent(es: Entries) {
    forall i, j :: 0 <= i < j < |es| ==> es[i].key != es[j].key
  }

  /** A table without a free slot has as many keys as slots. */
  lemma {:induction false} FullTableKeys(es: Entries)
    requires AllDifferent(es) && !HasFree(es)
    ensures |Keys(es)| == |es|
  {
    if es != [] {
      var last := es[|es| - 1];
      var front := es[..|es| - 1];
      assert last.key != INVALID_ID;
      assert !HasFree(front) by {
        forall j | 0 <= j < |front| ensures front[j].key != INVALID_ID { assert front[j] == es[j]; }
      }
      FullTableKeys(front);
      assert last.key !in Keys(front);
      assert Keys(es) == Keys(front) + {last.key} by {
        forall id ensures id in Keys(es) <==> id in Keys(front) + {last.key} {
          if id in Keys(es) {
            var j :| 0 <= j < |es| && es[j].key == id != INVALID_ID;
            if j < |front| { assert front[j].key == id; }
          }
          if id in Keys(front) {
            var j :| 0 <= j < |front| && front[j].key == id != INVALID_ID;
            assert es[j].key == id;
          }
        }
      }
    }
  }

  /** Main result: fewer keys than slots leave a free slot. */
  lemma FewKeysLeaveFree(es: Entries, h: Hash)
    requires Consistent(es, h) && |Keys(es)| < |es|
    ensures HasFree(es)
  {
    if !HasFree(es) {
      forall i, j | 0 <= i < j < |es|
        ensures es[i].key != es[j].key
      {
        if es[i].key == es[j].key {
          assert es[i].key != INVALID_ID;
          KeyStandsOnce(es, h, i, j);
        }
      }
      FullTableKeys(es);
    }
  }
}

/**
 * The chain of tables that finds the implicit producer of a thread
 * (libs/moodycamel/concurrentqueue.h:3237-3258, 3294-3442), with every call taken as atomic. A table is
 * an array of entries; the newest comes first, and `prev` is the next one in the sequence. Thread exit
 * support is compiled out in this version (line 202), so no entry is removed and no implicit producer is
 * recycled. Whether an allocation succeeds is an argument of the call.
 *
 * Main results: the chain is one map from threads to producers (GetOrAdd), through any number of
 * resizes and for any hash function; same thread, same producer, and different threads, different
 * producers (ServeAll).
 */
module ImplicitProducerHash {
  import opened OpenAddressing

  const NO_PRODUCER: Producer := -1

  type Owners = map<Id, Producer>

  /** A table agrees with the map, and the next probe loop in it ends. */
  predicate TableOk(es: Entries, h: Hash, owners: Owners) {
    && Consistent(es, h) && HasFree(es)
    && forall j :: 0 <= j < |es| ==> EntryAgrees(es[j], owners)
  }

  predicate EntryAgrees(e: Entry, owners: Owners) {
    e.key != INVALID_ID ==> e.key in owners && e.value == owners[e.key]
  }

  /** Different threads have different producers, all of them created already. */
  predicate OwnersOk(owners: Owners, created: nat) {
    && INVALID_ID !in owners
    && (forall id :: id in owners ==> 0 <= owners[id] < created)
    && forall a, b :: a in owners && b in owners && a != b ==> owners[a] != owners[b]
  }

  /** The tables, newest first, and the counters that go with them are one map. */
  predicate ChainOk(tables: seq<Entries>, h: Hash, owners: Owners, count: nat, created: nat) {
    && |tables| > 0
    && (forall i :: 0 <= i < |tables| ==> TableOk(tables[i], h, owners))
    && (forall id :: id in owners ==> InChain(tables, id))
    && OwnersOk(owners, created)
    && count == |owners| && RoomFor(tables, count)
  }

  predicate InChain(tables: seq<Entries>, id: Id) {
    exists i :: 0 <= i < |tables| && Holds(tables[i], id)
  }

  /** The newest table is less than half full, or the map is empty. */
  predicate RoomFor(tables: seq<Entries>, count: nat)
    requires |tables| > 0
  {
    |tables[0]| > 0 && (count == 0 || count < |tables[0]| / 2)
  }

  function Filled(es: Entries, h: Hash, id: Id, p: Producer): Entries
    requires |es| > 0
  {
    es[StopSlot(es, h, id) := Entry(id, p)]
  }

  lemma SubsetSize(a: set<Id>, b: set<Id>)
    requires a <= b
    ensures |a| <= |b|
  {
    assert a + (b - a) == b;
  }

  lemma AgreeingKeys(es: Entries, owners: Owners)
    requires forall j :: 0 <= j < |es| ==> EntryAgrees(es[j], owners)
    ensures |Keys(es)| <= |owners|
  {
    forall x | x in Keys(es) ensures x in owners.Keys {
      KeysAre(es, x);
      var j :| 0 <= j < |es| && es[j].key == x;
      assert EntryAgrees(es[j], owners);
    }
    SubsetSize(Keys(es), owners.Keys);
    assert |owners.Keys| == |owners|;
  }

  /** Filling in one more thread of the map leaves a free slot, when the map has fewer than the slots. */
  lemma FillIsOk(es: Entries, h: Hash, owners: Owners, id: Id)
    requires Consistent(es, h) && HasFree(es) && !Holds(es, id) && id != INVALID_ID
    requires forall j :: 0 <= j < |es| ==> EntryAgrees(es[j], owners)
    requires id in owners && |owners| < |es|
    ensures TableOk(Filled(es, h, id, owners[id]), h, owners)
  {
    FillKeeps(es, h, id, owners[id]);
    var es' := Filled(es, h, id, owners[id]);
    forall j | 0 <= j < |es'| ensures EntryAgrees(es'[j], owners) {
      assert EntryAgrees(es[j], owners);
    }
    AgreeingKeys(es', owners);
    FewKeysLeaveFree(es', h);
  }

  /** Filling a slot loses no thread. */
  lemma FillHolds(es: Entries, h: Hash, id: Id, p: Producer, x: Id)
    requires Consistent(es, h) && HasFree(es) && !Holds(es, id) && id != INVALID_ID && x != INVALID_ID
    ensures Holds(Filled(es, h, id, p), x) <==> x == id || Holds(es, x)
  {
    FillKeeps(es, h, id, p);
    var j, es' := StopSlot(es, h, id), Filled(es, h, id, p);
    assert es'[j].key == id;
    if Holds(es, x) {
      var i :| 0 <= i < |es| && es[i].key == x;
      assert es'[i].key == x;
    }
  }

  lemma MoreOwnersAgree(es: Entries, h: Hash, owners: Owners, id: Id, p: Producer)
    requires TableOk(es, h, owners) && id !in owners && id != INVALID_ID
    ensures TableOk(es, h, owners[id := p]) && !Holds(es, id)
  {
    forall j | 0 <= j < |es| ensures EntryAgrees(es[j], owners[id := p]) && es[j].key != id {
      assert EntryAgrees(es[j], owners);
    }
  }

  lemma EmptyIsOk(es: Entries, h: Hash, owners: Owners)
    requires |es| > 0 && forall j :: 0 <= j < |es| ==> es[j].key == INVALID_ID
    ensures TableOk(es, h, owners)
  {
    assert es[0].key == INVALID_ID;
  }

  // ---------------------------------------------------------------- steps of the chain

  /** The lazy copy into the newest table. */
  lemma CopyKeepsChain(tables: seq<Entries>, h: Hash, owners: Owners, count: nat, created: nat, id: Id)
    requires ChainOk(tables, h, owners, count, created)
    requires id in owners && !Holds(tables[0], id)
    ensures ChainOk(tables[0 := Filled(tables[0], h, id, owners[id])], h, owners, count, created)
  {
    assert TableOk(tables[0], h, owners);
    assert id != INVALID_ID && owners.Keys != {};
    FillIsOk(tables[0], h, owners, id);
    var tables' := tables[0 := Filled(tables[0], h, id, owners[id])];
    FilledChainHolds(tables, h, owners, id, owners[id]);
  }

  lemma FilledChainHolds(tables: seq<Entries>, h: Hash, owners: Owners, id: Id, p: Producer)
    requires |tables| > 0 && TableOk(tables[0], h, owners) && !Holds(tables[0], id) && id != INVALID_ID
    ensures var tables' := tables[0 := Filled(tables[0], h, id, p)];
            InChain(tables', id) && forall x :: x != INVALID_ID && InChain(tables, x) ==> InChain(tables', x)
  {
    var tables' := tables[0 := Filled(tables[0], h, id, p)];
    FillHolds(tables[0], h, id, p, id);
    assert Holds(tables'[0], id);
    forall x | x != INVALID_ID && InChain(tables, x) ensures InChain(tables', x) {
      var i :| 0 <= i < |tables| && Holds(tables[i], x);
      if i == 0 {
        FillHolds(tables[0], h, id, p, x);
      }
      assert Holds(tables'[i], x);
    }
  }

  /** A resize. */
  lemma GrowKeepsChain(tables: seq<Entries>, h: Hash, owners: Owners, count: nat, created: nat, es: Entries)
    requires ChainOk(tables, h, owners, count, created)
    requires |es| > 0 && forall j :: 0 <= j < |es| ==> es[j].key == INVALID_ID
    requires count < |es| / 2
    ensures ChainOk([es] + tables, h, owners, count, created)
  {
    EmptyIsOk(es, h, owners);
    var tables' := [es] + tables;
    forall id | id in owners ensures InChain(tables', id) {
      assert InChain(tables, id);
      var i :| 0 <= i < |tables| && Holds(tables[i], id);
      assert tables'[i + 1] == tables[i];
    }
  }

  /** The insertion of a new thread with a new producer. */
  lemma AddKeepsChain(tables: seq<Entries>, h: Hash, owners: Owners, count: nat, created: nat, id: Id)
    requires ChainOk(tables, h, owners, count, created)
    requires id !in owners && id != INVALID_ID && count + 1 < |tables[0]| / 2
    ensures !Holds(tables[0], id)
    ensures ChainOk(tables[0 := Filled(tables[0], h, id, created)], h, owners[id := created], count + 1, created + 1)
  {
    var owners' := owners[id := created];
    OneMoreOwner(owners, id, created);
    hide Consistent, HasFree, EntryAgrees, OwnersOk;
    forall i | 0 <= i < |tables| ensures TableOk(tables[i], h, owners') && !Holds(tables[i], id) {
      assert TableOk(tables[i], h, owners);
      MoreOwnersAgree(tables[i], h, owners, id, created);
    }
    FilledTableIsOk(tables[0], h, owners', id);
    FilledChainHolds(tables, h, owners', id, created);
    assert INVALID_ID !in owners' by { InvalidHasNoOwner(owners', created + 1); }
    hide TableOk, InChain, Holds, Filled;
  }

  lemma OneMoreOwner(owners: Owners, id: Id, created: nat)
    requires OwnersOk(owners, created) && id !in owners && id != INVALID_ID
    ensures OwnersOk(owners[id := created], created + 1) && |owners[id := created]| == |owners| + 1
  {
    assert owners[id := created].Keys == owners.Keys + {id};
  }

  lemma InvalidHasNoOwner(owners: Owners, created: nat)
    requires OwnersOk(owners, created)
    ensures INVALID_ID !in owners
  {
  }

  lemma FilledTableIsOk(es: Entries, h: Hash, owners: Owners, id: Id)
    requires TableOk(es, h, owners) && !Holds(es, id) && id != INVALID_ID && id in owners && |owners| < |es|
    ensures TableOk(Filled(es, h, id, owners[id]), h, owners)
  {
    hide Consistent, HasFree, EntryAgrees, Holds, Filled;
    FillIsOk(es, h, owners, id);
  }

  /** A thread that no table holds is not in the map. */
  lemma MissingIsNew(tables: seq<Entries>, h: Hash, owners: Owners, count: nat, created: nat, id: Id)
    requires ChainOk(tables, h, owners, count, created)
    requires forall i :: 0 <= i < |tables| ==> !Holds(tables[i], id)
    ensures id !in owners
  {
    assert id in owners ==> InChain(tables, id);
  }

  /** What a probe in one of the tables finds. */
  lemma ProbeInChain(tables: seq<Entries>, h: Hash, owners: Owners, count: nat, created: nat, id: Id, i: nat)
    requires ChainOk(tables, h, owners, count, created) && i < |tables| && id != INVALID_ID
    ensures Consistent(tables[i], h) && HasFree(tables[i])
    ensures var e := tables[i][StopSlot(tables[i], h, id)];
            && (e.key == id <==> Holds(tables[i], id))
            && (e.key == id ==> id in owners && e.value == owners[id])
  {
    assert TableOk(tables[i], h, owners);
    ProbeFinds(tables[i], h, id);
    assert EntryAgrees(tables[i][StopSlot(tables[i], h, id)], owners);
  }

  lemma MainIsProbed(tables: seq<Entries>, h: Hash, owners: Owners, count: nat, created: nat)
    requires ChainOk(tables, h, owners, count, created)
    ensures |tables| > 0 && Consistent(tables[0], h) && HasFree(tables[0]) && RoomFor(tables, count)
    ensures count == |owners|
  {
    assert TableOk(tables[0], h, owners);
  }

  // ---------------------------------------------------------------- the object

  predicate Distinct(tables: seq<array<Entry>>) {
    forall i, j :: 0 <= i < j < |tables| ==> tables[i] != tables[j]
  }

  class ProducerHash {
    const hash: Hash
    var tables: seq<array<Entry>>
    var count: nat
    var created: nat
    ghost var owners: Owners

    ghost function Contents(): (c: seq<Entries>)
      reads this`tables, tables
      ensures |c| == |tables| && forall i :: 0 <= i < |tables| ==> c[i] == tables[i][..]
    {
      var ts := tables;
      seq(|ts|, i requires 0 <= i < |ts| reads ts => ts[i][..])
    }

    ghost predicate Valid()
      reads this, tables
    {
      && Distinct(tables)
      && ChainOk(Contents(), hash, owners, count, created)
    }

    constructor (hash: Hash, initialSize: nat)
      requires initialSize >= 1
      ensures Valid() && fresh(tables) && owners == map[] && this.hash == hash
    {
      var entries := new Entry[initialSize](_ => Entry(INVALID_ID, NO_PRODUCER));
      this.hash := hash;
      tables := [entries];
      count, created, owners := 0, 0, map[];
      new;
      EmptyIsOk(entries[..], hash, map[]);
      assert Contents() == [entries[..]];
    }

    /** Probe from the home slot on, until the id or an empty slot is met. */
    method Probe(entries: array<Entry>, id: Id) returns (index: nat)
      requires Consistent(entries[..], hash) && HasFree(entries[..]) && id != INVALID_ID
      ensures index == StopSlot(entries[..], hash, id)
    {
      ghost var es := entries[..];
      ghost var home := Home(hash, id, |es|);
      ghost var k := 0;
      ProbeEnds(es, home, id);
      index := hash(id) % entries.Length;
      while entries[index].key != id && entries[index].key != INVALID_ID
        invariant k < |es| && index == Slot(home, k, |es|)
        invariant FirstStop(es, home, id, k) == FirstStop(es, home, id, 0) < |es|
        decreases |es| - k
      {
        assert !Stops(es, home, id, k);
        index := if index + 1 == entries.Length then 0 else index + 1;
        k := k + 1;
      }
      assert Stops(es, home, id, k);
    }

    /** Put a thread into the newest table, which does not hold it. */
    method InsertIntoMain(id: Id, producer: Producer)
      requires |tables| > 0 && forall i :: 0 < i < |tables| ==> tables[i] != tables[0]
      requires Consistent(Contents()[0], hash) && HasFree(Contents()[0]) && id != INVALID_ID
      modifies tables[0]
      ensures Contents() == old(Contents())[0 := Filled(old(Contents()[0]), hash, id, producer)]
    {
      hide Consistent, HasFree, FirstStop;
      var index := Probe(tables[0], id);
      tables[0][index] := Entry(id, producer);
    }

    /**
     * Main result: the producer of a thread in the map, or a new one for a new thread, or none and no change if an
     * allocation fails that was needed. One table is made, and only when the newest one would be half full.
     */
    method GetOrAdd(id: Id, tableAllocated: bool, producerAllocated: bool) returns (producer: Producer)
      requires Valid() && id != INVALID_ID
      modifies this, tables
      ensures Valid() && (forall i :: 0 <= i < |tables| ==> tables[i] in old(tables) || fresh(tables[i]))
      ensures id in old(owners) ==> producer == old(owners)[id] && owners == old(owners)
      ensures id !in old(owners) && producer == NO_PRODUCER ==> owners == old(owners)
      ensures id !in old(owners) && producer != NO_PRODUCER ==>
        producer == old(created) && owners == old(owners)[id := producer]
      ensures old(|tables|) > 0
      ensures id !in old(owners) ==>
        (producer != NO_PRODUCER <==>
            producerAllocated && (tableAllocated || old(count) + 1 < old(tables[0].Length) / 2))
      ensures id in old(owners) || old(count) + 1 < old(tables[0].Length) / 2 ==> tables == old(tables)
      ensures tables == old(tables) ||
        (|tables| > 0 && tables[1..] == old(tables)
          && OneStep(old(tables[0].Length), tables[0].Length, old(count) + 1))
    {
      hide ChainOk, Consistent, HasFree, Holds, FirstStop;
      var found, i, value := Search(id);
      if found {
        if i > 0 {
          MainIsProbed(Contents(), hash, owners, count, created);
          CopyKeepsChain(Contents(), hash, owners, count, created, id);
          InsertIntoMain(id, value);
        }
        return value;
      }
      MissingIsNew(Contents(), hash, owners, count, created, id);
      producer := AddProducer(id, tableAllocated, producerAllocated);
    }

    /** The search from the newest table to the oldest. */
    method Search(id: Id) returns (found: bool, i: nat, value: Producer)
      requires Valid() && id != INVALID_ID
      ensures i <= |tables| && forall k :: 0 <= k < i ==> !Holds(Contents()[k], id)
      ensures !found ==> i == |tables|
      ensures found ==> i < |tables| && id in owners && value == owners[id]
    {
      hide ChainOk, Consistent, HasFree, Holds, FirstStop;
      i, found, value := 0, false, NO_PRODUCER;
      while i < |tables|
        invariant i <= |tables| && forall k :: 0 <= k < i ==> !Holds(Contents()[k], id)
      {
        ProbeInChain(Contents(), hash, owners, count, created, id, i);
        var index := Probe(tables[i], id);
        if tables[i][index].key == id {
          return true, i, tables[i][index].value;
        }
        i := i + 1;
      }
    }

    /** The state in the middle of an insertion: the counter is one ahead of the map. */
    ghost predicate Reserved()
      reads this, tables
    {
      && count > 0
      && Distinct(tables)
      && ChainOk(Contents(), hash, owners, count - 1, created)
    }

    /** The capacity of a new table is twice the old one, or half of it would not do. */
    static predicate OneStep(capacity: nat, newCapacity: nat, count: nat) {
      newCapacity == 2 * capacity || count >= newCapacity / 4
    }

    /** Double a capacity until the count is less than half of it. */
    method DoubleUntilRoom(capacity: nat) returns (newCapacity: nat)
      requires capacity >= 2
      ensures newCapacity >= 2 && count < newCapacity / 2
      ensures newCapacity == capacity || count >= newCapacity / 4
    {
      newCapacity := capacity;
      while count >= newCapacity / 2
        invariant newCapacity >= 2
        invariant newCapacity == capacity || count >= newCapacity / 4
        decreases count + 1 - newCapacity / 2
      {
        newCapacity := newCapacity * 2;
      }
    }

    /** A new, empty table in front of the others, big enough to be less than half full. */
    method Grow()
      requires Reserved() && |tables| > 0 && tables[0].Length > 0
      modifies this`tables
      ensures Reserved()
      ensures |tables| > 0 && fresh(tables[0]) && tables[1..] == old(tables)
      ensures count < tables[0].Length / 2
      ensures OneStep(old(tables[0].Length), tables[0].Length, count)
    {
      hide ChainOk;
      var newCapacity := DoubleUntilRoom(tables[0].Length * 2);
      ghost var before := Contents();
      var newHash := new Entry[newCapacity](_ => Entry(INVALID_ID, NO_PRODUCER));
      GrowKeepsChain(before, hash, owners, count - 1, created, newHash[..]);
      tables := [newHash] + tables;
      assert Contents() == [newHash[..]] + before;
    }

    /** Create the producer of a new thread and put it into the newest table. */
    method AddNew(id: Id) returns (producer: Producer)
      requires Reserved() && |tables| > 0 && count < tables[0].Length / 2
      requires id != INVALID_ID && id !in owners
      modifies this`created, this`owners, tables[0]
      ensures Valid() && producer == old(created) && owners == old(owners)[id := producer]
    {
      hide ChainOk, Consistent, HasFree, Holds, FirstStop;
      AddKeepsChain(Contents(), hash, owners, count - 1, created, id);
      MainIsProbed(Contents(), hash, owners, count - 1, created);
      producer := created;
      InsertIntoMain(id, producer);
      created := created + 1;
      owners := owners[id := producer];
    }

    /** The part from the insertion on. */
    method AddProducer(id: Id, tableAllocated: bool, producerAllocated: bool) returns (producer: Producer)
      requires Valid() && id != INVALID_ID && id !in owners
      modifies this, tables
      ensures Valid() && (forall i :: 0 <= i < |tables| ==> tables[i] in old(tables) || fresh(tables[i]))
      ensures producer == NO_PRODUCER ==> owners == old(owners)
      ensures producer != NO_PRODUCER ==> producer == old(created) && owners == old(owners)[id := producer]
      ensures old(|tables|) > 0
      ensures producer != NO_PRODUCER <==>
        producerAllocated && (tableAllocated || old(count) + 1 < old(tables[0].Length) / 2)
      ensures old(count) + 1 < old(tables[0].Length) / 2 ==> tables == old(tables)
      ensures tables == old(tables) ||
        (|tables| > 0 && tables[1..] == old(tables)
          && OneStep(old(tables[0].Length), tables[0].Length, old(count) + 1))
    {
      hide ChainOk, Consistent, HasFree, Holds, FirstStop, Distinct, OneStep;
      MainIsProbed(Contents(), hash, owners, count, created);
      count := count + 1;
      var room := EnsureRoom(tableAllocated);
      if !room || !producerAllocated {
        count := count - 1;
        return NO_PRODUCER;
      }
      // a bigger table is there whenever it is needed, so that the source's retry loop is not taken
      assert count < tables[0].Length / 2 + tables[0].Length / 4;
      producer := AddNew(id);
    }

    /** The resize, when the newest table would be half full. */
    method EnsureRoom(tableAllocated: bool) returns (ok: bool)
      requires Reserved() && |tables| > 0 && tables[0].Length > 0
      modifies this`tables
      ensures Reserved() && |tables| > 0
      ensures forall i :: 0 <= i < |tables| ==> tables[i] in old(tables) || fresh(tables[i])
      ensures ok ==> count < tables[0].Length / 2
      ensures ok <==> tableAllocated || count < old(tables[0].Length) / 2
      ensures !ok || count < old(tables[0].Length) / 2 ==> tables == old(tables)
      ensures tables == old(tables) ||
        (tables[1..] == old(tables) && OneStep(old(tables[0].Length), tables[0].Length, count))
    {
      ok := true;
      if count >= tables[0].Length / 2 {
        if !tableAllocated {
          return false;
        }
        Grow();
        assert forall i :: 0 < i < |tables| ==> tables[i] == tables[1..][i - 1];
      }
    }

    /**
     * Main result: over any sequence of calls by any threads, whichever allocations fail, two calls that
     * got a producer got the same one exactly when the same thread made them.
     */
    method ServeAll(ids: seq<Id>, tableAllocated: seq<bool>, producerAllocated: seq<bool>)
      returns (producers: seq<Producer>)
      requires Valid() && INVALID_ID !in ids
      requires |ids| == |tableAllocated| == |producerAllocated|
      modifies this, tables
      ensures Valid() && |producers| == |ids|
      ensures forall i, j :: 0 <= i < j < |ids| && producers[i] != NO_PRODUCER && producers[j] != NO_PRODUCER ==>
        (producers[i] == producers[j] <==> ids[i] == ids[j])
    {
      hide ChainOk, AllServed, OwnersOk;
      producers := [];
      NoneServed(ids, owners);
      while |producers| < |ids|
        invariant Valid() && |producers| <= |ids|
        invariant forall i :: 0 <= i < |tables| ==> tables[i] in old(tables) || fresh(tables[i])
        invariant AllServed(ids, producers, owners)
      {
        var k := |producers|;
        ghost var before := owners;
        var p := GetOrAdd(ids[k], tableAllocated[k], producerAllocated[k]);
        ServedOn(ids, producers, before, owners, p);
        producers := producers + [p];
      }
      OwnersAreOk(Contents(), hash, owners, count, created);
      ServedApart(ids, producers, owners, created);
    }
  }

  predicate Served(id: Id, p: Producer, owners: Owners) {
    p != NO_PRODUCER ==> id in owners && owners[id] == p
  }

  predicate AllServed(ids: seq<Id>, ps: seq<Producer>, owners: Owners) {
    |ps| <= |ids| && forall i :: 0 <= i < |ps| ==> Served(ids[i], ps[i], owners)
  }

  lemma NoneServed(ids: seq<Id>, owners: Owners)
    ensures AllServed(ids, [], owners)
  {
  }

  /** One more call keeps the answers of the earlier ones. */
  lemma ServedOn(ids: seq<Id>, ps: seq<Producer>, before: Owners, owners: Owners, p: Producer)
    requires AllServed(ids, ps, before) && |ps| < |ids|
    requires var id := ids[|ps|];
             || (owners == before && (p == NO_PRODUCER || (id in before && before[id] == p)))
             || (id !in before && owners == before[id := p])
    ensures AllServed(ids, ps + [p], owners)
  {
    var ps' := ps + [p];
    forall i | 0 <= i < |ps'| ensures Served(ids[i], ps'[i], owners) {
      if i < |ps| {
        assert Served(ids[i], ps[i], before);
      }
    }
  }

  lemma OwnersAreOk(tables: seq<Entries>, h: Hash, owners: Owners, count: nat, created: nat)
    requires ChainOk(tables, h, owners, count, created)
    ensures OwnersOk(owners, created)
  {
  }

  lemma ServedApart(ids: seq<Id>, ps: seq<Producer>, owners: Owners, created: nat)
    requires |ids| == |ps| && OwnersOk(owners, created)
    requires AllServed(ids, ps, owners)
    ensures forall i, j :: 0 <= i < j < |ids| && ps[i] != NO_PRODUCER && ps[j] != NO_PRODUCER ==>
      (ps[i] == ps[j] <==> ids[i] == ids[j])
  {
    forall i, j | 0 <= i < j < |ids| && ps[i] != NO_PRODUCER && ps[j] != NO_PRODUCER
      ensures ps[i] == ps[j] <==> ids[i] == ids[j]
    {
      assert Served(ids[i], ps[i], owners) && Served(ids[j], ps[j], owners);
    }
  }
}
