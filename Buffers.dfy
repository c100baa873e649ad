/**
 * The element buffer: a sparse array of slots per element kind.
 *
 * `Store` is the value of one buffer (its slots and its current generation);
 * the functions on it say what every buffer operation does, and the class
 * `ElementBuffer` carries out those operations in place.
 */
module Buffers {
  import opened Handles

  datatype Option<T> = None | Some(value: T)

  /**
   * A buffer's slots (None marks a free slot) and the generation handles are
   * validated against.  The counter is the model's: the source buffer holds
   * only its sparse array, and the per-element generation field is not read.
   */
  datatype Store<E> = Store(slots: seq<Option<E>>, generation: nat)

  /** Every buffer starts at the generation elements default to. */
  const FIRST_GENERATION: nat := 1

  function EmptyStore<E>(): (s: Store<E>)
    ensures s.slots == [] && s.generation == FIRST_GENERATION
    ensures s.generation != IGNORED_GENERATION
  {
    Store([], FIRST_GENERATION)
  }

  predicate IsAllocated<E>(s: Store<E>, offset: nat) {
    offset < |s.slots| && s.slots[offset].Some?
  }

  /** The kernel-side validity check: the slot is allocated and the generation matches or is ignored. */
  predicate IsValid<E, K>(s: Store<E>, h: ElementIndex<K>) {
    IsAllocated(s, h.offset) && (h.generation == IGNORED_GENERATION || h.generation == s.generation)
  }

  /** A valid handle whose offset is `offset`. */
  predicate Designates<E, K>(s: Store<E>, h: ElementIndex<K>, offset: nat) {
    IsValid(s, h) && h.offset == offset
  }

  function Get<E>(s: Store<E>, offset: nat): E
    requires IsAllocated(s, offset)
  {
    s.slots[offset].value
  }

  /** The number of allocated slots, which is what `Num` reports. */
  function Count<E>(slots: seq<Option<E>>): (n: nat)
    ensures n <= |slots|
  {
    if |slots| == 0 then 0
    else Count(slots[..|slots| - 1]) + (if slots[|slots| - 1].Some? then 1 else 0)
  }

  function Size<E>(s: Store<E>): nat {
    Count(s.slots)
  }

  predicate HasFreeSlot<E>(slots: seq<Option<E>>) {
    exists k :: 0 <= k < |slots| && slots[k].None?
  }

  /**
   * The offsets `Add` may hand out: a free slot when there is one (which one
   * is left open), otherwise the slot just past the end.
   */
  predicate CanAllocate<E>(s: Store<E>, offset: nat) {
    if HasFreeSlot(s.slots) then offset < |s.slots| && s.slots[offset].None?
    else offset == |s.slots|
  }

  function AddAt<E>(s: Store<E>, e: E, offset: nat): Store<E>
    requires CanAllocate(s, offset)
  {
    if offset < |s.slots| then s.(slots := s.slots[offset := Some(e)])
    else s.(slots := s.slots + [Some(e)])
  }

  function UpdateAt<E>(s: Store<E>, offset: nat, e: E): Store<E>
    requires IsAllocated(s, offset)
  {
    s.(slots := s.slots[offset := Some(e)])
  }

  function RemoveAt<E>(s: Store<E>, offset: nat): Store<E>
    requires IsAllocated(s, offset)
  {
    s.(slots := s.slots[offset := None])
  }

  /** Applies `f` to every allocated element. */
  function MapStore<E>(s: Store<E>, f: E -> E): (r: Store<E>)
    ensures |r.slots| == |s.slots| && r.generation == s.generation
    ensures forall k :: 0 <= k < |s.slots| ==> r.slots[k] == if s.slots[k].Some? then Some(f(s.slots[k].value)) else None
  {
    Store(seq(|s.slots|, k requires 0 <= k < |s.slots| => if s.slots[k].Some? then Some(f(s.slots[k].value)) else None), s.generation)
  }

  // ---------------------------------------------------------------------
  // Compaction

  /** The allocated slots in their original order. */
  function Packed<E>(slots: seq<Option<E>>): seq<Option<E>> {
    if |slots| == 0 then []
    else Packed(slots[..|slots| - 1]) + (if slots[|slots| - 1].Some? then [slots[|slots| - 1]] else [])
  }

  /** Where compaction moves slot `i`: the number of allocated slots before it. */
  function Rank<E>(slots: seq<Option<E>>, i: nat): nat
    requires i <= |slots|
  {
    Count(slots[..i])
  }

  /** The buffer after compaction: dense, and one generation later. */
  function Compacted<E>(s: Store<E>): Store<E> {
    Store(Packed(s.slots), s.generation + 1)
  }

  /** The table compaction hands back: old offset to new handle, for every allocated slot. */
  function RemapTable<E, K>(s: Store<E>): map<nat, ElementIndex<K>> {
    map i | 0 <= i < |s.slots| && s.slots[i].Some? :: ElementIndex(Rank(s.slots, i), s.generation + 1)
  }

  /** The remap table restricted to the slots before `i`, as compaction builds it. */
  function RemapPrefix<E, K>(slots: seq<Option<E>>, generation: nat, i: nat): map<nat, ElementIndex<K>>
    requires i <= |slots|
  {
    map k | 0 <= k < i && slots[k].Some? :: ElementIndex(Rank(slots, k), generation + 1)
  }

  lemma RemapPrefixStep<E, K>(slots: seq<Option<E>>, generation: nat, i: nat)
    requires i < |slots|
    ensures RemapPrefix<E, K>(slots, generation, i + 1) ==
      if slots[i].Some? then RemapPrefix<E, K>(slots, generation, i)[i := ElementIndex(Rank(slots, i), generation + 1)]
      else RemapPrefix<E, K>(slots, generation, i)
  {
  }

  lemma RemapPrefixFull<E, K>(s: Store<E>)
    ensures RemapPrefix<E, K>(s.slots, s.generation, |s.slots|) == RemapTable<E, K>(s)
  {
  }

  /**
   * Rewrites one stored handle through a remap table: a handle that was valid
   * at `oldGeneration` moves with its element; any other handle is kept.
   */
  function Remap<K>(table: map<nat, ElementIndex<K>>, oldGeneration: nat, h: ElementIndex<K>): ElementIndex<K> {
    if h.offset in table && (h.generation == IGNORED_GENERATION || h.generation == oldGeneration)
    then table[h.offset]
    else h
  }

  // ---------------------------------------------------------------------
  // Counting lemmas

  lemma {:induction false} CountAppend<E>(slots: seq<Option<E>>, x: Option<E>)
    ensures Count(slots + [x]) == Count(slots) + (if x.Some? then 1 else 0)
  {
    assert (slots + [x])[..|slots|] == slots;
  }

  lemma {:induction false} CountUpdate<E>(slots: seq<Option<E>>, i: nat, x: Option<E>)
    requires i < |slots|
    ensures Count(slots[i := x]) == Count(slots) - (if slots[i].Some? then 1 else 0) + (if x.Some? then 1 else 0)
  {
    var n := |slots|;
    if i < n - 1 {
      assert slots[i := x][..n - 1] == slots[..n - 1][i := x];
      CountUpdate(slots[..n - 1], i, x);
    } else {
      assert slots[i := x][..n - 1] == slots[..n - 1];
    }
  }

  /** A buffer is full exactly when every slot is allocated. */
  lemma {:induction false} CountFull<E>(slots: seq<Option<E>>)
    ensures Count(slots) == |slots| <==> forall k :: 0 <= k < |slots| ==> slots[k].Some?
  {
    if |slots| > 0 {
      var n := |slots|;
      CountFull(slots[..n - 1]);
      assert forall k :: 0 <= k < n - 1 ==> slots[..n - 1][k] == slots[k];
    }
  }

  /** A buffer is empty exactly when no slot is allocated. */
  lemma {:induction false} CountEmpty<E>(slots: seq<Option<E>>)
    ensures Count(slots) == 0 <==> forall k :: 0 <= k < |slots| ==> slots[k].None?
  {
    if |slots| > 0 {
      var n := |slots|;
      CountEmpty(slots[..n - 1]);
      assert forall k :: 0 <= k < n - 1 ==> slots[..n - 1][k] == slots[k];
    }
  }

  /** The count only depends on which slots are allocated. */
  lemma {:induction false} CountSameShape<E>(a: seq<Option<E>>, b: seq<Option<E>>)
    requires |a| == |b|
    requires forall k :: 0 <= k < |a| ==> (a[k].Some? <==> b[k].Some?)
    ensures Count(a) == Count(b)
  {
    if |a| > 0 {
      var n := |a|;
      CountSameShape(a[..n - 1], b[..n - 1]);
    }
  }

  lemma {:induction false} PrefixCount<E>(slots: seq<Option<E>>, i: nat, j: nat)
    requires i <= j <= |slots|
    ensures Count(slots[..i]) <= Count(slots[..j])
    ensures i < j && slots[i].Some? ==> Count(slots[..i]) < Count(slots[..j])
    decreases j - i
  {
    if i < j {
      PrefixCount(slots, i, j - 1);
      assert slots[..j][..j - 1] == slots[..j - 1];
      if i == j - 1 {
        assert slots[..j][j - 1] == slots[i];
      }
    }
  }

  // ---------------------------------------------------------------------
  // Buffer operation lemmas

  /** `Add` takes a previously free slot, allocates it with the element and touches nothing else. */
  lemma AddAtProperties<E, K>(s: Store<E>, e: E, offset: nat)
    requires CanAllocate(s, offset)
    ensures !IsAllocated(s, offset)
    ensures IsAllocated(AddAt(s, e, offset), offset) && Get(AddAt(s, e, offset), offset) == e
    ensures IsValid(AddAt(s, e, offset), FromOffsetAndGeneration<K>(offset, s.generation))
    ensures Size(AddAt(s, e, offset)) == Size(s) + 1
    ensures AddAt(s, e, offset).generation == s.generation
    ensures forall k :: 0 <= k < |s.slots| && k != offset ==> AddAt(s, e, offset).slots[k] == s.slots[k]
    ensures forall k :: IsAllocated(s, k) ==> IsAllocated(AddAt(s, e, offset), k)
  {
    if offset < |s.slots| {
      CountUpdate(s.slots, offset, Some(e));
    } else {
      CountAppend(s.slots, Some(e));
    }
  }

  /** `Remove` frees exactly that slot. */
  lemma RemoveAtProperties<E, K>(s: Store<E>, offset: nat)
    requires IsAllocated(s, offset)
    ensures Size(RemoveAt(s, offset)) == Size(s) - 1
    ensures !IsAllocated(RemoveAt(s, offset), offset)
    ensures forall h: ElementIndex<K> {:trigger IsValid(RemoveAt(s, offset), h)} :: h.offset == offset ==> !IsValid(RemoveAt(s, offset), h)
    ensures forall k :: k != offset ==> (IsAllocated(RemoveAt(s, offset), k) <==> IsAllocated(s, k))
  {
    CountUpdate(s.slots, offset, None);
  }

  /** Writing through the reference `Get` returns keeps the allocation unchanged. */
  lemma UpdateAtProperties<E>(s: Store<E>, offset: nat, e: E)
    requires IsAllocated(s, offset)
    ensures Size(UpdateAt(s, offset, e)) == Size(s)
    ensures Get(UpdateAt(s, offset, e), offset) == e
    ensures forall k :: IsAllocated(UpdateAt(s, offset, e), k) <==> IsAllocated(s, k)
  {
    CountUpdate(s.slots, offset, Some(e));
  }

  /** A buffer without gaps appends, and stays without gaps. */
  lemma AddAtDense<E>(s: Store<E>, e: E, offset: nat)
    requires !HasFreeSlot(s.slots) && CanAllocate(s, offset)
    ensures offset == |s.slots|
    ensures AddAt(s, e, offset).slots == s.slots + [Some(e)]
    ensures !HasFreeSlot(AddAt(s, e, offset).slots)
  {
    var r := AddAt(s, e, offset);
    assert forall k :: 0 <= k < |r.slots| ==> r.slots[k].Some? by {
      forall k | 0 <= k < |r.slots|
        ensures r.slots[k].Some?
      {
        if k < |s.slots| {
          assert s.slots[k] == r.slots[k];
        }
      }
    }
  }

  /** Where the next slot goes: one further when the current slot is allocated. */
  lemma RankStep<E>(slots: seq<Option<E>>, i: nat)
    requires i < |slots|
    ensures Rank(slots, i + 1) == Rank(slots, i) + (if slots[i].Some? then 1 else 0)
  {
    assert slots[..i + 1][..i] == slots[..i];
  }

  /** When a buffer has exactly one free slot, the next `Add` reuses it. */
  lemma SingleFreeSlotIsReused<E>(s: Store<E>, free: nat, offset: nat)
    requires free < |s.slots| && s.slots[free].None?
    requires Size(s) == |s.slots| - 1
    requires CanAllocate(s, offset)
    ensures offset == free
  {
    if offset != free {
      assert HasFreeSlot(s.slots);
      TwoFreeSlots(s.slots, free, offset);
    }
  }

  lemma {:induction false} TwoFreeSlots<E>(slots: seq<Option<E>>, i: nat, j: nat)
    requires i < |slots| && j < |slots| && i != j
    requires slots[i].None? && slots[j].None?
    ensures Count(slots) <= |slots| - 2
  {
    var n := |slots|;
    var init := slots[..n - 1];
    if i == n - 1 {
      OneFreeSlot(init, j);
    } else if j == n - 1 {
      OneFreeSlot(init, i);
    } else {
      TwoFreeSlots(init, i, j);
    }
  }

  lemma {:induction false} OneFreeSlot<E>(slots: seq<Option<E>>, i: nat)
    requires i < |slots| && slots[i].None?
    ensures Count(slots) <= |slots| - 1
  {
    var n := |slots|;
    if i < n - 1 {
      OneFreeSlot(slots[..n - 1], i);
    }
  }

  lemma {:induction false} CountConcat<E>(a: seq<Option<E>>, b: seq<Option<E>>)
    ensures Count(a + b) == Count(a) + Count(b)
  {
    if |b| > 0 {
      var n := |b|;
      assert (a + b)[..|a + b| - 1] == a + b[..n - 1];
      CountConcat(a, b[..n - 1]);
    } else {
      assert a + b == a;
    }
  }

  // ---------------------------------------------------------------------
  // Compaction lemmas

  /** Compaction keeps every allocated element and only those, in a dense buffer. */
  lemma {:induction false} PackedShape<E>(slots: seq<Option<E>>)
    ensures |Packed(slots)| == Count(slots)
    ensures forall k :: 0 <= k < |Packed(slots)| ==> Packed(slots)[k].Some?
    ensures Count(Packed(slots)) == Count(slots)
  {
    if |slots| > 0 {
      PackedShape(slots[..|slots| - 1]);
    }
    CountFull(Packed(slots));
  }

  /** The element of slot i lands at offset Rank(i) of the packed buffer. */
  lemma {:induction false} PackedAt<E>(slots: seq<Option<E>>, i: nat)
    requires i < |slots| && slots[i].Some?
    ensures Rank(slots, i) < |Packed(slots)|
    ensures Packed(slots)[Rank(slots, i)] == slots[i]
  {
    var n := |slots|;
    var init := slots[..n - 1];
    PackedShape(init);
    if i < n - 1 {
      PackedAt(init, i);
      assert init[..i] == slots[..i];
    } else {
      assert init == slots[..i];
    }
  }

  /** Compaction keeps the relative order of the surviving elements. */
  lemma RankPreservesOrder<E>(slots: seq<Option<E>>, i: nat, j: nat)
    requires i < j < |slots| && slots[i].Some?
    ensures Rank(slots, i) < Rank(slots, j)
  {
    PrefixCount(slots, i, j);
  }

  /** Every offset of the packed buffer comes from some allocated slot. */
  lemma {:induction false} RankOnto<E>(slots: seq<Option<E>>, k: nat) returns (i: nat)
    requires k < Count(slots)
    ensures i < |slots| && slots[i].Some? && Rank(slots, i) == k
  {
    var n := |slots|;
    var init := slots[..n - 1];
    if k < Count(init) {
      i := RankOnto(init, k);
      assert init[..i] == slots[..i];
    } else {
      i := n - 1;
      assert init == slots[..i];
    }
  }

  /**
   * A handle that was valid before compaction is remapped to a valid handle
   * of the current generation designating the same element; any other
   * handle is left as it was.
   */
  lemma RemapMovesValidHandles<E, K>(s: Store<E>, h: ElementIndex<K>)
    ensures IsValid(s, h) ==> h.offset in RemapTable<E, K>(s)
    ensures IsValid(s, h) ==>
      && Remap(RemapTable(s), s.generation, h) == ElementIndex(Rank(s.slots, h.offset), s.generation + 1)
      && IsValid(Compacted(s), Remap(RemapTable(s), s.generation, h))
      && Get(Compacted(s), Rank(s.slots, h.offset)) == Get(s, h.offset)
    ensures !IsValid(s, h) ==> Remap(RemapTable(s), s.generation, h) == h
  {
    if IsValid(s, h) {
      PackedAt(s.slots, h.offset);
    }
  }

  /** Rewriting every element keeps the allocation, the generation and the count. */
  lemma MapStoreProperties<E>(s: Store<E>, f: E -> E)
    ensures MapStore(s, f).generation == s.generation
    ensures Size(MapStore(s, f)) == Size(s)
    ensures forall k: nat :: IsAllocated(MapStore(s, f), k) <==> IsAllocated(s, k)
    ensures forall k: nat :: IsAllocated(s, k) ==> Get(MapStore(s, f), k) == f(Get(s, k))
  {
    CountSameShape(s.slots, MapStore(s, f).slots);
  }

  /** Compaction keeps the element count and invalidates every handle issued before it. */
  lemma CompactedProperties<E, K>(s: Store<E>, h: ElementIndex<K>)
    requires s.generation != IGNORED_GENERATION
    ensures Size(Compacted(s)) == Size(s)
    ensures h.generation == s.generation ==> !IsValid(Compacted(s), h)
    ensures forall k: nat :: k < Size(s) <==> IsAllocated(Compacted(s), k)
  {
    PackedShape(s.slots);
  }

  /**
   * A handle carrying the ignored generation, which the buffer's `Add`
   * returns as written, still passes the validity check after compaction,
   * although it then names whatever element moved into its offset.
   */
  lemma AsWrittenAddHandleOutlivesCompaction<E>(x: E, y: E)
    ensures var s := AddAt(AddAt(EmptyStore<E>(), x, 0), y, 1);
      IsValid(Compacted(RemoveAt(s, 0)), FromOffset<EdgeKind>(0))
      && Get(Compacted(RemoveAt(s, 0)), 0) == y
  {
    var s := AddAt(AddAt(EmptyStore<E>(), x, 0), y, 1);
    assert s.slots == [Some(x), Some(y)];
    assert RemoveAt(s, 0).slots == [None, Some(y)];
    assert [None, Some(y)][..1] == [None];
    var none: seq<Option<E>> := [None];
    assert none[..0] == [];
    assert Packed(none) == [];
    assert Packed(RemoveAt(s, 0).slots) == [Some(y)];
  }

  /** A handle stamped with the buffer's generation is valid until the next compaction, and not after. */
  lemma StampedHandleGoesStale<E, K>(s: Store<E>, offset: nat)
    requires s.generation != IGNORED_GENERATION
    requires IsAllocated(s, offset)
    ensures IsValid(s, FromOffsetAndGeneration<K>(offset, s.generation))
    ensures !IsValid(Compacted(s), FromOffsetAndGeneration<K>(offset, s.generation))
  {
  }

  // ---------------------------------------------------------------------

  /** THedgeElementBuffer: one kind of element in a sparse array of slots. */
  class ElementBuffer<E, K> {
    var slots: seq<Option<E>>
    var generation: nat
    /** The value `ElementType()` default-constructs. */
    const blank: E

    ghost predicate Valid()
      reads this
    {
      generation != IGNORED_GENERATION
    }

    function Model(): Store<E>
      reads this
    {
      Store(slots, generation)
    }

    constructor (blank: E)
      ensures Valid() && Model() == EmptyStore() && this.blank == blank
    {
      slots := [];
      generation := FIRST_GENERATION;
      this.blank := blank;
    }

    function Num(): nat
      reads this
    {
      Count(slots)
    }

    predicate IsAllocated(offset: nat)
      reads this
    {
      offset < |slots| && slots[offset].Some?
    }

    predicate IsValidHandle(h: ElementIndex<K>)
      reads this
    {
      IsValid(Model(), h)
    }

    /** Empties the buffer. */
    method Reset()
      modifies this
      ensures slots == [] && generation == old(generation) && Num() == 0
    {
      slots := [];
    }

    /** Stores `e` in a free slot, or at the end, and returns a handle stamped with the generation. */
    method Add(e: E) returns (h: ElementIndex<K>)
      modifies this
      ensures CanAllocate(old(Model()), h.offset)
      ensures h.generation == generation
      ensures Model() == AddAt(old(Model()), e, h.offset)
    {
      var offset: nat;
      if HasFreeSlot(slots) {
        offset :| offset < |slots| && slots[offset].None?;
        slots := slots[offset := Some(e)];
      } else {
        offset := |slots|;
        slots := slots + [Some(e)];
      }
      h := ElementIndex(offset, generation);
    }

    /** Consults the offset only: the generation of `h` is not checked here. */
    function Get(h: ElementIndex<K>): (e: E)
      reads this
      requires IsAllocated(h.offset)
      ensures Some(e) == slots[h.offset]
    {
      slots[h.offset].value
    }

    /** Writing through the reference `Get` hands out. */
    method Update(h: ElementIndex<K>, e: E)
      requires IsAllocated(h.offset)
      modifies this
      ensures Model() == UpdateAt(old(Model()), h.offset, e)
    {
      slots := slots[h.offset := Some(e)];
    }

    /** Frees the slot; like `Get` it consults the offset only. */
    method Remove(h: ElementIndex<K>)
      requires IsAllocated(h.offset)
      modifies this
      ensures Model() == RemoveAt(old(Model()), h.offset)
    {
      slots := slots[h.offset := None];
    }

    /** `Add` of a default element followed by `Get`. */
    method New() returns (h: ElementIndex<K>, e: E)
      modifies this
      ensures CanAllocate(old(Model()), h.offset) && h.generation == generation
      ensures Model() == AddAt(old(Model()), blank, h.offset)
      ensures e == blank
    {
      h := Add(blank);
      e := Get(h);
    }

    /** Moves the allocated elements to the front in order and starts a new generation. */
    method Compact() returns (remap: map<nat, ElementIndex<K>>)
      requires Valid()
      modifies this
      ensures Valid()
      ensures Model() == Compacted(old(Model()))
      ensures remap == RemapTable(old(Model()))
    {
      var packed: seq<Option<E>> := [];
      remap := map[];
      var i := 0;
      while i < |slots|
        invariant slots == old(slots) && generation == old(generation)
        invariant i <= |slots|
        invariant packed == Packed(slots[..i])
        invariant remap == RemapPrefix(slots, generation, i)
      {
        assert slots[..i + 1][..i] == slots[..i];
        PackedShape(slots[..i]);
        RemapPrefixStep<E, K>(slots, generation, i);
        if slots[i].Some? {
          remap := remap[i := ElementIndex(|packed|, generation + 1)];
        }
        packed := packed + (if slots[i].Some? then [slots[i]] else []);
        i := i + 1;
      }
      assert slots[..i] == slots;
      RemapPrefixFull<E, K>(Model());
      slots := packed;
      generation := generation + 1;
    }

    /** Rewrites every allocated element with `f`, slot by slot. */
    method Rewrite(f: E -> E)
      modifies this
      ensures Model() == MapStore(old(Model()), f)
    {
      var i := 0;
      while i < |slots|
        invariant i <= |slots| == |old(slots)|
        invariant generation == old(generation)
        invariant forall k :: 0 <= k < i ==> slots[k] == if old(slots)[k].Some? then Some(f(old(slots)[k].value)) else None
        invariant forall k :: i <= k < |slots| ==> slots[k] == old(slots)[k]
      {
        if slots[i].Some? {
          slots := slots[i := Some(f(slots[i].value))];
        }
        i := i + 1;
      }
    }
  }
}
