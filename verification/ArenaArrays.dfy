/** The bump arena of arena.c and the growable arrays and node stacks that live on it (the GROW_ARRAY
    pushes of cbm.c, extract_node_stack.h). Old storage is abandoned when an array grows. */
module ArenaArrays {
  import opened Basics

  /** A pointer: a block of the arena and an offset in it. */
  datatype Addr = Addr(block: nat, offset: nat)

  datatype Range = Range(block: nat, lo: nat, hi: nat)

  const MAX_BLOCKS: nat := 256
  const DEFAULT_BLOCK_SIZE: nat := 64 * 1024

  ghost predicate Disjoint(a: Range, b: Range) {
    a.block != b.block || a.hi <= b.lo || b.hi <= a.lo
  }

  /** Requests are rounded up to a multiple of eight bytes. */
  function Rounded(n: nat): (r: nat)
    ensures n <= r < n + 8 && r % 8 == 0
  {
    (n + 7) / 8 * 8
  }

  predicate Aligned(n: nat) { n % 8 == 0 }

  lemma AlignedSizes(n: nat, m: nat)
    requires Aligned(n) && Aligned(m)
    ensures Aligned(2 * n) && Aligned(n + m) && Aligned(0)
  {}

  /** Between multiples of eight, bytes that fit still fit when they are rounded up. */
  lemma RoundedFits(used: nat, n: nat, size: nat)
    requires Aligned(used) && Aligned(size)
    ensures used + Rounded(n) <= size <==> used + n <= size
  {}

  lemma RoundedIs(n: nat)
    ensures Aligned(Rounded(n)) && n <= Rounded(n) && (n > 0 ==> Rounded(n) > 0)
  {}

  function Bytes(n: nat, size: nat): (b: nat)
    ensures b == n * size
  {
    assert n * size >= 0;
    n * size
  }

  function Max(a: nat, b: nat): nat { if a < b then b else a }

  /** The capacity an array asks for when it is full. */
  function Next(cap: nat, firstCap: nat): nat { if cap == 0 then firstCap else cap * 2 }

  /** Where item `i` of an array of `size`-byte items at `p` starts. */
  function ItemAt(p: Addr, size: nat, i: nat): Addr {
    Addr(p.block, p.offset + i * size)
  }

  /** The bytes of an item lie inside those of its array, and end before those of the next begin. */
  lemma ItemsApart(p: Addr, size: nat, i: nat, j: nat, n: nat)
    requires i < j < n
    ensures ItemAt(p, size, i).block == ItemAt(p, size, j).block == p.block && p.offset <= ItemAt(p, size, i).offset
    ensures ItemAt(p, size, i).offset + size <= ItemAt(p, size, j).offset
    ensures ItemAt(p, size, j).offset + size <= p.offset + n * size
  {
    ItemBound(size, i, j);
    ItemBound(size, j, n);
  }

  lemma ItemsDiffer(p: Addr, size: nat, i: nat, j: nat)
    requires size > 0 && i != j
    ensures ItemAt(p, size, i) != ItemAt(p, size, j)
  {
    if i < j { ItemsApart(p, size, i, j, j + 1); } else { ItemsApart(p, size, j, i, i + 1); }
  }

  lemma ItemBound(size: nat, i: nat, n: nat)
    requires i < n
    ensures i * size + size <= n * size
  {
    assert (i + 1) * size <= n * size;
  }

  ghost predicate Inside(a: Addr, r: Range) {
    a.block == r.block && r.lo <= a.offset < r.hi
  }

  /** How much an arena has handed out: its blocks, and the current block's size and use. */
  datatype Room = Room(blocks: nat, blockSize: nat, used: nat)

  predicate FitsIn(room: Room, n: nat) { room.used + Rounded(n) <= room.blockSize }

  /** A request for `n` bytes can be met; `memory` is what malloc answers if it is asked. */
  predicate Gives(room: Room, n: nat, memory: bool) {
    n > 0 && room.blocks > 0 && (FitsIn(room, n) || (memory && room.blocks < MAX_BLOCKS))
  }

  /** What a request leaves. */
  function After(room: Room, n: nat, memory: bool): Room {
    if !Gives(room, n, memory) then room
    else if FitsIn(room, n) then room.(used := room.used + Rounded(n))
    else Room(room.blocks + 1, Max(2 * room.blockSize, Rounded(n)), Rounded(n))
  }

  class Arena<T> {
    var blockSizes: seq<nat>      // one entry a block
    var blockSize: nat
    var used: nat
    var mem: map<Addr, T>         // items, by the address they start at
    ghost var taken: seq<Range>   // every range ever handed out

    ghost predicate Valid()
      reads this`blockSizes, this`blockSize, this`used, this`taken
    {
      && |blockSizes| <= MAX_BLOCKS
      && (blockSizes != [] ==>
            && blockSize == blockSizes[|blockSizes| - 1] && used <= blockSize
            && Aligned(used) && Aligned(blockSize))
      && (forall i :: 0 <= i < |taken| ==>
            && taken[i].block < |blockSizes| && taken[i].lo < taken[i].hi <= blockSizes[taken[i].block]
            && (taken[i].block == |blockSizes| - 1 ==> taken[i].hi <= used)
            && Aligned(taken[i].lo))
      && (forall i, j :: 0 <= i < j < |taken| ==> Disjoint(taken[i], taken[j]))
    }

    function Left(): Room
      reads this`blockSizes, this`blockSize, this`used
    {
      Room(|blockSizes|, blockSize, used)
    }

    /** `cbm_arena_init`; without memory the arena has no block and hands out nothing. */
    constructor (memory: bool)
      ensures Valid() && taken == [] && mem == map[] && used == 0
      ensures blockSizes == if memory then [DEFAULT_BLOCK_SIZE] else []
    {
      blockSize, used, mem, taken := DEFAULT_BLOCK_SIZE, 0, map[], [];
      blockSizes := if memory then [DEFAULT_BLOCK_SIZE] else [];
    }

    /** `arena_grow`. */
    method Grow(minSize: nat, memory: bool) returns (ok: bool)
      requires Valid() && blockSizes != [] && Aligned(minSize)
      modifies this`blockSizes, this`blockSize, this`used
      ensures Valid()
      ensures ok <==> memory && |old(blockSizes)| < MAX_BLOCKS
      ensures !ok ==> blockSizes == old(blockSizes) && blockSize == old(blockSize) && used == old(used)
      ensures ok ==> used == 0 && blockSizes == old(blockSizes) + [blockSize]
      ensures ok ==> blockSize == Max(2 * old(blockSize), minSize)
    {
      hide Aligned, Disjoint;
      AlignedSizes(blockSize, blockSize);
      if |blockSizes| >= MAX_BLOCKS {
        return false;
      }
      var newSize := blockSize * 2;
      if newSize < minSize {
        newSize := minSize;
      }
      if !memory {
        return false;  // malloc failed
      }
      blockSizes := blockSizes + [newSize];
      blockSize := newSize;
      used := 0;
      return true;
    }

    /** `cbm_arena_alloc`: a new range, 8-byte aligned, inside one block and apart from every range
        handed out before; or, exactly when the request cannot be met, nothing, with the arena as it was. */
    method Alloc(n: nat, memory: bool) returns (p: Option<Addr>)
      requires Valid()
      modifies this`blockSizes, this`blockSize, this`used, this`taken
      ensures Valid()
      ensures p.None? ==> taken == old(taken) && blockSizes == old(blockSizes) && used == old(used)
      ensures p.Some? ==>
                n > 0 && taken == old(taken) + [Range(p.value.block, p.value.offset, p.value.offset + Rounded(n))]
      ensures p.Some? <==> Gives(old(Left()), n, memory)
      ensures Left() == After(old(Left()), n, memory) && old(blockSizes) <= blockSizes
      ensures p.Some? ==> p.value.block == |blockSizes| - 1 && p.value.offset + Rounded(n) == used
      ensures n > 0 && old(blockSizes) != [] && old(used) + n <= old(blockSize) ==>
                p == Some(Addr(|old(blockSizes)| - 1, old(used))) && blockSizes == old(blockSizes)
      ensures n > 0 && old(blockSizes) != [] && old(used) + n > old(blockSize) ==>
                if memory && |old(blockSizes)| < 256
                then p == Some(Addr(|old(blockSizes)|, 0)) && |blockSizes| == |old(blockSizes)| + 1
                     && blockSize >= n && blockSize >= 2 * old(blockSize)
                else p == None
      ensures n == 0 || old(blockSizes) == [] ==> p == None
    {
      hide Rounded, Aligned;
      if n == 0 {
        return None;
      }
      var m := Rounded(n);
      RoundedIs(n);
      if |blockSizes| > 0 {
        RoundedFits(used, n, blockSize);
        AlignedSizes(used, m);
        AlignedSizes(m, m);
      }
      if |blockSizes| == 0 {
        return None;
      }
      if used + m > blockSize {
        var ok := Grow(m, memory);
        if !ok {
          return None;
        }
      }
      p := Some(Addr(|blockSizes| - 1, used));
      taken := taken + [Range(|blockSizes| - 1, used, used + m)];
      used := used + m;
    }

    method Store(a: Addr, v: T)
      modifies this`mem
      ensures mem == old(mem)[a := v]
    {
      mem := mem[a := v];
    }

    /** memcpy of `n` items between two ranges that do not overlap. */
    method CopyItems(dst: Addr, src: Addr, n: nat, size: nat, ghost to: Range, ghost from: Range)
      requires size > 0 && Disjoint(to, from)
      requires forall i :: 0 <= i < n ==> Inside(ItemAt(dst, size, i), to) && Inside(ItemAt(src, size, i), from)
      requires forall i :: 0 <= i < n ==> ItemAt(src, size, i) in mem
      modifies this`mem
      ensures OnlyInside(old(mem), mem, to)
      ensures forall i :: 0 <= i < n ==>
                ItemAt(dst, size, i) in mem && mem[ItemAt(dst, size, i)] == old(mem)[ItemAt(src, size, i)]
    {
      hide ItemAt;
      for i := 0 to n
        invariant OnlyInside(old(mem), mem, to)
        invariant forall k :: 0 <= k < i ==>
                    ItemAt(dst, size, k) in mem && mem[ItemAt(dst, size, k)] == old(mem)[ItemAt(src, size, k)]
      {
        assert !Inside(ItemAt(src, size, i), to);
        forall k | 0 <= k < i ensures ItemAt(dst, size, k) != ItemAt(dst, size, i) {
          ItemsDiffer(dst, size, k, i);
        }
        Store(ItemAt(dst, size, i), mem[ItemAt(src, size, i)]);
      }
    }

    /** `cbm_arena_destroy`: every block is freed, each once. */
    method Destroy() returns (freed: seq<nat>)
      modifies this
      ensures |freed| == |old(blockSizes)| && forall i :: 0 <= i < |freed| ==> freed[i] == i
      ensures Valid() && blockSizes == [] && taken == []
    {
      freed := [];
      for i := 0 to |blockSizes|
        invariant |freed| == i && forall k :: 0 <= k < i ==> freed[k] == k
        invariant blockSizes == old(blockSizes)
      {
        freed := freed + [i];
      }
      blockSizes, blockSize, used, mem, taken := [], 0, 0, map[], [];
    }
  }

  /** The range numbered `slot` starts at `p`, has room for `cap` items, and holds the first `count`. */
  ghost predicate Placed<T>(p: Addr, count: nat, cap: nat, size: nat, slot: nat, taken: seq<Range>, mem: map<Addr, T>) {
    && slot < |taken| && taken[slot].block == p.block && taken[slot].lo == p.offset
    && p.offset + cap * size <= taken[slot].hi
    && forall i :: 0 <= i < count ==> ItemAt(p, size, i) in mem
  }

  ghost function ItemsOf<T>(p: Addr, count: nat, size: nat, mem: map<Addr, T>): seq<T>
    requires forall i :: 0 <= i < count ==> ItemAt(p, size, i) in mem
  {
    seq(count, i requires 0 <= i < count => mem[ItemAt(p, size, i)])
  }

  /** `CBMDefArray` and its like, and `TSNodeStack`. */
  class GrowArray<T> {
    var items: Option<Addr>
    var count: nat
    var cap: nat
    const itemSize: nat
    const firstCap: nat

    ghost var slot: nat     // which of the arena's ranges holds the items
    ghost var base: nat     // the first capacity this array was given
    ghost var pushes: nat   // successful pushes so far
    ghost var copied: nat   // items copied by growth so far

    /** The array owns one of the arena's ranges, and its items are stored there. */
    ghost predicate Valid(a: Arena<T>)
      reads this, a
    {
      && itemSize > 0 && firstCap > 0 && count <= cap && count <= pushes
      && (items.None? <==> cap == 0)
      && (items.Some? ==> Placed(items.value, count, cap, itemSize, slot, a.taken, a.mem))
      && (if cap == 0 then copied == 0 else copied + base == cap && base > 0 && (cap == base || 2 * pushes >= cap))
    }

    ghost function Contents(a: Arena<T>): seq<T>
      requires Valid(a)
      reads this, a
    {
      if items.None? then [] else ItemsOf(items.value, count, itemSize, a.mem)
    }

    /** Not living in the same range. */
    ghost predicate Apart(o: GrowArray<T>)
      reads this, o
    {
      this != o && (items.None? || o.items.None? || slot != o.slot)
    }

    constructor (itemSize: nat, firstCap: nat, a: Arena<T>)
      requires itemSize > 0 && firstCap > 0
      ensures Valid(a) && Contents(a) == [] && items.None? && pushes == 0 && copied == 0
      ensures this.itemSize == itemSize && this.firstCap == firstCap
    {
      this.itemSize, this.firstCap := itemSize, firstCap;
      items, count, cap := None, 0, 0;
      slot, base, pushes, copied := 0, 0, 0, 0;
    }

    /** Asks for a range of `newCap` items and moves there. */
    method Grow(a: Arena<T>, newCap: nat, memory: bool) returns (ok: bool)
      requires a.Valid() && Valid(a) && newCap > cap && count == cap
      requires cap == 0 || (newCap == 2 * cap && 2 * pushes >= newCap)
      modifies this, a
      ensures a.Valid() && Valid(a) && old(a.taken) <= a.taken
      ensures Contents(a) == old(Contents(a)) && count == old(count) && pushes == old(pushes)
      ensures ok <==> Gives(old(a.Left()), Bytes(newCap, itemSize), memory)
      ensures a.Left() == After(old(a.Left()), Bytes(newCap, itemSize), memory)
      ensures ok ==> cap == newCap && slot == |old(a.taken)| && items.Some?
      ensures ok ==> OnlyInside(old(a.mem), a.mem, a.taken[slot])
      ensures !ok ==> a.taken == old(a.taken) && a.mem == old(a.mem)
      ensures !ok ==> cap == old(cap) && items == old(items) && slot == old(slot)
    {
      hide Arena.Valid, Gives, After;
      ProductPositive(newCap, itemSize);
      ghost var before := Contents(a);
      var p := a.Alloc(Bytes(newCap, itemSize), memory);
      assert Valid(a) && Contents(a) == before;
      if p.None? {
        return false;
      }
      if items.Some? {
        TakenApart(a, slot, |old(a.taken)|);
      }
      MoveTo(a, p.value, newCap, |old(a.taken)|);
      return true;
    }

    /** Copies the items to their new range; the old one is abandoned, not reused. */
    method MoveTo(a: Arena<T>, p: Addr, newCap: nat, ghost newSlot: nat)
      requires Valid(a) && newCap > cap && count == cap && newSlot < |a.taken|
      requires cap == 0 || (newCap == 2 * cap && 2 * pushes >= newCap)
      requires a.taken[newSlot].block == p.block && a.taken[newSlot].lo == p.offset
      requires p.offset + newCap * itemSize <= a.taken[newSlot].hi
      requires items.Some? ==> Disjoint(a.taken[newSlot], a.taken[slot])
      modifies this, a`mem
      ensures Valid(a) && items == Some(p) && slot == newSlot && cap == newCap
      ensures Contents(a) == old(Contents(a)) && count == old(count) && pushes == old(pushes)
      ensures OnlyInside(old(a.mem), a.mem, a.taken[slot])
    {
      hide ItemAt, OnlyInside, Inside, Disjoint;
      ItemsInside(p, itemSize, newCap, a.taken[newSlot]);
      if items.Some? {
        ItemsInside(items.value, itemSize, cap, a.taken[slot]);
        a.CopyItems(p, items.value, count, itemSize, a.taken[newSlot], a.taken[slot]);
      } else {
        Unchanged(a.mem, a.taken[newSlot]);
      }
      copied := if cap == 0 then 0 else copied + count;
      base := if cap == 0 then newCap else base;
      items := Some(p);
      cap := newCap;
      slot := newSlot;
    }

    function NextCap(): nat
      reads this`cap
    {
      Next(cap, firstCap)
    }

    /** `GROW_ARRAY` and the store, or `ts_nstack_push`. It appends, or leaves the array alone exactly
        when it is full and the arena cannot give twice the room; no other array on the arena notices.
        All growth so far has copied fewer than two items a push. */
    method Push(a: Arena<T>, v: T, memory: bool, ghost others: set<GrowArray<T>>) returns (ok: bool)
      requires a.Valid() && Valid(a) && forall o :: o in others ==> o.Valid(a) && Apart(o)
      modifies this, a
      ensures a.Valid() && Valid(a) && (forall o :: o in others ==> o.Valid(a) && Apart(o))
      ensures Contents(a) == old(Contents(a)) + (if ok then [v] else [])
      ensures forall o :: o in others ==> o.Contents(a) == old(o.Contents(a))
      ensures pushes == old(pushes) + (if ok then 1 else 0)
      ensures ok ==> copied < 2 * pushes
      ensures ok <==> old(count) < old(cap) || Gives(old(a.Left()), Bytes(old(NextCap()), itemSize), memory)
      ensures a.Left() == if old(count) < old(cap) then old(a.Left())
                          else After(old(a.Left()), Bytes(old(NextCap()), itemSize), memory)
      ensures cap == if ok && !(old(count) < old(cap)) then old(NextCap()) else old(cap)
      ensures cap == old(cap) || cap == if old(cap) == 0 then firstCap else 2 * old(cap)
      ensures count == old(count) + if ok then 1 else 0
    {
      if count >= cap {
        ok := MakeRoom(a, memory, others);
        if !ok {
          assert Contents(a) + [] == Contents(a);
          return false;
        }
      }
      Append(a, v, others);
      return true;
    }

    /** `GROW_ARRAY` when the array is full. */
    method MakeRoom(a: Arena<T>, memory: bool, ghost others: set<GrowArray<T>>) returns (ok: bool)
      requires a.Valid() && Valid(a) && count == cap && forall o :: o in others ==> o.Valid(a) && Apart(o)
      modifies this, a
      ensures a.Valid() && Valid(a) && (forall o :: o in others ==> o.Valid(a) && Apart(o))
      ensures Contents(a) == old(Contents(a)) && count == old(count) && pushes == old(pushes)
      ensures forall o :: o in others ==> o.Contents(a) == old(o.Contents(a))
      ensures ok <==> Gives(old(a.Left()), Bytes(old(NextCap()), itemSize), memory)
      ensures a.Left() == After(old(a.Left()), Bytes(old(NextCap()), itemSize), memory)
      ensures cap == if ok then old(NextCap()) else old(cap)
      ensures cap >= old(cap) && (ok ==> cap > old(cap))
    {
      var newCap := if cap == 0 then firstCap else cap * 2;
      ok := Grow(a, newCap, memory);
      if !ok {
        return;
      }
      forall o | o in others && o.items.Some? && items.Some?
        ensures o.Valid(a) && o.Contents(a) == old(o.Contents(a))
      {
        TakenApart(a, o.slot, slot);
        PlacedKept(o.items.value, o.count, o.cap, o.itemSize, o.slot, slot, old(a.taken), a.taken, old(a.mem), a.mem);
      }
    }

    /** `items[count++] = v`, with room to spare. */
    method Append(a: Arena<T>, v: T, ghost others: set<GrowArray<T>>)
      requires a.Valid() && Valid(a) && count < cap && forall o :: o in others ==> o.Valid(a) && Apart(o)
      modifies this`count, this`pushes, a`mem
      ensures a.Valid() && Valid(a) && (forall o :: o in others ==> o.Valid(a) && Apart(o))
      ensures Contents(a) == old(Contents(a)) + [v]
      ensures forall o :: o in others ==> o.Contents(a) == old(o.Contents(a))
      ensures pushes == old(pushes) + 1 && cap == old(cap)
    {
      hide ItemAt, OnlyInside, Disjoint, Arena.Valid;
      StoreItem(a, count, v);
      forall o | o in others && o.items.Some? && items.Some?
        ensures o.Valid(a) && o.Contents(a) == old(o.Contents(a))
      {
        TakenApart(a, o.slot, slot);
        PlacedKept(o.items.value, o.count, o.cap, o.itemSize, o.slot, slot, old(a.taken), a.taken, old(a.mem), a.mem);
      }
      count := count + 1;
      pushes := pushes + 1;
    }

    /** `ts_nstack_pop`. */
    method Pop(a: Arena<T>) returns (v: T)
      requires Valid(a) && count > 0
      modifies this`count
      ensures Valid(a) && Contents(a) == old(Contents(a))[..old(count) - 1] && v == old(Contents(a))[old(count) - 1]
    {
      count := count - 1;
      v := a.mem[ItemAt(items.value, itemSize, count)];
    }

    /** `ts_nstack_init`: without memory the stack starts with no capacity. */
    method Init(a: Arena<T>, initialCap: nat, memory: bool, ghost others: set<GrowArray<T>>)
      requires a.Valid() && Valid(a) && cap == 0 && initialCap > 0
      requires forall o :: o in others ==> o.Valid(a) && Apart(o)
      modifies this, a
      ensures a.Valid() && Valid(a) && (forall o :: o in others ==> o.Valid(a) && Apart(o))
      ensures Contents(a) == [] && pushes == old(pushes)
      ensures cap == if Gives(old(a.Left()), Bytes(initialCap, itemSize), memory) then initialCap else 0
      ensures forall o :: o in others ==> o.Contents(a) == old(o.Contents(a))
    {
      var ok := Grow(a, initialCap, memory);
      if !ok {
        return;
      }
      forall o | o in others && o.items.Some?
        ensures o.Valid(a) && o.Contents(a) == old(o.Contents(a))
      {
        TakenApart(a, o.slot, slot);
        PlacedKept(o.items.value, o.count, o.cap, o.itemSize, o.slot, slot, old(a.taken), a.taken, old(a.mem), a.mem);
      }
    }

    method Swap(a: Arena<T>, i: nat, j: nat, ghost others: set<GrowArray<T>>)
      requires a.Valid() && Valid(a) && i < j < count && forall o :: o in others ==> o.Valid(a) && Apart(o)
      modifies a`mem
      ensures a.Valid() && Valid(a) && (forall o :: o in others ==> o.Valid(a) && Apart(o))
      ensures Contents(a) == old(Contents(a))[i := old(Contents(a))[j]][j := old(Contents(a))[i]]
      ensures forall o :: o in others ==> o.Contents(a) == old(o.Contents(a))
    {
      var x := a.mem[ItemAt(items.value, itemSize, i)];
      var y := a.mem[ItemAt(items.value, itemSize, j)];
      Replace(a, i, y, others);
      Replace(a, j, x, others);
    }

    method Replace(a: Arena<T>, i: nat, v: T, ghost others: set<GrowArray<T>>)
      requires a.Valid() && Valid(a) && i < count && forall o :: o in others ==> o.Valid(a) && Apart(o)
      modifies a`mem
      ensures a.Valid() && Valid(a) && (forall o :: o in others ==> o.Valid(a) && Apart(o))
      ensures Contents(a) == old(Contents(a))[i := v]
      ensures forall o :: o in others ==> o.Contents(a) == old(o.Contents(a))
    {
      StoreItem(a, i, v);
      forall o | o in others && o.items.Some? && items.Some?
        ensures o.Valid(a) && o.Contents(a) == old(o.Contents(a))
      {
        TakenApart(a, o.slot, slot);
        PlacedKept(o.items.value, o.count, o.cap, o.itemSize, o.slot, slot, old(a.taken), a.taken, old(a.mem), a.mem);
      }
    }

    /** `ts_nstack_push_children`: one forward pass, then the new segment is reversed in place, so the
        first child is popped first. */
    method PushChildren(a: Arena<T>, children: seq<T>, memory: seq<bool>, ghost others: set<GrowArray<T>>)
        returns (ok: bool)
      requires |memory| == |children|
      requires a.Valid() && Valid(a) && forall o :: o in others ==> o.Valid(a) && Apart(o)
      modifies this, a
      ensures a.Valid() && Valid(a) && (forall o :: o in others ==> o.Valid(a) && Apart(o))
      ensures ok <==> AllFit(old(a.Left()), old(count), old(cap), itemSize, firstCap, memory)
      ensures old(Contents(a)) <= Contents(a)
      ensures ok ==> Contents(a) == old(Contents(a)) + Reversed(children)
      ensures forall o :: o in others ==> o.Contents(a) == old(o.Contents(a))
    {
      hide GrowArray.Valid, Arena.Valid, GrowArray.Contents, Gives, After, Next;
      CountOf(a, this);
      var first := count;
      ghost var before := Contents(a);
      ok := true;
      ghost var allFit := AllFit(a.Left(), count, cap, itemSize, firstCap, memory);
      assert memory[0..] == memory;
      for i := 0 to |children|
        invariant a.Valid() && Valid(a) && (forall o :: o in others ==> o.Valid(a) && Apart(o))
        invariant forall o :: o in others ==> o.Contents(a) == old(o.Contents(a))
        invariant before <= Contents(a)
        invariant ok ==> Contents(a) == before + children[..i]
        invariant allFit == (ok && AllFit(a.Left(), count, cap, itemSize, firstCap, memory[i..]))
      {
        AllFitStep(a.Left(), count, cap, itemSize, firstCap, memory, i);
        var pushed := Push(a, children[i], memory[i], others);
        ok := ok && pushed;
      }
      CountOf(a, this);
      ReverseFrom(a, first, others);
    }

    /** Reverses the items from `first` on, two indices walking towards each other. */
    method ReverseFrom(a: Arena<T>, first: nat, ghost others: set<GrowArray<T>>)
      requires a.Valid() && Valid(a) && first <= count && forall o :: o in others ==> o.Valid(a) && Apart(o)
      modifies a`mem
      ensures a.Valid() && Valid(a) && (forall o :: o in others ==> o.Valid(a) && Apart(o))
      ensures Contents(a) == old(Contents(a))[..first] + Reversed(old(Contents(a))[first..])
      ensures forall o :: o in others ==> o.Contents(a) == old(o.Contents(a))
    {
      hide GrowArray.Valid, Arena.Valid, GrowArray.Contents, PartlyReversed;
      ghost var whole := Contents(a);
      CountOf(a, this);
      StartReversing(whole, first);
      var lo: int, hi: int := first, count - 1;
      while lo < hi
        invariant a.Valid() && Valid(a) && (forall o :: o in others ==> o.Valid(a) && Apart(o))
        invariant forall o :: o in others ==> o.Contents(a) == old(o.Contents(a))
        invariant first <= lo && lo + hi == first + count - 1 && hi >= lo - 1
        invariant PartlyReversed(whole, Contents(a), first, lo, hi)
      {
        SwapStep(whole, Contents(a), first, lo, hi);
        Swap(a, lo, hi, others);
        lo := lo + 1;
        hi := hi - 1;
      }
      FullyReversed(whole, Contents(a), first, lo, hi);
    }

    /** `items[i] = v` for the next or an existing item. */
    method StoreItem(a: Arena<T>, i: nat, v: T)
      requires Valid(a) && i <= count && i < cap
      modifies a`mem
      ensures Valid(a) && OnlyInside(old(a.mem), a.mem, a.taken[slot])
      ensures ItemAt(items.value, itemSize, i) in a.mem && a.mem[ItemAt(items.value, itemSize, i)] == v
      ensures i == count ==> Contents(a) == old(Contents(a))
      ensures i < count ==> Contents(a) == old(Contents(a))[i := v]
    {
      ItemsInside(items.value, itemSize, cap, a.taken[slot]);
      forall k | 0 <= k < count && k != i ensures ItemAt(items.value, itemSize, k) != ItemAt(items.value, itemSize, i) {
        ItemsDiffer(items.value, itemSize, k, i);
      }
      hide ItemAt;
      a.Store(ItemAt(items.value, itemSize, i), v);
    }
  }

  /** Every one of several pushes finds room, each with its own answer from malloc. */
  predicate AllFit(room: Room, count: nat, cap: nat, itemSize: nat, firstCap: nat, memory: seq<bool>)
    decreases |memory|
  {
    if memory == [] then true
    else if count < cap then AllFit(room, count + 1, cap, itemSize, firstCap, memory[1..])
    else
      var n := Bytes(Next(cap, firstCap), itemSize);
      && Gives(room, n, memory[0])
      && AllFit(After(room, n, memory[0]), count + 1, Next(cap, firstCap), itemSize, firstCap, memory[1..])
  }

  lemma AllFitStep(room: Room, count: nat, cap: nat, itemSize: nat, firstCap: nat, memory: seq<bool>, i: nat)
    requires i < |memory|
    ensures var n := Bytes(Next(cap, firstCap), itemSize);
            AllFit(room, count, cap, itemSize, firstCap, memory[i..])
            <==> if count < cap then AllFit(room, count + 1, cap, itemSize, firstCap, memory[i + 1..])
                 else Gives(room, n, memory[i])
                      && AllFit(After(room, n, memory[i]), count + 1, Next(cap, firstCap), itemSize, firstCap,
                                memory[i + 1..])
  {
    hide Gives, After, Next;
    assert memory[i..][1..] == memory[i + 1..];
  }

  function Reversed<T>(s: seq<T>): seq<T> {
    seq(|s|, i requires 0 <= i < |s| => s[|s| - 1 - i])
  }

  lemma CountOf<T>(a: Arena<T>, s: GrowArray<T>)
    requires s.Valid(a)
    ensures |s.Contents(a)| == s.count
  {}

  /** Where the item at `k` comes from. */
  function Source(n: nat, first: nat, lo: int, hi: int, k: nat): (i: int)
    requires first <= lo <= hi + 1 && lo + hi == first + n - 1 && k < n
    ensures 0 <= i < n
  {
    if first <= k < lo || hi < k then first + n - 1 - k else k
  }

  /** The segment from `first` on, reversed outside [lo, hi]. */
  ghost predicate PartlyReversed<T>(whole: seq<T>, now: seq<T>, first: nat, lo: int, hi: int) {
    && |now| == |whole| && first <= lo <= hi + 1 && lo + hi == first + |whole| - 1
    && forall k :: 0 <= k < |whole| ==> now[k] == whole[Source(|whole|, first, lo, hi, k)]
  }

  lemma StartReversing<T>(whole: seq<T>, first: nat)
    requires first <= |whole|
    ensures PartlyReversed(whole, whole, first, first, |whole| - 1)
  {}

  lemma SwapStep<T>(whole: seq<T>, now: seq<T>, first: nat, lo: int, hi: int)
    requires PartlyReversed(whole, now, first, lo, hi) && lo < hi
    ensures PartlyReversed(whole, now[lo := now[hi]][hi := now[lo]], first, lo + 1, hi - 1)
  {
    assert now[lo] == whole[lo] && now[hi] == whole[hi];
    var next := now[lo := now[hi]][hi := now[lo]];
    forall k | 0 <= k < |whole|
      ensures next[k] == whole[Source(|whole|, first, lo + 1, hi - 1, k)]
    {
      assert k != lo && k != hi ==> next[k] == now[k];
    }
  }

  lemma FullyReversed<T>(whole: seq<T>, now: seq<T>, first: nat, lo: int, hi: int)
    requires PartlyReversed(whole, now, first, lo, hi) && lo >= hi && first <= |whole|
    ensures now == whole[..first] + Reversed(whole[first..])
  {
    var goal := whole[..first] + Reversed(whole[first..]);
    forall k | 0 <= k < |whole| ensures now[k] == goal[k] {
      assert k >= first ==> goal[k] == whole[first + |whole| - 1 - k];
    }
  }

  /** Items in one range do not notice writes to another. */
  lemma PlacedKept<T>(p: Addr, count: nat, cap: nat, size: nat, slot: nat, changed: nat,
                      taken0: seq<Range>, taken: seq<Range>, mem0: map<Addr, T>, mem: map<Addr, T>)
    requires size > 0 && count <= cap && Placed(p, count, cap, size, slot, taken0, mem0) && taken0 <= taken
    requires changed < |taken| && changed != slot && OnlyInside(mem0, mem, taken[changed])
    requires Disjoint(taken[slot], taken[changed])
    ensures Placed(p, count, cap, size, slot, taken, mem)
    ensures ItemsOf(p, count, size, mem) == ItemsOf(p, count, size, mem0)
  {
    assert taken[slot] == taken0[slot];
    ItemsInside(p, size, cap, taken[slot]);
    forall i | 0 <= i < count
      ensures ItemAt(p, size, i) in mem && mem[ItemAt(p, size, i)] == mem0[ItemAt(p, size, i)]
    {
      assert !Inside(ItemAt(p, size, i), taken[changed]);
    }
  }

  lemma Unchanged<T>(m: map<Addr, T>, r: Range)
    ensures OnlyInside(m, m, r)
  {}

  lemma TakenApart<T>(a: Arena<T>, i: nat, j: nat)
    requires a.Valid() && i < |a.taken| && j < |a.taken| && i != j
    ensures Disjoint(a.taken[j], a.taken[i]) && Disjoint(a.taken[i], a.taken[j])
  {}

  lemma ProductPositive(n: nat, m: nat)
    requires n > 0 && m > 0
    ensures n * m > 0
  {}

  lemma ItemsInside(p: Addr, size: nat, cap: nat, r: Range)
    requires size > 0 && r.block == p.block && r.lo == p.offset && p.offset + cap * size <= r.hi
    ensures forall i :: 0 <= i < cap ==> Inside(ItemAt(p, size, i), r)
  {
    forall i | 0 <= i < cap ensures Inside(ItemAt(p, size, i), r) {
      ItemBound(size, i, cap);
    }
  }

  /** The memory changed at most inside `r`. */
  ghost predicate OnlyInside<T>(m0: map<Addr, T>, m1: map<Addr, T>, r: Range) {
    forall x :: !Inside(x, r) ==> (x in m0 <==> x in m1) && (x in m0 ==> m0[x] == m1[x])
  }
}
