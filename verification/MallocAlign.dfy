/**
  * `rt_malloc_align` and `rt_free_align` on 32-bit machines: sizes and addresses wrap at 2^32, and
  * masking with a power of two minus one is written as the remainder it is.
  */
module MallocAlign {
  import opened Basics

  const WORD := 0x1_0000_0000

  /** `x % a`, step by step. */
  function Remainder(x: nat, a: nat): (r: nat)
    requires a > 0
    ensures r < a && r <= x
  {
    if x < a then x else Remainder(x - a, a)
  }

  ghost predicate PowerOfTwo(a: nat) { a == 1 || (a > 1 && a % 2 == 0 && PowerOfTwo(a / 2)) }

  function Wrap(x: int): nat { x % WORD }

  function RoundUp(x: nat): nat { Wrap(x + 3) - Wrap(x + 3) % 4 }

  /** The size asked of the heap, every addition wrapping. */
  function AlignSize(size: nat, align: nat): nat { Wrap(RoundUp(size) + RoundUp(align)) }

  /** No addition wraps. */
  predicate Representable(size: nat, align: nat) { (size + 3) - (size + 3) % 4 + RoundUp(align) < WORD }

  /** The address returned for a block at `block`, with the alignment already rounded up. */
  function AlignPointer(block: nat, align: nat): nat
    requires align > 0
  {
    if Remainder(block, align) == 0 then Wrap(block + align)
    else Wrap(block + (align - 1)) - Remainder(Wrap(block + (align - 1)), align)
  }

  // ------------------------------------------------------ arithmetic

  lemma {:induction false} PowerAbove(a: nat)
    requires PowerOfTwo(a)
    ensures a > 0 && (a < 4 || a % 4 == 0)
  {
    if a > 1 { PowerAbove(a / 2); }
  }

  /** The bits `x` and `y` share. */
  function And(x: nat, y: nat): nat {
    if x == 0 || y == 0 then 0 else x % 2 * (y % 2) + 2 * And(x / 2, y / 2)
  }

  lemma {:induction false} RemainderHalf(x: nat, b: nat)
    requires b > 0
    ensures Remainder(x, 2 * b) == x % 2 + 2 * Remainder(x / 2, b)
  {
    if x >= 2 * b { RemainderHalf(x - 2 * b, b); }
  }

  /** Masking with a power of two minus one takes the remainder. */
  lemma {:induction false} MaskIsRemainder(x: nat, a: nat)
    requires PowerOfTwo(a)
    ensures And(x, a - 1) == Remainder(x, a)
  {
    if a > 1 && x > 0 {
      MaskIsRemainder(x / 2, a / 2);
      RemainderHalf(x, a / 2);
      assert (a - 1) / 2 == a / 2 - 1;
    }
  }

  lemma Wraps(x: nat)
    requires x < 2 * WORD
    ensures Wrap(x) == if x < WORD then x else x - WORD
  {
  }

  lemma RoundsUp(x: nat)
    requires x < WORD
    ensures RoundUp(x) == if x + 3 < WORD then x + 3 - (x + 3) % 4 else 0
  {
    Wraps(x + 3);
  }

  lemma RoundUpAlign(a: nat)
    requires PowerOfTwo(a) && a < WORD
    ensures RoundUp(a) == (if a < 4 then 4 else a) && RoundUp(a) % 4 == 0 && RoundUp(a) < WORD
  {
    PowerAbove(a);
    FourUp(a);
  }

  lemma FourUp(a: nat)
    requires 0 < a < WORD && (a < 4 || a % 4 == 0)
    ensures RoundUp(a) == if a < 4 then 4 else a
  {
    RoundsUp(a);
  }

  lemma {:induction false} RemainderLess(x: nat, a: nat)
    requires a > 0
    ensures Remainder(x - Remainder(x, a), a) == 0
  {
    if x >= a { RemainderLess(x - a, a); }
  }

  lemma {:induction false} RemainderBefore(x: nat, a: nat)
    requires a > 0 && Remainder(x, a) > 0
    ensures Remainder(x + (a - 1), a) == Remainder(x, a) - 1
  {
    if x >= a { RemainderBefore(x - a, a); }
  }

  /** The address above `x` that the mask leaves. */
  lemma NextMultiple(x: nat, a: nat)
    requires a > 0 && Remainder(x, a) > 0
    ensures var y := x + (a - 1) - Remainder(x + (a - 1), a); Remainder(y, a) == 0 && x < y < x + a
  {
    RemainderBefore(x, a);
    RemainderLess(x, a);
  }

  lemma FourMore(x: nat, a: nat)
    requires x % 4 == 0 && a % 4 == 0
    ensures (x + a) % 4 == 0
  {
    assert x + a == 4 * (x / 4 + a / 4);
  }

  /** Multiples of a multiple of four are multiples of four. */
  lemma {:induction false} FourAligned(x: nat, a: nat)
    requires a > 0 && a % 4 == 0 && Remainder(x, a) == 0
    ensures x % 4 == 0
  {
    if x >= a {
      FourAligned(x - a, a);
      FourMore(x - a, a);
    }
  }

  /** Where the pointer lies, when the block and the alignment fit below 2^32. */
  lemma PointerPlace(block: nat, align: nat)
    requires align > 0 && align % 4 == 0 && block % 4 == 0 && block + align < WORD
    ensures var p := AlignPointer(block, align); Remainder(p, align) == 0 && block + 4 <= p <= block + align && p % 4 == 0
  {
    var p := AlignPointer(block, align);
    if Remainder(block, align) == 0 {
      assert Remainder(block + align, align) == 0;
    } else {
      NextMultiple(block, align);
    }
    FourAligned(p, align);
  }

  // ------------------------------------------------------ memory

  type Memory = map<int, Byte>

  function Load(m: Memory, at: int): nat {
    ByteAt(m, at) + 0x100 * ByteAt(m, at + 1) + 0x1_0000 * ByteAt(m, at + 2) + 0x100_0000 * ByteAt(m, at + 3)
  }

  function ByteAt(m: Memory, at: int): nat { if at in m then m[at] else 0 }

  /** A word, lowest byte first. */
  function Store(m: Memory, at: int, v: nat): Memory {
    m[at := v % 0x100][at + 1 := v / 0x100 % 0x100][at + 2 := v / 0x1_0000 % 0x100][at + 3 := v / 0x100_0000 % 0x100]
  }

  lemma LoadStore(m: Memory, at: int, v: nat)
    requires v < WORD
    ensures Load(Store(m, at, v), at) == v
  {
    assert v / 0x1_0000 == v / 0x100 / 0x100 && v / 0x100_0000 == v / 0x100 / 0x100 / 0x100;
  }

  /** The user writes to the `size` bytes at `p` and nowhere else. */
  ghost predicate WritesInside(m: Memory, m': Memory, p: nat, size: nat) {
    forall a: int | !(p <= a < p + size) :: ByteAt(m', a) == ByteAt(m, a)
  }

  /** The aligned region and the word in front of it lie in the `n` bytes at `block`. */
  predicate Inside(block: nat, n: nat, p: nat, size: nat) { block <= p - 4 && p + size <= block + n }

  /** The sum of the two sizes, and whether it wrapped. */
  lemma SizeIs(size: nat, align: nat)
    requires size < WORD && RoundUp(align) < WORD
    ensures Representable(size, align) ==> size + RoundUp(align) <= AlignSize(size, align)
    ensures !Representable(size, align) ==> AlignSize(size, align) < size + 4
  {
    RoundsUp(size);
    Wraps(RoundUp(size) + RoundUp(align));
  }

  /** The pointer is never in the first four bytes of the block, also when it wraps. */
  lemma PointerAbove(block: nat, align: nat)
    requires 0 < align < WORD && align % 4 == 0 && block % 4 == 0 && block < WORD
    ensures var p := AlignPointer(block, align); p < block || p >= block + 4
  {
    if block + align < WORD {
      PointerPlace(block, align);
    } else {
      Wraps(block + align);
      Wraps(block + (align - 1));
      if Remainder(block, align) > 0 {
        NextMultiple(block, align);
        FourAligned(block + (align - 1) - Remainder(block + (align - 1), align), align);
      }
    }
  }

  lemma RegionInside(block: nat, size: nat, align: nat)
    requires PowerOfTwo(align) && align < WORD && size < WORD
    requires block % 4 == 0 && block + AlignSize(size, align) < WORD
    ensures RoundUp(align) > 0
    ensures Inside(block, AlignSize(size, align), AlignPointer(block, RoundUp(align)), size) <==> Representable(size, align)
    ensures Representable(size, align) ==>
      var p := AlignPointer(block, RoundUp(align)); p % 4 == 0 && Remainder(p, RoundUp(align)) == 0
  {
    RoundUpAlign(align);
    SizeIs(size, align);
    var a := RoundUp(align);
    if Representable(size, align) { PointerPlace(block, a); } else { PointerAbove(block, a); }
  }

  /** Within three bytes of 2^32 the size wraps: four bytes are asked for, and the region does not fit. */
  lemma SizeWraps(block: nat, size: nat)
    requires WORD - 3 <= size < WORD && block % 4 == 0 && block + 4 < WORD
    ensures AlignSize(size, 4) == 4 && !Inside(block, AlignSize(size, 4), AlignPointer(block, RoundUp(4)), size)
  {
    RoundsUp(size);
    RoundsUp(4);
    assert PowerOfTwo(2) && PowerOfTwo(4);
    RegionInside(block, size, 4);
  }

  method Align(block: nat, align: nat) returns (p: nat)
    requires align > 0
    ensures p == AlignPointer(block, align) && p < WORD
  {
    if Remainder(block, align) == 0 {
      p := Wrap(block + align);
    } else {
      p := Wrap(block + (align - 1)) - Remainder(Wrap(block + (align - 1)), align);
    }
  }

  /** The heap as far as these two functions touch it. */
  class Heap {
    var memory: Memory

    /**
      * `rt_malloc_align`; `block` is what `rt_malloc(AlignSize(size, align))` returned. The result is
      * aligned, and inside the block with the word that remembers it, unless the size had wrapped.
      */
    method Allocate(size: nat, align: nat, block: Option<nat>) returns (r: Option<nat>)
      requires PowerOfTwo(align) && align < WORD && size < WORD
      requires block.Some? ==> block.value % 4 == 0 && block.value + AlignSize(size, align) < WORD
      modifies this
      ensures block.None? ==> r.None? && memory == old(memory)
      ensures block.Some? ==> r.Some?
      ensures r.Some? && block.Some? ==>
        && (Inside(block.value, AlignSize(size, align), r.value, size) <==> Representable(size, align))
        && (Representable(size, align) ==>
              Remainder(r.value, if align < 4 then 4 else align) == 0
              && memory == Store(old(memory), r.value - 4, block.value))
    {
      if block.None? { return None; }
      RegionInside(block.value, size, align);
      RoundUpAlign(align);
      var p := Align(block.value, RoundUp(align));
      Remember(p, block.value);
      r := Some(p);
    }

    method Remember(p: nat, block: nat)
      requires p < WORD
      modifies this
      ensures memory == Store(old(memory), Wrap(p - 4), block)
      ensures p >= 4 ==> memory == Store(old(memory), p - 4, block)
    {
      if p >= 4 { Wraps(p - 4); }
      memory := Store(memory, Wrap(p - 4), block);
    }

    /** `rt_free_align`: the block handed to `rt_free` is the one remembered, whatever the region holds by now. */
    method RealPointer(p: nat, ghost before: Memory, ghost size: nat, ghost remembered: nat) returns (block: nat)
      ensures remembered < WORD && WritesInside(Store(before, p - 4, remembered), memory, p, size) ==> block == remembered
    {
      block := Load(memory, p - 4);
      if remembered < WORD && WritesInside(Store(before, p - 4, remembered), memory, p, size) {
        FreesTheBlock(before, memory, p, size, remembered);
      }
    }

    /** The user stores a byte in the region. */
    method Write(p: nat, size: nat, offset: nat, b: Byte)
      requires offset < size
      modifies this
      ensures WritesInside(old(memory), memory, p, size)
    {
      memory := memory[p + offset := b];
    }

    /** A region allocated, written to at will and freed: what is freed is the block it was taken from. */
    method UseAndFree(size: nat, align: nat, block: Option<nat>, writes: seq<(nat, Byte)>) returns (freed: Option<nat>)
      requires PowerOfTwo(align) && align < WORD && size < WORD && Representable(size, align)
      requires block.Some? ==> block.value % 4 == 0 && block.value + AlignSize(size, align) < WORD
      requires forall w <- writes :: w.0 < size
      modifies this
      ensures freed == block
    {
      var r := Allocate(size, align, block);
      if r.None? { return None; }
      ghost var before := memory;
      for i := 0 to |writes|
        invariant WritesInside(before, memory, r.value, size)
      {
        assert writes[i] in writes;
        Write(r.value, size, writes[i].0, writes[i].1);
      }
      var b := RealPointer(r.value, old(memory), size, block.value);
      freed := Some(b);
    }
  }

  /** Whatever the user wrote to the region, the block freed is the block allocated. */
  lemma FreesTheBlock(m: Memory, m': Memory, p: nat, size: nat, block: nat)
    requires block < WORD && WritesInside(Store(m, p - 4, block), m', p, size)
    ensures Load(m', p - 4) == block
  {
    var w := Store(m, p - 4, block);
    LoadStore(m, p - 4, block);
    assert ByteAt(m', p - 4) == ByteAt(w, p - 4) && ByteAt(m', p - 4 + 1) == ByteAt(w, p - 4 + 1);
    assert ByteAt(m', p - 4 + 2) == ByteAt(w, p - 4 + 2) && ByteAt(m', p - 4 + 3) == ByteAt(w, p - 4 + 3);
  }
}
