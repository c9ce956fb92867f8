/** Memory pools with lazily initialised free lists.

    A free block holds the address of the next one in its first word. In a fresh page these
    words are zero, which stands for "the block right behind this one". */
module PoolAllocator {
  import opened Prelude

  /** The size of a link, and the two special link values. */
  const WORD := 8
  const UNINITIALIZED := 0
  const END := 0x42

  /** The first word of every block, by the block's address. */
  type Memory = map<nat, nat>

  /** The ranges [a, a + m) and [b, b + n) do not overlap. */
  predicate Disjoint(a: nat, m: nat, b: nat, n: nat) {
    a + m <= b || b + n <= a
  }

  /** Two blocks, or two pages, of the same size do not overlap. */
  predicate Apart(a: nat, b: nat, size: nat) {
    Disjoint(a, size, b, size)
  }

  /** The block whose link this block's first word stands for. */
  function Next(mem: Memory, block: nat, size: nat): nat
    requires block in mem
  {
    if mem[block] == UNINITIALIZED then block + size / WORD * WORD else mem[block]
  }

  /** From the head, the links visit the blocks of the stack in order and then the sentinel. */
  ghost predicate Chain(mem: Memory, head: nat, stack: seq<nat>, size: nat)
    decreases |stack|
  {
    if stack == [] then head == END
    else head == stack[0] && head != END && head in mem && Chain(mem, Next(mem, head, size), stack[1..], size)
  }

  ghost predicate Distinct(s: seq<nat>) {
    forall i, j :: 0 <= i < j < |s| ==> s[i] != s[j]
  }

  /** Changing the words of other blocks does not change a chain. */
  lemma {:induction false} ChainFrame(mem: Memory, mem': Memory, head: nat, stack: seq<nat>, size: nat)
    requires Chain(mem, head, stack, size)
    requires forall b :: b in stack ==> b in mem' && (b in mem ==> mem'[b] == mem[b])
    ensures Chain(mem', head, stack, size)
    decreases |stack|
  {
    if stack != [] {
      assert stack[0] in stack && forall b :: b in stack[1..] ==> b in stack;
      ChainFrame(mem, mem', Next(mem, head, size), stack[1..], size);
    }
  }

  /** The first `count` blocks of a page, in address order. */
  function PageBlocks(base: nat, size: nat, count: nat): (r: seq<nat>)
    ensures |r| == count
    decreases count
  {
    if count == 0 then [] else [base] + PageBlocks(base + size, size, count - 1)
  }

  /** The blocks lie one behind the other, so they are in the page, apart and distinct. */
  lemma {:induction false} PageBlocksApart(base: nat, size: nat, count: nat)
    requires size >= 1
    ensures var s := PageBlocks(base, size, count);
      && (forall b :: b in s ==> base <= b && b + size <= base + size * count)
      && (forall b, c :: b in s && c in s && b != c ==> Apart(b, c, size))
      && Distinct(s)
    decreases count
  {
    if count > 0 {
      PageBlocksApart(base + size, size, count - 1);
      var rest := PageBlocks(base + size, size, count - 1);
      assert size * count == size + size * (count - 1);
      assert forall b :: b in [base] + rest <==> b == base || b in rest;
      assert Distinct([base] + rest) by {
        forall j | 0 <= j < |rest| ensures rest[j] != base { assert rest[j] in rest; }
      }
    }
  }

  function LastAddress(base: nat, size: nat, count: nat): nat
    requires count >= 1
    decreases count
  {
    if count == 1 then base else LastAddress(base + size, size, count - 1)
  }

  lemma {:induction false} LastIsBehind(base: nat, size: nat, count: nat)
    requires count >= 1
    ensures LastAddress(base, size, count) == base + size * count - size
    ensures count > 1 && size > 0 ==> LastAddress(base, size, count) > base
    decreases count
  {
    assert size * count == size + size * (count - 1);
    if count > 1 {
      LastIsBehind(base + size, size, count - 1);
    }
  }

  /** A zeroed page whose last block links to an old chain continues that chain, whatever is in
      the words between: nothing but the last word has to be written. */
  lemma {:induction false} PageChain(mem: Memory, base: nat, size: nat, count: nat, head: nat, stack: seq<nat>)
    requires size >= WORD && size % WORD == 0 && count >= 1 && base > END
    requires Chain(mem, head, stack, size) && head != UNINITIALIZED
    requires forall b :: b in PageBlocks(base, size, count) ==>
      b in mem && mem[b] == if b == LastAddress(base, size, count) then head else UNINITIALIZED
    ensures Chain(mem, base, PageBlocks(base, size, count) + stack, size)
    decreases count
  {
    var s := PageBlocks(base, size, count);
    assert s[0] == base && s[0] in s;
    var rest := PageBlocks(base + size, size, count - 1);
    assert s == [base] + rest;
    assert (s + stack)[1..] == rest + stack;
    if count == 1 {
      assert rest + stack == stack;
    } else {
      LastIsBehind(base, size, count);
      PageChain(mem, base + size, size, count - 1, head, stack);
    }
  }

  function PageSize(size: nat, perPage: nat): nat {
    size * perPage
  }

  /** All blocks of all pages are either free or handed out. */
  predicate Balanced(free: nat, out: nat, pages: nat, perPage: nat) {
    free + out == pages * perPage
  }

  lemma BalancedPage(free: nat, out: nat, pages: nat, perPage: nat)
    requires Balanced(free, out, pages, perPage)
    ensures Balanced(perPage + free, out, pages + 1, perPage)
  {
  }

  lemma BalancedMove(free: nat, out: nat, pages: nat, perPage: nat)
    requires Balanced(free, out, pages, perPage)
    ensures free > 0 ==> Balanced(free - 1, out + 1, pages, perPage)
    ensures out > 0 ==> Balanced(free + 1, out - 1, pages, perPage)
  {
  }

  predicate InPage(b: nat, page: nat, size: nat, perPage: nat) {
    page <= b && b + size <= page + PageSize(size, perPage)
  }

  predicate Placed(b: nat, pages: seq<nat>, size: nat, perPage: nat) {
    b > END && exists i :: 0 <= i < |pages| && InPage(b, pages[i], size, perPage)
  }

  /** A block of the pool, free or handed out. */
  predicate IsBlock(b: nat, stack: seq<nat>, out: set<nat>) {
    b in stack || b in out
  }

  /** Every block lies inside a page, and no two blocks overlap. */
  ghost predicate Laid(stack: seq<nat>, out: set<nat>, pages: seq<nat>, size: nat, perPage: nat) {
    && (forall b :: IsBlock(b, stack, out) ==> Placed(b, pages, size, perPage))
    && (forall b, c :: IsBlock(b, stack, out) && IsBlock(c, stack, out) && b != c ==> Apart(b, c, size))
  }

  /** Which blocks there are matters, not where they are. */
  lemma LaidSame(stack: seq<nat>, out: set<nat>, pages: seq<nat>, size: nat, perPage: nat, stack': seq<nat>,
                 out': set<nat>)
    requires Laid(stack, out, pages, size, perPage)
    requires forall b :: IsBlock(b, stack', out') ==> IsBlock(b, stack, out)
    ensures Laid(stack', out', pages, size, perPage)
  {
  }

  /** A page the page handler can return: behind the sentinel and apart from all pages so far. */
  ghost predicate FreshPage(base: nat, pages: seq<nat>, size: nat, perPage: nat) {
    base > END && forall i :: 0 <= i < |pages| ==> Apart(pages[i], base, PageSize(size, perPage))
  }

  lemma AddPage(stack: seq<nat>, out: set<nat>, pages: seq<nat>, size: nat, perPage: nat, base: nat)
    requires Laid(stack, out, pages, size, perPage) && size >= 1 && FreshPage(base, pages, size, perPage)
    ensures var s := PageBlocks(base, size, perPage);
      && Distinct(s) && (forall b :: b in s ==> !IsBlock(b, stack, out))
      && Laid(s + stack, out, pages + [base], size, perPage)
  {
    PageBlocksApart(base, size, perPage);
    var s := PageBlocks(base, size, perPage);
    var pages' := pages + [base];
    forall b | IsBlock(b, s + stack, out) ensures Placed(b, pages', size, perPage) {
      if b in s {
        assert pages'[|pages|] == base && InPage(b, base, size, perPage);
      } else {
        assert IsBlock(b, stack, out);
        var i :| 0 <= i < |pages| && InPage(b, pages[i], size, perPage);
        assert pages'[i] == pages[i];
      }
    }
    forall b, c | b in s && IsBlock(c, stack, out) ensures Apart(b, c, size) && Apart(c, b, size) && b != c {
      assert Placed(c, pages, size, perPage);
    }
    forall b, c | IsBlock(b, s + stack, out) && IsBlock(c, s + stack, out) && b != c ensures Apart(b, c, size) {
      assert b in s || IsBlock(b, stack, out);
      assert c in s || IsBlock(c, stack, out);
    }
  }

  lemma JoinDistinct(s: seq<nat>, t: seq<nat>)
    requires Distinct(s) && Distinct(t) && forall b :: b in s ==> b !in t
    ensures Distinct(s + t)
  {
    forall i, j | 0 <= i < |s| && 0 <= j < |t| ensures s[i] != t[j] {
      assert s[i] in s && t[j] in t;
    }
  }

  /** What is known of the blocks: none is both free and handed out, all have a first word, they
      are apart and in pages, and they are as many as the pages hold. */
  ghost predicate Blocks(mem: Memory, stack: seq<nat>, out: set<nat>, pages: seq<nat>, size: nat, perPage: nat) {
    && size >= WORD && size % WORD == 0 && perPage >= 1
    && (forall b :: b in stack ==> b !in out)
    && (forall b :: IsBlock(b, stack, out) ==> b in mem)
    && Laid(stack, out, pages, size, perPage)
    && Balanced(|stack|, |out|, |pages|, perPage)
  }

  lemma BlocksAddPage(mem: Memory, stack: seq<nat>, out: set<nat>, pages: seq<nat>, size: nat, perPage: nat,
                      base: nat, mem': Memory)
    requires Blocks(mem, stack, out, pages, size, perPage) && FreshPage(base, pages, size, perPage)
    requires forall b :: b in mem || b in PageBlocks(base, size, perPage) ==> b in mem'
    ensures var s := PageBlocks(base, size, perPage);
      && Distinct(s) && (forall b :: b in s ==> b !in stack)
      && Blocks(mem', s + stack, out, pages + [base], size, perPage)
  {
    hide Balanced, PageSize, Laid, FreshPage, PageBlocks, Distinct;
    AddPage(stack, out, pages, size, perPage, base);
    BalancedPage(|stack|, |out|, |pages|, perPage);
  }

  lemma PopDistinct(s: seq<nat>)
    requires s != [] && Distinct(s)
    ensures Distinct(s[1..]) && s[0] !in s[1..] && forall b :: b in s <==> b == s[0] || b in s[1..]
  {
    assert s == [s[0]] + s[1..];
  }

  lemma BlocksTake(mem: Memory, stack: seq<nat>, out: set<nat>, pages: seq<nat>, size: nat, perPage: nat)
    requires Blocks(mem, stack, out, pages, size, perPage) && stack != [] && Distinct(stack)
    ensures Blocks(mem, stack[1..], out + {stack[0]}, pages, size, perPage) && stack[0] !in out
  {
    hide Balanced, Laid;
    BalancedMove(|stack|, |out|, |pages|, perPage);
    PopDistinct(stack);
    LaidSame(stack, out, pages, size, perPage, stack[1..], out + {stack[0]});
  }

  lemma LaidBehindEnd(stack: seq<nat>, out: set<nat>, pages: seq<nat>, size: nat, perPage: nat, m: nat)
    requires Laid(stack, out, pages, size, perPage) && IsBlock(m, stack, out)
    ensures m > END
  {
    assert Placed(m, pages, size, perPage);
  }

  lemma BlocksGive(mem: Memory, stack: seq<nat>, out: set<nat>, pages: seq<nat>, size: nat, perPage: nat, m: nat,
                   mem': Memory)
    requires Blocks(mem, stack, out, pages, size, perPage) && m in out && forall b :: b in mem ==> b in mem'
    ensures Blocks(mem', [m] + stack, out - {m}, pages, size, perPage) && m > END
  {
    hide Balanced, Laid;
    LaidBehindEnd(stack, out, pages, size, perPage, m);
    BalancedMove(|stack|, |out|, |pages|, perPage);
    LaidSame(stack, out, pages, size, perPage, [m] + stack, out - {m});
  }

  /** The free list spells out a stack without repetition. */
  ghost predicate FreeList(mem: Memory, head: nat, stack: seq<nat>, size: nat) {
    Chain(mem, head, stack, size) && Distinct(stack)
  }

  lemma {:induction false} ChainKeys(mem: Memory, head: nat, stack: seq<nat>, size: nat, b: nat)
    requires Chain(mem, head, stack, size) && b in stack
    ensures b in mem
    decreases |stack|
  {
    if b != stack[0] {
      assert stack == [stack[0]] + stack[1..];
      ChainKeys(mem, Next(mem, head, size), stack[1..], size, b);
    }
  }

  lemma {:induction false} LastBlock(base: nat, size: nat, count: nat)
    requires count >= 1
    ensures LastAddress(base, size, count) in PageBlocks(base, size, count)
    decreases count
  {
    if count > 1 {
      LastBlock(base + size, size, count - 1);
    }
  }

  lemma FreeListAddPage(mem: Memory, head: nat, stack: seq<nat>, size: nat, perPage: nat, base: nat, mem': Memory)
    requires FreeList(mem, head, stack, size) && size >= WORD && size % WORD == 0 && perPage >= 1 && base > END
    requires forall b :: b in stack ==> b > END
    requires Distinct(PageBlocks(base, size, perPage))
    requires forall b :: b in PageBlocks(base, size, perPage) ==> b !in stack
    requires mem' ==
      (mem + map b | b in PageBlocks(base, size, perPage) :: UNINITIALIZED)
        [base + PageSize(size, perPage) - size := head]
    ensures FreeList(mem', base, PageBlocks(base, size, perPage) + stack, size)
  {
    var s := PageBlocks(base, size, perPage);
    LastBlock(base, size, perPage);
    LastIsBehind(base, size, perPage);
    hide PageBlocks, LastAddress, PageSize, Distinct;
    JoinDistinct(s, stack);
    forall b | b in stack ensures b in mem' && (b in mem ==> mem'[b] == mem[b]) {
      ChainKeys(mem, head, stack, size, b);
    }
    assert head == END || head in stack;
    ChainFrame(mem, mem', head, stack, size);
    PageChain(mem', base, size, perPage, head, stack);
  }

  lemma PoppedDistinct(mem: Memory, head: nat, stack: seq<nat>, size: nat)
    requires FreeList(mem, head, stack, size)
    ensures Distinct(stack)
  {
  }

  lemma FreeListPop(mem: Memory, head: nat, stack: seq<nat>, size: nat)
    requires FreeList(mem, head, stack, size) && stack != []
    ensures head == stack[0] && head in mem && FreeList(mem, Next(mem, head, size), stack[1..], size)
  {
    PopDistinct(stack);
  }

  lemma FreeListPush(mem: Memory, head: nat, stack: seq<nat>, size: nat, m: nat)
    requires FreeList(mem, head, stack, size) && m !in stack && m > END
    requires forall b :: b in stack ==> b > END
    ensures FreeList(mem[m := head], m, [m] + stack, size)
  {
    forall b | b in stack ensures b in mem {
      ChainKeys(mem, head, stack, size, b);
    }
    assert head == END || head in stack;
    ChainFrame(mem, mem[m := head], head, stack, size);
    assert ([m] + stack)[1..] == stack;
  }

  lemma PageAdded(size: nat, perPage: nat, mem: Memory, head: nat, stack: seq<nat>, out: set<nat>, pages: seq<nat>,
                  base: nat, mem': Memory)
    requires FreeList(mem, head, stack, size) && Blocks(mem, stack, out, pages, size, perPage)
    requires FreshPage(base, pages, size, perPage) && base > END && forall b :: b in stack ==> b > END
    requires base + PageSize(size, perPage) - size in PageBlocks(base, size, perPage)
    requires mem' ==
      (mem + map b | b in PageBlocks(base, size, perPage) :: UNINITIALIZED)
        [base + PageSize(size, perPage) - size := head]
    ensures var s := PageBlocks(base, size, perPage);
      && FreeList(mem', base, s + stack, size)
      && Blocks(mem', s + stack, out, pages + [base], size, perPage)
  {
    var s := PageBlocks(base, size, perPage);
    assert size >= WORD && size % WORD == 0 && perPage >= 1;
    hide FreeList, Blocks, FreshPage, PageBlocks, PageSize;
    BlocksAddPage(mem, stack, out, pages, size, perPage, base, mem');
    FreeListAddPage(mem, head, stack, size, perPage, base, mem');
  }

  /** The blocks of pages added one after the other, the last page on top. */
  ghost function Stacked(bases: seq<nat>, size: nat, perPage: nat): seq<nat>
    decreases |bases|
  {
    if bases == [] then []
    else PageBlocks(bases[|bases| - 1], size, perPage) + Stacked(bases[..|bases| - 1], size, perPage)
  }

  lemma PageFacts(base: nat, size: nat, perPage: nat, pages: seq<nat>)
    requires FreshPage(base, pages, size, perPage) && perPage >= 1
    ensures base > END && base + PageSize(size, perPage) >= size && PageBlocks(base, size, perPage) != []
    ensures base + PageSize(size, perPage) - size in PageBlocks(base, size, perPage)
    ensures base + PageSize(size, perPage) - size == LastAddress(base, size, perPage)
  {
    LastBlock(base, size, perPage);
    LastIsBehind(base, size, perPage);
    assert size * perPage >= size;
  }

  /** One pool: blocks of one size, cut from pages. */
  class Pool {
    const size: nat
    const perPage: nat

    /** The head of the free list, and the memory of the pool's pages. */
    var head: nat
    var mem: Memory

    /** What the free list stands for: a stack of blocks. Also the blocks handed out, and the pages. */
    ghost var stack: seq<nat>
    ghost var out: set<nat>
    ghost var pages: seq<nat>

    /** The free list is the stack, and the blocks are as they should be. */
    ghost predicate Valid()
      reads this
    {
      FreeList(mem, head, stack, size) && Blocks(mem, stack, out, pages, size, perPage)
    }

    constructor (size: nat, perPage: nat)
      requires size >= WORD && size % WORD == 0 && perPage >= 1
      ensures Valid() && this.size == size && this.perPage == perPage
      ensures stack == [] && out == {} && pages == []
    {
      this.size, this.perPage := size, perPage;
      head, mem := END, map[];
      stack, out, pages := [], {}, [];
    }

    /** Block addresses lie behind the sentinel, and no free block is handed out. */
    lemma Basics()
      requires Valid()
      ensures size >= WORD && size % WORD == 0 && perPage >= 1
      ensures forall b :: b in stack ==> b > END && b !in out
      ensures head == END <==> stack == []
    {
      hide Balanced, InPage;
      assert forall b :: IsBlock(b, stack, out) ==> Placed(b, pages, size, perPage);
      assert forall b :: b in stack ==> IsBlock(b, stack, out);
    }

    /** Adds a zeroed page: its blocks go on the stack in address order. Only one word is written. */
    method AllocPage(base: nat)
      requires Valid() && FreshPage(base, pages, size, perPage)
      modifies this
      ensures Valid() && pages == old(pages) + [base] && out == old(out)
      ensures stack == PageBlocks(base, size, perPage) + old(stack)
    {
      hide FreeList, Blocks, FreshPage, PageBlocks, PageSize;
      Basics();
      PageFacts(base, size, perPage, pages);
      ghost var s := PageBlocks(base, size, perPage);
      ghost var mem0 := mem;
      var last := base + PageSize(size, perPage) - size;
      mem := mem + map b | b in PageBlocks(base, size, perPage) :: UNINITIALIZED;
      mem := mem[last := head];
      PageAdded(this.size, perPage, mem0, head, stack, out, pages, base, mem);
      head := base;
      stack := s + stack;
      pages := pages + [base];
    }

    /** The stack to take a block from: an empty one is filled with the page `page` first. */
    ghost function Filled(page: nat): seq<nat>
      reads this
    {
      if stack == [] then PageBlocks(page, size, perPage) else stack
    }

    /** Takes the block on top of the stack; an empty pool first gets the page `page`. */
    method Alloc(page: nat) returns (m: nat)
      requires Valid() && FreshPage(page, pages, size, perPage)
      modifies this
      ensures Valid()
      ensures old(Filled(page)) == [m] + stack && out == old(out) + {m} && m !in old(out)
      ensures pages == if old(stack) == [] then old(pages) + [page] else old(pages)
    {
      hide FreeList, Blocks, FreshPage, PageBlocks;
      Basics();
      if head == END {
        PageFacts(page, size, perPage, pages);
        AllocPage(page);
      }
      m := head;
      FreeListPop(mem, head, stack, size);
      assert Distinct(stack) by { PoppedDistinct(mem, head, stack, size); }
      BlocksTake(mem, stack, out, pages, size, perPage);
      head := Next(mem, head, size);
      stack := stack[1..];
      out := out + {m};
    }

    /** Handed-out blocks never overlap, and each lies inside one page. */
    lemma HandedOutApart()
      requires Valid()
      ensures forall b, c :: b in out && c in out && b != c ==> Apart(b, c, size)
      ensures forall b :: b in out ==> Placed(b, pages, size, perPage)
    {
      hide Balanced, Chain, Placed;
      assert forall b :: b in out ==> IsBlock(b, stack, out);
    }

    /** Puts a handed-out block back on top of the stack. */
    method Free(m: nat)
      requires Valid() && m in out
      modifies this`head, this`mem, this`stack, this`out
      ensures Valid() && stack == [m] + old(stack) && out == old(out) - {m}
    {
      hide FreeList, Blocks;
      Basics();
      BlocksGive(mem, stack, out, pages, size, perPage, m, mem[m := head]);
      FreeListPush(mem, head, stack, size, m);
      mem := mem[m := head];
      head := m;
      stack := [m] + stack;
      out := out - {m};
    }

    /** The program writes to the first word of a block it was given. */
    method Write(m: nat, w: nat)
      requires Valid() && m in out
      modifies this`mem
      ensures Valid() && mem == old(mem)[m := w]
    {
      hide Balanced, Laid;
      mem := mem[m := w];
      ChainFrame(old(mem), mem, head, stack, size);
    }

    /** Adds pages in advance. */
    method Prealloc(bases: seq<nat>)
      requires Valid() && forall i :: 0 <= i < |bases| ==> FreshPage(bases[i], pages + bases[..i], size, perPage)
      modifies this
      ensures Valid() && pages == old(pages) + bases && out == old(out)
      ensures stack == Stacked(bases, size, perPage) + old(stack)
    {
      hide Valid, FreshPage, PageBlocks;
      var i := 0;
      assert pages + bases[..0] == pages && Stacked(bases[..0], size, perPage) + stack == stack;
      while i < |bases|
        invariant i <= |bases| && Valid() && pages == old(pages) + bases[..i] && out == old(out)
        invariant stack == Stacked(bases[..i], size, perPage) + old(stack)
      {
        assert FreshPage(bases[i], old(pages) + bases[..i], size, perPage);
        AllocPage(bases[i]);
        assert bases[..i + 1][..i] == bases[..i];
        i := i + 1;
      }
      assert bases[..i] == bases;
    }

    /** Counts the free blocks by walking the list. */
    method FreeListLength() returns (n: nat)
      requires Valid()
      ensures n == |stack|
    {
      hide Blocks, Distinct;
      n := 0;
      var block := head;
      ghost var rest := stack;
      while block != END
        invariant Chain(mem, block, rest, size) && n + |rest| == |stack|
        decreases |rest|
      {
        n := n + 1;
        block := Next(mem, block, size);
        rest := rest[1..];
      }
    }
  }
}
