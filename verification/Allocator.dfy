/** The allocator: four pools of growing block size, and the sizes of heap objects. */
module Allocator {
  import opened Prelude
  import opened PoolAllocator

  const POOL_MIN := 16
  const POOL_FACTOR_BASE2 := 2
  const POOL_COUNT := 4

  /** The block size of a pool; every pool takes pages of the size the next one would have. */
  function PoolSize(p: nat): nat {
    POOL_MIN * Pow2(POOL_FACTOR_BASE2 * p)
  }

  const PAGE := PoolSize(POOL_COUNT)

  lemma PoolSizes()
    ensures PoolSize(0) == 16 && PoolSize(1) == 64 && PoolSize(2) == 256 && PoolSize(3) == 1024 && PAGE == 4096
  {
    assert Pow2(2) == 4 && Pow2(4) == 16;
    assert Pow2(6) == 4 * Pow2(4) && Pow2(8) == 4 * Pow2(6);
  }

  /** The index of the smallest pool whose blocks have room for `size` bytes, or POOL_COUNT. */
  ghost predicate IsPoolFor(p: nat, size: nat) {
    && p <= POOL_COUNT
    && (p < POOL_COUNT ==> size <= PoolSize(p))
    && forall q :: 0 <= q < p ==> PoolSize(q) < size
  }

  method FindPoolSize(size: nat) returns (p: nat)
    ensures IsPoolFor(p, size)
  {
    p := 0;
    while p < POOL_COUNT
      invariant p <= POOL_COUNT && forall q :: 0 <= q < p ==> PoolSize(q) < size
    {
      if size <= PoolSize(p) {
        return;
      }
      p := p + 1;
    }
  }

  lemma PoolForIsUnique(p: nat, q: nat, size: nat)
    requires IsPoolFor(p, size) && IsPoolFor(q, size)
    ensures p == q
  {
    assert p < q ==> PoolSize(p) < size;
    assert q < p ==> PoolSize(q) < size;
  }

  class Allocator {
    const pools: seq<Pool>

    ghost predicate Shape()
    {
      && |pools| == POOL_COUNT
      && (forall p, q :: 0 <= p < q < POOL_COUNT ==> pools[p] != pools[q])
      && (forall p :: 0 <= p < POOL_COUNT ==> pools[p].size == PoolSize(p) && pools[p].perPage == PAGE / PoolSize(p))
    }

    static ghost predicate PagesApart(ps: seq<nat>, qs: seq<nat>) {
      forall i, j :: 0 <= i < |ps| && 0 <= j < |qs| ==> Apart(ps[i], qs[j], PAGE)
    }

    /** Every pool is as it should be, and no two pools share a page. */
    ghost predicate Valid()
      reads pools
    {
      && Shape()
      && (forall p :: 0 <= p < POOL_COUNT ==> pools[p].Valid())
      && (forall p, q :: 0 <= p < q < POOL_COUNT ==> PagesApart(pools[p].pages, pools[q].pages))
    }

    lemma FourPools(p0: Pool, p1: Pool, p2: Pool, p3: Pool)
      requires pools == [p0, p1, p2, p3] && p0 != p1 && p0 != p2 && p0 != p3 && p1 != p2 && p1 != p3 && p2 != p3
      requires p0.size == PoolSize(0) && p1.size == PoolSize(1) && p2.size == PoolSize(2) && p3.size == PoolSize(3)
      requires p0.perPage == PAGE / p0.size && p1.perPage == PAGE / p1.size
      requires p2.perPage == PAGE / p2.size && p3.perPage == PAGE / p3.size
      requires forall p :: p in pools ==> p.Valid() && p.pages == [] && p.out == {}
      ensures Valid() && forall p :: 0 <= p < POOL_COUNT ==> pools[p].out == {}
    {
      hide Pool.Valid, PoolSize;
    }

    constructor ()
      ensures Valid() && fresh(pools)
      ensures forall p :: 0 <= p < POOL_COUNT ==> pools[p].out == {}
    {
      hide Pool.Valid, PoolSize;
      PoolSizes();
      var p0 := new Pool(PoolSize(0), PAGE / PoolSize(0));
      var p1 := new Pool(PoolSize(1), PAGE / PoolSize(1));
      var p2 := new Pool(PoolSize(2), PAGE / PoolSize(2));
      var p3 := new Pool(PoolSize(3), PAGE / PoolSize(3));
      pools := [p0, p1, p2, p3];
      new;
      FourPools(p0, p1, p2, p3);
    }

    /** A page apart from all pages of all pools. */
    ghost predicate Unused(page: nat)
      reads pools
    {
      page > END && forall p :: 0 <= p < |pools| ==> PagesApart(pools[p].pages, [page])
    }

    lemma UnusedIsFresh(page: nat, p: nat)
      requires Valid() && Unused(page) && p < POOL_COUNT
      ensures FreshPage(page, pools[p].pages, pools[p].size, pools[p].perPage)
      ensures PageSize(pools[p].size, pools[p].perPage) == PAGE
    {
      PoolSizes();
      assert p == 0 || p == 1 || p == 2 || p == 3;
      assert PageSize(pools[p].size, pools[p].perPage) == PAGE;
      forall i | 0 <= i < |pools[p].pages| ensures Apart(pools[p].pages[i], page, PAGE) {
        assert PagesApart(pools[p].pages, [page]) && [page][0] == page;
      }
    }

    lemma PageIs(p: nat)
      requires Shape() && p < POOL_COUNT
      ensures PageSize(pools[p].size, pools[p].perPage) == PAGE
    {
      PoolSizes();
      assert p == 0 || p == 1 || p == 2 || p == 3;
    }

    /** No two handed-out blocks overlap, whichever pools they come from. */
    lemma AllApart(p: nat, b: nat, q: nat, c: nat)
      requires Valid() && p < POOL_COUNT && q < POOL_COUNT && b in pools[p].out && c in pools[q].out
      requires p != q || b != c
      ensures Disjoint(b, PoolSize(p), c, PoolSize(q))
    {
      hide Pool.Valid;
      pools[p].HandedOutApart();
      pools[q].HandedOutApart();
      if p != q {
        PageIs(p);
        PageIs(q);
        var i :| 0 <= i < |pools[p].pages| && InPage(b, pools[p].pages[i], pools[p].size, pools[p].perPage);
        var j :| 0 <= j < |pools[q].pages| && InPage(c, pools[q].pages[j], pools[q].size, pools[q].perPage);
        if p < q {
          assert PagesApart(pools[p].pages, pools[q].pages);
        } else {
          assert PagesApart(pools[q].pages, pools[p].pages);
        }
      }
    }

    static lemma RightSize(p: nat, size: nat)
      requires IsPoolFor(p, size)
      ensures p <= POOL_COUNT && (p < POOL_COUNT ==> size <= PoolSize(p))
    {
    }

    /** The pages of all pools. */
    ghost function AllPages(): seq<seq<nat>>
      reads pools
    {
      seq(|pools|, p requires 0 <= p < |pools| reads pools => pools[p].pages)
    }

    /** Unused pages added to one pool are shared with no other. */
    lemma StillApart(before: seq<seq<nat>>, added: seq<nat>, p: nat)
      requires Shape() && |before| == POOL_COUNT && p < POOL_COUNT
      requires forall q, r :: 0 <= q < r < POOL_COUNT ==> PagesApart(before[q], before[r])
      requires forall q :: 0 <= q < POOL_COUNT ==> PagesApart(before[q], added)
      requires pools[p].pages == before[p] + added
      requires forall q :: 0 <= q < POOL_COUNT && q != p ==> pools[q].pages == before[q]
      ensures forall q, r :: 0 <= q < r < POOL_COUNT ==> PagesApart(pools[q].pages, pools[r].pages)
    {
      forall q, r | 0 <= q < r < POOL_COUNT ensures PagesApart(pools[q].pages, pools[r].pages) {
        assert PagesApart(before[q], before[r]);
        assert PagesApart(before[q], added) && PagesApart(before[r], added);
      }
    }

    /** Pages that can be added to any pool, one after the other. */
    ghost predicate UnusedPages(pages: seq<nat>)
      reads pools
    {
      && (forall i :: 0 <= i < |pages| ==> Unused(pages[i]))
      && (forall i, j :: 0 <= i < j < |pages| ==> Apart(pages[i], pages[j], PAGE))
    }

    lemma UnusedPagesApart(pages: seq<nat>)
      requires Valid() && UnusedPages(pages)
      ensures forall q, r :: 0 <= q < r < POOL_COUNT ==> PagesApart(AllPages()[q], AllPages()[r])
      ensures forall q :: 0 <= q < POOL_COUNT ==> PagesApart(AllPages()[q], pages)
    {
      hide Pool.Valid, PoolSize;
      forall q, i, j | 0 <= q < POOL_COUNT && 0 <= i < |AllPages()[q]| && 0 <= j < |pages|
        ensures Apart(AllPages()[q][i], pages[j], PAGE)
      {
        assert PagesApart(pools[q].pages, [pages[j]]) && [pages[j]][0] == pages[j];
      }
    }

    /** Takes the top block of one pool; an empty pool first gets `page`. */
    method AllocFrom(p: nat, page: nat) returns (m: nat)
      requires Valid() && Unused(page) && p < POOL_COUNT
      modifies pools
      ensures Valid() && m !in old(pools[p].out) && pools[p].out == old(pools[p].out) + {m}
      ensures old(pools[p].Filled(page)) == [m] + pools[p].stack
      ensures forall q :: 0 <= q < POOL_COUNT && q != p ==>
        pools[q].out == old(pools[q].out) && pools[q].stack == old(pools[q].stack)
    {
      UnusedIsFresh(page, p);
      ghost var before := AllPages();
      UnusedPagesApart([page]);
      hide Pool.Valid, Unused, PagesApart, FreshPage, PoolSize, PageBlocks, Pool.Filled;
      m := pools[p].Alloc(page);
      StillApart(before, if pools[p].pages == before[p] then [] else [page], p);
    }

    /** Hands out a block of the smallest pool with room for `size` bytes; None when there is no
        such pool and the memory has to come from elsewhere. */
    method Alloc(size: nat, page: nat) returns (m: Option<nat>, p: nat)
      requires Valid() && Unused(page)
      modifies pools
      ensures Valid() && IsPoolFor(p, size)
      ensures m.Some? <==> p < POOL_COUNT
      ensures m.Some? ==> size <= PoolSize(p) && m.value !in old(pools[p].out)
      ensures m.Some? ==> pools[p].out == old(pools[p].out) + {m.value}
      ensures forall q :: 0 <= q < POOL_COUNT && q != p ==>
        pools[q].out == old(pools[q].out) && pools[q].stack == old(pools[q].stack)
    {
      hide Pool.Valid, Unused, PageBlocks, PagesApart, IsPoolFor, PoolSize;
      p := FindPoolSize(size);
      RightSize(p, size);
      if p >= POOL_COUNT {
        return None, p;
      }
      var b := AllocFrom(p, page);
      m := Some(b);
    }

    lemma UnusedPagesAreFresh(pages: seq<nat>, p: nat, i: nat)
      requires Valid() && UnusedPages(pages) && p < POOL_COUNT && i < |pages|
      ensures FreshPage(pages[i], pools[p].pages + pages[..i], pools[p].size, pools[p].perPage)
    {
      UnusedIsFresh(pages[i], p);
    }

    /** Adds pages to the smallest pool with room for `size` bytes, or none when there is no such pool. */
    method Prealloc(size: nat, pages: seq<nat>)
      requires Valid() && UnusedPages(pages)
      modifies pools
      ensures Valid() && forall q :: 0 <= q < POOL_COUNT ==> pools[q].out == old(pools[q].out)
      ensures forall q :: 0 <= q < POOL_COUNT ==>
        pools[q].stack ==
          (if IsPoolFor(q, size) then Stacked(pages, PoolSize(q), PAGE / PoolSize(q)) else []) + old(pools[q].stack)
    {
      hide Pool.Valid, UnusedPages, PagesApart, FreshPage, PoolSize, PageBlocks, Stacked;
      var p := FindPoolSize(size);
      forall q: nat | IsPoolFor(q, size) ensures q == p {
        PoolForIsUnique(p, q, size);
      }
      if p >= POOL_COUNT {
        return;
      }
      ghost var before := AllPages();
      UnusedPagesApart(pages);
      forall i | 0 <= i < |pages|
        ensures FreshPage(pages[i], pools[p].pages + pages[..i], pools[p].size, pools[p].perPage)
      {
        UnusedPagesAreFresh(pages, p, i);
      }
      pools[p].Prealloc(pages);
      StillApart(before, pages, p);
    }

    /** Takes back a block that was handed out for the same size. */
    method Free(m: nat, size: nat)
      requires Valid() && forall p: nat :: IsPoolFor(p, size) && p < POOL_COUNT ==> m in pools[p].out
      modifies pools
      ensures Valid()
      ensures forall p :: 0 <= p < POOL_COUNT ==>
        pools[p].out == (if IsPoolFor(p, size) then old(pools[p].out) - {m} else old(pools[p].out)) &&
        pools[p].stack == (if IsPoolFor(p, size) then [m] else []) + old(pools[p].stack)
    {
      var p := FindPoolSize(size);
      forall q: nat | IsPoolFor(q, size) ensures q == p {
        PoolForIsUnique(p, q, size);
      }
      if p >= POOL_COUNT {
        return;
      }
      pools[p].Free(m);
    }
  }

  // ---------- sizes of heap objects ----------

  /** Sizes in bytes on a machine with eight-byte pointers: the structures, and a value. */
  const SIZEOF_VALUE := 8
  const SIZEOF_TIME := 16
  const SIZEOF_SV := 48
  const SIZEOF_ADT1 := 16
  const SIZEOF_CLOSURE1 := 24
  const SIZEOF_ARRAY1 := 16
  const SIZEOF_BLOB1 := 8
  const BLOB_SCALE := 4

  /** A member of a C structure: its size and alignment. */
  datatype Member = Member(size: nat, align: nat)

  function RoundUp(n: nat, align: nat): nat
    requires align > 0
  {
    (n + align - 1) / align * align
  }

  predicate Aligned(members: seq<Member>) {
    forall i :: 0 <= i < |members| ==> members[i].align > 0
  }

  /** Where the bytes of the first i members end. */
  function EndOf(members: seq<Member>, i: nat): nat
    requires i <= |members| && Aligned(members)
  {
    if i == 0 then 0 else RoundUp(EndOf(members, i - 1), members[i - 1].align) + members[i - 1].size
  }

  function OffsetOf(members: seq<Member>, i: nat): nat
    requires i < |members| && Aligned(members)
  {
    RoundUp(EndOf(members, i), members[i].align)
  }

  function MaxAlign(members: seq<Member>): (m: nat)
    ensures m > 0
  {
    if members == [] then 1
    else
      var m := MaxAlign(members[1..]);
      if members[0].align > m then members[0].align else m
  }

  /** The size of a structure: its members in order, each aligned, and padding to the largest alignment. */
  function StructSize(members: seq<Member>): nat
    requires Aligned(members)
  {
    RoundUp(EndOf(members, |members|), MaxAlign(members))
  }

  /** The header of an object: its count, its kind, and sixteen bits of information. */
  const HEADER := [Member(1, 1), Member(1, 1), Member(2, 2)]
  const MM := Member(StructSize(HEADER), 2)

  /** A pointer, a value or a time. */
  const WORD64 := Member(8, 8)

  function Words(n: nat): (ms: seq<Member>)
    ensures |ms| == n && forall i :: 0 <= i < n ==> ms[i] == WORD64
  {
    if n == 0 then [] else [WORD64] + Words(n - 1)
  }

  /** A structure with a header and n members of eight bytes. */
  function HeaderAndWords(n: nat): seq<Member> {
    [MM] + Words(n)
  }

  lemma HeaderSize()
    ensures Aligned(HEADER) && MM.size == 4
  {
    assert EndOf(HEADER, 1) == 1 && EndOf(HEADER, 2) == 2;
    assert HEADER[1..] == [Member(1, 1), Member(2, 2)] && HEADER[1..][1..] == [Member(2, 2)];
    assert MaxAlign([Member(2, 2)]) == 2;
  }

  lemma RoundUpWord(i: nat)
    requires i >= 1
    ensures RoundUp(8 * i, 8) == 8 * i && RoundUp(4, 8) == 8
  {
  }

  /** The header of four bytes is padded to eight in front of words. */
  lemma {:induction false} WordsAreAt(n: nat, i: nat)
    requires 1 <= i <= n + 1
    ensures Aligned(HeaderAndWords(n)) && EndOf(HeaderAndWords(n), i) == if i == 1 then 4 else 8 * i
  {
    HeaderSize();
    var ms := HeaderAndWords(n);
    if i == 1 {
      assert EndOf(ms, 0) == 0;
    } else {
      WordsAreAt(n, i - 1);
      RoundUpWord(i - 1);
      assert ms[i - 1] == WORD64;
    }
  }

  lemma {:induction false} WordsAlign(n: nat)
    requires n > 0
    ensures MaxAlign(Words(n)) == 8 && MaxAlign(HeaderAndWords(n)) == 8
  {
    assert Words(n)[1..] == Words(n - 1) && HeaderAndWords(n)[1..] == Words(n);
    if n > 1 {
      WordsAlign(n - 1);
    }
  }

  lemma WordsSize(n: nat, i: nat)
    requires 1 <= i <= n
    ensures Aligned(HeaderAndWords(n)) && StructSize(HeaderAndWords(n)) == 8 * (n + 1)
    ensures OffsetOf(HeaderAndWords(n), i) == 8 * i
  {
    hide MaxAlign, EndOf, Words, RoundUp;
    WordsAlign(n);
    WordsAreAt(n, n + 1);
    WordsAreAt(n, i);
    RoundUpWord(n + 1);
    RoundUpWord(i);
    assert HeaderAndWords(n)[i] == WORD64 && |HeaderAndWords(n)| == n + 1;
  }

  /** A time is a header and a word; an object with fields, or an array, with one of them as well; a variable
      has two times, a pointer and two values behind its header, and a closure a pointer and an argument. */
  const TIME_STRUCT := HeaderAndWords(1)
  const ADT1_STRUCT := HeaderAndWords(1)
  const SV_STRUCT := HeaderAndWords(5)
  const CLOSURE1_STRUCT := HeaderAndWords(2)
  const ARRAY1_STRUCT := HeaderAndWords(1)
  const BLOB1_STRUCT := [MM, Member(4, 1)]

  /** The sizes are those of the structures' members laid out in order. */
  lemma StructSizes()
    ensures SIZEOF_VALUE == WORD64.size
    ensures Aligned(HeaderAndWords(1)) && Aligned(HeaderAndWords(2)) && Aligned(HeaderAndWords(5))
    ensures SIZEOF_TIME == StructSize(TIME_STRUCT) && SIZEOF_SV == StructSize(SV_STRUCT)
    ensures SIZEOF_ADT1 == StructSize(ADT1_STRUCT) && SIZEOF_CLOSURE1 == StructSize(CLOSURE1_STRUCT)
    ensures SIZEOF_ARRAY1 == StructSize(ARRAY1_STRUCT)
    ensures OffsetOf(ADT1_STRUCT, 1) == 8 && OffsetOf(CLOSURE1_STRUCT, 2) == 16 && OffsetOf(ARRAY1_STRUCT, 1) == 8
  {
    hide StructSize, OffsetOf, EndOf, MaxAlign;
    WordsSize(1, 1);
    WordsSize(2, 2);
    WordsSize(5, 1);
  }

  lemma BlobStruct()
    ensures Aligned(BLOB1_STRUCT) && StructSize(BLOB1_STRUCT) == SIZEOF_BLOB1 && OffsetOf(BLOB1_STRUCT, 1) == 4
  {
    HeaderSize();
    var ms := BLOB1_STRUCT;
    assert EndOf(ms, 0) == 0 && EndOf(ms, 1) == 4 && EndOf(ms, 2) == 8;
    assert ms[1..] == [Member(4, 1)] && ms[1..][1..] == [];
    assert MaxAlign(ms[1..]) == 1;
  }

  /** What a constructor is asked for. */
  datatype Request =
    | NewTime
    | NewAdt(fieldCount: nat, tag: nat)
    | NewSv
    | NewClosure(argCap: nat)
    | NewArray(elems: nat)
    | NewBlob(bytes: nat)

  /** The counts and sizes kept in an object's header. */
  datatype Header =
    | TimeHeader
    | AdtHeader(count: nat, tag: nat)
    | SvHeader
    | ClosureHeader(count: nat, cap: nat)
    | ArrayHeader(size: nat)
    | BlobHeader(size: nat)

  /** The argument widths of the constructors: eight bits, or sixteen. */
  predicate InWidth(r: Request) {
    match r
    case NewAdt(n, tag) => n < 256 && tag < 256
    case NewClosure(cap) => cap < 256
    case NewArray(n) => n < 0x1_0000
    case NewBlob(n) => n < 0x1_0000
    case _ => true
  }

  function AdtSize(n: nat): nat { SIZEOF_ADT1 + SIZEOF_VALUE * n - SIZEOF_VALUE }
  function ClosureSize(n: nat): nat { SIZEOF_CLOSURE1 + SIZEOF_VALUE * n - SIZEOF_VALUE }
  function ArraySize(n: nat): nat { SIZEOF_ARRAY1 + SIZEOF_VALUE * n - SIZEOF_VALUE }
  function BlobSize(n: nat): nat { SIZEOF_BLOB1 - BLOB_SCALE + n }

  /** The size of a blob in units of four bytes, rounded up, in sixteen bits. */
  function ScaledSize(bytes: nat): nat {
    (bytes + BLOB_SCALE - 1) / BLOB_SCALE % 0x1_0000
  }

  /** The bytes a constructor allocates. */
  function AllocatedSize(r: Request): nat {
    match r
    case NewTime => SIZEOF_SV
    case NewAdt(n, _) => AdtSize(n)
    case NewSv => SIZEOF_SV
    case NewClosure(cap) => ClosureSize(cap)
    case NewArray(n) => ArraySize(n)
    case NewBlob(n) => BlobSize(ScaledSize(n) * BLOB_SCALE)
  }

  function HeaderOf(r: Request): Header {
    match r
    case NewTime => TimeHeader
    case NewAdt(n, tag) => AdtHeader(n, tag)
    case NewSv => SvHeader
    case NewClosure(cap) => ClosureHeader(0, cap)
    case NewArray(n) => ArrayHeader(n)
    case NewBlob(n) => BlobHeader(ScaledSize(n))
  }

  /** The bytes finalisation gives back, computed from the header at that time. */
  function FreedSize(h: Header): nat {
    match h
    case TimeHeader => SIZEOF_TIME
    case AdtHeader(n, _) => AdtSize(n)
    case SvHeader => SIZEOF_SV
    case ClosureHeader(_, cap) => ClosureSize(cap)
    case ArrayHeader(n) => ArraySize(n)
    case BlobHeader(n) => BlobSize(n * BLOB_SCALE)
  }

  /** What the program may change in a header: how many arguments a closure holds. */
  predicate Evolves(h: Header, h': Header) {
    h' == h || (h.ClosureHeader? && h'.ClosureHeader? && h'.cap == h.cap)
  }

  /** An object is given back with the size, and to the pool, it came with, unless it is a time:
      that one is allocated as a variable and always goes to another pool. */
  lemma SizesMatch(r: Request, h: Header, p: nat, q: nat)
    requires InWidth(r) && Evolves(HeaderOf(r), h)
    requires IsPoolFor(p, AllocatedSize(r)) && IsPoolFor(q, FreedSize(h))
    ensures FreedSize(h) == AllocatedSize(r) <==> r != NewTime
    ensures p == q <==> r != NewTime
  {
    if r == NewTime {
      PoolSizes();
    } else {
      PoolForIsUnique(p, q, AllocatedSize(r));
    }
  }

  /** How many values the program may store in an object made for a request, and where the first one is. */
  function ValueCount(r: Request): nat {
    match r
    case NewAdt(n, _) => n
    case NewClosure(cap) => cap
    case NewArray(n) => n
    case _ => 0
  }

  function FirstValue(r: Request): nat {
    match r
    case NewAdt(_, _) => 8
    case NewClosure(_) => 16
    case NewArray(_) => 8
    case _ => 0
  }

  /** The last member of the structure for the kind of object. */
  lemma FirstValueIsLastMember(r: Request)
    ensures Aligned(HeaderAndWords(1)) && Aligned(HeaderAndWords(2))
    ensures r.NewAdt? ==> FirstValue(r) == OffsetOf(ADT1_STRUCT, |ADT1_STRUCT| - 1)
    ensures r.NewClosure? ==> FirstValue(r) == OffsetOf(CLOSURE1_STRUCT, |CLOSURE1_STRUCT| - 1)
    ensures r.NewArray? ==> FirstValue(r) == OffsetOf(ARRAY1_STRUCT, |ARRAY1_STRUCT| - 1)
  {
    hide StructSize, OffsetOf, EndOf, MaxAlign, Words;
    StructSizes();
  }

  /** Every field, argument or element lies behind the header and inside what is allocated for the object,
      and so inside the block it is put into; and nothing is allocated behind the last one. */
  lemma ValuesFit(r: Request, i: nat, p: nat)
    requires r.NewAdt? || r.NewClosure? || r.NewArray?
    requires IsPoolFor(p, AllocatedSize(r)) && p < POOL_COUNT
    ensures i < ValueCount(r) ==> 4 <= FirstValue(r) && FirstValue(r) + 8 * i + 8 <= AllocatedSize(r) <= PoolSize(p)
    ensures AllocatedSize(r) == FirstValue(r) + 8 * ValueCount(r)
  {
  }

  /** A time fits into what is allocated for it, and so does a variable. */
  lemma StructuresFit()
    ensures Aligned(TIME_STRUCT) && StructSize(TIME_STRUCT) <= AllocatedSize(NewTime)
    ensures Aligned(SV_STRUCT) && StructSize(SV_STRUCT) == AllocatedSize(NewSv)
  {
    hide StructSize, OffsetOf, EndOf, MaxAlign, Words;
    StructSizes();
  }

  /** The payload a blob was asked for fits, behind the header of four bytes, into what is allocated for it,
      with less than four bytes to spare. */
  lemma BlobFits(bytes: nat)
    requires bytes < 0x1_0000
    ensures Aligned(BLOB1_STRUCT) && OffsetOf(BLOB1_STRUCT, 1) == 4
    ensures 4 + bytes <= AllocatedSize(NewBlob(bytes)) < 4 + bytes + 4
  {
    BlobStruct();
  }
}
