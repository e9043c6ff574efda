/** The page allocator of malloc_minefield.c: an array of two-byte tags, one for each page. */
module Minefield {
  import opened Machine

  const PAGESIZE: nat := 4096
  const UNUSED: uint16 := 0xFFFF
  const INSIDE: uint16 := 0xFFFE

  /** An allocation: its first page, and its size, which ends where its last page ends. One of size zero takes a page too. */
  datatype Region = Region(first: nat, size: nat) {
    function Count(): (n: nat)
      ensures n > 0
    {
      if size == 0 then 1 else PagesFor(size)
    }

    function End(): nat {
      first + Count()
    }

    function Address(): int {
      (first + PagesFor(size)) * PAGESIZE - size
    }

    ghost predicate Covers(page: int) {
      first <= page < End()
    }
  }

  function PagesFor(size: nat): (n: nat)
    ensures if size > 0 then (n - 1) * PAGESIZE < size else n == 0
    ensures size <= n * PAGESIZE
  {
    (size + PAGESIZE - 1) / PAGESIZE
  }

  /** The tags of a region: its offset in its first page, then a run of INSIDE, and a free page after it unless it is empty. */
  ghost predicate Marks(a: seq<uint16>, r: Region) {
    && 1 <= r.first && r.End() <= |a|
    && a[r.first] == r.Address() % PAGESIZE
    && (forall i :: r.first < i < r.End() ==> a[i] == INSIDE)
    && (r.size > 0 ==> r.End() < |a| && a[r.End()] == UNUSED)
  }

  ghost predicate Used(live: set<Region>, page: int) {
    exists r :: r in live && r.Covers(page)
  }

  /** The tags describe the live regions and nothing else. */
  ghost predicate Describes(a: seq<uint16>, live: set<Region>) {
    && (forall r :: r in live ==> Marks(a, r))
    && (forall r, s :: r in live && s in live && r.first == s.first ==> r == s)
    && forall i :: 0 <= i < |a| && a[i] != UNUSED ==> Used(live, i)
  }

  /** Where a region starts tells its first page and its tag. */
  lemma AddressParts(r: Region)
    ensures r.Address() / PAGESIZE == r.first && 0 <= r.Address() % PAGESIZE < PAGESIZE
    ensures r.Address() == r.first * PAGESIZE + r.Address() % PAGESIZE
  {
  }

  /** A region ends before the next one starts, with a free page between them unless it is empty. */
  lemma Apart(a: seq<uint16>, r: Region, s: Region)
    requires Marks(a, r) && Marks(a, s) && r.first < s.first
    ensures r.End() <= s.first && (r.size > 0 ==> r.End() < s.first && a[r.End()] == UNUSED)
  {
    AddressParts(s);
  }

  /** The bytes of two live regions do not overlap, and there is a page between them when neither is empty. */
  lemma Disjoint(a: seq<uint16>, live: set<Region>, r: Region, s: Region)
    requires Describes(a, live) && r in live && s in live && r != s
    ensures r.Address() + r.size <= s.Address() || s.Address() + s.size <= r.Address()
    ensures r.size > 0 && s.size > 0 ==>
              r.Address() + r.size + PAGESIZE <= s.Address() || s.Address() + s.size + PAGESIZE <= r.Address()
  {
    if r.first < s.first {
      Ordered(a, r, s);
    } else {
      Ordered(a, s, r);
    }
  }

  lemma Ordered(a: seq<uint16>, r: Region, s: Region)
    requires Marks(a, r) && Marks(a, s) && r.first < s.first
    ensures r.Address() + r.size <= s.Address()
    ensures r.size > 0 ==> r.Address() + r.size + PAGESIZE <= s.Address()
  {
    Apart(a, r, s);
    AddressParts(s);
  }

  /** The page before a live region is free, except when an empty region took it. */
  lemma GuardBefore(a: seq<uint16>, live: set<Region>, r: Region)
    requires Describes(a, live) && r in live
    ensures a[r.first - 1] != UNUSED <==> exists e :: e in live && e.size == 0 && e.first == r.first - 1
  {
    hide PagesFor;
    if a[r.first - 1] != UNUSED {
      var e :| e in live && e.Covers(r.first - 1);
      Apart(a, e, r);
    }
    if e :| e in live && e.size == 0 && e.first == r.first - 1 {
      AddressParts(e);
    }
  }

  // Searching.

  ghost predicate FreeRun(a: seq<uint16>, s: int, k: nat) {
    0 <= s && s + k <= |a| && forall i :: s <= i < s + k ==> a[i] == UNUSED
  }

  /** No k free pages in a row start in lo..pos and end by lim. */
  ghost predicate NoRun(a: seq<uint16>, k: nat, lo: int, pos: int, lim: int) {
    forall s :: lo <= s < pos && s + k <= lim ==> !FreeRun(a, s, k)
  }

  /** The run that the search finds: the first from curpos up, else the first below curpos. */
  ghost predicate FirstFit(a: seq<uint16>, k: nat, curpos: nat, start: nat) {
    && FreeRun(a, start, k)
    && (if curpos <= start then NoRun(a, k, curpos, start, |a|)
        else start + k <= curpos && NoRun(a, k, curpos, |a|, |a|) && NoRun(a, k, 0, start, curpos))
  }

  /** Used pages cannot start a run. */
  lemma SkipUsed(a: seq<uint16>, k: nat, lo: nat, pos: nat, lim: nat)
    requires NoRun(a, k, lo, pos, lim) && k > 0 && pos < |a| && a[pos] != UNUSED
    ensures NoRun(a, k, lo, pos + 1, lim)
  {
  }

  /** Nor can free pages with fewer than k up to a used page or the limit. */
  lemma SkipShort(a: seq<uint16>, k: nat, lo: nat, start: nat, pos: nat, lim: nat)
    requires NoRun(a, k, lo, start, lim) && start <= pos < start + k && pos <= lim <= |a|
    requires pos == lim || a[pos] != UNUSED
    ensures NoRun(a, k, lo, pos, lim)
  {
  }

  // The two updates of the tags.

  /** What minefield_alloc does to the tags, for any size. */
  ghost predicate Marked(a: seq<uint16>, a': seq<uint16>, start: nat, n: nat, offset: int) {
    && |a'| == |a| && start + 1 < |a|
    && a'[start + 1] == offset
    && (forall i :: start + 2 <= i < start + n + 1 && i < |a| ==> a'[i] == INSIDE)
    && forall i :: 0 <= i < |a| && (i < start + 1 || (i > start + 1 && i >= start + n + 1)) ==> a'[i] == a[i]
  }

  lemma MarkRegion(a: seq<uint16>, a': seq<uint16>, start: nat, r: Region, live: set<Region>)
    requires Describes(a, live) && r.first == start + 1 && FreeRun(a, start, PagesFor(r.size) + 2)
    requires Marked(a, a', start, PagesFor(r.size), r.Address() % PAGESIZE)
    ensures Describes(a', live + {r}) && r !in live
  {
    hide PagesFor, Marks;
    forall s | s in live ensures Marks(a', s) && s.first != r.first {
      MarkKeeps(a, a', start, r, s);
    }
    MarkNew(a, a', start, r);
    forall i | 0 <= i < |a'| && a'[i] != UNUSED ensures Used(live + {r}, i) {
      if r.Covers(i) {
        assert r in live + {r};
      } else {
        assert a'[i] == a[i];
        var s :| s in live && s.Covers(i);
        assert s in live + {r};
      }
    }
  }

  lemma MarkNew(a: seq<uint16>, a': seq<uint16>, start: nat, r: Region)
    requires r.first == start + 1 && FreeRun(a, start, PagesFor(r.size) + 2)
    requires Marked(a, a', start, PagesFor(r.size), r.Address() % PAGESIZE)
    ensures Marks(a', r)
  {
    hide PagesFor;
  }

  lemma MarkKeeps(a: seq<uint16>, a': seq<uint16>, start: nat, r: Region, s: Region)
    requires Marks(a, s) && r.first == start + 1 && FreeRun(a, start, PagesFor(r.size) + 2)
    requires Marked(a, a', start, PagesFor(r.size), r.Address() % PAGESIZE)
    ensures Marks(a', s) && s.first != r.first
  {
    hide PagesFor;
    AddressParts(s);
    assert a[s.first] != UNUSED;
    if s.first <= start {
      if s.Covers(start) {
        MarkAt(a, s, start);
      }
    } else {
      assert s.first > start + PagesFor(r.size) + 1;
    }
  }

  /** What minefield_free does to the tags. */
  ghost predicate Cleared(a: seq<uint16>, a': seq<uint16>, first: nat, end: nat) {
    && |a'| == |a|
    && (forall i :: first <= i < end && i < |a| ==> a'[i] == UNUSED)
    && forall i :: 0 <= i < |a| && !(first <= i < end) ==> a'[i] == a[i]
  }

  /** The first free page from i on. */
  ghost function RunEnd(a: seq<uint16>, i: nat): (j: nat)
    requires i <= |a|
    ensures i <= j <= |a| && (j < |a| ==> a[j] == UNUSED) && forall k :: i <= k < j ==> a[k] != UNUSED
    decreases |a| - i
  {
    if i < |a| && a[i] != UNUSED then RunEnd(a, i + 1) else i
  }

  /** The regions that start in the run of used pages from i on. */
  ghost function InRun(a: seq<uint16>, live: set<Region>, i: nat): set<Region>
    requires i <= |a|
  {
    set s | s in live && i <= s.first < RunEnd(a, i)
  }

  lemma ClearKeeps(a: seq<uint16>, a': seq<uint16>, r: Region, s: Region)
    requires Marks(a, r) && Marks(a, s) && Cleared(a, a', r.first, RunEnd(a, r.first))
    requires s.first < r.first || s.first >= RunEnd(a, r.first)
    ensures Marks(a', s)
  {
    hide PagesFor;
    if s.first < r.first {
      Apart(a, s, r);
    }
  }

  lemma ClearUsed(a: seq<uint16>, a': seq<uint16>, r: Region, live: set<Region>, i: int)
    requires Describes(a, live) && r in live && r.first <= |a| && Cleared(a, a', r.first, RunEnd(a, r.first))
    requires 0 <= i < |a'| && a'[i] != UNUSED
    ensures Used(live - InRun(a, live, r.first), i)
  {
    hide Marks, PagesFor;
    var end := RunEnd(a, r.first);
    assert a[i] != UNUSED && !(r.first <= i < end);
    var s :| s in live && s.Covers(i);
    if r.first <= s.first < end {
      MarkAt(a, s, end);
      assert false;
    }
    assert s in live - InRun(a, live, r.first);
  }

  lemma ClearRun(a: seq<uint16>, a': seq<uint16>, r: Region, live: set<Region>)
    requires Describes(a, live) && r in live && r.first <= |a| && Cleared(a, a', r.first, RunEnd(a, r.first))
    ensures Describes(a', live - InRun(a, live, r.first))
  {
    hide Marks, Used;
    forall s | s in live - InRun(a, live, r.first) ensures Marks(a', s) {
      ClearKeeps(a, a', r, s);
    }
    forall i | 0 <= i < |a'| && a'[i] != UNUSED ensures Used(live - InRun(a, live, r.first), i) {
      ClearUsed(a, a', r, live, i);
    }
  }

  /** A region that is not empty fills the run that it starts. */
  lemma RegionEnd(a: seq<uint16>, r: Region)
    requires Marks(a, r) && r.size > 0
    ensures RunEnd(a, r.first) == r.End()
  {
    hide PagesFor;
    forall k | r.first <= k < r.End() ensures a[k] != UNUSED {
      MarkAt(a, r, k);
    }
  }

  /** Releasing the run of a region releases that region alone, unless it is empty and another starts on the next page. */
  lemma AloneIff(a: seq<uint16>, live: set<Region>, r: Region)
    requires Describes(a, live) && r in live
    ensures r.first < RunEnd(a, r.first)
    ensures InRun(a, live, r.first) == {r} <==> (r.size > 0 || forall s :: s in live ==> s.first != r.first + 1)
  {
    hide PagesFor, Used;
    AddressParts(r);
    if r.size > 0 {
      RegionEnd(a, r);
      forall s | s in InRun(a, live, r.first) ensures s == r {
        if s != r {
          Apart(a, r, s);
        }
      }
    } else if s :| s in live && s.first == r.first + 1 {
      AddressParts(s);
      assert RunEnd(a, r.first) > s.first;
      assert s in InRun(a, live, r.first);
    } else {
      EmptyAlone(a, live, r);
    }
  }

  /** A used page after an empty region is where another starts. */
  lemma NextStarts(a: seq<uint16>, live: set<Region>, r: Region)
    requires Describes(a, live) && r in live && r.size == 0 && r.first + 1 < |a| && a[r.first + 1] != UNUSED
    ensures exists s :: s in live && s.first == r.first + 1
  {
    hide PagesFor;
    var s :| s in live && s.Covers(r.first + 1);
    if s.first < r.first {
      Apart(a, s, r);
    }
  }

  lemma EmptyAlone(a: seq<uint16>, live: set<Region>, r: Region)
    requires Describes(a, live) && r in live && r.size == 0 && forall s :: s in live ==> s.first != r.first + 1
    ensures InRun(a, live, r.first) == {r}
  {
    hide PagesFor;
    AddressParts(r);
    if r.first + 1 < |a| && a[r.first + 1] != UNUSED {
      NextStarts(a, live, r);
      assert false;
    }
    assert RunEnd(a, r.first) == r.first + 1;
  }

  /** What the scans in minefield_free and minefield_get_size meet. */
  lemma LiveMarks(a: seq<uint16>, live: set<Region>, r: Region)
    requires Describes(a, live) && r in live
    ensures PageOf(r.Address()) == r.first && 0 < r.first < |a|
    ensures r.size > 0 ==> RunEnd(a, r.first) * PAGESIZE - r.Address() == r.size
    ensures r.size == 0 ==> RunEnd(a, r.first) * PAGESIZE - r.Address() >= PAGESIZE
  {
    AddressParts(r);
    if r.size > 0 {
      RegionEnd(a, r);
    }
  }

  // C's division and remainder truncate toward zero.

  function PageOf(ptr: int): int {
    if ptr >= 0 then ptr / PAGESIZE else -(-ptr / PAGESIZE)
  }

  function OffsetOf(ptr: int): int {
    ptr - PageOf(ptr) * PAGESIZE
  }

  /** The test before minefield_bomb. */
  ghost predicate Accepted(a: seq<uint16>, ptr: int) {
    var i := PageOf(ptr);
    0 <= i < |a| && a[i] == OffsetOf(ptr)
  }

  lemma AcceptedOwner(a: seq<uint16>, r: Region, ptr: int)
    requires Marks(a, r) && Accepted(a, ptr) && r.Covers(PageOf(ptr))
    ensures r.Address() == ptr
  {
    hide Marks;
    MarkAt(a, r, PageOf(ptr));
    AddressParts(r);
  }

  lemma MarkAt(a: seq<uint16>, r: Region, i: int)
    requires Marks(a, r) && r.Covers(i)
    ensures 0 <= i < |a| && a[i] == (if i == r.first then r.Address() % PAGESIZE else INSIDE)
  {
  }

  /** minefield_bomb is reached exactly for pointers that are not the start of a live region. */
  lemma AcceptedIff(a: seq<uint16>, live: set<Region>, ptr: int)
    requires Describes(a, live)
    ensures Accepted(a, ptr) <==> exists r :: r in live && r.Address() == ptr
  {
    hide Marks, PageOf, OffsetOf, PagesFor;
    if Accepted(a, ptr) {
      TagBelow(ptr);
      assert a[PageOf(ptr)] != UNUSED;
      var r :| r in live && r.Covers(PageOf(ptr));
      AcceptedOwner(a, r, ptr);
    }
    if r :| r in live && r.Address() == ptr {
      StartAccepted(a, r);
    }
  }

  lemma TagBelow(ptr: int)
    ensures OffsetOf(ptr) < PAGESIZE
  {
  }

  lemma StartAccepted(a: seq<uint16>, r: Region)
    requires Marks(a, r)
    ensures Accepted(a, r.Address())
  {
    AddressParts(r);
  }

  /** minefield_region, minefield_admin, minefield_curpos and the pages themselves. */
  class Arena {
    const npages: nat
    const admin: array<uint16>
    const pages: array<byte>
    var curpos: nat
    ghost var live: set<Region>

    ghost predicate Valid()
      reads this, admin
    {
      && npages > 0 && admin.Length == npages && pages.Length == npages * PAGESIZE && curpos < npages
      && Describes(admin[..], live)
    }

    /** minefield_init, once the address space is reserved. */
    constructor (npages: nat)
      requires npages > 0
      ensures Valid() && live == {} && this.npages == npages && fresh(admin) && fresh(pages)
      ensures curpos == 0 && forall i :: 0 <= i < npages ==> admin[i] == UNUSED
    {
      this.npages := npages;
      admin := new uint16[npages](_ => UNUSED);
      pages := new byte[npages * PAGESIZE](_ => 0);
      curpos, live := 0, {};
    }

    /** The search: from curpos up, then once more from zero up to curpos. */
    method Search(k: nat) returns (start: Option<nat>)
      requires Valid() && k >= 2
      ensures start.None? ==> NoRun(admin[..], k, curpos, npages, npages) && NoRun(admin[..], k, 0, curpos, curpos)
      ensures start.Some? ==> FirstFit(admin[..], k, curpos, start.value)
    {
      hide NoRun, Describes, FreeRun;
      ghost var a := admin[..];
      NoRunYet(a, k, curpos, npages);
      NoRunYet(a, k, 0, curpos);
      var pos := curpos;
      var lim := npages;
      ghost var lo := curpos;
      while true
        invariant lo <= pos <= lim <= npages && NoRun(a, k, lo, pos, lim)
        invariant (lo == curpos && lim == npages) || (lo == 0 && lim == curpos && NoRun(a, k, curpos, npages, npages))
        decreases lim == npages, lim - pos
      {
        ghost var pos0 := pos;
        while pos < lim && admin[pos] != UNUSED
          invariant pos0 <= pos <= lim && NoRun(a, k, lo, pos, lim)
        {
          SkipUsed(a, k, lo, pos, lim);
          pos := pos + 1;
        }
        var s := pos;
        while pos < lim && pos - s < k && admin[pos] == UNUSED
          invariant s <= pos <= lim && pos - s <= k && forall i :: s <= i < pos ==> a[i] == UNUSED
        {
          pos := pos + 1;
        }
        if pos - s == k {
          RunIs(a, s, k);
          return Some(s);
        }
        SkipShort(a, k, lo, s, pos, lim);
        if pos >= lim {
          if lim == npages {
            lim := curpos;
            pos := 0;
            lo := 0;
          } else {
            return None;
          }
        }
      }
    }

    /** minefield_alloc. */
    method Alloc(size: nat) returns (p: Option<int>, ghost r: Region)
      requires Valid()
      modifies this`curpos, this`live, admin
      ensures Valid()
      ensures p.None? <==> (NoRun(old(admin[..]), PagesFor(size) + 2, old(curpos), npages, npages)
                            && NoRun(old(admin[..]), PagesFor(size) + 2, 0, old(curpos), old(curpos)))
      ensures p.None? ==> admin[..] == old(admin[..]) && live == old(live) && curpos == old(curpos)
      ensures p.Some? ==> r.first > 0 && r.size == size && r.Address() == p.value && r !in old(live) && live == old(live) + {r}
      ensures p.Some? ==> FirstFit(old(admin[..]), PagesFor(size) + 2, old(curpos), r.first - 1)
      ensures p.Some? ==> curpos == r.first + PagesFor(size) && (p.value + size) % PAGESIZE == 0
    {
      hide Describes, FreeRun, NoRun, PagesFor;
      var n := PagesFor(size);
      ghost var a := admin[..];
      assert Describes(a, live);
      r := Region(0, size);
      var found := Search(n + 2);
      if found.None? {
        return None, r;
      }
      var s := found.value;
      RunFound(a, s, n + 2, curpos);
      curpos := s + n + 1;
      var regionStart := (s + n + 1) * PAGESIZE - size;
      var i := s + 2;
      while i < s + n + 1
        invariant live == old(live) && curpos == s + n + 1
        invariant s + 2 <= i && admin.Length == |a| && (i <= s + n + 1 || i == s + 2)
        invariant forall j :: s + 2 <= j < i && j < |a| ==> admin[j] == INSIDE || n == 0
        invariant forall j :: 0 <= j < |a| && !(s + 2 <= j < i) ==> admin[j] == a[j]
      {
        admin[i] := INSIDE;
        i := i + 1;
      }
      admin[s + 1] := regionStart % PAGESIZE;
      p := Some(regionStart);
      r := Region(s + 1, size);
      MarkRegion(a, admin[..], s, r, live);
      live := live + {r};
    }

    /** minefield_free, or none when it reaches minefield_bomb. It takes every region in the run of pages (see AloneIff). */
    method Free(ptr: int) returns (ok: bool)
      requires Valid()
      modifies this`live, admin
      ensures Valid()
      ensures ok <==> exists r :: r in old(live) && r.Address() == ptr
      ensures forall r :: r in old(live) && r.Address() == ptr ==>
                live == old(live) - InRun(old(admin[..]), old(live), r.first) && (r.size > 0 ==> live == old(live) - {r})
      ensures !ok ==> admin[..] == old(admin[..]) && live == old(live)
    {
      hide Describes, Marks, Used, PagesFor, RunEnd, PageOf, OffsetOf, InRun;
      ghost var a := admin[..];
      assert Describes(a, live);
      AcceptedIff(a, live, ptr);
      var i := PageOf(ptr);
      if i < 0 || i >= npages || admin[i] != OffsetOf(ptr) {
        return false;
      }
      ghost var r :| r in live && r.Address() == ptr;
      LiveMarks(a, live, r);
      var j := i;
      while j < npages && admin[j] != UNUSED
        invariant i <= j <= RunEnd(a, i) && live == old(live)
        invariant Cleared(a, admin[..], i, j)
      {
        admin[j] := UNUSED;
        j := j + 1;
      }
      ClearRun(a, admin[..], r, live);
      AloneIff(a, live, r);
      OneAddress(a, live, r);
      live := live - InRun(a, live, r.first);
      return true;
    }

    /** minefield_get_size, or none when it reaches minefield_bomb. An empty region is measured as a page or more. */
    method GetSize(ptr: int) returns (size: Option<int>)
      requires Valid()
      ensures size.Some? <==> exists r :: r in live && r.Address() == ptr
      ensures forall r :: r in live && r.Address() == ptr ==>
                size == Some(RunEnd(admin[..], r.first) * PAGESIZE - ptr)
                && (if r.size > 0 then size.value == r.size else size.value >= PAGESIZE)
    {
      hide Describes, Marks, Used, PagesFor, RunEnd, PageOf, OffsetOf;
      ghost var a := admin[..];
      assert Describes(a, live);
      AcceptedIff(a, live, ptr);
      var i := PageOf(ptr);
      if i < 0 || i >= npages || admin[i] != OffsetOf(ptr) {
        return None;
      }
      var j := i;
      while j < npages && admin[j] != UNUSED
        invariant i <= j <= npages && forall k :: i <= k < j ==> a[k] != UNUSED
      {
        j := j + 1;
      }
      size := Some(j * PAGESIZE - ptr);
      forall r | r in live && r.Address() == ptr
        ensures r.first == i && j == RunEnd(a, i)
        ensures if r.size > 0 then size.value == r.size else size.value >= PAGESIZE
      {
        LiveMarks(a, live, r);
      }
    }

    /** The memcpy of minefield_c_realloc. */
    method Copy(src: nat, dst: nat, n: nat)
      requires src + n <= pages.Length && dst + n <= pages.Length && (src + n <= dst || dst + n <= src)
      modifies pages
      ensures Copied(old(pages[..]), pages[..], src, dst, n)
    {
      var i := 0;
      while i < n
        invariant 0 <= i <= n && Copied(old(pages[..]), pages[..], src, dst, i)
      {
        CopyStep(old(pages[..]), pages[..], src, dst, i);
        pages[dst + i] := pages[src + i];
        i := i + 1;
      }
    }

    /**
     * minefield_c_realloc of the live region r at p. None is the state in which the code, its allocation failed,
     * goes on to copy to a null pointer.
     */
    method Realloc(p: int, size: nat, ghost r: Region) returns (q: Option<int>, ghost s: Region)
      requires Valid() && r in live && r.size > 0 && r.Address() == p
      modifies this`curpos, this`live, admin, pages
      ensures Valid() && (q.None? ==> live == old(live) && pages[..] == old(pages[..]))
      ensures q.Some? ==> s !in old(live) && s.size == size && s.Address() == q.value && live == old(live) + {s} - {r}
      ensures q.Some? ==> 0 <= p && 0 <= q.value && p + r.size <= pages.Length && q.value + size <= pages.Length
      ensures q.Some? ==>
                Copied(old(pages[..]), pages[..], p, q.value, if r.size < size then r.size else size)
    {
      hide *;
      q, s := Alloc(size);
      if q.None? {
        return;
      }
      var oldSize := GetSize(p);
      InArena(r);
      InArena(s);
      DisjointLive(r, s);
      Copy(p, q.value, if oldSize.value < size then oldSize.value else size);
      var ok := Free(p);
    }

    lemma DisjointLive(r: Region, s: Region)
      requires Valid() && r in live && s in live && r != s
      ensures r.Address() + r.size <= s.Address() || s.Address() + s.size <= r.Address()
    {
      Disjoint(admin[..], live, r, s);
    }

    lemma InArena(r: Region)
      requires Valid() && r in live
      ensures 0 <= r.Address() && r.Address() + r.size <= pages.Length
    {
    }
  }

  /** A live region is determined by its address. */
  lemma OneAddress(a: seq<uint16>, live: set<Region>, r: Region)
    requires Describes(a, live) && r in live
    ensures forall s :: s in live && s.Address() == r.Address() ==> s == r
  {
    hide Marks, Used;
    AddressParts(r);
    forall s | s in live && s.Address() == r.Address() ensures s == r {
      AddressParts(s);
    }
  }

  /** memcpy between ranges that do not overlap; everything else is as it was. */
  ghost predicate Copied(m: seq<byte>, m': seq<byte>, src: int, dst: int, n: int)
    requires 0 <= n && 0 <= src && src + n <= |m| && 0 <= dst && dst + n <= |m|
  {
    && |m'| == |m|
    && (forall i :: dst <= i < dst + n ==> m'[i] == m[src + (i - dst)])
    && (forall i :: 0 <= i < |m| && !(dst <= i < dst + n) ==> m'[i] == m[i])
  }

  lemma CopyStep(m: seq<byte>, m': seq<byte>, src: nat, dst: nat, i: nat)
    requires src + i < |m| && dst + i < |m| && !(dst <= src + i < dst + i)
    requires Copied(m, m', src, dst, i)
    ensures Copied(m, m'[dst + i := m'[src + i]], src, dst, i + 1)
  {
  }

  /** A page is free exactly when no live region covers it. */
  lemma FreeIff(a: seq<uint16>, live: set<Region>, i: nat)
    requires Describes(a, live) && i < |a|
    ensures a[i] == UNUSED <==> !Used(live, i)
  {
    hide Marks, PagesFor;
    if r :| r in live && r.Covers(i) {
      MarkAt(a, r, i);
      AddressParts(r);
    }
  }

  /** The pages that no live region covers form a run. */
  lemma RunAt(a: seq<uint16>, live: set<Region>, s: nat, k: nat)
    requires Describes(a, live) && s + k <= |a| && forall i :: s <= i < s + k ==> !Used(live, i)
    ensures FreeRun(a, s, k)
  {
    hide Describes, Used;
    forall i | s <= i < s + k ensures a[i] == UNUSED {
      FreeIff(a, live, i);
    }
  }

  /** A run at curpos is the one that is found, and so is one at zero when no other can be. */
  lemma FitAt(a: seq<uint16>, k: nat, curpos: nat, start: nat, s: nat)
    requires FirstFit(a, k, curpos, start) && FreeRun(a, s, k)
    requires k > 0 && (s == curpos || (s == 0 && s + k <= curpos && curpos + k > |a|))
    ensures start == s
  {
  }

  /** Freeing an empty region takes one that starts on the next page. */
  lemma NeighbourGone(a: seq<uint16>, live: set<Region>, e: Region, r: Region)
    requires Describes(a, live) && e in live && e.size == 0 && r in live && r.first == e.first + 1
    ensures e in InRun(a, live, e.first) && r in InRun(a, live, e.first)
  {
    hide PagesFor, Used;
    AloneIff(a, live, e);
    AddressParts(r);
    assert a[r.first] != UNUSED;
    assert RunEnd(a, e.first) > r.first;
  }

  /** An allocation whose place is known. */
  method AllocAt(m: Arena, size: nat, ghost s: nat) returns (p: int)
    requires m.Valid() && s + PagesFor(size) + 2 <= m.npages
    requires forall i :: s <= i < s + PagesFor(size) + 2 ==> !Used(m.live, i)
    requires s == m.curpos || (s == 0 && PagesFor(size) + 2 <= m.curpos && m.curpos + PagesFor(size) + 2 > m.npages)
    modifies m`curpos, m`live, m.admin
    ensures m.Valid() && m.live == old(m.live) + {Region(s + 1, size)} && p == Region(s + 1, size).Address()
    ensures m.curpos == s + 1 + PagesFor(size)
  {
    hide Describes, Used, FirstFit, FreeRun, NoRun, PagesFor;
    ghost var a, k, at := m.admin[..], PagesFor(size) + 2, m.curpos;
    assert Describes(a, m.live);
    RunAt(a, m.live, s, k);
    var q, r := m.Alloc(size);
    RunFound(a, s, k, at);
    FitAt(a, k, at, r.first - 1, s);
    p := q.value;
  }

  /**
   * An empty region is put on the page in front of a live one, which loses its guard page; and freeing the empty one
   * frees the other with it. before and after are what minefield_get_size says of the other region.
   */
  method FreedWithNeighbour() returns (before: Option<int>, guard: uint16, after: Option<int>)
    ensures before == Some(1) && guard != UNUSED && after.None?
  {
    hide Describes, InRun, RunEnd;
    ghost var r1, r4, s, e := Region(1, 4097), Region(4, 1), Region(1, 1), Region(3, 0);
    var m := new Arena(6);
    var p1 := AllocAt(m, 4097, 0);
    var p4 := AllocAt(m, 1, 3);
    var ok := m.Free(p1);
    assert m.live == {r4};
    var p := AllocAt(m, 1, 0);
    p := AllocAt(m, 0, 2);
    assert m.live == {r4, s, e};
    before := m.GetSize(p4);
    guard := m.admin[3];
    ghost var a := m.admin[..];
    assert Describes(a, m.live);
    FreeIff(a, m.live, 3);
    NeighbourGone(a, m.live, e, r4);
    ok := m.Free(p);
    assert m.live <= {s};
    after := m.GetSize(p4);
  }

  /** A run of free pages on both sides of curpos is never found. */
  method FreedButNotFound() returns (q: Option<int>)
    ensures q.None?
  {
    var m := new Arena(4);
    ghost var a, r := m.admin[..], Region(0, 0);
    assert FreeRun(a, 0, 3);
    q, r := m.Alloc(1);
    assert r.first == 1;
    var ok := m.Free(q.value);
    q, r := m.Alloc(1);
  }

  lemma RunIs(a: seq<uint16>, s: nat, k: nat)
    requires s + k <= |a| && forall i :: s <= i < s + k ==> a[i] == UNUSED
    ensures FreeRun(a, s, k)
  {
  }

  lemma NoRunYet(a: seq<uint16>, k: nat, lo: int, lim: int)
    ensures NoRun(a, k, lo, lo, lim)
  {
  }

  lemma RunFound(a: seq<uint16>, s: nat, k: nat, curpos: nat)
    requires FreeRun(a, s, k)
    ensures s + k <= |a|
    ensures k >= 2 && s >= curpos ==> !NoRun(a, k, curpos, |a|, |a|)
    ensures k >= 2 && s + k <= curpos ==> !NoRun(a, k, 0, curpos, curpos)
  {
  }
}
