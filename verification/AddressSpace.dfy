/** Address spaces and the flat page table (kernel/arch/context.rs:379-414, 621-677, 729-745,
    kernel/arch/x86/paging.rs:200-305, kernel/syscall/memory.rs).

    There is one page table.  Switching contexts resets the pages of the old mappings to the
    identity and writes those of the new ones.  `Laid` is the table a space asks for: the identity
    overlaid with its stack and its mappings. */
module AddressSpace {
  import opened Common

  const PAGE_SIZE := 4096

  /** A page table word: the physical page and its permissions. */
  datatype Entry = Entry(frame: nat, write: bool, user: bool)

  /** A `ContextMemory`; `owned` says that dropping it frees its memory. */
  datatype Mapping = Mapping(phys: nat, virt: nat, size: nat, writeable: bool, owned: bool)
  {
    function Pages(): nat { (size + PAGE_SIZE - 1) / PAGE_SIZE }

    function FirstPage(): nat { virt / PAGE_SIZE }

    /** The end of the last page the mapping reaches into. */
    function PageEnd(): nat { virt + Pages() * PAGE_SIZE }

    predicate HasPage(p: int) { FirstPage() <= p < FirstPage() + Pages() }

    function EntryAt(p: nat): Entry
      requires HasPage(p)
    {
      Entry((phys / PAGE_SIZE + p - FirstPage()) * PAGE_SIZE, writeable, true)
    }

    /** Whole pages, not empty, below `limit`. */
    predicate Proper(limit: nat) {
      size > 0 && virt % PAGE_SIZE == 0 && phys % PAGE_SIZE == 0 && PageEnd() <= limit
    }

    predicate Apart(other: Mapping) {
      PageEnd() <= other.virt || other.PageEnd() <= virt
    }
  }

  function Identity(p: nat): Entry { Entry(p * PAGE_SIZE, true, false) }

  // ---------------------------------------------------------------- mapping and unmapping

  /** `map`: write the entries of a mapping. */
  function MapOn(t: seq<Entry>, m: Mapping): (u: seq<Entry>)
    ensures |u| == |t|
    ensures forall p :: 0 <= p < |t| ==> u[p] == if m.HasPage(p) then m.EntryAt(p) else t[p]
  {
    seq(|t|, p requires 0 <= p < |t| => if m.HasPage(p) then m.EntryAt(p) else t[p])
  }

  /** `unmap`: reset the pages of a mapping to themselves. */
  function UnmapOn(t: seq<Entry>, m: Mapping): (u: seq<Entry>)
    ensures |u| == |t|
    ensures forall p :: 0 <= p < |t| ==> u[p] == if m.HasPage(p) then Identity(p) else t[p]
  {
    seq(|t|, p requires 0 <= p < |t| => if m.HasPage(p) then Identity(p) else t[p])
  }

  function MapAll(t: seq<Entry>, ms: seq<Mapping>): (u: seq<Entry>)
    ensures |u| == |t|
    decreases |ms|
  {
    if ms == [] then t else MapAll(MapOn(t, ms[0]), ms[1..])
  }

  function UnmapAll(t: seq<Entry>, ms: seq<Mapping>): (u: seq<Entry>)
    ensures |u| == |t|
    decreases |ms|
  {
    if ms == [] then t else UnmapAll(UnmapOn(t, ms[0]), ms[1..])
  }

  /** A context's view: its stack and its program memory. */
  datatype Space = Space(stack: Option<Mapping>, memory: seq<Mapping>)
  {
    function All(): seq<Mapping> {
      (if stack.Some? then [stack.value] else []) + memory
    }
  }

  function IdentityTable(n: nat): (t: seq<Entry>)
    ensures |t| == n && forall p :: 0 <= p < n ==> t[p] == Identity(p)
  {
    seq(n, p requires 0 <= p < n => Identity(p))
  }

  /** `Context::map`. */
  function Mapped(t: seq<Entry>, s: Space): (u: seq<Entry>)
    ensures |u| == |t|
  {
    MapAll(if s.stack.Some? then MapOn(t, s.stack.value) else t, s.memory)
  }

  /** `Context::unmap`. */
  function Unmapped(t: seq<Entry>, s: Space): (u: seq<Entry>)
    ensures |u| == |t|
  {
    var u := UnmapAll(t, s.memory);
    if s.stack.Some? then UnmapOn(u, s.stack.value) else u
  }

  /** The table a space asks for. */
  function Laid(n: nat, s: Space): (t: seq<Entry>)
    ensures |t| == n
  {
    Mapped(IdentityTable(n), s)
  }

  // ---------------------------------------------------------------- what a table shows

  lemma {:induction false} MapAllElsewhere(t: seq<Entry>, ms: seq<Mapping>, p: nat)
    requires p < |t| && forall j :: 0 <= j < |ms| ==> !ms[j].HasPage(p)
    ensures MapAll(t, ms)[p] == t[p]
    decreases |ms|
  {
    if ms != [] {
      assert !ms[0].HasPage(p);
      MapAllElsewhere(MapOn(t, ms[0]), ms[1..], p);
    }
  }

  lemma {:induction false} MapAllAt(t: seq<Entry>, ms: seq<Mapping>, k: nat, p: nat)
    requires p < |t| && k < |ms| && ms[k].HasPage(p) && forall j :: k < j < |ms| ==> !ms[j].HasPage(p)
    ensures MapAll(t, ms)[p] == ms[k].EntryAt(p)
    decreases |ms|
  {
    if k == 0 {
      assert forall j :: 0 <= j < |ms[1..]| ==> ms[1..][j] == ms[j + 1];
      MapAllElsewhere(MapOn(t, ms[0]), ms[1..], p);
    } else {
      MapAllAt(MapOn(t, ms[0]), ms[1..], k - 1, p);
    }
  }

  lemma {:induction false} MapAllAppend(t: seq<Entry>, ms: seq<Mapping>, m: Mapping)
    ensures MapAll(t, ms + [m]) == MapOn(MapAll(t, ms), m)
    decreases |ms|
  {
    if ms == [] {
      assert (ms + [m])[1..] == [];
    } else {
      assert (ms + [m])[1..] == ms[1..] + [m];
      MapAllAppend(MapOn(t, ms[0]), ms[1..], m);
    }
  }

  lemma {:induction false} UnmapAllAt(t: seq<Entry>, ms: seq<Mapping>, p: nat)
    requires p < |t|
    ensures UnmapAll(t, ms)[p] == t[p] || UnmapAll(t, ms)[p] == Identity(p)
    ensures (exists j :: 0 <= j < |ms| && ms[j].HasPage(p)) ==> UnmapAll(t, ms)[p] == Identity(p)
    decreases |ms|
  {
    if ms != [] {
      UnmapAllAt(UnmapOn(t, ms[0]), ms[1..], p);
      if exists j :: 0 <= j < |ms| && ms[j].HasPage(p) {
        var j :| 0 <= j < |ms| && ms[j].HasPage(p);
        if j > 0 {
          assert ms[1..][j - 1].HasPage(p);
        }
      }
    }
  }

  /** Unmapping a space gives the identity back, whatever overlaps. */
  lemma UnmapLaid(n: nat, s: Space)
    ensures Unmapped(Laid(n, s), s) == IdentityTable(n)
  {
    hide MapAll, UnmapAll;
    var t := Laid(n, s);
    forall p | 0 <= p < n
      ensures Unmapped(t, s)[p] == Identity(p)
    {
      UnmapAllAt(t, s.memory, p);
      if forall j :: 0 <= j < |s.memory| ==> !s.memory[j].HasPage(p) {
        var base := if s.stack.Some? then MapOn(IdentityTable(n), s.stack.value) else IdentityTable(n);
        MapAllElsewhere(base, s.memory, p);
      }
    }
  }

  /** One switch: the new context's table, from the old one's. */
  lemma SwitchLays(n: nat, s: Space, next: Space)
    ensures Mapped(Unmapped(Laid(n, s), s), next) == Laid(n, next)
  {
    UnmapLaid(n, s);
  }

  // ---------------------------------------------------------------- proper spaces

  /** Mappings in ascending order, page-disjoint from each other and from the stack. */
  ghost predicate Good(n: nat, s: Space) {
    && (forall j :: 0 <= j < |s.memory| ==> s.memory[j].Proper(n * PAGE_SIZE))
    && Ascending(s.memory)
    && (s.stack.Some? ==> s.stack.value.Proper(n * PAGE_SIZE))
    && (s.stack.Some? ==> forall j :: 0 <= j < |s.memory| ==> s.memory[j].Apart(s.stack.value))
  }

  ghost predicate Ascending(ms: seq<Mapping>) {
    forall i, j :: 0 <= i < j < |ms| ==> ms[i].PageEnd() <= ms[j].virt
  }

  lemma ApartNoPage(a: Mapping, b: Mapping, n: nat, p: nat)
    requires a.Proper(n * PAGE_SIZE) && b.Proper(n * PAGE_SIZE) && a.Apart(b)
    ensures !(a.HasPage(p) && b.HasPage(p))
  {
  }

  /** In a good space every page shows the one mapping that has it, or itself. */
  lemma LaidShows(n: nat, s: Space, p: nat)
    requires Good(n, s) && p < n
    ensures forall k :: 0 <= k < |s.memory| && s.memory[k].HasPage(p) ==> Laid(n, s)[p] == s.memory[k].EntryAt(p)
    ensures s.stack.Some? && s.stack.value.HasPage(p) ==> Laid(n, s)[p] == s.stack.value.EntryAt(p)
    ensures (forall m :: m in s.All() ==> !m.HasPage(p)) ==> Laid(n, s)[p] == Identity(p)
  {
    hide MapAll, Mapping.HasPage, Mapping.EntryAt, Mapping.Proper, Mapping.Apart;
    var base := if s.stack.Some? then MapOn(IdentityTable(n), s.stack.value) else IdentityTable(n);
    forall k | 0 <= k < |s.memory| && s.memory[k].HasPage(p)
      ensures Laid(n, s)[p] == s.memory[k].EntryAt(p)
    {
      forall j | k < j < |s.memory|
        ensures !s.memory[j].HasPage(p)
      {
        AscendingApart(s.memory, k, j);
        ApartNoPage(s.memory[k], s.memory[j], n, p);
      }
      MapAllAt(base, s.memory, k, p);
    }
    if s.stack.Some? && s.stack.value.HasPage(p) {
      forall j | 0 <= j < |s.memory|
        ensures !s.memory[j].HasPage(p)
      {
        ApartNoPage(s.memory[j], s.stack.value, n, p);
      }
      MapAllElsewhere(base, s.memory, p);
    }
    if forall m :: m in s.All() ==> !m.HasPage(p) {
      forall j | 0 <= j < |s.memory|
        ensures !s.memory[j].HasPage(p)
      {
        assert s.memory[j] in s.All();
      }
      assert s.stack.Some? ==> s.stack.value in s.All();
      MapAllElsewhere(base, s.memory, p);
    }
  }

  lemma AscendingApart(ms: seq<Mapping>, i: nat, j: nat)
    requires Ascending(ms) && i < |ms| && j < |ms| && i != j
    ensures ms[i].Apart(ms[j])
  {
  }

  // ---------------------------------------------------------------- translation

  /** The first mapping whose bytes include `ptr`, or the length of the list. */
  function Holder(ms: seq<Mapping>, ptr: nat): (k: nat)
    ensures k <= |ms|
    ensures k < |ms| ==> ms[k].virt <= ptr < ms[k].virt + ms[k].size
  {
    if ms == [] || ms[0].virt <= ptr < ms[0].virt + ms[0].size then 0 else 1 + Holder(ms[1..], ptr)
  }

  /** `translate`: the whole range must lie in the stack, but only its start in a program mapping. */
  function Translate(s: Space, ptr: nat, len: nat): Option<nat> {
    if s.stack.Some? && ptr >= s.stack.value.virt && ptr + len <= s.stack.value.virt + s.stack.value.size
    then Some(ptr - s.stack.value.virt + s.stack.value.phys)
    else
      var k := Holder(s.memory, ptr);
      if k < |s.memory| then Some(ptr - s.memory[k].virt + s.memory[k].phys) else None
  }

  /** The physical byte the page table shows at a virtual address. */
  function Shown(t: seq<Entry>, a: nat): nat
    requires a / PAGE_SIZE < |t|
  {
    t[a / PAGE_SIZE].frame + a % PAGE_SIZE
  }

  /** The page table of a space shows, at the virtual address `a`, the physical byte `d` further on. */
  predicate ByteShifts(n: nat, s: Space, a: nat, d: int) {
    a / PAGE_SIZE < n && Shown(Laid(n, s), a) == a + d
  }

  /** Page `p` leads `d` bytes further: by the mapping that has it, or to itself. */
  ghost predicate PageShifts(s: Space, p: nat, d: int) {
    || (exists m :: m in s.All() && m.HasPage(p) && m.phys - m.virt == d)
    || (d == 0 && forall m :: m in s.All() ==> !m.HasPage(p))
  }

  lemma MappingShows(m: Mapping, a: nat)
    requires m.virt % PAGE_SIZE == 0 && m.phys % PAGE_SIZE == 0 && m.HasPage(a / PAGE_SIZE)
    ensures m.EntryAt(a / PAGE_SIZE).frame + a % PAGE_SIZE == a - m.virt + m.phys
  {
  }

  lemma InsideHasPage(m: Mapping, n: nat, a: nat)
    requires m.Proper(n * PAGE_SIZE) && m.virt <= a < m.virt + m.size
    ensures a / PAGE_SIZE < n && m.HasPage(a / PAGE_SIZE)
  {
  }

  lemma AllAligned(n: nat, s: Space, m: Mapping)
    requires Good(n, s) && m in s.All()
    ensures m.Proper(n * PAGE_SIZE) && m.virt % PAGE_SIZE == 0 && m.phys % PAGE_SIZE == 0
  {
  }

  /** What the table shows at an address is decided by the page it is on. */
  lemma ByteShown(n: nat, s: Space, a: nat, d: int)
    requires Good(n, s) && a / PAGE_SIZE < n
    ensures ByteShifts(n, s, a, d) <==> PageShifts(s, a / PAGE_SIZE, d)
  {
    hide Laid, Good, Mapping.HasPage, Mapping.EntryAt, Mapping.Proper, Space.All;
    var p := a / PAGE_SIZE;
    LaidShowsMember(n, s, p);
    forall m | m in s.All() && m.HasPage(p)
      ensures Shown(Laid(n, s), a) == a - m.virt + m.phys
    {
      AllAligned(n, s, m);
      MappingShows(m, a);
    }
  }

  /** Where a program mapping or the stack has the byte, `translate`'s answer for it is right. */
  lemma InsideShows(n: nat, s: Space, m: Mapping, a: nat)
    requires Good(n, s) && m in s.All() && m.virt <= a < m.virt + m.size
    ensures ByteShifts(n, s, a, m.phys - m.virt)
  {
    hide Laid, Good, Mapping.HasPage, Mapping.EntryAt, Mapping.Proper, Space.All;
    AllAligned(n, s, m);
    InsideHasPage(m, n, a);
    ByteShown(n, s, a, m.phys - m.virt);
  }

  predicate InStack(s: Space, ptr: nat, len: nat) {
    s.stack.Some? && ptr >= s.stack.value.virt && ptr + len <= s.stack.value.virt + s.stack.value.size
  }

  /** The range lies in the stack or in the one program mapping that has its start. */
  predicate InOneMapping(s: Space, ptr: nat, len: nat) {
    InStack(s, ptr, len)
    || var k := Holder(s.memory, ptr);
       k < |s.memory| && ptr + len <= s.memory[k].virt + s.memory[k].size
  }

  predicate Touches(ptr: nat, len: nat, p: nat) {
    len > 0 && ptr / PAGE_SIZE <= p <= (ptr + len - 1) / PAGE_SIZE
  }

  lemma TouchedByte(ptr: nat, len: nat, p: nat) returns (a: nat)
    requires Touches(ptr, len, p)
    ensures ptr <= a < ptr + len && a / PAGE_SIZE == p
  {
    a := if ptr / PAGE_SIZE == p then ptr else p * PAGE_SIZE;
  }

  lemma ByteTouches(ptr: nat, len: nat, a: nat)
    requires ptr <= a < ptr + len
    ensures Touches(ptr, len, a / PAGE_SIZE)
  {
  }

  /** `translate` accepts the range and answers `ptr + d`. */
  predicate Answers(s: Space, ptr: nat, len: nat, d: int) {
    Translate(s, ptr, len).Some? && Translate(s, ptr, len).value == ptr + d
  }

  /** What `translate` accepts it need not translate rightly: the page table agrees on every byte of
      the range exactly when every page the range touches leads as far as the answer does. */
  lemma TranslateAgrees(n: nat, s: Space, ptr: nat, len: nat, d: int)
    requires Good(n, s) && Answers(s, ptr, len, d)
    ensures (forall a :: ptr <= a < ptr + len ==> ByteShifts(n, s, a, d))
            <==> (forall p: nat :: Touches(ptr, len, p) ==> p < n && PageShifts(s, p, d))
  {
    hide Laid, Good, ByteShifts, PageShifts, Answers, Touches, Mapping.HasPage;
    if forall a :: ptr <= a < ptr + len ==> ByteShifts(n, s, a, d) {
      forall p: nat | Touches(ptr, len, p)
        ensures p < n && PageShifts(s, p, d)
      {
        var a := TouchedByte(ptr, len, p);
        ShiftInTable(n, s, a, d);
        ByteShown(n, s, a, d);
      }
    }
    if forall p: nat :: Touches(ptr, len, p) ==> p < n && PageShifts(s, p, d) {
      forall a | ptr <= a < ptr + len
        ensures ByteShifts(n, s, a, d)
      {
        ByteTouches(ptr, len, a);
        ByteShown(n, s, a, d);
      }
    }
  }

  lemma ShiftInTable(n: nat, s: Space, a: nat, d: int)
    requires ByteShifts(n, s, a, d)
    ensures a / PAGE_SIZE < n
  {
  }

  /** Within one mapping it is right. */
  lemma TranslateInside(n: nat, s: Space, ptr: nat, len: nat, d: int)
    requires Good(n, s) && Answers(s, ptr, len, d) && InOneMapping(s, ptr, len)
    ensures forall a :: ptr <= a < ptr + len ==> ByteShifts(n, s, a, d)
  {
    hide Laid, Good, ByteShifts;
    var m := if InStack(s, ptr, len) then s.stack.value else s.memory[Holder(s.memory, ptr)];
    forall a | ptr <= a < ptr + len
      ensures ByteShifts(n, s, a, d)
    {
      InsideShows(n, s, m, a);
    }
  }

  /** A range that begins in one mapping and ends in the next is accepted for where it begins. */
  lemma TranslateSplit()
    ensures var a, b := Mapping(0x5000, 0x1000, 0x1000, true, true), Mapping(0x9000, 0x2000, 0x1000, true, true);
            var s := Space(None, [a, b]);
            && Good(16, s) && Translate(s, 0x1F00, 0x200) == Some(0x5F00)
            && ByteShifts(16, s, 0x1FFF, 0x4000) && ByteShifts(16, s, 0x2000, 0x7000)
            && !ByteShifts(16, s, 0x2000, 0x4000)
  {
    hide Laid;
    var s := Space(None, [Mapping(0x5000, 0x1000, 0x1000, true, true), Mapping(0x9000, 0x2000, 0x1000, true, true)]);
    assert Good(16, s);
    InsideShows(16, s, s.memory[0], 0x1FFF);
    InsideShows(16, s, s.memory[1], 0x2000);
  }

  /** The byte right after the stack is accepted for an empty range, and there the table disagrees. */
  lemma TranslatePastStack(n: nat)
    requires n > 4
    ensures var s := Space(Some(Mapping(0x3000, 0x1000, 0x1000, true, true)), []);
            && Good(n, s) && Translate(s, 0x2000, 0) == Some(0x4000)
            && Shown(Laid(n, s), 0x2000) == 0x2000
  {
    var s := Space(Some(Mapping(0x3000, 0x1000, 0x1000, true, true)), []);
    LaidShows(n, s, 2);
  }

  // ---------------------------------------------------------------- the memory calls

  /** `next_mem`: the end of the highest mapping, in whole pages. */
  function NextMem(ms: seq<Mapping>): (a: nat)
    ensures forall j :: 0 <= j < |ms| ==> ms[j].PageEnd() <= a
    ensures a == 0 || exists j :: 0 <= j < |ms| && ms[j].PageEnd() == a
  {
    if ms == [] then 0
    else
      var rest, end := ms[..|ms| - 1], ms[|ms| - 1].PageEnd();
      var a := NextMem(rest);
      assert forall j :: 0 <= j < |rest| ==> rest[j] == ms[j];
      if a < end then end else a
  }

  /** `get_mem`: the first mapping that begins at `ptr`, or the length of the list. */
  function Find(ms: seq<Mapping>, ptr: nat): (k: nat)
    ensures k <= |ms| && (k < |ms| ==> ms[k].virt == ptr)
    ensures forall j :: 0 <= j < k ==> ms[j].virt != ptr
  {
    if ms == [] || ms[0].virt == ptr then 0 else 1 + Find(ms[1..], ptr)
  }

  /** `clean_mem`: drop empty mappings. */
  function Clean(ms: seq<Mapping>): seq<Mapping> {
    if ms == [] then [] else (if ms[0].size > 0 then [ms[0]] else []) + Clean(ms[1..])
  }

  lemma {:induction false} CleanKeepsAll(ms: seq<Mapping>)
    requires forall j :: 0 <= j < |ms| ==> ms[j].size > 0
    ensures Clean(ms) == ms
  {
    if ms != [] {
      CleanKeepsAll(ms[1..]);
    }
  }

  lemma {:induction false} CleanDropsOne(ms: seq<Mapping>, k: nat)
    requires k < |ms| && ms[k].size == 0 && forall j :: 0 <= j < |ms| && j != k ==> ms[j].size > 0
    ensures Clean(ms) == Without(ms, k)
  {
    if k == 0 {
      CleanKeepsAll(ms[1..]);
    } else {
      CleanDropsOne(ms[1..], k - 1);
      assert Without(ms, k) == [ms[0]] + Without(ms[1..], k - 1);
    }
  }

  /** A mapping changed in place, dropped when it became empty. */
  function Resized(ms: seq<Mapping>, k: nat, m: Mapping): seq<Mapping>
    requires k < |ms|
  {
    Clean(ms[k := m])
  }

  /** A changed mapping fits: proper, below its successor, and clear of the stack. */
  predicate Fits(n: nat, s: Space, k: nat, m: Mapping)
    requires k <= |s.memory|
  {
    && m.Proper(n * PAGE_SIZE)
    && (k + 1 < |s.memory| ==> m.PageEnd() <= s.memory[k + 1].virt)
    && (s.stack.Some? ==> m.Apart(s.stack.value))
  }

  /** Growing a mapping keeps the space good exactly when it stops before whatever comes next. */
  lemma GoodIffFits(n: nat, s: Space, k: nat, m: Mapping)
    requires Good(n, s) && k < |s.memory| && m.virt == s.memory[k].virt && m.size > 0
    ensures Resized(s.memory, k, m) == s.memory[k := m]
    ensures Good(n, s.(memory := s.memory[k := m])) <==> Fits(n, s, k, m)
  {
    hide Clean;
    var ms := s.memory[k := m];
    CleanKeepsAll(ms);
    if Good(n, s.(memory := ms)) {
      assert ms[k] == m && (k + 1 < |ms| ==> ms[k + 1] == s.memory[k + 1]);
    }
    if Fits(n, s, k, m) {
      FitsAscends(n, s, k, m);
      assert forall j :: 0 <= j < |ms| ==> ms[j] == if j == k then m else s.memory[j];
    }
  }

  lemma FitsAscends(n: nat, s: Space, k: nat, m: Mapping)
    requires Good(n, s) && k < |s.memory| && m.virt == s.memory[k].virt && Fits(n, s, k, m)
    ensures Ascending(s.memory[k := m])
  {
    var ms := s.memory[k := m];
    forall i, j | 0 <= i < j < |ms|
      ensures ms[i].PageEnd() <= ms[j].virt
    {
      assert s.memory[i].PageEnd() <= s.memory[j].virt;
      if i == k && k + 1 < j {
        assert s.memory[k + 1].PageEnd() <= s.memory[j].virt;
        assert s.memory[k + 1].virt <= s.memory[k + 1].PageEnd();
      }
    }
  }

  lemma GoodWithout(n: nat, s: Space, k: nat, m: Mapping)
    requires Good(n, s) && k < |s.memory| && m.size == 0
    ensures Resized(s.memory, k, m) == Without(s.memory, k)
    ensures Good(n, s.(memory := Without(s.memory, k)))
  {
    hide Clean, Mapping.Proper, Mapping.Apart, Ascending;
    var ms := s.memory[k := m];
    AllSized(n, s);
    CleanDropsOne(ms, k);
    assert Without(ms, k) == Without(s.memory, k);
    AscendsWithout(s.memory, k);
    assert forall j :: 0 <= j < |s.memory| - 1 ==> Without(s.memory, k)[j] == s.memory[if j < k then j else j + 1];
  }

  lemma AllSized(n: nat, s: Space)
    requires Good(n, s)
    ensures forall j :: 0 <= j < |s.memory| ==> s.memory[j].size > 0
  {
  }

  lemma AscendsWithout(ms: seq<Mapping>, k: nat)
    requires Ascending(ms) && k < |ms|
    ensures Ascending(Without(ms, k))
  {
    hide Mapping.PageEnd;
    assert forall j :: 0 <= j < |ms| - 1 ==> Without(ms, k)[j] == ms[if j < k then j else j + 1];
  }

  /** A new mapping goes after all others. */
  lemma GoodIffAppended(n: nat, s: Space, m: Mapping)
    requires Good(n, s) && m.virt == NextMem(s.memory)
    ensures Good(n, s.(memory := s.memory + [m])) <==>
              m.Proper(n * PAGE_SIZE) && (s.stack.Some? ==> m.Apart(s.stack.value))
  {
    hide NextMem, Mapping.Proper, Mapping.Apart, Ascending;
    var ms := s.memory + [m];
    assert ms[|s.memory|] == m;
    assert forall j :: 0 <= j < |s.memory| ==> ms[j] == s.memory[j];
    AscendsAppended(s.memory, m);
  }

  lemma AscendsAppended(ms: seq<Mapping>, m: Mapping)
    requires Ascending(ms) && m.virt == NextMem(ms)
    ensures Ascending(ms + [m])
  {
    hide NextMem, Mapping.PageEnd;
    var now := ms + [m];
    forall i, j | 0 <= i < j < |now|
      ensures now[i].PageEnd() <= now[j].virt
    {
      assert now[i] == ms[i];
    }
  }

  /** The table after one mapping was unmapped, changed and mapped again. */
  function Patched(t: seq<Entry>, was: Mapping, now: Mapping): (u: seq<Entry>)
    ensures |u| == |t|
  {
    MapOn(UnmapOn(t, was), now)
  }

  lemma PatchLays(n: nat, s: Space, k: nat, m: Mapping)
    requires Good(n, s) && k < |s.memory| && m.virt == s.memory[k].virt && m.size > 0 && Fits(n, s, k, m)
    ensures Patched(Laid(n, s), s.memory[k], m) == Laid(n, s.(memory := s.memory[k := m]))
  {
    hide Laid, Fits, Resized, Mapping.Proper, Mapping.EntryAt;
    GoodIffFits(n, s, k, m);
    var r := s.(memory := s.memory[k := m]);
    forall p | 0 <= p < n
      ensures Patched(Laid(n, s), s.memory[k], m)[p] == Laid(n, r)[p]
    {
      OneShows(n, s, k, p);
      OneShows(n, r, k, p);
      SameBeside(n, s, k, m, p);
    }
  }

  /** Page `p` shows mapping `k` if that has it, and otherwise what the rest of the space shows. */
  lemma OneShows(n: nat, s: Space, k: nat, p: nat)
    requires Good(n, s) && k < |s.memory| && p < n
    ensures s.memory[k].HasPage(p) ==> Laid(n, s)[p] == s.memory[k].EntryAt(p)
  {
    hide Laid;
    LaidShows(n, s, p);
  }

  lemma SameBeside(n: nat, s: Space, k: nat, m: Mapping, p: nat)
    requires Good(n, s) && k < |s.memory| && p < n && Good(n, s.(memory := s.memory[k := m]))
    ensures !m.HasPage(p) && !s.memory[k].HasPage(p) ==> Laid(n, s)[p] == Laid(n, s.(memory := s.memory[k := m]))[p]
    ensures !m.HasPage(p) && s.memory[k].HasPage(p) ==> Laid(n, s.(memory := s.memory[k := m]))[p] == Identity(p)
  {
    hide Laid, Mapping.HasPage, Mapping.EntryAt, Mapping.Proper, Mapping.Apart;
    var r := s.(memory := s.memory[k := m]);
    LaidShows(n, s, p);
    LaidShows(n, r, p);
    if !m.HasPage(p) {
      if j :| 0 <= j < |s.memory| && j != k && s.memory[j].HasPage(p) {
        assert r.memory[j] == s.memory[j];
        if s.memory[k].HasPage(p) {
          AscendingApart(s.memory, j, k);
          ApartNoPage(s.memory[j], s.memory[k], n, p);
        }
      } else if s.stack.Some? && s.stack.value.HasPage(p) {
        if s.memory[k].HasPage(p) {
          ApartNoPage(s.memory[k], s.stack.value, n, p);
        }
      } else {
        forall x | x in r.All()
          ensures !x.HasPage(p)
        {
          assert x == m || x in s.All();
        }
        if !s.memory[k].HasPage(p) {
          assert forall x :: x in s.All() ==> !x.HasPage(p);
        }
      }
    }
  }

  lemma DropLays(n: nat, s: Space, k: nat, m: Mapping)
    requires Good(n, s) && k < |s.memory| && m.size == 0
    ensures Patched(Laid(n, s), s.memory[k], m) == Laid(n, s.(memory := Without(s.memory, k)))
  {
    hide Laid, Mapping.EntryAt, Mapping.Proper;
    GoodWithout(n, s, k, m);
    var r := s.(memory := Without(s.memory, k));
    forall p | 0 <= p < n
      ensures Patched(Laid(n, s), s.memory[k], m)[p] == Laid(n, r)[p]
    {
      assert !m.HasPage(p);
      LaidShows(n, s, p);
      LaidShows(n, r, p);
      DropShows(n, s, k, p);
    }
  }

  /** What a page shows is decided by the members of the space alone. */
  lemma SameMembersShow(n: nat, s: Space, r: Space, p: nat)
    requires Good(n, s) && Good(n, r) && p < n
    requires forall m: Mapping :: m.HasPage(p) ==> (m in s.All() <==> m in r.All())
    ensures Laid(n, s)[p] == Laid(n, r)[p]
  {
    hide Laid, Mapping.HasPage, Mapping.EntryAt, Mapping.Proper, Mapping.Apart, Ascending;
    LaidShowsMember(n, s, p);
    LaidShowsMember(n, r, p);
  }

  lemma LaidShowsMember(n: nat, s: Space, p: nat)
    requires Good(n, s) && p < n
    ensures forall m :: m in s.All() && m.HasPage(p) ==> Laid(n, s)[p] == m.EntryAt(p)
    ensures (forall m :: m in s.All() ==> !m.HasPage(p)) ==> Laid(n, s)[p] == Identity(p)
  {
    hide Laid, Mapping.HasPage, Mapping.EntryAt, Mapping.Proper, Mapping.Apart, Ascending;
    LaidShows(n, s, p);
  }

  lemma WithoutMembers(n: nat, s: Space, k: nat, p: nat)
    requires Good(n, s) && k < |s.memory|
    ensures var r := s.(memory := Without(s.memory, k));
            && (forall m :: m in r.All() ==> m in s.All())
            && (forall m :: m in s.All() ==> m in r.All() || m == s.memory[k])
            && (forall m :: m in r.All() && m.HasPage(p) ==> !s.memory[k].HasPage(p))
  {
    hide Mapping.HasPage, Mapping.Proper, Mapping.Apart;
    var r := s.(memory := Without(s.memory, k));
    forall m | m in r.All() && m.HasPage(p)
      ensures !s.memory[k].HasPage(p)
    {
      if m in r.memory {
        var j :| 0 <= j < |r.memory| && r.memory[j] == m;
        var i := if j < k then j else j + 1;
        AscendingApart(s.memory, i, k);
        if s.memory[k].HasPage(p) {
          ApartNoPage(s.memory[i], s.memory[k], n, p);
        }
      } else if s.memory[k].HasPage(p) {
        ApartNoPage(s.memory[k], s.stack.value, n, p);
      }
    }
  }

  lemma DropShows(n: nat, s: Space, k: nat, p: nat)
    requires Good(n, s) && k < |s.memory| && p < n && Good(n, s.(memory := Without(s.memory, k)))
    ensures Laid(n, s.(memory := Without(s.memory, k)))[p]
            == if s.memory[k].HasPage(p) then Identity(p) else Laid(n, s)[p]
  {
    hide Laid, Mapping.HasPage, Mapping.EntryAt, Mapping.Proper, Mapping.Apart, Good, Without;
    var r := s.(memory := Without(s.memory, k));
    WithoutMembers(n, s, k, p);
    if s.memory[k].HasPage(p) {
      LaidShowsMember(n, r, p);
    } else {
      SameMembersShow(n, s, r, p);
    }
  }

  lemma AppendLays(n: nat, s: Space, m: Mapping)
    ensures MapOn(Laid(n, s), m) == Laid(n, s.(memory := s.memory + [m]))
  {
    MapAllAppend(if s.stack.Some? then MapOn(IdentityTable(n), s.stack.value) else IdentityTable(n), s.memory, m);
  }
}
