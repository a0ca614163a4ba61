/** Schemes served by programs (kernel/fs/scheme.rs).

    A client's call lends the server a buffer: a window onto it is pushed after the server's own
    mappings, a packet naming the window's address goes into a queue, and when the answer for the
    packet's id is there the window is taken away again.  Calls of several clients overlap freely. */
module SchemeRpc {
  import opened Common
  import opened AddressSpace

  datatype Packet = Packet(id: nat, a: nat, b: nat, c: nat, d: nat)

  /** What a client lends: a buffer wherever it is, or a path kept in its own pages. */
  datatype Lend = Buffer(phys: nat, len: nat) | Text(phys: nat, len: nat)
  {
    function Offset(): nat { if Buffer? then phys % PAGE_SIZE else 0 }

    function Window(virt: nat): Mapping {
      match this
      case Buffer(_, _) => Mapping(phys - Offset(), virt, (len + Offset() + 4095) / 4096 * 4096, true, false)
      case Text(_, _) => Mapping(phys, virt, len, false, false)
    }

    /** The packet that names the window: calls with a buffer give the file, the address and the length,
        calls with a path give the address and their flags. */
    function Request(id: nat, op: nat, arg: nat, virt: nat): Packet {
      match this
      case Buffer(_, _) => Packet(id, op, arg, virt + Offset(), len)
      case Text(_, _) => Packet(id, op, virt, arg, 0)
    }

    /** A path is on the kernel's heap, which hands out whole clusters. */
    predicate Proper() { Text? ==> phys % PAGE_SIZE == 0 }
  }

  /** A client waiting for the answer to its packet; `lend` is what it lent, at `virt`. */
  datatype Call = Call(packet: Packet, lend: Option<Lend>, virt: nat)
  {
    function Window(): Mapping
      requires lend.Some?
    {
      lend.value.Window(virt)
    }

    /** Where the packet tells the server to look. */
    function Address(): nat
      requires lend.Some?
    {
      if lend.value.Buffer? then packet.c else packet.b
    }
  }

  /** `taken` are the ids the server has read and not answered yet. */
  datatype Scheme = Scheme(n: nat, server: Space, next: nat, todo: seq<Packet>, taken: set<nat>,
                           done: map<nat, Packet>, calls: map<nat, Call>)
  {
    function Memory(): seq<Mapping> { server.memory }

    function WithMemory(ms: seq<Mapping>): Scheme { this.(server := server.(memory := ms)) }
  }

  // ---------------------------------------------------------------- the steps

  /** `SchemeInner::call` up to where it waits; the packet has the next id. */
  function Sent(s: Scheme, p: Packet, lend: Option<Lend>, virt: nat): Scheme {
    s.(next := s.next + 1, todo := s.todo + [p], calls := s.calls[p.id := Call(p, lend, virt)])
  }

  /** A client begins `read`, `write`, `path` or `open`: push the window, then call.  A window at
      address 0 is taken for a failure, and stays. */
  function Begin(s: Scheme, op: nat, arg: nat, lend: Lend): Scheme {
    var virt := NextMem(s.Memory());
    var lent := s.WithMemory(s.Memory() + [lend.Window(virt)]);
    if virt > 0 then Sent(lent, lend.Request(s.next, op, arg, virt), Some(lend), virt) else lent
  }

  /** `get_mem_mut`, the size set to zero, `clean_mem`. */
  function TakenAway(ms: seq<Mapping>, virt: nat): seq<Mapping> {
    var k := Find(ms, virt);
    Clean(if k < |ms| then ms[k := ms[k].(size := 0)] else ms)
  }

  /** The client of `id` collects its answer. */
  function End(s: Scheme, id: nat): Scheme
    requires id in s.calls && id in s.done
  {
    var c := s.calls[id];
    var z := s.(done := s.done - {id}, calls := s.calls - {id});
    if c.lend.Some? then z.WithMemory(TakenAway(s.Memory(), c.virt)) else z
  }

  function Ids(ps: seq<Packet>): set<nat> { set k | 0 <= k < |ps| :: ps[k].id }

  /** The server reads packets from the front of the queue. */
  function ServerRead(s: Scheme, count: nat): Scheme
    requires count <= |s.todo|
  {
    s.(todo := s.todo[count..], taken := s.taken + Ids(s.todo[..count]))
  }

  /** The server writes one answer. */
  function ServerWrite(s: Scheme, p: Packet): Scheme {
    s.(done := s.done[p.id := p], taken := s.taken - {p.id})
  }

  // ---------------------------------------------------------------- windows

  predicate IsWindow(s: Scheme, m: Mapping) {
    exists id :: id in s.calls && s.calls[id].lend.Some? && s.calls[id].virt == m.virt
  }

  /** The server's memory without what was lent to it. */
  function Base(s: Scheme): seq<Mapping> {
    Filtered(s, s.Memory())
  }

  function Filtered(s: Scheme, ms: seq<Mapping>): seq<Mapping> {
    if ms == [] then [] else (if IsWindow(s, ms[0]) then [] else [ms[0]]) + Filtered(s, ms[1..])
  }

  /** Every waiting client's window is in place, each at an address of its own. */
  ghost predicate Lent(s: Scheme) {
    && Good(s.n, s.server)
    && (forall id :: id in s.calls ==> id < s.next && s.calls[id].packet.id == id)
    && (forall id :: id in s.calls && s.calls[id].lend.Some? ==> Placed(s, id))
    && (forall i, j :: i in s.calls && j in s.calls && SameWindow(s.calls[i], s.calls[j]) ==> i == j)
  }

  predicate SameWindow(c: Call, d: Call) { c.lend.Some? && d.lend.Some? && c.virt == d.virt }

  predicate Placed(s: Scheme, id: nat)
    requires id in s.calls && s.calls[id].lend.Some?
  {
    var c := s.calls[id];
    && c.lend.value.Proper() && c.virt > 0
    && c.packet == c.lend.value.Request(id, c.packet.a, if c.lend.value.Buffer? then c.packet.b else c.packet.c, c.virt)
    && c.Window() in s.Memory()
  }

  lemma BelowEnds(n: nat, s: Space, k: nat)
    requires Good(n, s) && k < |s.memory|
    ensures forall j :: 0 <= j < k ==> s.memory[j].virt < s.memory[j].virt + s.memory[j].size <= s.memory[k].virt
  {
  }

  /** In a good space the mapping at an address is the only one there. */
  lemma FindIs(n: nat, s: Space, k: nat)
    requires Good(n, s) && k < |s.memory|
    ensures Find(s.memory, s.memory[k].virt) == k
  {
    hide Good, Ascending;
    BelowEnds(n, s, k);
    FindAtMost(s.memory, k);
  }

  lemma {:induction false} FindAtMost(ms: seq<Mapping>, k: nat)
    requires k < |ms|
    ensures Find(ms, ms[k].virt) <= k
  {
    if k > 0 && ms[0].virt != ms[k].virt {
      FindAtMost(ms[1..], k - 1);
    }
  }

  // ---------------------------------------------------------------- what the server sees

  /** While a call waits, the server finds in its window, at the address the packet gave, exactly the
      lent bytes. */
  lemma WindowShows(s: Scheme, id: nat, j: nat)
    requires Lent(s) && id in s.calls && s.calls[id].lend.Some? && j < s.calls[id].lend.value.len
    ensures var c := s.calls[id];
            && Translate(s.server, c.Address() + j, 1) == Some(c.lend.value.phys + j)
            && ByteShifts(s.n, s.server, c.Address() + j, c.lend.value.phys - c.Address())
  {
    hide Good, ByteShifts, Translate, Lend.Window, Lend.Offset;
    var c := s.calls[id];
    assert Placed(s, id);
    var k :| 0 <= k < |s.Memory()| && s.Memory()[k] == c.Window();
    AddressIs(c, id);
    WindowHolds(c.lend.value, c.virt, j);
    MappingShown(s.n, s.server, k, c.Address() + j);
  }

  lemma AddressIs(c: Call, id: nat)
    requires c.lend.Some?
    requires c.packet
             == c.lend.value.Request(id, c.packet.a, if c.lend.value.Buffer? then c.packet.b else c.packet.c, c.virt)
    ensures c.Address() == c.virt + c.lend.value.Offset()
  {
  }

  lemma MappingShown(n: nat, s: Space, k: nat, a: nat)
    requires Good(n, s) && k < |s.memory| && s.memory[k].virt <= a < s.memory[k].virt + s.memory[k].size
    ensures Translate(s, a, 1) == Some(a - s.memory[k].virt + s.memory[k].phys)
    ensures ByteShifts(n, s, a, s.memory[k].phys - s.memory[k].virt)
  {
    hide Good, ByteShifts;
    HolderIs(n, s, k, a);
    InsideShows(n, s, s.memory[k], a);
  }

  lemma WindowHolds(l: Lend, virt: nat, j: nat)
    requires j < l.len
    ensures var m := l.Window(virt);
            && m.virt <= virt + l.Offset() + j < m.virt + m.size
            && virt + l.Offset() + j - m.virt + m.phys == l.phys + j
  {
  }

  /** Only one mapping of a good space has an address, and not if the stack has it. */
  lemma HolderIs(n: nat, s: Space, k: nat, a: nat)
    requires Good(n, s) && k < |s.memory| && s.memory[k].virt <= a < s.memory[k].virt + s.memory[k].size
    ensures Holder(s.memory, a) == k
    ensures s.stack.Some? ==> !(s.stack.value.virt <= a < s.stack.value.virt + s.stack.value.size)
  {
    HolderAtMost(s.memory, k, a);
    BelowEnds(n, s, k);
  }

  lemma {:induction false} HolderAtMost(ms: seq<Mapping>, k: nat, a: nat)
    requires k < |ms| && ms[k].virt <= a < ms[k].virt + ms[k].size
    ensures Holder(ms, a) <= k
  {
    if k > 0 && !(ms[0].virt <= a < ms[0].virt + ms[0].size) {
      HolderAtMost(ms[1..], k - 1, a);
    }
  }

  /** Server and client see the same physical byte at the client's address `a`. */
  predicate SeesSame(s: Scheme, address: nat, n: nat, client: Space, ptr: nat, a: nat) {
    && ptr <= a && a / PAGE_SIZE < n && (address + (a - ptr)) / PAGE_SIZE < s.n
    && Shown(Laid(s.n, s.server), address + (a - ptr)) == Shown(Laid(n, client), a)
  }

  /** While a call waits, server and client see the same byte throughout the buffer exactly when every
      page of the client's buffer leads as far as its start does. */
  lemma SameByte(s: Scheme, id: nat, n: nat, client: Space, ptr: nat, d: int)
    requires Lent(s) && id in s.calls && s.calls[id].lend.Some? && s.calls[id].lend.value.phys == ptr + d
    requires Good(n, client) && Answers(client, ptr, s.calls[id].lend.value.len, d)
    ensures var len, address := s.calls[id].lend.value.len, s.calls[id].Address();
            (forall a :: ptr <= a < ptr + len ==> SeesSame(s, address, n, client, ptr, a))
            <==> (forall p: nat :: Touches(ptr, len, p) ==> p < n && PageShifts(client, p, d))
  {
    hide Lent, Good, SeesSame, ByteShifts, PageShifts, Answers, Touches;
    var len, address := s.calls[id].lend.value.len, s.calls[id].Address();
    TranslateAgrees(n, client, ptr, len, d);
    forall a | ptr <= a < ptr + len
      ensures SeesSame(s, address, n, client, ptr, a) <==> ByteShifts(n, client, a, d)
    {
      WindowShows(s, id, a - ptr);
      SameIsShift(s, address, n, client, ptr, a, ptr + d);
    }
  }

  lemma SameIsShift(s: Scheme, address: nat, n: nat, client: Space, ptr: nat, a: nat, phys: nat)
    requires ptr <= a && ByteShifts(s.n, s.server, address + (a - ptr), phys - address)
    ensures SeesSame(s, address, n, client, ptr, a) <==> ByteShifts(n, client, a, phys - ptr)
  {
    hide Laid;
  }

  /** So it is for every buffer within one mapping. */
  lemma SameByteInside(s: Scheme, id: nat, n: nat, client: Space, ptr: nat, d: int)
    requires Lent(s) && id in s.calls && s.calls[id].lend.Some? && s.calls[id].lend.value.phys == ptr + d
    requires Good(n, client) && Answers(client, ptr, s.calls[id].lend.value.len, d)
    requires InOneMapping(client, ptr, s.calls[id].lend.value.len)
    ensures var len, address := s.calls[id].lend.value.len, s.calls[id].Address();
            forall a :: ptr <= a < ptr + len ==> SeesSame(s, address, n, client, ptr, a)
  {
    hide Lent, Good, SeesSame, ByteShifts, PageShifts, Answers, Touches;
    TranslateInside(n, client, ptr, s.calls[id].lend.value.len, d);
    TranslateAgrees(n, client, ptr, s.calls[id].lend.value.len, d);
    SameByte(s, id, n, client, ptr, d);
  }

  // ---------------------------------------------------------------- beginning and ending a call

  lemma {:induction false} FilterAppend(s: Scheme, ms: seq<Mapping>, m: Mapping)
    ensures Filtered(s, ms + [m]) == Filtered(s, ms) + if IsWindow(s, m) then [] else [m]
  {
    if ms == [] {
      assert (ms + [m])[1..] == [];
    } else {
      assert (ms + [m])[1..] == ms[1..] + [m];
      FilterAppend(s, ms[1..], m);
    }
  }

  lemma {:induction false} FilterSame(s: Scheme, z: Scheme, ms: seq<Mapping>)
    requires forall m :: m in ms ==> (IsWindow(s, m) <==> IsWindow(z, m))
    ensures Filtered(s, ms) == Filtered(z, ms)
  {
    if ms != [] {
      FilterSame(s, z, ms[1..]);
    }
  }

  lemma {:induction false} FilterWithout(s: Scheme, ms: seq<Mapping>, k: nat)
    requires k < |ms| && IsWindow(s, ms[k])
    ensures Filtered(s, Without(ms, k)) == Filtered(s, ms)
  {
    if k == 0 {
      assert Without(ms, 0) == ms[1..];
    } else {
      assert Without(ms, k)[1..] == Without(ms[1..], k - 1);
      FilterWithout(s, ms[1..], k - 1);
    }
  }

  /** There is room for the window, it is not empty, and the server has memory of its own. */
  predicate Fitting(s: Scheme, lend: Lend) {
    var m := lend.Window(NextMem(s.Memory()));
    && NextMem(s.Memory()) > 0
    && lend.len + lend.Offset() > 0
    && m.PageEnd() <= s.n * PAGE_SIZE
    && (s.server.stack.Some? ==> m.Apart(s.server.stack.value))
  }

  lemma AlignedNext(n: nat, s: Space)
    requires Good(n, s)
    ensures NextMem(s.memory) % PAGE_SIZE == 0
    ensures forall m :: m in s.memory ==> m.virt < NextMem(s.memory)
  {
    hide NextMem, Mapping.Apart, Ascending, Mapping.PageEnd, Mapping.Pages;
    var a := NextMem(s.memory);
    if a != 0 {
      var j :| 0 <= j < |s.memory| && s.memory[j].PageEnd() == a;
      EndOfPages(s.memory[j]);
    }
    forall m | m in s.memory
      ensures m.virt < a
    {
      EndOfPages(m);
    }
  }

  lemma EndOfPages(m: Mapping)
    requires m.virt % PAGE_SIZE == 0 && m.size > 0
    ensures m.PageEnd() % PAGE_SIZE == 0 && m.virt < m.PageEnd()
  {
  }

  lemma WindowProper(s: Scheme, lend: Lend)
    requires Good(s.n, s.server) && lend.Proper()
    ensures var m := lend.Window(NextMem(s.Memory()));
            m.Proper(s.n * PAGE_SIZE) <==> lend.len + lend.Offset() > 0 && m.PageEnd() <= s.n * PAGE_SIZE
  {
    hide Good, NextMem, Mapping.PageEnd;
    AlignedNext(s.n, s.server);
  }

  /** A call begins well exactly when its window fits: then it is in place, the earlier windows stay,
      and the server's own memory is as before. */
  lemma BeginKeeps(s: Scheme, op: nat, arg: nat, lend: Lend)
    requires Lent(s) && lend.Proper()
    ensures var z := Begin(s, op, arg, lend);
            Lent(z) && Base(z) == Base(s) <==> Fitting(s, lend)
  {
    hide Good, NextMem, Mapping.Proper, Mapping.Apart, Mapping.PageEnd, Filtered, Lend.Window;
    var z, virt := Begin(s, op, arg, lend), NextMem(s.Memory());
    var m := lend.Window(virt);
    WindowProper(s, lend);
    AlignedNext(s.n, s.server);
    WindowAt(lend, virt);
    GoodIffAppended(s.n, s.server, m);
    FilterAppend(z, s.Memory(), m);
    if virt > 0 {
      assert z.calls[s.next].virt == virt;
      forall x | x in s.Memory()
        ensures IsWindow(s, x) <==> IsWindow(z, x)
      {
        if id :| id in s.calls && s.calls[id].lend.Some? && s.calls[id].virt == x.virt {
          assert z.calls[id] == s.calls[id];
        }
      }
      FilterSame(s, z, s.Memory());
      if Fitting(s, lend) {
        BeginPlaces(s, op, arg, lend);
      }
    } else {
      FilterSame(s, z, s.Memory());
      assert !IsWindow(z, m);
    }
  }

  lemma WindowAt(lend: Lend, virt: nat)
    ensures lend.Window(virt).virt == virt && !lend.Window(virt).owned
  {
  }

  lemma BeginPlaces(s: Scheme, op: nat, arg: nat, lend: Lend)
    requires Lent(s) && lend.Proper() && NextMem(s.Memory()) > 0
    requires Good(s.n, Begin(s, op, arg, lend).server)
    ensures Lent(Begin(s, op, arg, lend))
  {
    hide Good, NextMem, Lend.Window;
    var z := Begin(s, op, arg, lend);
    AlignedNext(s.n, s.server);
    forall id | id in z.calls && z.calls[id].lend.Some?
      ensures Placed(z, id)
    {
      if id != s.next {
        assert Placed(s, id);
      }
    }
    forall i | i in s.calls && s.calls[i].lend.Some?
      ensures s.calls[i].virt < NextMem(s.Memory())
    {
      assert Placed(s, i);
      WindowAt(s.calls[i].lend.value, s.calls[i].virt);
    }
  }

  lemma TakesOne(n: nat, sp: Space, k: nat)
    requires Good(n, sp) && k < |sp.memory|
    ensures TakenAway(sp.memory, sp.memory[k].virt) == Without(sp.memory, k)
    ensures Good(n, sp.(memory := Without(sp.memory, k)))
    ensures forall m :: m in sp.memory ==>
              m == sp.memory[k] || (m in Without(sp.memory, k) && m.virt != sp.memory[k].virt)
    ensures forall m :: m in Without(sp.memory, k) ==> m in sp.memory && m.virt != sp.memory[k].virt
  {
    hide Good, Clean, Find;
    FindIs(n, sp, k);
    GoodWithout(n, sp, k, sp.memory[k].(size := 0));
    var ms := sp.memory;
    forall j | 0 <= j < |ms| && j != k
      ensures ms[j].virt != ms[k].virt && ms[j] in Without(ms, k)
    {
      FindIs(n, sp, j);
      assert ms[j] == Without(ms, k)[if j < k then j else j - 1];
    }
    forall m | m in Without(ms, k)
      ensures m in ms && m.virt != ms[k].virt
    {
      var j :| 0 <= j < |ms| - 1 && Without(ms, k)[j] == m;
      assert m == ms[if j < k then j else j + 1];
    }
  }

  /** A call that ends takes away its own window and nothing else. */
  lemma EndKeeps(s: Scheme, id: nat)
    requires Lent(s) && id in s.calls && id in s.done
    ensures Lent(End(s, id)) && Base(End(s, id)) == Base(s)
    ensures if s.calls[id].lend.Some? then
              exists k :: 0 <= k < |s.Memory()| && s.Memory()[k] == s.calls[id].Window()
                && End(s, id).Memory() == Without(s.Memory(), k)
            else End(s, id).Memory() == s.Memory()
  {
    hide Good, Filtered, TakenAway, Without, Lend.Window;
    var z, c := End(s, id), s.calls[id];
    if c.lend.Some? {
      assert Placed(s, id);
      WindowAt(c.lend.value, c.virt);
      var k :| 0 <= k < |s.Memory()| && s.Memory()[k] == c.Window();
      TakesOne(s.n, s.server, k);
      EndPlaces(s, id, k);
      EndWindows(s, id, k);
      FilterWithout(s, s.Memory(), k);
      FilterSame(s, z, Without(s.Memory(), k));
      assert z.Memory() == Without(s.Memory(), k);
    } else {
      forall i | i in z.calls && z.calls[i].lend.Some?
        ensures Placed(z, i)
      {
        assert Placed(s, i);
      }
      assert forall i :: i in s.calls && s.calls[i].lend.Some? ==> i in z.calls && z.calls[i] == s.calls[i];
      FilterSame(s, z, s.Memory());
    }
  }

  lemma EndPlaces(s: Scheme, id: nat, k: nat)
    requires Lent(s) && id in s.calls && id in s.done && s.calls[id].lend.Some?
    requires k < |s.Memory()| && s.Memory()[k] == s.calls[id].Window()
    ensures Lent(End(s, id))
  {
    hide Good, Filtered, TakenAway, Without, Lend.Window;
    var z, c := End(s, id), s.calls[id];
    WindowAt(c.lend.value, c.virt);
    TakesOne(s.n, s.server, k);
    forall i | i in z.calls && z.calls[i].lend.Some?
      ensures Placed(z, i)
    {
      assert Placed(s, i) && !SameWindow(s.calls[i], c);
      WindowAt(s.calls[i].lend.value, s.calls[i].virt);
    }
  }

  /** Nothing else stops being a window. */
  lemma EndWindows(s: Scheme, id: nat, k: nat)
    requires Lent(s) && id in s.calls && id in s.done && s.calls[id].lend.Some?
    requires k < |s.Memory()| && s.Memory()[k] == s.calls[id].Window()
    ensures IsWindow(s, s.Memory()[k])
    ensures forall m :: m in Without(s.Memory(), k) ==> (IsWindow(s, m) <==> IsWindow(End(s, id), m))
  {
    hide Good, Filtered, TakenAway, Without, Lend.Window;
    var z, c := End(s, id), s.calls[id];
    WindowAt(c.lend.value, c.virt);
    TakesOne(s.n, s.server, k);
    forall m | m in Without(s.Memory(), k) && IsWindow(s, m)
      ensures IsWindow(z, m)
    {
      var i :| i in s.calls && s.calls[i].lend.Some? && s.calls[i].virt == m.virt;
      assert i != id && z.calls[i] == s.calls[i];
    }
  }

  // ---------------------------------------------------------------- the server's own memory calls

  /** The server allocates: a mapping after all others, windows included. */
  function OwnAlloc(s: Scheme, phys: nat, size: nat): Scheme {
    s.WithMemory(s.Memory() + [Mapping(phys, NextMem(s.Memory()), size, true, true)])
  }

  /** The server changes or frees a mapping. */
  function OwnChange(s: Scheme, k: nat, m: Mapping): Scheme
    requires k < |s.Memory()|
  {
    s.WithMemory(Resized(s.Memory(), k, m))
  }

  lemma OwnAllocKeeps(s: Scheme, phys: nat, size: nat)
    requires Lent(s) && Good(s.n, OwnAlloc(s, phys, size).server)
    ensures Lent(OwnAlloc(s, phys, size))
  {
    hide Good, NextMem, Lend.Window;
    var z := OwnAlloc(s, phys, size);
    forall id | id in z.calls && z.calls[id].lend.Some?
      ensures Placed(z, id)
    {
      assert Placed(s, id);
    }
  }

  /** Windows survive whatever the server does to its own mappings, if it still fits. */
  lemma OwnChangeKeeps(s: Scheme, k: nat, m: Mapping)
    requires Lent(s) && k < |s.Memory()| && !IsWindow(s, s.Memory()[k]) && m.virt == s.Memory()[k].virt
    requires m.size > 0 ==> Fits(s.n, s.server, k, m)
    ensures Lent(OwnChange(s, k, m))
  {
    hide Good, Fits, Resized, Lend.Window;
    var z, ms := OwnChange(s, k, m), s.Memory();
    if m.size > 0 {
      GoodIffFits(s.n, s.server, k, m);
    } else {
      GoodWithout(s.n, s.server, k, m);
      TakesOne(s.n, s.server, k);
    }
    forall id | id in z.calls && z.calls[id].lend.Some?
      ensures Placed(z, id)
    {
      var w := s.calls[id].Window();
      WindowAt(s.calls[id].lend.value, s.calls[id].virt);
      assert Placed(s, id);
      var j :| 0 <= j < |ms| && ms[j] == w;
      assert j != k;
      assert m.size > 0 ==> z.Memory()[j] == w;
    }
  }

  // ---------------------------------------------------------------- packets and answers

  predicate Distinct(ps: seq<Packet>) {
    forall i, j :: 0 <= i < j < |ps| ==> ps[i].id != ps[j].id
  }

  /** Every waiting call is in exactly one place: its packet queued, read by the server, or answered. */
  ghost predicate Orderly(s: Scheme) {
    && Distinct(s.todo)
    && (forall k :: 0 <= k < |s.todo| ==> s.todo[k].id in s.calls && s.calls[s.todo[k].id].packet == s.todo[k])
    && Ids(s.todo) !! s.taken && Ids(s.todo) !! s.done.Keys && s.taken !! s.done.Keys
    && Ids(s.todo) + s.taken + s.done.Keys == s.calls.Keys
    && forall id :: id in s.done ==> s.done[id].id == id
  }

  lemma SentOrderly(s: Scheme, p: Packet, lend: Option<Lend>, virt: nat)
    requires Orderly(s) && p.id == s.next && forall id :: id in s.calls ==> id < s.next && s.calls[id].packet.id == id
    ensures Orderly(Sent(s, p, lend, virt))
  {
    var z := Sent(s, p, lend, virt);
    assert Ids(z.todo) == Ids(s.todo) + {s.next} by {
      assert z.todo[|s.todo|].id == s.next;
      assert forall k :: 0 <= k < |s.todo| ==> z.todo[k] == s.todo[k];
    }
    assert forall k :: 0 <= k < |s.todo| ==> s.todo[k].id in Ids(s.todo);
  }

  lemma IdsSplit(ps: seq<Packet>, count: nat)
    requires count <= |ps|
    ensures Ids(ps) == Ids(ps[..count]) + Ids(ps[count..])
  {
    var head, tail := ps[..count], ps[count..];
    assert forall k :: 0 <= k < |head| ==> ps[k] == head[k];
    assert forall k :: 0 <= k < |tail| ==> ps[count + k] == tail[k];
    assert forall k :: 0 <= k < |ps| ==> ps[k].id == (if k < count then head[k] else tail[k - count]).id;
  }

  lemma DistinctSplit(ps: seq<Packet>, count: nat)
    requires Distinct(ps) && count <= |ps|
    ensures Distinct(ps[count..]) && Ids(ps[..count]) !! Ids(ps[count..])
  {
    var head, tail := ps[..count], ps[count..];
    forall i, j | 0 <= i < |head| && 0 <= j < |tail|
      ensures head[i].id != tail[j].id
    {
      assert ps[i].id != ps[count + j].id;
    }
  }

  lemma ReadOrderly(s: Scheme, count: nat)
    requires Orderly(s) && count <= |s.todo|
    ensures Orderly(ServerRead(s, count))
  {
    hide Ids, Distinct;
    IdsSplit(s.todo, count);
    DistinctSplit(s.todo, count);
  }

  /** The server keeps the exchange in order exactly as long as it answers what it has read. */
  lemma WriteOrderly(s: Scheme, p: Packet)
    requires Orderly(s)
    ensures Orderly(ServerWrite(s, p)) <==> p.id in s.taken || (p.id in s.done)
  {
    var z := ServerWrite(s, p);
    assert z.done.Keys == s.done.Keys + {p.id};
    if Orderly(z) {
      assert p.id in z.calls.Keys;
      assert p.id in Ids(s.todo) + s.taken + s.done.Keys;
    }
  }

  lemma EndOrderly(s: Scheme, id: nat)
    requires Orderly(s) && id in s.calls && id in s.done
    ensures Orderly(End(s, id))
  {
    hide TakenAway;
    var z := End(s, id);
    assert z.calls.Keys == s.calls.Keys - {id} && z.done.Keys == s.done.Keys - {id};
    assert forall k :: 0 <= k < |s.todo| ==> s.todo[k].id in Ids(s.todo);
  }

  // ---------------------------------------------------------------- runs

  datatype Op =
    | Lending(op: nat, arg: nat, lend: Lend)
    | Plain(a: nat, b: nat, c: nat, d: nat)
    | Ending(id: nat)
    | Reading(count: nat)
    | Writing(packet: Packet)
    | Allocating(phys: nat, size: nat)
    | Changing(k: nat, m: Mapping)

  ghost predicate Enabled(s: Scheme, op: Op) {
    match op
    case Lending(_, _, lend) => lend.Proper() && Fitting(s, lend)
    case Plain(_, _, _, _) => true
    case Ending(id) => id in s.calls && id in s.done
    case Reading(count) => count <= |s.todo|
    case Writing(p) => p.id in s.taken
    case Allocating(phys, size) => Good(s.n, OwnAlloc(s, phys, size).server)
    case Changing(k, m) =>
      && k < |s.Memory()| && !IsWindow(s, s.Memory()[k]) && m.virt == s.Memory()[k].virt
      && (m.size > 0 ==> Fits(s.n, s.server, k, m))
  }

  ghost function Apply(s: Scheme, op: Op): Scheme
    requires Enabled(s, op)
  {
    match op
    case Lending(op, arg, lend) => Begin(s, op, arg, lend)
    case Plain(a, b, c, d) => Sent(s, Packet(s.next, a, b, c, d), None, 0)
    case Ending(id) => End(s, id)
    case Reading(count) => ServerRead(s, count)
    case Writing(p) => ServerWrite(s, p)
    case Allocating(phys, size) => OwnAlloc(s, phys, size)
    case Changing(k, m) => OwnChange(s, k, m)
  }

  lemma SameCallsLent(s: Scheme, z: Scheme)
    requires Lent(s) && z.server == s.server && z.n == s.n && z.calls == s.calls && z.next == s.next
    ensures Lent(z) && Base(z) == Base(s)
  {
    hide Good, Filtered;
    forall id | id in z.calls && z.calls[id].lend.Some?
      ensures Placed(z, id)
    {
      assert Placed(s, id);
    }
    FilterSame(s, z, s.Memory());
  }

  lemma PlainKeeps(s: Scheme, p: Packet)
    requires Lent(s) && p.id == s.next
    ensures Lent(Sent(s, p, None, 0)) && Base(Sent(s, p, None, 0)) == Base(s)
  {
    hide Good, Filtered;
    var z := Sent(s, p, None, 0);
    assert forall id :: id in s.calls ==> z.calls[id] == s.calls[id];
    forall id | id in z.calls && z.calls[id].lend.Some?
      ensures Placed(z, id)
    {
      assert Placed(s, id);
    }
    FilterSame(s, z, s.Memory());
  }

  /** Every step keeps the windows and the exchange in order; only the server's own memory calls
      change what is its own. */
  lemma StepKeeps(s: Scheme, op: Op)
    requires Lent(s) && Orderly(s) && Enabled(s, op)
    ensures Lent(Apply(s, op)) && Orderly(Apply(s, op))
    ensures !op.Allocating? && !op.Changing? ==> Base(Apply(s, op)) == Base(s)
    ensures forall id :: id in s.done && op != Ending(id) ==>
              id in Apply(s, op).done && Apply(s, op).done[id] == s.done[id]
  {
    hide Good, Fits, Fitting, NextMem, Filtered, Lend.Window, Lend.Proper, TakenAway;
    match op
    case Lending(op, arg, lend) =>
      BeginKeeps(s, op, arg, lend);
      LendingOrderly(s, op, arg, lend);
    case Plain(a, b, c, d) =>
      PlainKeeps(s, Packet(s.next, a, b, c, d));
      SentOrderly(s, Packet(s.next, a, b, c, d), None, 0);
    case Ending(id) =>
      EndKeeps(s, id);
      EndOrderly(s, id);
    case Reading(count) =>
      ReadOrderly(s, count);
      SameCallsLent(s, ServerRead(s, count));
    case Writing(p) =>
      WriteOrderly(s, p);
      SameCallsLent(s, ServerWrite(s, p));
    case Allocating(phys, size) => OwnAllocKeeps(s, phys, size);
    case Changing(k, m) => OwnChangeKeeps(s, k, m);
  }

  lemma LendingOrderly(s: Scheme, op: nat, arg: nat, lend: Lend)
    requires Lent(s) && Orderly(s)
    ensures Orderly(Begin(s, op, arg, lend))
  {
    hide Good, NextMem, Lend.Window;
    var virt := NextMem(s.Memory());
    SentOrderly(s.WithMemory(s.Memory() + [lend.Window(virt)]), lend.Request(s.next, op, arg, virt), Some(lend), virt);
  }

  ghost predicate IsRun(states: seq<Scheme>, ops: seq<Op>) {
    && |states| == |ops| + 1
    && forall k :: 0 <= k < |ops| ==> Enabled(states[k], ops[k]) && states[k + 1] == Apply(states[k], ops[k])
  }

  predicate Clients(op: Op) { !op.Allocating? && !op.Changing? }

  /** Through any run of overlapping calls every waiting client's window is in place, and when the last
      call is over the server's memory is what it was before the first. */
  lemma {:induction false} RunKeeps(states: seq<Scheme>, ops: seq<Op>)
    requires IsRun(states, ops) && Lent(states[0]) && Orderly(states[0])
    ensures Lent(states[|ops|]) && Orderly(states[|ops|])
    ensures (forall k :: 0 <= k < |ops| ==> Clients(ops[k])) ==> Base(states[|ops|]) == Base(states[0])
    decreases |ops|
  {
    hide Enabled, Lent, Orderly, Base, Apply;
    if ops != [] {
      var n := |ops| - 1;
      RunKeeps(states[..n + 1], ops[..n]);
      StepKeeps(states[n], ops[n]);
    }
  }

  lemma {:induction false} NoWindowsNoFilter(s: Scheme, ms: seq<Mapping>)
    requires forall id :: id in s.calls ==> s.calls[id].lend.None?
    ensures Filtered(s, ms) == ms
  {
    if ms != [] {
      NoWindowsNoFilter(s, ms[1..]);
    }
  }

  lemma RunRestores(states: seq<Scheme>, ops: seq<Op>)
    requires IsRun(states, ops) && Lent(states[0]) && Orderly(states[0])
    requires forall k :: 0 <= k < |ops| ==> Clients(ops[k])
    requires states[0].calls == map[] && states[|ops|].calls == map[]
    ensures states[|ops|].Memory() == states[0].Memory()
  {
    hide Enabled, Lent, Orderly, Apply, Filtered;
    RunKeeps(states, ops);
    NoWindowsNoFilter(states[0], states[0].Memory());
    NoWindowsNoFilter(states[|ops|], states[|ops|].Memory());
  }

  // ---------------------------------------------------------------- where it goes wrong

  /** An empty buffer at a page boundary makes an empty window; the next client's window lies at the
      same address, and ending that client's call takes the wrong one: its window stays. */
  lemma EmptyWindowCollides()
    ensures exists s: Scheme, a: Lend, b: Lend ::
              && Lent(s) && a.Proper() && b.Proper() && Fitting(s, b) && s.calls == map[]
              && var t := Begin(Begin(s, 0, 0, a), 0, 0, b);
                 var w := t.(done := map[s.next + 1 := t.todo[1]]);
                 t.calls[s.next + 1].lend == Some(b) && t.calls[s.next + 1].Window() in End(w, s.next + 1).Memory()
  {
    var own := Mapping(0x5000, 0x1000, 0x1000, true, true);
    var s := Scheme(16, Space(None, [own]), 1, [], {}, map[], map[]);
    var a, b := Buffer(0x6000, 0), Buffer(0x7000, 5);
    assert Lent(s);
    var first, second := Mapping(0x6000, 0x2000, 0, true, false), Mapping(0x7000, 0x2000, 0x1000, true, false);
    var u := Begin(s, 0, 0, a);
    assert u.Memory() == [own, first];
    var t := Begin(u, 0, 0, b);
    assert t.Memory() == [own, first, second] && t.calls[2].Window() == second;
    var w := t.(done := map[2 := t.todo[1]]);
    FindThird(own, first, second);
    assert End(w, 2).Memory() == [own, second];
  }

  lemma FindThird(m: Mapping, e: Mapping, w: Mapping)
    requires m.virt == 0x1000 && m.size > 0 && e.virt == 0x2000 && w.virt == 0x2000 && e.size == 0 && w.size > 0
    ensures TakenAway([m, e, w], 0x2000) == [m, w]
  {
    var ms := [m, e, w];
    assert ms[1..] == [e, w];
    assert Find(ms, 0x2000) == 1;
    CleanDropsOne(ms, 1);
    assert ms[1 := e.(size := 0)] == ms;
  }

  /** A window for a server without memory is taken for a failure and stays behind, nobody's call. */
  lemma ZeroWindowStays()
    ensures exists s: Scheme, lend: Lend ::
              && Lent(s) && lend.Proper() && s.calls == map[]
              && var z := Begin(s, 0, 0, lend); z.calls == map[] && z.todo == s.todo && z.Memory() != s.Memory()
  {
    var s := Scheme(16, Space(None, []), 1, [], {}, map[], map[]);
    assert Lent(s);
    var z := Begin(s, 0, 0, Buffer(0x7000, 5));
    assert z.Memory() == [Buffer(0x7000, 5).Window(0)];
  }

  /** A buffer that begins in one mapping of the client and ends in the next: while the call waits, the
      server sees other bytes behind the boundary than the client does. */
  lemma SplitBufferDiffers()
    ensures exists s: Scheme, client: Space ::
              && Lent(s) && 1 in s.calls && s.calls[1].lend == Some(Buffer(0x5F00, 0x200))
              && Good(16, client) && Translate(client, 0x1F00, 0x200) == Some(0x5F00)
              && !SeesSame(s, s.calls[1].Address(), 16, client, 0x1F00, 0x2000)
  {
    hide Laid, Good;
    var a, b := Mapping(0x5000, 0x1000, 0x1000, true, true), Mapping(0x9000, 0x2000, 0x1000, true, true);
    var client := Space(None, [a, b]);
    TranslateSplit();
    var lend := Buffer(0x5F00, 0x200);
    var s := OneMapping();
    assert Lent(s) && Fitting(s, lend) by { OneMappingFits(lend); }
    var z := Begin(s, 0, 0, lend);
    BeginKeeps(s, 0, 0, lend);
    assert z.calls[1] == Call(lend.Request(1, 0, 0, NextMem(s.Memory())), Some(lend), NextMem(s.Memory()));
    WindowShows(z, 1, 0x100);
    SameIsShift(z, z.calls[1].Address(), 16, client, 0x1F00, 0x2000, 0x5F00);
  }

  /** A server with one page of its own. */
  function OneMapping(): Scheme {
    Scheme(16, Space(None, [Mapping(0x3000, 0x1000, 0x1000, true, true)]), 1, [], {}, map[], map[])
  }

  lemma OneMappingFits(lend: Lend)
    requires 0 < lend.len <= 0x2000
    ensures Lent(OneMapping()) && Fitting(OneMapping(), lend) && NextMem(OneMapping().Memory()) == 0x2000
  {
    var m := OneMapping().Memory()[0];
    assert OneMapping().Memory()[..0] == [];
    assert NextMem(OneMapping().Memory()) == m.PageEnd();
  }
}
