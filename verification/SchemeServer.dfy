/** The two ends of a user scheme as the kernel runs them (kernel/fs/scheme.rs, lines 42-65, 87-217,
    286-324 and 375-413). */
module SchemeServer {
  import opened Common
  import opened AddressSpace
  import opened SchemeRpc

  const PACKET_SIZE := 20

  /** The answers in a buffer the server writes, first to last. */
  function Written(s: Scheme, ps: seq<Packet>): Scheme
    decreases |ps|
  {
    if ps == [] then s else ServerWrite(Written(s, ps[..|ps| - 1]), ps[|ps| - 1])
  }

  /** How far a call got before it waits. */
  datatype Begun = Waiting(id: nat) | BadAddress | BadFile

  class SchemeInner {
    const n: nat
    const stack: Option<Mapping>
    var memory: seq<Mapping>
    var nextId: nat
    var todo: seq<Packet>
    ghost var taken: set<nat>
    var done: map<nat, Packet>
    var calls: map<nat, Call>

    ghost function State(): Scheme
      reads this
    {
      Scheme(n, Space(stack, memory), nextId, todo, taken, done, calls)
    }

    constructor (n: nat, stack: Option<Mapping>, memory: seq<Mapping>)
      ensures State() == Scheme(n, Space(stack, memory), 1, [], {}, map[], map[])
    {
      this.n, this.stack, this.memory := n, stack, memory;
      nextId, todo, taken, done, calls := 1, [], {}, map[], map[];
    }

    /** Queue a packet under the next id; the caller then waits for the answer to that. */
    method Send(packet: Packet, lend: Option<Lend>, virt: nat)
      requires packet.id == nextId
      modifies this
      ensures State() == Sent(old(State()), packet, lend, virt)
    {
      nextId := packet.id + 1;
      todo := todo + [packet];
      calls := calls[packet.id := Call(packet, lend, virt)];
    }

    /** The first half of `open`, and of the calls with a buffer once it is translated; `None` is the
        error after a window at 0. */
    method Lending(op: nat, arg: nat, lend: Lend) returns (id: Option<nat>)
      modifies this
      ensures State() == Begin(old(State()), op, arg, lend)
      ensures id == if NextMem(old(memory)) > 0 then Some(old(nextId)) else None
    {
      var virt := NextMem(memory);
      memory := memory + [lend.Window(virt)];
      if virt > 0 {
        id := Some(nextId);
        Send(lend.Request(nextId, op, arg, virt), Some(lend), virt);
        return;
      }
      return None;
    }

    /** The first half of `read`, `write` and `path`: a buffer that cannot be translated is refused. */
    method LendingBuffer(op: nat, file: nat, client: Space, ptr: nat, len: nat) returns (r: Begun)
      modifies this
      ensures match Translate(client, ptr, len)
              case None => r == BadAddress && State() == old(State())
              case Some(phys) =>
                && State() == Begin(old(State()), op, file, Buffer(phys, len))
                && r == if NextMem(old(memory)) > 0 then Waiting(old(nextId)) else BadFile
    {
      var phys := Translate(client, ptr, len);
      if phys.None? {
        return BadAddress;
      }
      var id := Lending(op, file, Buffer(phys.value, len));
      return if id.Some? then Waiting(id.value) else BadFile;
    }

    /** The second half: `None` means that the answer is not there yet and the caller waits on. */
    method Collect(id: nat) returns (answer: Option<Packet>)
      requires id in calls
      modifies this
      ensures answer == if id in old(done) then Some(old(done)[id]) else None
      ensures State() == if id in old(done) then End(old(State()), id) else old(State())
    {
      if id !in done {
        return None;
      }
      answer := Some(done[id]);
      done := done - {id};
      var call := calls[id];
      calls := calls - {id};
      if call.lend.Some? {
        var k := Find(memory, call.virt);
        if k < |memory| {
          memory := memory[k := memory[k].(size := 0)];
        }
        memory := Clean(memory);
      }
    }

    /** The server's `read` into `length` bytes: at least one packet, and as many as fit and are there.
        `None` is the error for a buffer that is too small. */
    method Read(length: nat) returns (packets: Option<seq<Packet>>)
      requires length >= PACKET_SIZE ==> |todo| > 0
      modifies this
      ensures packets.None? <==> length < PACKET_SIZE
      ensures packets.None? ==> State() == old(State())
      ensures packets.Some? ==>
                var count := |packets.value|;
                && count == (if length / PACKET_SIZE <= |old(todo)| then length / PACKET_SIZE else |old(todo)|)
                && packets.value == old(todo)[..count] && State() == ServerRead(old(State()), count)
    {
      if length < PACKET_SIZE {
        return None;
      }
      var got := [todo[0]];
      todo := todo[1..];
      var i := PACKET_SIZE;
      while i + PACKET_SIZE <= length && |todo| > 0
        invariant i == |got| * PACKET_SIZE <= length && 0 < |got| <= |old(todo)|
        invariant got == old(todo)[..|got|] && todo == old(todo)[|got|..]
        invariant unchanged(this`memory, this`nextId, this`taken, this`done, this`calls)
      {
        got := got + [todo[0]];
        todo := todo[1..];
        i := i + PACKET_SIZE;
      }
      taken := taken + Ids(got);
      return Some(got);
    }

    /** The server's `write` of a buffer that begins with `packets` and has less than a packet more. */
    method Write(packets: seq<Packet>, extra: nat) returns (written: Option<nat>)
      requires extra < PACKET_SIZE
      modifies this
      ensures written == if packets == [] then None else Some(|packets| * PACKET_SIZE)
      ensures State() == Written(old(State()), packets)
    {
      var length := |packets| * PACKET_SIZE + extra;
      if length < PACKET_SIZE {
        return None;
      }
      var i := 0;
      ghost var k := 0;
      while i <= length - PACKET_SIZE
        invariant 0 <= k <= |packets| && i == k * PACKET_SIZE
        invariant State() == Written(old(State()), packets[..k])
        decreases length - i
      {
        var packet := packets[i / PACKET_SIZE];
        assert packets[..k + 1][..k] == packets[..k];
        done := done[packet.id := packet];
        taken := taken - {packet.id};
        i := i + PACKET_SIZE;
        k := k + 1;
      }
      assert packets[..k] == packets;
      return Some(i);
    }
  }
}
