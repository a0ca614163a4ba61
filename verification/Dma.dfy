/** Disk transfers by DMA (kernel/disk/ide.rs, lines 419-531): cutting a transfer into chunks of at most
    65536 sectors, and each chunk's buffer into descriptors.

    The controller walks the descriptor table in order up to the first end mark; a size of 0 means
    64 KiB, and no descriptor may reach across a 64 KiB boundary (section 1.2 of the Programming
    Interface for Bus Master IDE Controller, revision 1.0). */
module Dma {

  const SECTOR := 512
  const TABLE := 512
  const FULL := 65536

  /** A physical region descriptor. */
  datatype Prd = Prd(addr: nat, size: nat, eot: bool)
  {
    function Bytes(): nat { if size == 0 then FULL else size }
  }

  /** One command to the disk; 0 sectors mean 65536. */
  datatype Chunk = Chunk(block: nat, sectors: nat, buf: nat)
  {
    function Sectors(): nat { if sectors == 0 then FULL else sectors }
  }

  // ---------------------------------------------------------------- what the controller does

  /** The table up to its first end mark. */
  function Active(table: seq<Prd>): seq<Prd> {
    if table == [] then [] else if table[0].eot then [table[0]] else [table[0]] + Active(table[1..])
  }

  function Total(table: seq<Prd>): nat {
    if table == [] then 0 else table[0].Bytes() + Total(table[1..])
  }

  /** Where the `k`-th byte of a transfer goes in memory. */
  function Address(table: seq<Prd>, k: nat): nat
    requires k < Total(table)
  {
    if k < table[0].Bytes() then table[0].addr + k else Address(table[1..], k - table[0].Bytes())
  }

  function ChunkBytes(c: Chunk): nat { c.Sectors() * SECTOR }

  function TotalBytes(chunks: seq<Chunk>): nat {
    if chunks == [] then 0 else ChunkBytes(chunks[0]) + TotalBytes(chunks[1..])
  }

  // ---------------------------------------------------------------- the descriptors of one chunk

  function Entries(sectors: nat): nat { if sectors == 0 then TABLE else sectors / 128 }

  function Remainder(sectors: nat): nat { sectors % 128 * SECTOR }

  /** The `i`-th descriptor. */
  function Descriptor(sectors: nat, buf: nat, i: nat): Prd {
    var entries, remainder := Entries(sectors), Remainder(sectors);
    if i < entries then Prd(buf + i * FULL, 0, i == entries - 1 && remainder == 0)
    else Prd(buf + i * FULL, remainder, true)
  }

  function Count(sectors: nat): nat { Entries(sectors) + if Remainder(sectors) > 0 then 1 else 0 }

  function Table(sectors: nat, buf: nat): (t: seq<Prd>)
    ensures |t| == Count(sectors)
  {
    seq(Count(sectors), i requires 0 <= i < Count(sectors) => Descriptor(sectors, buf, i))
  }

  /** At least one descriptor, never more than the table has room for, and the end mark on the last
      only. */
  lemma TableEnds(sectors: nat, buf: nat)
    requires sectors < FULL
    ensures 0 < Count(sectors) <= TABLE
    ensures forall i :: 0 <= i < Count(sectors) ==> (Table(sectors, buf)[i].eot <==> i == Count(sectors) - 1)
  {
  }

  lemma {:induction false} ActiveIs(t: seq<Prd>, rest: seq<Prd>)
    requires t != [] && forall i :: 0 <= i < |t| ==> (t[i].eot <==> i == |t| - 1)
    ensures Active(t + rest) == t
  {
    if |t| > 1 {
      assert (t + rest)[1..] == t[1..] + rest;
      ActiveIs(t[1..], rest);
    }
  }

  lemma {:induction false} FromDescriptor(sectors: nat, buf: nat, i: nat)
    requires sectors < FULL && i <= Count(sectors)
    ensures var bytes := Chunk(0, sectors, buf).Sectors() * SECTOR;
            Total(Table(sectors, buf)[i..]) == if i == Count(sectors) then 0 else bytes - i * FULL
    ensures forall k: nat :: k < Total(Table(sectors, buf)[i..]) ==>
              Address(Table(sectors, buf)[i..], k) == buf + i * FULL + k
    decreases Count(sectors) - i
  {
    hide Descriptor;
    var t := Table(sectors, buf);
    if i < Count(sectors) {
      FromDescriptor(sectors, buf, i + 1);
      assert t[i..][1..] == t[i + 1..] && t[i..][0] == t[i];
      DescriptorIs(sectors, buf, i);
    }
  }

  lemma DescriptorIs(sectors: nat, buf: nat, i: nat)
    requires sectors < FULL && i < Count(sectors)
    ensures var d, total := Descriptor(sectors, buf, i), Chunk(0, sectors, buf).Sectors() * SECTOR;
            && d.addr == buf + i * FULL
            && d.Bytes() == if i + 1 < Count(sectors) then FULL else total - i * FULL
  {
  }

  /** Whatever the rest of the table holds, a chunk's descriptors send each of its bytes to the matching
      byte of the buffer, in order. */
  lemma ChunkLands(c: Chunk, rest: seq<Prd>)
    requires c.sectors < FULL
    ensures var t := Active(Table(c.sectors, c.buf) + rest);
            && Total(t) == ChunkBytes(c)
            && forall k: nat :: k < Total(t) ==> Address(t, k) == c.buf + k
  {
    hide Table, Count, Descriptor, Active, Total, Address;
    var t := Table(c.sectors, c.buf);
    TableEnds(c.sectors, c.buf);
    ActiveIs(t, rest);
    FromDescriptor(c.sectors, c.buf, 0);
    assert t[0..] == t;
  }

  predicate Straddles(d: Prd) { d.addr / FULL != (d.addr + d.Bytes() - 1) / FULL }

  /** The descriptors keep the controller's boundary rule exactly when the buffer begins on a boundary
      or lies within one 64 KiB block. */
  lemma StraddlesIff(sectors: nat, buf: nat)
    requires sectors < FULL
    ensures (forall i :: 0 <= i < Count(sectors) ==> !Straddles(Table(sectors, buf)[i]))
            <==> buf % FULL == 0 || buf % FULL + Chunk(0, sectors, buf).Sectors() * SECTOR <= FULL
  {
    var t := Table(sectors, buf);
    var off := buf % FULL;
    TableEnds(sectors, buf);
    DescriptorIs(sectors, buf, 0);
    assert t[0] == Descriptor(sectors, buf, 0);
    forall i | 0 <= i < Count(sectors)
      ensures t[i].addr % FULL == off
    {
      DescriptorIs(sectors, buf, i);
    }
    forall i | 0 <= i < Count(sectors)
      ensures Straddles(t[i]) <==> off + t[i].Bytes() > FULL
    {
    }
    forall i | 0 <= i < Count(sectors)
      ensures t[i].Bytes() <= FULL
    {
      DescriptorIs(sectors, buf, i);
    }
  }

  /** A full 64 KiB descriptor for a buffer in the middle of a block crosses the boundary. */
  lemma StraddleInput()
    ensures exists i :: 0 <= i < Count(128) && Straddles(Table(128, 0x8000)[i])
  {
    StraddlesIff(128, 0x8000);
  }

  // ---------------------------------------------------------------- the chunks of a transfer

  function Chunks(block: nat, sectors: nat, buf: nat): seq<Chunk>
    decreases sectors
  {
    if sectors == 0 then []
    else if sectors >= FULL then [Chunk(block, 0, buf)] + Chunks(block + FULL, sectors - FULL, buf + FULL * SECTOR)
    else [Chunk(block, sectors, buf)]
  }

  /** A byte of a transfer: which disk byte moves to or from which memory byte. */
  datatype Move = Move(disk: nat, memory: nat)

  /** The `x`-th byte that a list of commands moves; `stale[k]` is what the table held behind the
      descriptors of command `k`. */
  function Moved(chunks: seq<Chunk>, stale: seq<seq<Prd>>, x: nat): Move
    requires x < TotalBytes(chunks) && |stale| == |chunks|
    requires forall i :: 0 <= i < |chunks| ==> chunks[i].sectors < FULL
  {
    var c := chunks[0];
    if x < ChunkBytes(c) then
      ChunkLands(c, stale[0]);
      Move(c.block * SECTOR + x, Address(Active(Table(c.sectors, c.buf) + stale[0]), x))
    else Moved(chunks[1..], stale[1..], x - ChunkBytes(c))
  }

  /** A whole transfer moves exactly the given disk range to or from exactly the given buffer, byte by
      byte and in order, whatever each command finds in the table. */
  lemma {:induction false} TransferIsExact(block: nat, sectors: nat, buf: nat, stale: seq<seq<Prd>>)
    requires |stale| == |Chunks(block, sectors, buf)|
    ensures forall i :: 0 <= i < |Chunks(block, sectors, buf)| ==> Chunks(block, sectors, buf)[i].sectors < FULL
    ensures TotalBytes(Chunks(block, sectors, buf)) == sectors * SECTOR
    ensures forall x: nat :: x < sectors * SECTOR ==>
              Moved(Chunks(block, sectors, buf), stale, x) == Move(block * SECTOR + x, buf + x)
    decreases sectors
  {
    hide Table, Active, Address, Total;
    if sectors > 0 {
      var cs := Chunks(block, sectors, buf);
      var c := cs[0];
      ChunkLands(c, stale[0]);
      if sectors >= FULL {
        assert cs[1..] == Chunks(block + FULL, sectors - FULL, buf + FULL * SECTOR);
        TransferIsExact(block + FULL, sectors - FULL, buf + FULL * SECTOR, stale[1..]);
      } else {
        assert cs[1..] == [];
      }
    }
  }

  lemma NextChunk(cs: seq<Chunk>, k: nat, block: nat, sectors: nat, buf: nat)
    requires k <= |cs| && cs[k..] == Chunks(block, sectors, buf) && sectors > 0
    ensures k < |cs| && cs[k] == Chunk(block, if sectors >= FULL then 0 else sectors, buf)
            && cs[..k + 1] == cs[..k] + [cs[k]]
    ensures cs[k + 1..] == if sectors >= FULL then Chunks(block + FULL, sectors - FULL, buf + FULL * SECTOR) else []
  {
    assert cs[k..][0] == cs[k] && cs[k..][1..] == cs[k + 1..];
  }

  // ---------------------------------------------------------------- the driver

  datatype Outcome = Done(bytes: nat) | Failed

  class Driver {
    /** The descriptor table, and the commands given to the disk so far. */
    const table: array<Prd>
    var issued: seq<Chunk>

    constructor (table: array<Prd>)
      requires table.Length == TABLE
      ensures this.table == table && issued == []
    {
      this.table := table;
      issued := [];
    }

    /** Write one chunk's descriptors into the table. */
    method Fill(sectors: nat, buf: nat)
      requires table.Length == TABLE && sectors < FULL
      modifies table
      ensures table[..] == Table(sectors, buf) + old(table[..])[Count(sectors)..]
    {
      TableEnds(sectors, buf);
      var entries := if sectors == 0 then 512 else sectors / 128;
      var remainder := sectors % 128 * 512;
      var offset := 0;
      for i := 0 to entries
        invariant offset == i * FULL
        invariant forall j :: 0 <= j < TABLE ==>
                    table[j] == if j < i then Descriptor(sectors, buf, j) else old(table[j])
      {
        table[i] := Prd(buf + offset, 0, i == entries - 1 && remainder == 0);
        offset := offset + 65536;
      }
      if remainder > 0 {
        table[entries] := Prd(buf + offset, remainder, true);
      }
    }

    /** `ata_dma_small`; whether the device reports an error is up to it. */
    method Small(block: nat, sectors: nat, buf: nat, fails: bool) returns (r: Outcome)
      requires table.Length == TABLE && sectors < FULL
      modifies this, table
      ensures buf == 0 ==> r == Failed && issued == old(issued) && table[..] == old(table[..])
      ensures buf > 0 ==> issued == old(issued) + [Chunk(block, sectors, buf)]
      ensures buf > 0 ==> Active(table[..]) == Table(sectors, buf)
      ensures buf > 0 ==> r == if fails then Failed else Done(sectors * SECTOR)
    {
      if buf == 0 {
        return Failed;
      }
      Fill(sectors, buf);
      TableEnds(sectors, buf);
      ActiveIs(Table(sectors, buf), old(table[..])[Count(sectors)..]);
      issued := issued + [Chunk(block, sectors, buf)];
      return if fails then Failed else Done(sectors * SECTOR);
    }

    /** The commands of the loop, each for 65536 sectors. */
    method SendFull(block: nat, sectors: nat, buf: nat, failing: nat) returns (sector: nat, k: nat, failed: bool)
      requires table.Length == TABLE && buf > 0
      modifies this, table
      ensures sector <= sectors < sector + FULL || failed
      ensures var cs := Chunks(block, sectors, buf);
              && k <= |cs| && k <= failing && (failed ==> k == failing < |cs|)
              && issued == old(issued) + cs[..if failed then k + 1 else k]
              && (!failed ==> cs[k..] == Chunks(block + sector, sectors - sector, buf + sector * SECTOR))
    {
      hide Table, Active, Chunks;
      sector, k, failed := 0, 0, false;
      ghost var cs := Chunks(block, sectors, buf);
      assert cs[0..] == cs;
      while sectors - sector >= 65536
        invariant 0 <= sector <= sectors && k <= |cs| && k <= failing
        invariant cs[k..] == Chunks(block + sector, sectors - sector, buf + sector * SECTOR)
        invariant issued == old(issued) + cs[..k]
      {
        NextChunk(cs, k, block + sector, sectors - sector, buf + sector * SECTOR);
        var step := Small(block + sector, 0, buf + sector * 512, k == failing);
        if step == Failed {
          failed := true;
          return;
        }
        k := k + 1;
        sector := sector + 65536;
      }
    }

    /** `ata_dma`: the device fails at command number `failing`, if there are that many. */
    method Transfer(block: nat, sectors: nat, buf: nat, failing: nat) returns (r: Outcome)
      requires table.Length == TABLE
      modifies this, table
      ensures buf == 0 || sectors == 0 ==> r == Failed && issued == old(issued)
      ensures buf > 0 && sectors > 0 ==>
                var cs := Chunks(block, sectors, buf);
                if failing < |cs| then r == Failed && issued == old(issued) + cs[..failing + 1]
                else r == Done(sectors * SECTOR) && issued == old(issued) + cs
    {
      if buf == 0 || sectors == 0 {
        return Failed;
      }
      hide Table, Active, Chunks;
      ghost var cs := Chunks(block, sectors, buf);
      var sector, k, failed := SendFull(block, sectors, buf, failing);
      if failed {
        return Failed;
      }
      if sector < sectors {
        NextChunk(cs, k, block + sector, sectors - sector, buf + sector * SECTOR);
        var step := Small(block + sector, sectors - sector, buf + sector * 512, k == failing);
        if step == Failed {
          return Failed;
        }
        k := k + 1;
      }
      assert |cs[k..]| == 0 && cs[..k] == cs;
      return Done(sectors * SECTOR);
    }
  }
}
