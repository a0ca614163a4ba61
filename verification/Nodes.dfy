/** File nodes and their sector on disk (kernel/fs/redoxfs/node.rs). */
module Nodes {
  import opened Common
  import opened Extents

  const NAME_SIZE := 256
  const EXTENT_COUNT := 16
  const WORD_LIMIT := 0x1_0000_0000_0000_0000

  datatype Node = Node(block: nat, name: Bytes, extents: seq<Extent>)

  // ---------------------------------------------------------------- the name

  /** The name in its field: cut off, or filled up with zeros. */
  function NameField(name: Bytes): (f: Bytes)
    ensures |f| == NAME_SIZE
    ensures forall i :: 0 <= i < NAME_SIZE ==> f[i] == if i < |name| then name[i] else 0
  {
    seq(NAME_SIZE, i requires 0 <= i < NAME_SIZE => if i < |name| then name[i] else 0)
  }

  /** The field up to its first zero. */
  function FieldName(f: Bytes): (name: Bytes)
    ensures |name| <= |f| && name == f[..|name|]
    ensures forall i :: 0 <= i < |name| ==> f[i] != 0
    ensures |name| < |f| ==> f[|name|] == 0
  {
    if f == [] || f[0] == 0 then [] else [f[0]] + FieldName(f[1..])
  }

  /** `Node::data`'s loop. */
  method Data(name: Bytes) returns (field: array<Byte>)
    ensures field[..] == NameField(name)
  {
    field := new Byte[NAME_SIZE](_ => 0);
    var i := 0;
    while i < |name|
      invariant 0 <= i <= |name| && field.Length == NAME_SIZE
      invariant forall j :: 0 <= j < NAME_SIZE ==> field[j] == if j < i then name[j] else 0
    {
      if i < field.Length {
        field[i] := name[i];
      } else {
        break;
      }
      i := i + 1;
    }
  }

  /** `Node::new`'s loop. */
  method New(field: Bytes) returns (bytes: Bytes)
    ensures bytes == FieldName(field)
  {
    hide FieldName;
    bytes := [];
    FieldNameIs([], 0);
    for i := 0 to |field|
      invariant bytes == field[..i] && bytes + FieldName(field[i..]) == FieldName(field)
    {
      if field[i] > 0 {
        bytes := bytes + [field[i]];
      } else {
        break;
      }
    }
  }

  lemma {:induction false} FieldNameIs(f: Bytes, k: nat)
    requires k <= |f| && (forall i :: 0 <= i < k ==> f[i] != 0) && (k < |f| ==> f[k] == 0)
    ensures FieldName(f) == f[..k]
  {
    if k > 0 {
      FieldNameIs(f[1..], k - 1);
    }
  }

  /** A name survives exactly when it fits its field and has no zero in it. */
  lemma NameRoundTrip(name: Bytes)
    ensures FieldName(NameField(name)) == name <==> |name| <= NAME_SIZE && forall i :: 0 <= i < |name| ==> name[i] != 0
  {
    var f := NameField(name);
    if |name| <= NAME_SIZE && forall i :: 0 <= i < |name| ==> name[i] != 0 {
      FieldNameIs(f, |name|);
      assert f[..|name|] == name;
    }
  }

  // ---------------------------------------------------------------- the sector

  function Power256(k: nat): (n: nat)
    ensures n > 0
  {
    if k == 0 then 1 else 256 * Power256(k - 1)
  }

  /** `k` bytes, lowest first. */
  function Word(n: nat, k: nat): (w: Bytes)
    ensures |w| == k
  {
    if k == 0 then [] else [n % 256] + Word(n / 256, k - 1)
  }

  function Value(w: Bytes): nat {
    if w == [] then 0 else w[0] + 256 * Value(w[1..])
  }

  lemma {:induction false} WordRoundTrip(n: nat, k: nat)
    requires n < Power256(k)
    ensures Value(Word(n, k)) == n
  {
    if k > 0 {
      WordRoundTrip(n / 256, k - 1);
    }
  }

  lemma LongWords()
    ensures Power256(8) == WORD_LIMIT
  {
    assert Power256(2) == 0x1_0000;
    assert Power256(4) == 0x1_0000_0000;
    assert Power256(6) == 0x1_0000_0000_0000;
  }

  /** The extents as 64-bit words. */
  function ExtentBytes(es: seq<Extent>): (w: Bytes)
    ensures |w| == |es| * 16
  {
    if es == [] then [] else Word(es[0].block, 8) + Word(es[0].length, 8) + ExtentBytes(es[1..])
  }

  function BytesExtents(w: Bytes): seq<Extent> {
    if |w| < 16 then [] else [Extent(Value(w[..8]), Value(w[8..16]))] + BytesExtents(w[16..])
  }

  predicate Words(es: seq<Extent>) {
    forall i :: 0 <= i < |es| ==> es[i].block < WORD_LIMIT && es[i].length < WORD_LIMIT
  }

  lemma {:induction false} ExtentsRoundTrip(es: seq<Extent>)
    requires Words(es)
    ensures BytesExtents(ExtentBytes(es)) == es
  {
    hide Word, Value, Power256;
    if es != [] {
      LongWords();
      var w := ExtentBytes(es);
      assert w[..8] == Word(es[0].block, 8) && w[8..16] == Word(es[0].length, 8) && w[16..] == ExtentBytes(es[1..]);
      WordRoundTrip(es[0].block, 8);
      WordRoundTrip(es[0].length, 8);
      ExtentsRoundTrip(es[1..]);
    }
  }

  /** The sector `sync` writes at a node's block. */
  function Sector(n: Node): (s: Bytes)
    requires |n.extents| == EXTENT_COUNT
    ensures |s| == SECTOR
  {
    NameField(n.name) + ExtentBytes(n.extents)
  }

  /** The node that is read from a sector when the disk is opened. */
  function FromSector(block: nat, s: Bytes): Node
    requires |s| == SECTOR
  {
    Node(block, FieldName(s[..NAME_SIZE]), BytesExtents(s[NAME_SIZE..]))
  }

  /** A node comes back from its sector exactly when its name does. */
  lemma SectorRoundTrip(n: Node)
    requires |n.extents| == EXTENT_COUNT && Words(n.extents)
    ensures FromSector(n.block, Sector(n)) == n
            <==> |n.name| <= NAME_SIZE && forall i :: 0 <= i < |n.name| ==> n.name[i] != 0
  {
    assert Sector(n)[..NAME_SIZE] == NameField(n.name) && Sector(n)[NAME_SIZE..] == ExtentBytes(n.extents);
    NameRoundTrip(n.name);
    ExtentsRoundTrip(n.extents);
  }

  /** A name one byte too long comes back shorter, and one with a zero in it comes back cut off. */
  lemma NamesLost()
    ensures var long := Node(1, seq(NAME_SIZE + 1, _ => 0x41), seq(EXTENT_COUNT, _ => Extent(0, 0)));
            FromSector(1, Sector(long)) != long
    ensures var zero := Node(1, [0x41, 0], seq(EXTENT_COUNT, _ => Extent(0, 0))); FromSector(1, Sector(zero)) != zero
  {
    hide Sector, FromSector;
    var none := seq(EXTENT_COUNT, _ => Extent(0, 0));
    SectorRoundTrip(Node(1, seq(NAME_SIZE + 1, _ => 0x41), none));
    var zero := Node(1, [0x41, 0], none);
    SectorRoundTrip(zero);
    assert zero.name[1] == 0;
  }
}
