/** The Internet checksum (kernel/network/common.rs, lines 188-238; kernel/network/schemes/icmp.rs, lines
    76-84), as sections 1 and 2 of RFC 1071 describe it.

    The 16-bit words of a message are added up, an odd last byte counting as a word, and the sum is
    folded until it fits a word.  A message checks when that gives all ones. */
module Checksum {
  import opened Common

  const WORDS := 0x1_0000
  const ONES := 0xFFFF

  // ---------------------------------------------------------------- summing

  function Sum(m: Bytes): nat {
    if |m| > 1 then m[0] as int + 256 * m[1] as int + Sum(m[2..])
    else if |m| == 1 then m[0]
    else 0
  }

  /** The two bytes of a word in memory, low byte first. */
  function WordBytes(w: nat): (b: Bytes)
    requires w < WORDS
    ensures |b| == 2 && b[0] as int + 256 * b[1] as int == w
  {
    [w % 256, w / 256]
  }

  /** Behind an even number of bytes a message may be cut, and the parts summed on their own. */
  lemma {:induction false} SumSplits(head: Bytes, tail: Bytes)
    requires |head| % 2 == 0
    ensures Sum(head + tail) == Sum(head) + Sum(tail)
  {
    if head == [] {
      assert head + tail == tail;
    } else {
      assert (head + tail)[2..] == head[2..] + tail;
      SumSplits(head[2..], tail);
    }
  }

  function Joined(parts: seq<Bytes>): Bytes {
    if parts == [] then [] else parts[0] + Joined(parts[1..])
  }

  function SumOfSums(parts: seq<Bytes>): nat {
    if parts == [] then 0 else Sum(parts[0]) + SumOfSums(parts[1..])
  }

  /** As the pseudo-headers of TCP are: all parts but the last of even length. */
  lemma {:induction false} PartsSum(parts: seq<Bytes>)
    requires forall i :: 0 <= i < |parts| - 1 ==> |parts[i]| % 2 == 0
    ensures Sum(Joined(parts)) == SumOfSums(parts)
  {
    if |parts| == 1 {
      assert Joined(parts[1..]) == [];
      assert Joined(parts) == parts[0];
    } else if parts != [] {
      PartsSum(parts[1..]);
      SumSplits(parts[0], Joined(parts[1..]));
    }
  }

  // ---------------------------------------------------------------- folding

  function Fold(n: nat): (r: nat)
    ensures r <= ONES && r % ONES == n % ONES && (r == 0 <==> n == 0)
    decreases n
  {
    if n / WORDS > 0 then FoldTurn(n); Fold(n % WORDS + n / WORDS) else n
  }

  /** One turn of the fold makes the sum smaller and keeps it modulo all ones. */
  lemma FoldTurn(n: nat)
    requires n / WORDS > 0
    ensures 0 < n % WORDS + n / WORDS < n && (n % WORDS + n / WORDS) % ONES == n % ONES
  {
    var h := n / WORDS;
    assert n == n % WORDS + h + h * ONES;
    Shifted(n % WORDS + h, h);
  }

  function Compile(sum: nat): (w: nat)
    ensures w <= ONES
  {
    ONES - Fold(sum)
  }

  predicate Checks(m: Bytes) { Fold(Sum(m)) == ONES }

  /** A message checks exactly when its words add up to nothing but ones: a multiple of all ones that
      is not zero. */
  lemma ChecksIff(m: Bytes)
    ensures Checks(m) <==> Sum(m) > 0 && Sum(m) % ONES == 0
  {
  }

  // ---------------------------------------------------------------- storing the checksum

  /** The message with a word stored at an offset. */
  function Stored(m: Bytes, at: nat, w: nat): (r: Bytes)
    requires at + 2 <= |m| && w < WORDS
    ensures |r| == |m|
  {
    m[..at] + WordBytes(w) + m[at + 2..]
  }

  lemma StoredSum(m: Bytes, at: nat, w: nat)
    requires at % 2 == 0 && at + 2 <= |m| && w < WORDS
    ensures Sum(Stored(m, at, w)) == Sum(Stored(m, at, 0)) + w
  {
    StoredParts(m, at, w);
    StoredParts(m, at, 0);
  }

  lemma StoredParts(m: Bytes, at: nat, w: nat)
    requires at % 2 == 0 && at + 2 <= |m| && w < WORDS
    ensures Sum(Stored(m, at, w)) == Sum(m[..at]) + w + Sum(m[at + 2..])
  {
    var b := WordBytes(w);
    assert Stored(m, at, w) == m[..at] + (b + m[at + 2..]);
    SumSplits(m[..at], b + m[at + 2..]);
    SumSplits(b, m[at + 2..]);
    assert b[2..] == [];
  }

  /** Sum with the word zeroed, store the compiled sum: the message checks.  Any other word that
      checks stands for the same number in one's complement. */
  lemma StoredChecks(m: Bytes, at: nat, w: nat)
    requires at % 2 == 0 && at + 2 <= |m| && w < WORDS
    ensures Checks(Stored(m, at, Compile(Sum(Stored(m, at, 0)))))
    ensures Checks(Stored(m, at, w)) <==>
              Sum(Stored(m, at, 0)) + w > 0 && w % ONES == Compile(Sum(Stored(m, at, 0))) % ONES
  {
    hide Sum, Stored, Fold;
    var n := Sum(Stored(m, at, 0));
    StoredSum(m, at, Compile(n));
    StoredSum(m, at, w);
    ChecksIff(Stored(m, at, w));
    ChecksIff(Stored(m, at, Compile(n)));
    Complement(n, w);
    Complement(n, Compile(n));
  }

  lemma Complement(n: nat, w: nat)
    requires w <= ONES
    ensures (n + w) % ONES == 0 <==> w % ONES == Compile(n) % ONES
  {
    hide Fold;
    var f := Fold(n);
    assert f % ONES == n % ONES && 0 <= f <= ONES;
    assert (n + w) % ONES == (f + w) % ONES;
  }

  lemma Shifted(x: nat, k: nat)
    ensures (x + k * ONES) % ONES == x % ONES
  {
    if k > 0 {
      Shifted(x, k - 1);
      assert x + k * ONES == x + (k - 1) * ONES + ONES;
    }
  }

  /** An ICMP answer: header and data summed apart, the header of even length. */
  lemma ReplyChecks(header: Bytes, data: Bytes, at: nat)
    requires |header| % 2 == 0 && at % 2 == 0 && at + 2 <= |header|
    ensures Checks(Stored(header, at, Compile(Sum(Stored(header, at, 0)) + Sum(data))) + data)
  {
    hide Sum, Fold;
    var w := Compile(Sum(Stored(header, at, 0)) + Sum(data));
    SumSplits(Stored(header, at, 0), data);
    assert Stored(header, at, 0) + data == Stored(header + data, at, 0);
    assert Stored(header, at, w) + data == Stored(header + data, at, w);
    StoredChecks(header + data, at, w);
  }

  // ---------------------------------------------------------------- the loops

  method SumOf(m: array<Byte>, from: nat, length: nat) returns (sum: nat)
    requires from + length <= m.Length
    ensures sum == Sum(m[from..from + length])
  {
    sum := 0;
    var p, len := from, length;
    while len > 1
      invariant 0 <= len <= length && p == from + (length - len)
      invariant sum + Sum(m[p..from + length]) == Sum(m[from..from + length])
    {
      assert m[p..from + length][2..] == m[p + 2..from + length];
      sum := sum + m[p] as int + 256 * m[p + 1] as int;
      len := len - 2;
      p := p + 2;
    }
    if len > 0 {
      sum := sum + m[p];
    }
  }

  method Check(m: array<Byte>) returns (ok: bool)
    ensures ok <==> Checks(m[..])
  {
    var sum: nat := SumOf(m, 0, m.Length);
    assert m[0..0 + m.Length] == m[..];
    ghost var n: nat := sum;
    while sum / WORDS > 0
      invariant Fold(sum) == Fold(n)
      decreases sum
    {
      FoldTurn(sum);
      sum := sum % WORDS + sum / WORDS;
    }
    return sum == ONES;
  }

  method CompileSum(n: nat) returns (w: nat)
    ensures w == Compile(n)
  {
    var sum: nat := n;
    while sum / WORDS > 0
      invariant Fold(sum) == Fold(n)
      decreases sum
    {
      FoldTurn(sum);
      sum := sum % WORDS + sum / WORDS;
    }
    return ONES - sum;
  }

  method StoreWord(m: array<Byte>, at: nat, w: nat)
    requires at + 2 <= m.Length && w < WORDS
    modifies m
    ensures m[..] == Stored(old(m[..]), at, w)
  {
    m[at], m[at + 1] := w % 256, w / 256;
  }

  lemma StoredTwice(m: Bytes, at: nat, v: nat, w: nat)
    requires at + 2 <= |m| && v < WORDS && w < WORDS
    ensures Stored(Stored(m, at, v), at, w) == Stored(m, at, w)
    ensures forall i :: 0 <= i < |m| && i != at && i != at + 1 ==> Stored(m, at, w)[i] == m[i]
  {
  }

  /** `calculate`, with the checksum's own word inside the message. */
  method Calculate(m: array<Byte>, at: nat)
    requires at % 2 == 0 && at + 2 <= m.Length
    modifies m
    ensures Checks(m[..]) && m[..] == Stored(old(m[..]), at, Compile(Sum(Stored(old(m[..]), at, 0))))
  {
    hide Sum, Fold, Stored, Checks;
    StoreWord(m, at, 0);
    var sum := SumOf(m, 0, m.Length);
    assert m[0..0 + m.Length] == m[..];
    var w := CompileSum(sum);
    StoredTwice(old(m[..]), at, 0, w);
    StoredChecks(old(m[..]), at, w);
    StoreWord(m, at, w);
  }
}
