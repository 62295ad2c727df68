/** Compiling an allow rule for the kernel program
    (crates/guestkit-ebpf-runtime/src/lib.rs) and matching it there
    (crates/guestkit-ebpf/src/netpolicy.rs). */
module Cidr {
  import opened Wrappers

  /** Machine words as their bits, most significant first. */
  type Bits = seq<bool>
  type Byte = s: Bits | |s| == 8 witness seq(8, _ => false)
  type Bytes = s: seq<Byte> | |s| == 4 || |s| == 16 witness seq(4, _ => seq(8, _ => false))
  type Words = s: seq<Bits> | |s| == 4 && forall i :: 0 <= i < 4 ==> |s[i]| == 32
    witness seq(4, _ => seq(32, _ => false))

  datatype Direction = Egress | Ingress

  /** An allow rule as the caller states it, its fields already parsed. */
  datatype RuleSpec = RuleSpec(dir: Direction, addr: Bytes, prefix: nat, proto: nat, port: nat)

  /** A packet as the program sees it: the peer address, protocol and destination port. */
  datatype Packet = Packet(peer: Bytes, proto: nat, port: nat)

  datatype Rule = Rule(dir: Direction, v4: bool, proto: nat, port: nat, net: Words, mask: Words)

  // ---- The compiled form --------------------------------------------------

  function Fill(n: nat, bit: bool): (r: Bits)
    ensures |r| == n && forall i :: 0 <= i < n ==> r[i] == bit
  {
    seq(n, _ => bit)
  }

  /** Bitwise `&`. */
  function And(a: Bits, b: Bits): (r: Bits)
    requires |a| == |b|
    ensures |r| == |a| && forall i :: 0 <= i < |a| ==> r[i] == (a[i] && b[i])
  {
    seq(|a|, i requires 0 <= i < |a| => a[i] && b[i])
  }

  /** `0xff << (8 - bits)`, or zero. */
  function MaskByte(bits: nat): Byte
    requires bits <= 8
  {
    if bits == 0 then Fill(8, false) else Fill(8, true)[8 - bits..] + Fill(8 - bits, false)
  }

  /** How many leading bits of byte `i` a prefix covers. */
  function BitsIn(prefix: nat, i: nat): (n: nat)
    ensures n <= 8
  {
    if prefix <= i * 8 then 0 else if prefix - i * 8 < 8 then prefix - i * 8 else 8
  }

  function MaskBytes(n: nat, prefix: nat): (m: seq<Byte>)
    ensures |m| == n && forall i :: 0 <= i < n ==> m[i] == MaskByte(BitsIn(prefix, i))
  {
    seq(n, i requires 0 <= i => MaskByte(BitsIn(prefix, i)))
  }

  function AndBytes(a: Bytes, m: Bytes): (r: Bytes)
    requires |a| == |m|
    ensures |r| == |a| && forall i :: 0 <= i < |a| ==> r[i] == And(a[i], m[i])
  {
    seq(|a|, i requires 0 <= i < |a| => And(a[i], m[i]))
  }

  /** Four bytes read as a native (little-endian) word. */
  function Word(a: Byte, b: Byte, c: Byte, d: Byte): (w: Bits)
    ensures |w| == 32
  {
    d + c + b + a
  }

  /** The words of an address; an IPv4 address leaves the last three zero. */
  function WordAt(b: Bytes, i: nat): (w: Bits)
    requires i < 4
    ensures |w| == 32
  {
    if 4 * i + 4 <= |b| then Word(b[4 * i], b[4 * i + 1], b[4 * i + 2], b[4 * i + 3]) else Fill(32, false)
  }

  function ToWords(b: Bytes): Words {
    [WordAt(b, 0), WordAt(b, 1), WordAt(b, 2), WordAt(b, 3)]
  }

  function PrefixMask(addr: Bytes, prefix: nat): (m: Bytes)
    ensures |m| == |addr|
  {
    MaskBytes(|addr|, if prefix < 8 * |addr| then prefix else 8 * |addr|)
  }

  /** `compile_rule`: a port needs a protocol that has ports. */
  function Compile(s: RuleSpec): Result<Rule, string> {
    if s.port != 0 && s.proto !in {0, 6, 17, 132} then Err("port needs tcp, udp, sctp or any protocol")
    else
      var m := PrefixMask(s.addr, s.prefix);
      Ok(Rule(s.dir, |s.addr| == 4, s.proto, s.port, ToWords(AndBytes(s.addr, m)), ToWords(m)))
  }

  /** A rule is refused if and only if it names a port under a protocol other than any, TCP (6),
      UDP (17) and SCTP (132). */
  lemma CompileExactly(s: RuleSpec)
    ensures Compile(s).Err? <==> s.port > 0 && s.proto != 0 && s.proto != 6 && s.proto != 17 && s.proto != 132
  {
  }

  predicate PeerMatches(peer: Bytes, mask: Words, net: Words) {
    var w := ToWords(peer);
    && And(w[0], mask[0]) == net[0] && And(w[1], mask[1]) == net[1]
    && And(w[2], mask[2]) == net[2] && And(w[3], mask[3]) == net[3]
  }

  /** `rule_matches`, on raw words. */
  predicate Matches(r: Rule, dir: Direction, p: Packet) {
    && r.dir == dir
    && r.v4 == (|p.peer| == 4)
    && (r.proto == 0 || r.proto == p.proto)
    && (r.port == 0 || r.port == p.port)
    && PeerMatches(p.peer, r.mask, r.net)
  }

  // ---- What a rule means --------------------------------------------------

  /** Bit `k` of an address, counted from its most significant end. */
  predicate Bit(b: Bytes, k: nat)
    requires k < 8 * |b|
  {
    b[k / 8][k % 8]
  }

  /** The peer lies in the network: its first `prefix` bits are the network's. */
  ghost predicate InNetwork(peer: Bytes, addr: Bytes, prefix: nat) {
    |peer| == |addr| && forall k :: 0 <= k < prefix && k < 8 * |addr| ==> Bit(peer, k) == Bit(addr, k)
  }

  ghost predicate Allows(s: RuleSpec, dir: Direction, p: Packet) {
    && s.dir == dir
    && (s.proto == 0 || s.proto == p.proto)
    && (s.port == 0 || s.port == p.port)
    && InNetwork(p.peer, s.addr, s.prefix)
  }

  // ---- The compiled form keeps the meaning --------------------------------

  /** Under a mask of `bits` leading ones two bytes are equal iff their first `bits` bits are. */
  lemma MaskedByte(x: Byte, y: Byte, bits: nat)
    requires bits <= 8
    ensures And(x, MaskByte(bits)) == And(y, MaskByte(bits)) <==> forall j :: 0 <= j < bits ==> x[j] == y[j]
  {
    var m := MaskByte(bits);
    assert forall j :: 0 <= j < 8 ==> m[j] == (j < bits);
    if And(x, m) == And(y, m) {
      forall j | 0 <= j < bits
        ensures x[j] == y[j]
      {
        assert And(x, m)[j] == And(y, m)[j];
      }
    }
  }

  lemma AndConcat(a: Bits, b: Bits, c: Bits, d: Bits)
    requires |a| == |c| && |b| == |d|
    ensures And(a + b, c + d) == And(a, c) + And(b, d)
  {
  }

  lemma ConcatInjective(a: Bits, b: Bits, c: Bits, d: Bits)
    requires |a| == |c|
    ensures a + b == c + d <==> a == c && b == d
  {
    if a + b == c + d {
      assert a == (a + b)[..|a|] && c == (c + d)[..|c|];
      assert b == (a + b)[|a|..] && d == (c + d)[|c|..];
    }
  }

  lemma AndWord(x: seq<Byte>, m: seq<Byte>)
    requires |x| == |m| == 4
    ensures And(Word(x[0], x[1], x[2], x[3]), Word(m[0], m[1], m[2], m[3]))
            == Word(And(x[0], m[0]), And(x[1], m[1]), And(x[2], m[2]), And(x[3], m[3]))
  {
    var a: Bits, b: Bits := x[3], m[3];
    AndConcat(a, x[2], b, m[2]);
    AndConcat(a + x[2], x[1], b + m[2], m[1]);
    AndConcat(a + x[2] + x[1], x[0], b + m[2] + m[1], m[0]);
  }

  lemma WordInjective(x: seq<Byte>, y: seq<Byte>)
    requires |x| == |y| == 4
    ensures Word(x[0], x[1], x[2], x[3]) == Word(y[0], y[1], y[2], y[3])
            <==> x[0] == y[0] && x[1] == y[1] && x[2] == y[2] && x[3] == y[3]
  {
    var a: Bits, b: Bits := x[3], y[3];
    ConcatInjective(a + x[2] + x[1], x[0], b + y[2] + y[1], y[0]);
    ConcatInjective(a + x[2], x[1], b + y[2], y[1]);
    ConcatInjective(a, x[2], b, y[2]);
  }

  /** Two addresses agree under the mask at byte `j`. */
  ghost predicate SameByte(x: Bytes, y: Bytes, m: Bytes, j: nat)
    requires |x| == |y| == |m|
  {
    j < |x| ==> And(x[j], m[j]) == And(y[j], m[j])
  }

  /** Comparing masked words is comparing masked bytes. */
  lemma WordComparison(x: Bytes, y: Bytes, m: Bytes, i: nat)
    requires |x| == |y| == |m| && i < 4
    ensures And(WordAt(x, i), WordAt(m, i)) == WordAt(AndBytes(y, m), i)
            <==> SameByte(x, y, m, 4 * i) && SameByte(x, y, m, 4 * i + 1) && SameByte(x, y, m, 4 * i + 2) && SameByte(x, y, m, 4 * i + 3)
  {
    var k, n := 4 * i, AndBytes(y, m);
    if k + 4 <= |x| {
      AndWord(x[k..k + 4], m[k..k + 4]);
      var masked: seq<Byte> := [And(x[k], m[k]), And(x[k + 1], m[k + 1]), And(x[k + 2], m[k + 2]), And(x[k + 3], m[k + 3])];
      WordInjective(masked, n[k..k + 4]);
    }
  }

  /** Byte-wise agreement under the prefix mask is agreement of the first `prefix` bits. */
  lemma MaskedBytesAreNetwork(x: Bytes, y: Bytes, prefix: nat, m: Bytes)
    requires |x| == |y| && prefix <= 8 * |x| && m == MaskBytes(|x|, prefix)
    ensures (forall i :: 0 <= i < |x| ==> SameByte(x, y, m, i)) <==> InNetwork(x, y, prefix)
  {
    forall i | 0 <= i < |x|
      ensures SameByte(x, y, m, i) <==> forall j :: 0 <= j < BitsIn(prefix, i) ==> x[i][j] == y[i][j]
    {
      MaskedByte(x[i], y[i], BitsIn(prefix, i));
    }
    if InNetwork(x, y, prefix) {
      forall i, j | 0 <= i < |x| && 0 <= j < BitsIn(prefix, i)
        ensures x[i][j] == y[i][j]
      {
        assert (8 * i + j) / 8 == i && (8 * i + j) % 8 == j;
        assert Bit(x, 8 * i + j) == Bit(y, 8 * i + j);
      }
    }
    if forall i :: 0 <= i < |x| ==> SameByte(x, y, m, i) {
      forall k | 0 <= k < prefix && k < 8 * |y|
        ensures Bit(x, k) == Bit(y, k)
      {
        assert SameByte(x, y, m, k / 8) && 0 <= k % 8 < BitsIn(prefix, k / 8);
      }
    }
  }

  lemma WordsAreBytes(x: Bytes, y: Bytes, m: Bytes)
    requires |x| == |y| == |m|
    ensures PeerMatches(x, ToWords(m), ToWords(AndBytes(y, m))) <==> (forall j :: 0 <= j < |x| ==> SameByte(x, y, m, j))
  {
    WordComparison(x, y, m, 0);
    WordComparison(x, y, m, 1);
    WordComparison(x, y, m, 2);
    WordComparison(x, y, m, 3);
  }

  lemma PeerMatchesNetwork(peer: Bytes, addr: Bytes, prefix: nat)
    requires |peer| == |addr|
    ensures var m := PrefixMask(addr, prefix);
            PeerMatches(peer, ToWords(m), ToWords(AndBytes(addr, m))) <==> InNetwork(peer, addr, prefix)
  {
    var m := PrefixMask(addr, prefix);
    WordsAreBytes(peer, addr, m);
    MaskedBytesAreNetwork(peer, addr, if prefix < 8 * |addr| then prefix else 8 * |addr|, m);
  }

  /** The compiled rule matches exactly the packets the stated rule allows. */
  lemma CompiledRuleMeans(s: RuleSpec, dir: Direction, p: Packet)
    requires Compile(s).Ok?
    ensures Matches(Compile(s).value, dir, p) <==> Allows(s, dir, p)
  {
    if |p.peer| == |s.addr| {
      PeerMatchesNetwork(p.peer, s.addr, s.prefix);
    }
  }

  // ---- Loopback -----------------------------------------------------------

  const BYTE_0: Byte := Fill(8, false)
  const BYTE_1: Byte := Fill(7, false) + [true]
  const BYTE_127: Byte := [false] + Fill(7, true)
  const BYTE_255: Byte := Fill(8, true)

  /** `loopback`, on raw words. */
  predicate Loopback(p: Packet) {
    var w, z := ToWords(p.peer), BYTE_0;
    if |p.peer| == 4 then And(w[0], Word(BYTE_255, z, z, z)) == Word(BYTE_127, z, z, z)
    else w[0] == Fill(32, false) && w[1] == Fill(32, false) && w[2] == Fill(32, false) && w[3] == Word(z, z, z, BYTE_1)
  }

  /** The number a byte stands for, most significant bit first. */
  ghost function ByteValue(b: Byte): nat {
    Weigh(b[0], 128) + Weigh(b[1], 64) + Weigh(b[2], 32) + Weigh(b[3], 16)
    + Weigh(b[4], 8) + Weigh(b[5], 4) + Weigh(b[6], 2) + Weigh(b[7], 1)
  }

  ghost function Weigh(bit: bool, weight: nat): nat {
    if bit then weight else 0
  }

  lemma BytesByValue(b: Byte)
    ensures b == BYTE_127 <==> ByteValue(b) == 127
    ensures b == BYTE_1 <==> ByteValue(b) == 1
    ensures b == BYTE_0 <==> ByteValue(b) == 0
  {
  }

  /** The word test recognises exactly 127.0.0.0/8 and ::1. */
  lemma LoopbackMeans(p: Packet)
    ensures |p.peer| == 4 ==> (Loopback(p) <==> ByteValue(p.peer[0]) == 127)
    ensures |p.peer| == 16 ==> (Loopback(p) <==> ByteValue(p.peer[15]) == 1 && forall i :: 0 <= i < 15 ==> ByteValue(p.peer[i]) == 0)
  {
    LoopbackBytes(p);
    forall i | 0 <= i < |p.peer|
      ensures p.peer[i] == BYTE_127 <==> ByteValue(p.peer[i]) == 127
      ensures p.peer[i] == BYTE_1 <==> ByteValue(p.peer[i]) == 1
      ensures p.peer[i] == BYTE_0 <==> ByteValue(p.peer[i]) == 0
    {
      BytesByValue(p.peer[i]);
    }
  }

  lemma LoopbackBytes(p: Packet)
    ensures |p.peer| == 4 ==> (Loopback(p) <==> p.peer[0] == BYTE_127)
    ensures |p.peer| == 16 ==> (Loopback(p) <==> p.peer[15] == BYTE_1 && forall i :: 0 <= i < 15 ==> p.peer[i] == BYTE_0)
  {
    var b, z := p.peer, BYTE_0;
    if |b| == 4 {
      var m := [BYTE_255, z, z, z];
      AndWord(b, m);
      assert And(b[0], BYTE_255) == b[0];
      assert forall i :: 0 <= i < 4 ==> And(b[i], z) == z;
      WordInjective([b[0], z, z, z], [BYTE_127, z, z, z]);
    } else {
      assert Word(z, z, z, z) == Fill(32, false);
      WordInjective(b[0..4], [z, z, z, z]);
      WordInjective(b[4..8], [z, z, z, z]);
      WordInjective(b[8..12], [z, z, z, z]);
      WordInjective(b[12..16], [z, z, z, BYTE_1]);
    }
  }
}
