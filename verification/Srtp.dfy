/** SRTP packet indices and protection (RFC 3711, sections 3.3.1 and 4.1.1).  The block
    cipher in counter mode and the authentication code are parameters. */
module Srtp {
  import opened Basics
  import opened Arithmetic
  import opened Octets
  import opened Rtp

  // ---- the rollover counter ----

  datatype Roc = Roc(roc: U32, lastSeq: U16, initialized: bool)

  const FRESH := Roc(0, 0, false)
  const INDEX_LIMIT: int := 0x1_0000_0000_0000

  /** The counter goes up when the sequence number falls by more than half its range. */
  function Advanced(c: Roc, seqNo: U16): Roc {
    if !c.initialized then Roc(c.roc, seqNo, true)
    else Roc(if seqNo - c.lastSeq < -32768 then (c.roc + 1) % 0x1_0000_0000 else c.roc, seqNo, true)
  }

  function PacketIndex(roc: U32, seqNo: U16): nat {
    roc * 0x1_0000 + seqNo
  }

  /** A counter that has reached the packet with the given index. */
  function RocAt(index: nat): Roc
    requires index < INDEX_LIMIT
  {
    Roc(index / 0x1_0000, index % 0x1_0000, true)
  }

  /** From index i, the next packet j is numbered rightly exactly when it is in the same
      period of sequence numbers, or in the next one and less than half a period away. */
  lemma NextIndex(i: nat, j: nat)
    requires i < j < INDEX_LIMIT
    ensures Advanced(RocAt(i), j % 0x1_0000) == RocAt(j)
            <==> (j / 0x1_0000 == i / 0x1_0000 || (j / 0x1_0000 == i / 0x1_0000 + 1 && j - i < 0x8000))
  {
    assert i == i / 0x1_0000 * 0x1_0000 + i % 0x1_0000;
    assert j == j / 0x1_0000 * 0x1_0000 + j % 0x1_0000;
  }

  ghost predicate StepOk(i: nat, j: nat) {
    i < j && (j / 0x1_0000 == i / 0x1_0000 || (j / 0x1_0000 == i / 0x1_0000 + 1 && j - i < 0x8000))
  }

  /** A gap below half a period is always bridged. */
  lemma ShortGapOk(i: nat, j: nat)
    requires i < j && j - i < 0x8000
    ensures StepOk(i, j)
  {
  }

  /** Two steps that are not bridged: a gap of a period and a half is taken for half a one, and
      a packet that comes late over the wrap makes the counter go up once too often, for good. */
  lemma NotBridged()
    ensures Advanced(RocAt(0), 0x1_8000 % 0x1_0000) == RocAt(0x8000)
    ensures Advanced(Advanced(RocAt(0x1_0000), 0xFFFF), 1) == RocAt(0x2_0001)
  {
    assert RocAt(0x1_0000) == Roc(1, 0, true);
  }

  /** The counter after packets with the given indices, seen by their sequence numbers. */
  function After(xs: seq<nat>): Roc {
    if xs == [] then FRESH
    else
      var n := |xs| - 1;
      Advanced(After(xs[..n]), xs[n] % 0x1_0000)
  }

  ghost predicate Ascending(xs: seq<nat>) {
    (forall k :: 0 <= k < |xs| ==> xs[k] < INDEX_LIMIT) && forall k :: 0 < k < |xs| ==> xs[k - 1] < xs[k]
  }

  /** Every index derived along the way is right. */
  ghost predicate AllRight(xs: seq<nat>)
    requires Ascending(xs)
  {
    forall n {:trigger xs[..n]} :: 0 < n <= |xs| ==> After(xs[..n]) == RocAt(xs[n - 1])
  }

  ghost predicate Bridged(xs: seq<nat>) {
    && (xs != [] ==> xs[0] < 0x1_0000)
    && forall k :: 0 < k < |xs| ==> StepOk(xs[k - 1], xs[k])
  }

  lemma AllRightSnoc(v: seq<nat>, j: nat)
    requires Ascending(v + [j])
    ensures Ascending(v)
    ensures AllRight(v + [j]) <==> AllRight(v) && After(v + [j]) == RocAt(j)
  {
    var xs := v + [j];
    assert xs[..|xs|] == xs;
    assert forall n :: 0 <= n <= |v| ==> xs[..n] == v[..n];
    forall k | 0 < k < |v| ensures v[k - 1] < v[k] { assert xs[k - 1] < xs[k]; }
    hide After, RocAt;
    if AllRight(xs) {
      forall n {:trigger v[..n]} | 0 < n <= |v| ensures After(v[..n]) == RocAt(v[n - 1]) {
        assert xs[..n] == v[..n];
      }
    }
  }

  lemma BridgedSnoc(v: seq<nat>, j: nat)
    requires v != []
    ensures Bridged(v + [j]) <==> Bridged(v) && StepOk(v[|v| - 1], j)
  {
    var xs := v + [j];
    assert forall k :: 0 <= k < |v| ==> xs[k] == v[k];
    hide StepOk;
    if Bridged(xs) {
      assert StepOk(xs[|v| - 1], xs[|v|]);
      forall k | 0 < k < |v| ensures StepOk(v[k - 1], v[k]) { assert StepOk(xs[k - 1], xs[k]); }
    }
  }

  lemma AfterSnoc(v: seq<nat>, j: nat)
    ensures After(v + [j]) == Advanced(After(v), j % 0x1_0000)
  {
    assert (v + [j])[..|v|] == v;
  }

  /** A receiver numbers every packet of an increasing run rightly exactly when the run
      starts in the first period and every step is one that can be bridged. */
  lemma {:induction false} ReceiverIff(xs: seq<nat>)
    requires Ascending(xs)
    ensures AllRight(xs) <==> Bridged(xs)
  {
    if |xs| == 1 {
      FirstIndex(xs[0]);
      assert xs == [xs[0]];
    } else if xs != [] {
      var v, j := xs[..|xs| - 1], xs[|xs| - 1];
      assert xs == v + [j];
      AllRightSnoc(v, j);
      ReceiverIff(v);
      ReceiverStep(v, j);
    }
    hide After, RocAt, StepOk;
  }

  lemma FirstIndex(j: nat)
    requires Ascending([j])
    ensures AllRight([j]) <==> Bridged([j])
  {
    assert [j] == [] + [j] && j == [j][0];
    NothingYet(j);
    hide *;
    AllRightSnoc([], j);
    AfterSnoc([], j);
  }

  lemma NothingYet(j: nat)
    requires j < INDEX_LIMIT
    ensures Ascending([]) && AllRight([])
    ensures Advanced(After([]), j % 0x1_0000) == RocAt(j) <==> Bridged([j])
  {
  }

  lemma ReceiverStep(v: seq<nat>, j: nat)
    requires v != [] && Ascending(v + [j]) && Ascending(v) && (AllRight(v) <==> Bridged(v))
    ensures AllRight(v + [j]) <==> Bridged(v + [j])
  {
    var i := v[|v| - 1];
    assert i < j < INDEX_LIMIT by { assert (v + [j])[|v| - 1] == i && (v + [j])[|v|] == j; }
    AllRightSnoc(v, j);
    AfterSnoc(v, j);
    BridgedSnoc(v, j);
    NextIndex(i, j);
    assert StepOk(i, j) <==> Advanced(RocAt(i), j % 0x1_0000) == RocAt(j);
    assert AllRight(v) ==> After(v) == RocAt(i) by { assert v[..|v|] == v; }
    hide *;
  }

  /** The indices seq0, seq0 + 1, ... of n consecutive packets. */
  function Consecutive(seq0: nat, n: nat): (xs: seq<nat>)
    ensures |xs| == n && forall k :: 0 <= k < n ==> xs[k] == seq0 + k
  {
    seq(n, k requires 0 <= k => seq0 + k)
  }

  /** Consecutive packets: the index of the sender's packet n is seq0 + n up to the limit. */
  lemma SenderIndex(seq0: U16, n: nat)
    requires seq0 + n < INDEX_LIMIT
    ensures var c := After(Consecutive(seq0, n + 1));
            c == RocAt(seq0 + n) && PacketIndex(c.roc, c.lastSeq) == seq0 + n
  {
    var xs := Consecutive(seq0, n + 1);
    forall k | 0 < k < |xs| ensures StepOk(xs[k - 1], xs[k]) {
      ShortGapOk(xs[k - 1], xs[k]);
    }
    ReceiverIff(xs);
    assert xs[..n + 1] == xs;
  }

  // ---- counter blocks ----

  /** The salt with the source and the packet index exclusive-ored in. */
  function Iv(salt: seq<Octet>, ssrc: U32, index: nat): (iv: seq<Octet>)
    requires |salt| == 14
    ensures |iv| == 16
  {
    salt[..4] + XorAll(salt[4..8], Be32(ssrc))
    + XorAll(salt[8..14], Be16(index / 0x1_0000_0000) + Be32(index % 0x1_0000_0000)) + [0, 0]
  }

  /** The counter block of section 4.1.1 of RFC 3711: behind four bytes of the salt, the other ten with
      the four bytes of the source and the six of the index, most significant first, exclusive-ored in, and
      two zeros. */
  lemma IvBytes(salt: seq<Octet>, src: seq<Octet>, ssrc: U32, index: nat)
    requires |salt| == 14 && |src| == 10 && ssrc == Number(src[..4]) && index == Number(src[4..])
    ensures Iv(salt, ssrc, index) == salt[..4] + XorAll(salt[4..], src) + [0, 0]
  {
    hide Be16, Be32, Xor, Number;
    Number32(src[..4]);
    Number48(src[4..]);
    assert src[4..][..2] == src[4..6] && src[4..][2..] == src[6..];
    assert XorAll(salt[4..8], src[..4]) + XorAll(salt[8..14], src[4..6] + src[6..]) == XorAll(salt[4..], src);
  }

  lemma Number48(b: seq<Octet>)
    requires |b| == 6
    ensures Be16(Number(b) / 0x1_0000_0000) == b[..2] && Be32(Number(b) % 0x1_0000_0000) == b[2..]
  {
    hide Be16, Be32, Number;
    Number16(b[0], b[1]);
    Number32(b[2..]);
    NumberSplit(b[..2], b[2..]);
    assert b[..2] + b[2..] == b && b[..2] == [b[0], b[1]];
  }

  lemma XorAllInjective(s: seq<Octet>, a: seq<Octet>, b: seq<Octet>)
    requires |s| == |a| == |b| && XorAll(s, a) == XorAll(s, b)
    ensures a == b
  {
    forall i | 0 <= i < |a| ensures a[i] == b[i] {
      assert XorAll(s, a)[i] == XorAll(s, b)[i];
      PowValues();
      XorComm(s[i], a[i], 8);
      XorComm(s[i], b[i], 8);
      XorTwice(a[i], s[i]);
      XorTwice(b[i], s[i]);
    }
  }

  /** No two packets, of one source or of two, start from the same counter block. */
  lemma IvInjective(salt: seq<Octet>, s: U32, t: U32, i: nat, j: nat)
    requires |salt| == 14 && i < INDEX_LIMIT && j < INDEX_LIMIT && Iv(salt, s, i) == Iv(salt, t, j)
    ensures s == t && i == j
  {
    var hi, lo := i / 0x1_0000_0000, i % 0x1_0000_0000;
    var hj, lj := j / 0x1_0000_0000, j % 0x1_0000_0000;
    IvParts(salt, s, i);
    IvParts(salt, t, j);
    XorAllInjective(salt[4..8], Be32(s), Be32(t));
    XorAllInjective(salt[8..14], Be16(hi) + Be32(lo), Be16(hj) + Be32(lj));
    Be32Read(s);
    Be32Read(t);
    Halves(Be16(hi), Be32(lo), Be16(hj), Be32(lj));
    Be16Read(hi);
    Be16Read(hj);
    Be32Read(lo);
    Be32Read(lj);
  }

  lemma IvParts(salt: seq<Octet>, s: U32, i: nat)
    requires |salt| == 14
    ensures Iv(salt, s, i)[4..8] == XorAll(salt[4..8], Be32(s))
    ensures Iv(salt, s, i)[8..14] == XorAll(salt[8..14], Be16(i / 0x1_0000_0000) + Be32(i % 0x1_0000_0000))
  {
  }

  lemma Halves<T>(a: seq<T>, b: seq<T>, c: seq<T>, d: seq<T>)
    requires a + b == c + d && |a| == |c|
    ensures a == c && b == d
  {
    assert a == (a + b)[..|a|] && c == (c + d)[..|a|] && b == (a + b)[|a|..] && d == (c + d)[|a|..];
  }

  // ---- packets ----

  datatype Packet = Packet(header: Header, payload: seq<Octet>)

  /** Session secrets: a key stream for every counter block, a code for every message. */
  datatype Keys = Keys(stream: (seq<Octet>, nat) -> seq<Octet>, mac: seq<Octet> -> seq<Octet>, salt: seq<Octet>) {
    ghost predicate Wf() {
      && |salt| == 14
      && (forall iv, n :: |stream(iv, n)| == n)
      && forall m :: |mac(m)| == 20
    }
  }

  function Masked(k: Keys, payload: seq<Octet>, ssrc: U32, index: nat): (r: seq<Octet>)
    requires |k.salt| == 14
  {
    var s := k.stream(Iv(k.salt, ssrc, index), |payload|);
    if |s| == |payload| then XorAll(payload, s) else payload
  }

  /** Masking twice at one index is the identity. */
  lemma MaskedTwice(k: Keys, payload: seq<Octet>, ssrc: U32, index: nat)
    requires k.Wf()
    ensures |Masked(k, payload, ssrc, index)| == |payload|
    ensures Masked(k, Masked(k, payload, ssrc, index), ssrc, index) == payload
  {
    var s := k.stream(Iv(k.salt, ssrc, index), |payload|);
    XorAllTwice(payload, s);
  }

  function Protected(k: Keys, tagLen: nat, c: Roc, p: Packet): seq<Octet>
    requires k.Wf() && tagLen <= 20 && p.header.Listed()
  {
    var d := Advanced(c, p.header.sequenceNumber);
    var front := HeaderBytes(p.header)
                 + Masked(k, p.payload, p.header.ssrc, PacketIndex(d.roc, p.header.sequenceNumber));
    front + k.mac(front + Be32(d.roc))[..tagLen]
  }

  function Unprotected(k: Keys, tagLen: nat, c: Roc, data: seq<Octet>): (Result<Packet, string>, Roc)
    requires |k.salt| == 14
  {
    if |data| < 12 then (Err("packet too short"), c)
    else
      match Decoded(data)
      case Err(e) => (Err(e), c)
      case Ok(h) =>
        var n := |data| - h.Size() - tagLen;
        if n <= 0 then (Err("no payload"), c)
        else
          var d := Advanced(c, h.sequenceNumber);
          (Ok(Packet(h, Masked(k, data[h.Size()..h.Size() + n], h.ssrc, PacketIndex(d.roc, h.sequenceNumber)))), d)
  }

  class SrtpContext {
    const keys: Keys
    const authTagLen: nat
    var roc: U32
    var lastSeq: U16
    var initialized: bool

    constructor (keys: Keys, authTagLen: nat)
      ensures this.keys == keys && this.authTagLen == authTagLen && Counter() == FRESH
    {
      this.keys, this.authTagLen := keys, authTagLen;
      roc, lastSeq, initialized := 0, 0, false;
    }

    ghost function Counter(): Roc reads this {
      Roc(roc, lastSeq, initialized)
    }

    method UpdateRoc(seqNo: U16)
      modifies this
      ensures Counter() == Advanced(old(Counter()), seqNo)
    {
      if !initialized {
        lastSeq := seqNo;
        initialized := true;
        return;
      }
      var diff := seqNo - lastSeq;
      if diff < -32768 {
        roc := (roc + 1) % 0x1_0000_0000;
      }
      lastSeq := seqNo;
    }

    method Protect(p: Packet) returns (data: seq<Octet>)
      requires keys.Wf() && authTagLen <= 20 && p.header.Listed()
      modifies this
      ensures data == Protected(keys, authTagLen, old(Counter()), p)
      ensures Counter() == Advanced(old(Counter()), p.header.sequenceNumber)
    {
      UpdateRoc(p.header.sequenceNumber);
      var index := PacketIndex(roc, p.header.sequenceNumber);
      var headerSize := p.header.Size();
      var n := headerSize + |p.payload|;
      var output := new Octet[n + authTagLen](_ => 0);
      var _ := EncodeHeader(p.header, output);
      MaskedTwice(keys, p.payload, p.header.ssrc, index);
      var masked := Masked(keys, p.payload, p.header.ssrc, index);
      Put(output, headerSize, masked, HeaderBytes(p.header));
      if authTagLen > 0 {
        var authData := output[..n];
        var tag := keys.mac(authData + Be32(roc));
        Put(output, n, tag[..authTagLen], authData);
      }
      data := output[..];
      assert data == output[..n + authTagLen];
    }

    method Unprotect(data: seq<Octet>) returns (r: Result<Packet, string>)
      requires |keys.salt| == 14
      modifies this
      ensures (r, Counter()) == Unprotected(keys, authTagLen, old(Counter()), data)
    {
      if |data| < 12 {
        return Err("packet too short");
      }
      var d := DecodeHeader(data);
      match d {
        case Err(e) =>
          return Err(e);
        case Ok(h) =>
          var headerSize := h.Size();
          var payloadLen := |data| - headerSize - authTagLen;
          if payloadLen <= 0 {
            return Err("no payload");
          }
          UpdateRoc(h.sequenceNumber);
          var index := PacketIndex(roc, h.sequenceNumber);
          r := Ok(Packet(h, Masked(keys, data[headerSize..headerSize + payloadLen], h.ssrc, index)));
      }
    }
  }

  /** What Unprotected makes of a header, a masked payload and a tag. */
  lemma UnprotectedParts(k: Keys, tagLen: nat, c: Roc, h: Header, masked: seq<Octet>, tag: seq<Octet>)
    requires |k.salt| == 14 && |tag| == tagLen && h.Wf()
    ensures var d := Advanced(c, h.sequenceNumber);
            var (r, after) := Unprotected(k, tagLen, c, HeaderBytes(h) + (masked + tag));
            if masked == [] then r.Err? && after == c
            else after == d && r == Ok(Packet(h, Masked(k, masked, h.ssrc, PacketIndex(d.roc, h.sequenceNumber))))
  {
    WfRoundTrip(h, masked + tag);
    var data := HeaderBytes(h) + (masked + tag);
    var size := h.Size();
    assert 12 <= size && |HeaderBytes(h)| == size;
    hide Decoded, Masked, Advanced, HeaderBytes, Header.Wf, Header.Listed, Header.Size, PacketIndex, Iv, XorAll;
    assert |data| == size + |masked| + |tag|;
    assert data[size..size + |masked|] == masked;
  }

  lemma ProtectedParts(k: Keys, tagLen: nat, c: Roc, p: Packet) returns (tag: seq<Octet>)
    requires k.Wf() && tagLen <= 20 && p.header.Listed()
    ensures |tag| == tagLen
    ensures var d := Advanced(c, p.header.sequenceNumber);
            Protected(k, tagLen, c, p) == HeaderBytes(p.header)
              + (Masked(k, p.payload, p.header.ssrc, PacketIndex(d.roc, p.header.sequenceNumber)) + tag)
  {
    var d := Advanced(c, p.header.sequenceNumber);
    var masked := Masked(k, p.payload, p.header.ssrc, PacketIndex(d.roc, p.header.sequenceNumber));
    var b := HeaderBytes(p.header);
    hide Masked, Advanced, PacketIndex, Be32, HeaderBytes, Header.Listed;
    tag := k.mac(b + masked + Be32(d.roc))[..tagLen];
    assert b + (masked + tag) == b + masked + tag;
  }

  /** A protected packet is its header, the payload exclusive-ored with the key stream of its counter
      block, and the first bytes of the code of both followed by the rollover counter. */
  lemma ProtectedLayout(k: Keys, tagLen: nat, c: Roc, p: Packet)
    requires k.Wf() && tagLen <= 20 && p.header.Listed()
    ensures var data, n := Protected(k, tagLen, c, p), |HeaderBytes(p.header)|;
            var index := PacketIndex(Advanced(c, p.header.sequenceNumber).roc, p.header.sequenceNumber);
            var stream := k.stream(Iv(k.salt, p.header.ssrc, index), |p.payload|);
            && |data| == n + |p.payload| + tagLen && |stream| == |p.payload|
            && data[..n] == HeaderBytes(p.header)
            && (forall i :: 0 <= i < |p.payload| ==> data[n + i] == Xor(p.payload[i], stream[i]))
            && data[n + |p.payload|..]
               == k.mac(data[..n + |p.payload|] + Be32(index / 0x1_0000 % 0x1_0000_0000))[..tagLen]
  {
    hide Advanced, PacketIndex, Be32, HeaderBytes, Header.Listed, Iv, Xor, Masked;
    var d, b := Advanced(c, p.header.sequenceNumber), HeaderBytes(p.header);
    var index := PacketIndex(d.roc, p.header.sequenceNumber);
    var masked := Masked(k, p.payload, p.header.ssrc, index);
    IndexCounter(d.roc, p.header.sequenceNumber);
    MaskedBytes(k, p.payload, p.header.ssrc, index);
    var tag := k.mac(b + masked + Be32(d.roc))[..tagLen];
    assert Protected(k, tagLen, c, p) == b + masked + tag;
    assert (b + masked + tag)[..|b| + |masked|] == b + masked;
  }

  lemma IndexCounter(roc: U32, seqNo: U16)
    ensures PacketIndex(roc, seqNo) / 0x1_0000 % 0x1_0000_0000 == roc
  {
  }

  lemma MaskedBytes(k: Keys, payload: seq<Octet>, ssrc: U32, index: nat)
    requires k.Wf()
    ensures var s := k.stream(Iv(k.salt, ssrc, index), |payload|);
            && |s| == |payload| == |Masked(k, payload, ssrc, index)|
            && forall i :: 0 <= i < |payload| ==> Masked(k, payload, ssrc, index)[i] == Xor(payload[i], s[i])
  {
    hide Iv, Xor;
  }

  /** With one index on both sides, what was protected comes back, header and payload,
      exactly when there is a payload. */
  lemma ProtectRoundTrip(k: Keys, tagLen: nat, sender: Roc, receiver: Roc, p: Packet)
    requires k.Wf() && tagLen <= 20 && p.header.Wf()
    requires Advanced(sender, p.header.sequenceNumber) == Advanced(receiver, p.header.sequenceNumber)
    ensures var data := Protected(k, tagLen, sender, p);
            var (r, after) := Unprotected(k, tagLen, receiver, data);
            && (r == Ok(p) <==> p.payload != [])
            && (p.payload != [] ==> after == Advanced(sender, p.header.sequenceNumber))
            && (p.payload == [] ==> r.Err? && after == receiver)
  {
    var d := Advanced(sender, p.header.sequenceNumber);
    var index := PacketIndex(d.roc, p.header.sequenceNumber);
    MaskedTwice(k, p.payload, p.header.ssrc, index);
    var masked := Masked(k, p.payload, p.header.ssrc, index);
    var tag := ProtectedParts(k, tagLen, sender, p);
    UnprotectedParts(k, tagLen, receiver, p.header, masked, tag);
    hide *;
  }

  /** A sender numbers its packets consecutively from seq0.  A receiver gets some of them, in
      order, each step one that can be bridged: it reads every one of them back, from the first,
      whatever it missed. */
  lemma StreamRoundTrip(k: Keys, tagLen: nat, seq0: U16, xs: seq<nat>, m: nat, p: Packet)
    requires k.Wf() && tagLen <= 20 && p.header.Wf() && p.payload != []
    requires Ascending(xs) && Bridged(xs) && m < |xs| && seq0 <= xs[m]
    requires p.header.sequenceNumber == xs[m] % 0x1_0000
    ensures Unprotected(k, tagLen, After(xs[..m]),
                        Protected(k, tagLen, After(Consecutive(seq0, xs[m] - seq0)), p))
            == (Ok(p), RocAt(xs[m]))
  {
    var sent := Consecutive(seq0, xs[m] - seq0);
    SenderIndex(seq0, xs[m] - seq0);
    assert Consecutive(seq0, xs[m] - seq0 + 1) == sent + [xs[m]];
    AfterSnoc(sent, xs[m]);
    ReceiverIff(xs);
    assert xs[..m + 1] == xs[..m] + [xs[m]];
    AfterSnoc(xs[..m], xs[m]);
    ProtectRoundTrip(k, tagLen, After(sent), After(xs[..m]), p);
    hide After, Advanced, Protected, Unprotected, Header.Wf, Consecutive, Bridged, Keys.Wf, RocAt;
  }

  class RtpSession {
    const ssrc: U32
    const payloadType: Octet
    var sequenceNumber: U16
    var timestamp: U32

    constructor (ssrc: U32, payloadType: Octet, seq0: U16, ts0: U32)
      ensures this.ssrc == ssrc && this.payloadType == payloadType && sequenceNumber == seq0 && timestamp == ts0
    {
      this.ssrc, this.payloadType, sequenceNumber, timestamp := ssrc, payloadType, seq0, ts0;
    }

    /** Both counters wrap. */
    method CreatePacketWithDuration(payload: seq<Octet>, durationSamples: nat, marker: bool) returns (p: Packet)
      modifies this
      ensures p.payload == payload && p.header.ssrc == ssrc && p.header.sequenceNumber == old(sequenceNumber)
      ensures p.header.timestamp == old(timestamp) && p.header.marker == marker
      ensures payloadType < 128 ==> p.header.Wf()
      ensures sequenceNumber == (old(sequenceNumber) + 1) % 0x1_0000
      ensures timestamp == (old(timestamp) + durationSamples) % 0x1_0000_0000
    {
      var header := Header(RTP_VERSION, false, false, 0, marker, payloadType, sequenceNumber, timestamp, ssrc, [], 0,
          []);
      sequenceNumber := (sequenceNumber + 1) % 0x1_0000;
      timestamp := (timestamp + durationSamples) % 0x1_0000_0000;
      p := Packet(header, payload);
    }
  }
}
