/** RTP headers (RFC 3550, section 5.1) on the wire. */
module Rtp {
  import opened Basics
  import opened Octets

  const RTP_VERSION := 2
  const MIN_HEADER := 12

  datatype Header = Header(
    version: Octet, padding: bool, extension: bool, csrcCount: Octet, marker: bool, payloadType: Octet,
    sequenceNumber: U16, timestamp: U32, ssrc: U32, csrc: seq<U32>, extensionProfile: U16, extensionData: seq<Octet>)
  {
    function Size(): nat {
      MIN_HEADER + csrcCount * 4 + if extension then 4 + |extensionData| else 0
    }

    /** The list of contributing sources is as long as the header says. */
    predicate Listed() {
      |csrc| == csrcCount
    }

    /** Every field fits the bits it has on the wire. */
    predicate Wf() {
      && version == RTP_VERSION && payloadType < 128 && csrcCount < 16 && Listed()
      && (extension ==> |extensionData| % 4 == 0 && |extensionData| / 4 < 0x1_0000)
      && (!extension ==> extensionProfile == 0 && extensionData == [])
    }
  }

  function Bit(b: bool): int {
    if b then 1 else 0
  }

  function FirstByte(h: Header): Octet {
    h.version % 4 * 64 + Bit(h.padding) * 32 + Bit(h.extension) * 16 + h.csrcCount % 16
  }

  function SecondByte(h: Header): Octet {
    Bit(h.marker) * 128 + h.payloadType % 128
  }

  function CsrcBytes(cs: seq<U32>): (r: seq<Octet>)
    ensures |r| == 4 * |cs|
  {
    if cs == [] then [] else CsrcBytes(cs[..|cs| - 1]) + Be32(cs[|cs| - 1])
  }

  function FixedBytes(h: Header): (r: seq<Octet>)
    ensures |r| == MIN_HEADER
  {
    [FirstByte(h), SecondByte(h)] + Be16(h.sequenceNumber) + Be32(h.timestamp) + Be32(h.ssrc)
  }

  function ExtensionBytes(h: Header): seq<Octet> {
    if h.extension then Be16(h.extensionProfile) + Be16(|h.extensionData| / 4 % 0x1_0000) + h.extensionData else []
  }

  /** What is written: as many sources as are in the list, whatever the header says. */
  function HeaderBytes(h: Header): (r: seq<Octet>)
    ensures |r| == MIN_HEADER + 4 * |h.csrc| + if h.extension then 4 + |h.extensionData| else 0
    ensures h.Listed() ==> |r| == h.Size()
  {
    FixedBytes(h) + CsrcBytes(h.csrc) + ExtensionBytes(h)
  }

  // ---- the layout of section 5.1 of RFC 3550 ----

  /** The first two bytes: version, padding, extension and count; marker and type. */
  lemma FlagLayout(h: Header)
    requires h.Wf()
    ensures var b := HeaderBytes(h);
            && b[0] == 64 * h.version + 32 * (if h.padding then 1 else 0) + 16 * (if h.extension then 1 else 0)
                       + h.csrcCount
            && b[1] == 128 * (if h.marker then 1 else 0) + h.payloadType
  {
    hide CsrcBytes, ExtensionBytes;
  }

  /** The numbers that follow, most significant byte first, and the extension behind the list. */
  lemma NumberLayout(h: Header)
    requires h.Wf()
    ensures var b, at := HeaderBytes(h), 12 + 4 * |h.csrc|;
            && Number(b[2..4]) == h.sequenceNumber && Number(b[4..8]) == h.timestamp && Number(b[8..12]) == h.ssrc
            && |b| == at + (if h.extension then 4 + |h.extensionData| else 0)
            && (h.extension ==>
                  && Number(b[at..at + 2]) == h.extensionProfile
                  && 4 * Number(b[at + 2..at + 4]) == |h.extensionData| && b[at + 4..] == h.extensionData)
  {
    Spelled16(h.sequenceNumber);
    Spelled32(h.timestamp);
    Spelled32(h.ssrc);
    FixedSlices(h);
    if h.extension {
      Spelled16(h.extensionProfile);
      Spelled16(|h.extensionData| / 4);
      ExtensionSlices(h);
    }
    hide CsrcBytes, Be16, Be32, Number, FixedBytes, ExtensionBytes;
  }

  lemma FixedSlices(h: Header)
    ensures var b := HeaderBytes(h);
            b[2..4] == Be16(h.sequenceNumber) && b[4..8] == Be32(h.timestamp) && b[8..12] == Be32(h.ssrc)
  {
    hide Be16, Be32, CsrcBytes, ExtensionBytes;
  }

  lemma ExtensionSlices(h: Header)
    requires h.extension && |h.extensionData| / 4 < 0x1_0000
    ensures var b, at := HeaderBytes(h), 12 + 4 * |h.csrc|;
            && b[at..at + 2] == Be16(h.extensionProfile) && b[at + 2..at + 4] == Be16(|h.extensionData| / 4)
            && b[at + 4..] == h.extensionData
  {
    hide Be16, CsrcBytes, FixedBytes;
  }

  lemma {:induction false} CsrcAt(cs: seq<U32>, i: nat)
    requires i < |cs|
    ensures CsrcBytes(cs)[4 * i..4 * i + 4] == Be32(cs[i])
  {
    hide Be32;
    if i < |cs| - 1 {
      CsrcAt(cs[..|cs| - 1], i);
    }
  }

  lemma CsrcLayout(h: Header, i: nat)
    requires i < |h.csrc|
    ensures Number(HeaderBytes(h)[12 + 4 * i..16 + 4 * i]) == h.csrc[i]
  {
    CsrcAt(h.csrc, i);
    Spelled32(h.csrc[i]);
    hide CsrcBytes, Number, Be32, FixedBytes, ExtensionBytes;
    var b, c := HeaderBytes(h), CsrcBytes(h.csrc);
    assert b[12 + 4 * i..16 + 4 * i] == c[4 * i..4 * i + 4];
  }

  /** Writes s behind what has been written so far. */
  method Put(b: array<Octet>, at: nat, s: seq<Octet>, ghost done: seq<Octet>)
    requires at + |s| <= b.Length && b[..at] == done
    modifies b
    ensures b[..at + |s|] == done + s
    ensures forall j :: at + |s| <= j < b.Length ==> b[j] == old(b[j])
  {
    for i := 0 to |s|
      invariant b[..at + i] == done + s[..i]
      invariant forall j :: at + i <= j < b.Length ==> b[j] == old(b[j])
    {
      b[at + i] := s[i];
    }
    assert s[..|s|] == s;
  }

  /** Writes the header to the front of buf, if there is the room the header asks for.  A list that
      is longer than the header says must fit as well. */
  method EncodeHeader(h: Header, buf: array<Octet>) returns (r: Result<nat, string>)
    requires h.Size() <= buf.Length ==> |HeaderBytes(h)| <= buf.Length
    modifies buf
    ensures r.Ok? <==> buf.Length >= h.Size()
    ensures r.Ok? ==> r.value == h.Size() && buf[..|HeaderBytes(h)|] == HeaderBytes(h)
    ensures r.Ok? ==> forall j :: |HeaderBytes(h)| <= j < buf.Length ==> buf[j] == old(buf[j])
    ensures r.Err? ==> buf[..] == old(buf[..])
  {
    if buf.Length < h.Size() {
      return Err("buffer too small for RTP header");
    }
    hide FirstByte, SecondByte, Be16, Be32, CsrcBytes;
    buf[0] := FirstByte(h);
    buf[1] := SecondByte(h);
    ghost var done := [FirstByte(h), SecondByte(h)];
    Put(buf, 2, Be16(h.sequenceNumber), done);
    done := done + Be16(h.sequenceNumber);
    Put(buf, 4, Be32(h.timestamp), done);
    done := done + Be32(h.timestamp);
    Put(buf, 8, Be32(h.ssrc), done);
    ghost var fixed := FixedBytes(h);
    var offset := EncodeCsrc(h, buf, fixed);
    if h.extension {
      EncodeExtension(h, buf, offset, fixed + CsrcBytes(h.csrc));
    }
    r := Ok(h.Size());
  }

  method EncodeCsrc(h: Header, buf: array<Octet>, ghost done: seq<Octet>) returns (offset: nat)
    requires |done| == MIN_HEADER && MIN_HEADER + 4 * |h.csrc| <= buf.Length && buf[..MIN_HEADER] == done
    modifies buf
    ensures offset == MIN_HEADER + 4 * |h.csrc| && buf[..offset] == done + CsrcBytes(h.csrc)
    ensures forall j :: offset <= j < buf.Length ==> buf[j] == old(buf[j])
  {
    hide CsrcBytes, Be32;
    offset := 12;
    NoCsrc(h);
    for i := 0 to |h.csrc|
      invariant offset == 12 + 4 * i
      invariant buf[..offset] == done + CsrcBytes(h.csrc[..i])
      invariant forall j :: offset <= j < buf.Length ==> buf[j] == old(buf[j])
    {
      CsrcSnoc(h.csrc, i);
      Put(buf, offset, Be32(h.csrc[i]), done + CsrcBytes(h.csrc[..i]));
      offset := offset + 4;
    }
    assert h.csrc[..|h.csrc|] == h.csrc;
  }

  method EncodeExtension(h: Header, buf: array<Octet>, offset: nat, ghost done: seq<Octet>)
    requires h.extension && offset + 4 + |h.extensionData| <= buf.Length && buf[..offset] == done
    modifies buf
    ensures buf[..offset + 4 + |h.extensionData|] == done + ExtensionBytes(h)
    ensures forall j :: offset + 4 + |h.extensionData| <= j < buf.Length ==> buf[j] == old(buf[j])
  {
    hide Be16;
    var p, n := Be16(h.extensionProfile), Be16(|h.extensionData| / 4 % 0x1_0000);
    Put(buf, offset, p, done);
    Put(buf, offset + 2, n, done + p);
    Put(buf, offset + 4, h.extensionData, done + p + n);
  }

  lemma NoCsrc(h: Header)
    ensures CsrcBytes(h.csrc[..0]) == []
  {
  }

  lemma CsrcSnoc(cs: seq<U32>, i: nat)
    requires i < |cs|
    ensures CsrcBytes(cs[..i + 1]) == CsrcBytes(cs[..i]) + Be32(cs[i])
  {
    assert cs[..i + 1][..i] == cs[..i];
  }

  // ---- decoding ----

  function ReadCsrc(b: seq<Octet>, n: nat): (r: seq<U32>)
    requires MIN_HEADER + 4 * n <= |b|
    ensures |r| == n
  {
    if n == 0 then [] else ReadCsrc(b, n - 1) + [Read32(b, MIN_HEADER + 4 * (n - 1))]
  }

  function FixedHeader(b: seq<Octet>): Header
    requires |b| >= MIN_HEADER
  {
    Header(b[0] / 64, b[0] / 32 % 2 == 1, b[0] / 16 % 2 == 1, b[0] % 16, b[1] / 128 == 1, b[1] % 128,
           Read16(b, 2), Read32(b, 4), Read32(b, 8), [], 0, [])
  }

  /** The extension is taken only when all of it is there. */
  function WithExtension(h: Header, b: seq<Octet>, offset: nat): Header {
    if h.extension && |b| >= offset + 4 then
      var p := h.(extensionProfile := Read16(b, offset));
      var extBytes := Read16(b, offset + 2) * 4;
      if |b| >= offset + 4 + extBytes then p.(extensionData := b[offset + 4..offset + 4 + extBytes]) else p
    else h
  }

  function Decoded(b: seq<Octet>): Result<Header, string> {
    if |b| < MIN_HEADER then Err("buffer too small for RTP header")
    else if b[0] / 64 != RTP_VERSION then Err("invalid RTP version")
    else
      var n := b[0] % 16;
      if |b| < MIN_HEADER + n * 4 then Err("buffer too small for CSRC list")
      else Ok(WithExtension(FixedHeader(b).(csrc := ReadCsrc(b, n)), b, MIN_HEADER + 4 * n))
  }

  method DecodeHeader(b: seq<Octet>) returns (r: Result<Header, string>)
    ensures r == Decoded(b)
  {
    if |b| < MIN_HEADER {
      return Err("buffer too small for RTP header");
    }
    var version := b[0] / 64;
    if version != RTP_VERSION {
      return Err("invalid RTP version");
    }
    var h := FixedHeader(b);
    var headerSize := MIN_HEADER + h.csrcCount * 4;
    if |b| < headerSize {
      return Err("buffer too small for CSRC list");
    }
    var offset := 12;
    var cs: seq<U32> := [];
    for i := 0 to h.csrcCount
      invariant offset == 12 + 4 * i && cs == ReadCsrc(b, i)
    {
      cs := cs + [Read32(b, offset)];
      offset := offset + 4;
    }
    h := h.(csrc := cs);
    if h.extension && |b| >= offset + 4 {
      h := h.(extensionProfile := Read16(b, offset));
      var extBytes := Read16(b, offset + 2) * 4;
      offset := offset + 4;
      if |b| >= offset + extBytes {
        h := h.(extensionData := b[offset..offset + extBytes]);
      }
    }
    r := Ok(h);
  }

  // ---- round trips ----

  lemma {:induction false} CsrcBack(a: seq<Octet>, cs: seq<U32>, tail: seq<Octet>)
    requires |a| == MIN_HEADER
    ensures ReadCsrc(a + CsrcBytes(cs) + tail, |cs|) == cs
    decreases |cs|
  {
    if cs != [] {
      var n := |cs| - 1;
      var head, last := CsrcBytes(cs[..n]), Be32(cs[n]);
      CsrcBack(a, cs[..n], last + tail);
      assert a + CsrcBytes(cs) + tail == a + head + (last + tail);
      Read32Later(a + head, last + tail, 0);
      Read32Early(last, tail, 0);
      Be32Read(cs[n]);
    }
  }

  lemma FixedBack(h: Header, tail: seq<Octet>)
    ensures var b := FixedBytes(h) + tail;
            && b[0] == FirstByte(h) && b[1] == SecondByte(h)
            && Read16(b, 2) == h.sequenceNumber && Read32(b, 4) == h.timestamp && Read32(b, 8) == h.ssrc
  {
    Be16Read(h.sequenceNumber);
    Be32Read(h.timestamp);
    Be32Read(h.ssrc);
    var p := [FirstByte(h), SecondByte(h)];
    var b := FixedBytes(h) + tail;
    hide Be16, Be32, FirstByte, SecondByte, Read16, Read32;
    var s, t, u := Be16(h.sequenceNumber), Be32(h.timestamp), Be32(h.ssrc);
    assert b == p + (s + (t + (u + tail))) && b == (p + s) + (t + (u + tail)) && b == (p + s + t) + (u + tail);
    Read16Later(p, s + (t + (u + tail)), 0);
    Read16Early(s, t + (u + tail), 0);
    Read32Later(p + s, t + (u + tail), 0);
    Read32Early(t, u + tail, 0);
    Read32Later(p + s + t, u + tail, 0);
    Read32Early(u, tail, 0);
  }

  lemma FlagsBack(h: Header)
    ensures FirstByte(h) / 64 == h.version % 4 && FirstByte(h) % 16 == h.csrcCount % 16
    ensures (FirstByte(h) / 32 % 2 == 1) == h.padding && (FirstByte(h) / 16 % 2 == 1) == h.extension
    ensures (SecondByte(h) / 128 == 1) == h.marker && SecondByte(h) % 128 == h.payloadType % 128
  {
  }

  lemma ExtensionReads(before: seq<Octet>, p: seq<Octet>, w: seq<Octet>, data: seq<Octet>, tail: seq<Octet>)
    requires |p| == 2 && |w| == 2
    ensures var b, n := before + (p + w + data) + tail, |before|;
            && |b| >= n + 4 + |data| && Read16(b, n) == Read16(p, 0) && Read16(b, n + 2) == Read16(w, 0)
            && b[n + 4..n + 4 + |data|] == data
  {
    hide Read16;
    var b, rest := before + (p + w + data) + tail, data + tail;
    assert b == before + (p + (w + rest)) && b == (before + p) + (w + rest);
    Read16Later(before, p + (w + rest), 0);
    Read16Early(p, w + rest, 0);
    Read16Later(before + p, w + rest, 0);
    Read16Early(w, rest, 0);
  }

  lemma ExtensionBack(h: Header, g: Header, before: seq<Octet>, tail: seq<Octet>)
    requires h.Wf() && g == h.(extensionProfile := 0, extensionData := [])
    ensures WithExtension(g, before + ExtensionBytes(h) + tail, |before|) == h
  {
    if h.extension {
      var w := |h.extensionData| / 4;
      Be16Read(h.extensionProfile);
      Be16Read(w);
      ExtensionReads(before, Be16(h.extensionProfile), Be16(w), h.extensionData, tail);
      hide Be16, Read16;
    }
  }

  /** Whatever a decoder accepts fits the wire. */
  lemma DecodedWf(b: seq<Octet>)
    requires Decoded(b).Ok?
    ensures Decoded(b).value.Wf()
  {
    hide Read16, Read32, ReadCsrc;
  }

  lemma FixedHeaderBack(h: Header, tail: seq<Octet>)
    requires h.Wf()
    ensures var b := FixedBytes(h) + tail;
            && b[0] / 64 == RTP_VERSION && b[0] % 16 == h.csrcCount
            && FixedHeader(b) == h.(csrc := [], extensionProfile := 0, extensionData := [])
  {
    FixedBack(h, tail);
    FlagsBack(h);
    hide FirstByte, SecondByte, Read16, Read32, FixedBytes;
  }

  lemma WfRoundTrip(h: Header, tail: seq<Octet>)
    requires h.Wf()
    ensures Decoded(HeaderBytes(h) + tail) == Ok(h)
  {
    hide HeaderBytes, ReadCsrc, WithExtension, FixedHeader, Header.Wf, Header.Listed;
    HeaderRead(h, tail, HeaderBytes(h) + tail);
  }

  /** The bytes of a header, grouped as the decoder reads them. */
  lemma Regrouped(h: Header, tail: seq<Octet>)
    ensures var fixed, cs, ext := FixedBytes(h), CsrcBytes(h.csrc), ExtensionBytes(h);
            var b := HeaderBytes(h) + tail;
            b == fixed + (cs + ext + tail) && b == fixed + cs + (ext + tail) && b == (fixed + cs) + ext + tail
  {
    hide FixedBytes, CsrcBytes, ExtensionBytes;
  }

  lemma HeaderRead(h: Header, tail: seq<Octet>, b: seq<Octet>)
    requires h.Wf() && b == HeaderBytes(h) + tail
    ensures |b| >= MIN_HEADER + 4 * |h.csrc| && b[0] / 64 == RTP_VERSION && b[0] % 16 == |h.csrc|
    ensures WithExtension(FixedHeader(b).(csrc := ReadCsrc(b, |h.csrc|)), b, MIN_HEADER + 4 * |h.csrc|) == h
  {
    assert h.csrcCount == |h.csrc| && h.version == RTP_VERSION;
    var fixed, cs, ext := FixedBytes(h), CsrcBytes(h.csrc), ExtensionBytes(h);
    Regrouped(h, tail);
    hide HeaderBytes, FixedBytes, CsrcBytes, ExtensionBytes, ReadCsrc, WithExtension, FixedHeader;
    FixedHeaderBack(h, cs + ext + tail);
    CsrcBack(fixed, h.csrc, ext + tail);
    ExtensionBack(h, h.(extensionProfile := 0, extensionData := []), fixed + cs, tail);
    assert FixedHeader(b).(csrc := h.csrc) == h.(extensionProfile := 0, extensionData := []);
  }

  /** A header survives the wire exactly when its fields fit it, whatever follows. */
  lemma RoundTrip(h: Header, tail: seq<Octet>)
    ensures Decoded(HeaderBytes(h) + tail) == Ok(h) <==> h.Wf()
  {
    if h.Wf() {
      WfRoundTrip(h, tail);
    }
    if Decoded(HeaderBytes(h) + tail) == Ok(h) {
      DecodedWf(HeaderBytes(h) + tail);
    }
  }

  /** All the extension bytes that the length field promises are there. */
  ghost predicate Complete(b: seq<Octet>)
    requires Decoded(b).Ok?
  {
    var at := MIN_HEADER + 4 * (b[0] % 16);
    b[0] / 16 % 2 == 0 || (|b| >= at + 4 && |b| >= at + 4 + Read16(b, at + 2) * 4)
  }

  lemma {:induction false} CsrcForth(b: seq<Octet>, n: nat)
    requires MIN_HEADER + 4 * n <= |b|
    ensures CsrcBytes(ReadCsrc(b, n)) == b[MIN_HEADER..MIN_HEADER + 4 * n]
  {
    if n > 0 {
      CsrcForth(b, n - 1);
      Read32Be(b, MIN_HEADER + 4 * (n - 1));
      assert ReadCsrc(b, n)[..n - 1] == ReadCsrc(b, n - 1);
    }
  }

  lemma FlagsForth(b: seq<Octet>)
    requires |b| >= MIN_HEADER && b[0] / 64 == RTP_VERSION
    ensures FirstByte(FixedHeader(b)) == b[0] && SecondByte(FixedHeader(b)) == b[1]
  {
    Bits(b[0], b[1]);
    hide Read16, Read32;
  }

  lemma Bits(x: Octet, y: Octet)
    ensures x / 64 % 4 * 64 + x / 32 % 2 * 32 + x / 16 % 2 * 16 + x % 16 == x
    ensures y / 128 * 128 + y % 128 == y
  {
  }

  lemma FixedForth(b: seq<Octet>)
    requires |b| >= MIN_HEADER && b[0] / 64 == RTP_VERSION
    ensures FixedBytes(FixedHeader(b)) == b[..MIN_HEADER]
  {
    FlagsForth(b);
    Read16Be(b, 2);
    Read32Be(b, 4);
    Read32Be(b, 8);
    hide FirstByte, SecondByte, Be16, Be32;
    assert b[..MIN_HEADER] == [b[0], b[1]] + b[2..4] + b[4..8] + b[8..12];
  }

  lemma ExtensionWhole(h: Header, b: seq<Octet>, at: nat)
    requires h.extension && at + 4 <= |b|
    requires h.extensionProfile == Read16(b, at)
    requires at + 4 + Read16(b, at + 2) * 4 <= |b| && h.extensionData == b[at + 4..at + 4 + Read16(b, at + 2) * 4]
    ensures ExtensionBytes(h) == b[at..at + 4 + |h.extensionData|]
  {
    Read16Be(b, at);
    Read16Be(b, at + 2);
    hide Be16, Read16;
    assert b[at..at + 4 + |h.extensionData|]
        == b[at..at + 2] + b[at + 2..at + 4] + b[at + 4..at + 4 + |h.extensionData|];
  }

  lemma ExtensionCut(h: Header, b: seq<Octet>, at: nat)
    requires h.extension && at + 4 <= |b| && h.extensionData == [] && Read16(b, at + 2) != 0
    ensures ExtensionBytes(h) != b[at..at + 4]
  {
    Be16Read(0);
    var e := ExtensionBytes(h);
    assert e[2..4] == Be16(0);
    assert Read16(e, 2) == 0 && Read16(b[at..at + 4], 2) == Read16(b, at + 2);
  }

  ghost predicate ExtensionDecoded(h: Header, b: seq<Octet>, at: nat) {
    && (h.extension && at + 4 <= |b| ==> h.extensionProfile == Read16(b, at))
    && (h.extension && at + 4 <= |b| && at + 4 + Read16(b, at + 2) * 4 <= |b| ==>
          h.extensionData == b[at + 4..at + 4 + Read16(b, at + 2) * 4])
    && (h.extension && at + 4 <= |b| && at + 4 + Read16(b, at + 2) * 4 > |b| ==> h.extensionData == [])
    && (h.extension && at + 4 > |b| ==> h.extensionData == [])
    && (!h.extension ==> h.extensionData == [])
  }

  lemma ExtensionPrefix(h: Header, b: seq<Octet>, at: nat)
    requires at <= |b| && ExtensionDecoded(h, b, at)
    ensures b[..at] + ExtensionBytes(h) <= b
            <==> !h.extension || (|b| >= at + 4 && |b| >= at + 4 + Read16(b, at + 2) * 4)
  {
    PrefixSplit(b, at, ExtensionBytes(h));
    if h.extension && at + 4 <= |b| {
      if at + 4 + Read16(b, at + 2) * 4 <= |b| {
        ExtensionWhole(h, b, at);
      } else {
        ExtensionCut(h, b, at);
      }
    }
  }

  lemma DecodedFields(b: seq<Octet>)
    requires Decoded(b).Ok?
    ensures var h, at := Decoded(b).value, MIN_HEADER + 4 * (b[0] % 16);
            && at <= |b| && h.Listed() && h.extension == (b[0] / 16 % 2 == 1)
            && FixedBytes(h) == b[..MIN_HEADER] && CsrcBytes(h.csrc) == b[MIN_HEADER..at]
            && ExtensionDecoded(h, b, at)
  {
    var n := b[0] % 16;
    FixedForth(b);
    CsrcForth(b, n);
    hide Read32, ReadCsrc, Be16, Be32, FirstByte, SecondByte, CsrcBytes, Read16;
    assert FixedBytes(Decoded(b).value) == FixedBytes(FixedHeader(b)) by {
      SameFixed(FixedHeader(b), Decoded(b).value);
    }
  }

  lemma SameFixed(g: Header, h: Header)
    requires h == g.(csrc := h.csrc, extensionProfile := h.extensionProfile, extensionData := h.extensionData)
    ensures FixedBytes(g) == FixedBytes(h)
  {
  }

  /** Encoding a decoded header gives back the bytes it was read from, exactly when its
      extension was not cut short. */
  lemma Reencode(b: seq<Octet>)
    requires Decoded(b).Ok?
    ensures Decoded(b).value.Listed() && (HeaderBytes(Decoded(b).value) <= b <==> Complete(b))
  {
    DecodedFields(b);
    var at := MIN_HEADER + 4 * (b[0] % 16);
    hide Decoded, FixedBytes, CsrcBytes, ExtensionBytes, Read16;
    assert b[..at] == b[..MIN_HEADER] + b[MIN_HEADER..at];
    ExtensionPrefix(Decoded(b).value, b, at);
  }

  lemma PrefixSplit(b: seq<Octet>, at: nat, e: seq<Octet>)
    requires at <= |b|
    ensures b[..at] + e <= b <==> at + |e| <= |b| && e == b[at..at + |e|]
  {
    if b[..at] + e <= b {
      assert (b[..at] + e)[at..] == b[at..at + |e|];
    }
    if at + |e| <= |b| && e == b[at..at + |e|] {
      assert b[..at] + e == b[..at + |e|];
    }
  }
}
