/** STUN messages (RFC 5389): a header of twenty bytes and a list of attributes, each with
    its type, its length, its value and padding to a multiple of four.  The authentication
    code and the checksum are parameters. */
module Stun {
  import opened Basics
  import opened Arithmetic
  import opened Octets

  const COOKIE: U32 := 0x2112a442
  const FINGERPRINT_XOR: U32 := 0x5354554e
  const HEADER := 20
  const TXID := 12
  const ATTR_ERROR_CODE: U16 := 0x0009
  const ATTR_INTEGRITY: U16 := 0x0008
  const ATTR_ROUTING_ID: U16 := 0x4033
  const ATTR_FINGERPRINT: U16 := 0x8028

  datatype Attribute = Attribute(kind: U16, data: seq<Octet>) {
    /** The length fits its field. */
    predicate Wf() { |data| < 0x1_0000 }
  }

  function Padding(n: nat): nat {
    (4 - n % 4) % 4
  }

  lemma PaddedSize(n: nat)
    ensures (4 + n + Padding(n)) % 4 == 0 && (n % 4 == 0 ==> Padding(n) == 0)
  {
    var q, r := n / 4, n % 4;
    assert n == 4 * q + r;
    if r == 0 {
      assert 4 + n + Padding(n) == 4 * (q + 1);
    } else {
      assert Padding(n) == 4 - r;
      assert 4 + n + Padding(n) == 4 * (q + 2);
    }
  }

  // ---- writing ----

  function EncodeAttribute(a: Attribute): (r: seq<Octet>)
    ensures |r| == 4 + |a.data| + Padding(|a.data|) && |r| % 4 == 0
  {
    PaddedSize(|a.data|);
    AttributeHead(a) + a.data + Filled<Octet>(0, Padding(|a.data|))
  }

  function AttributeHead(a: Attribute): (r: seq<Octet>)
    ensures |r| == 4
  {
    Be16(a.kind) + Be16(|a.data|)
  }

  function EncodeAll(xs: seq<Attribute>): (r: seq<Octet>)
    ensures |r| % 4 == 0
  {
    if xs == [] then []
    else
      var e, rest := EncodeAttribute(xs[0]), EncodeAll(xs[1..]);
      WordsAdd(|e|, |rest|);
      e + rest
  }

  lemma WordsAdd(m: nat, n: nat)
    requires m % 4 == 0 && n % 4 == 0
    ensures (m + n) % 4 == 0
  {
  }

  lemma {:induction false} EncodeAppended(xs: seq<Attribute>, ys: seq<Attribute>)
    ensures EncodeAll(xs + ys) == EncodeAll(xs) + EncodeAll(ys)
  {
    if xs == [] {
      assert xs + ys == ys;
    } else {
      assert (xs + ys)[1..] == xs[1..] + ys;
      EncodeAppended(xs[1..], ys);
    }
  }

  /** Twelve bytes of the transaction identifier, zeros where it is shorter. */
  function TxidBytes(txid: seq<Octet>): (r: seq<Octet>)
    ensures |r| == TXID && (|txid| == TXID ==> r == txid)
  {
    if |txid| >= TXID then txid[..TXID] else txid + Filled<Octet>(0, TXID - |txid|)
  }

  function Header(msgType: int, length: nat, txid: seq<Octet>): (r: seq<Octet>)
    ensures |r| == HEADER
  {
    Be16(msgType) + Be16(length) + Be32(COOKIE) + TxidBytes(txid)
  }

  // ---- the layout of sections 6 and 15 of RFC 5389 ----

  /** Type, length, the cookie, the transaction. */
  lemma HeaderLayout(msgType: U16, length: U16, txid: seq<Octet>)
    requires |txid| == TXID
    ensures var b := Header(msgType, length, txid);
            && Number(b[0..2]) == msgType && Number(b[2..4]) == length
            && b[4..8] == [0x21, 0x12, 0xa4, 0x42] && b[8..] == txid
  {
    Spelled16(msgType);
    Spelled16(length);
    var b := Header(msgType, length, txid);
    assert Be32(COOKIE) == [0x21, 0x12, 0xa4, 0x42];
    hide Be16, Be32, Number;
    assert b[0..2] == Be16(msgType) && b[2..4] == Be16(length) && b[4..8] == Be32(COOKIE) && b[8..] == TxidBytes(txid);
  }

  /** Kind, length, the value, and as many zeros as make the whole a multiple of four, at most three. */
  lemma AttributeLayout(a: Attribute)
    requires a.Wf()
    ensures var e, n := EncodeAttribute(a), |a.data|;
            && Number(e[0..2]) == a.kind && Number(e[2..4]) == n && e[4..4 + n] == a.data
            && |e| % 4 == 0 && |e| <= 4 + n + 3 && forall i :: 4 + n <= i < |e| ==> e[i] == 0
  {
    Spelled16(a.kind);
    Spelled16(|a.data|);
    var e := EncodeAttribute(a);
    hide Be16, Number;
    assert e[0..2] == Be16(a.kind) && e[2..4] == Be16(|a.data|);
  }

  datatype Codes = Codes(mac: (seq<Octet>, seq<Octet>) -> seq<Octet>, crc: seq<Octet> -> U32) {
    ghost predicate Wf() {
      forall k, m :: |mac(k, m)| == 20
    }
  }

  function Xor32(a: U32, b: U32): U32 {
    assert Pow2(32) == 0x1_0000_0000 by { PowHigh(); }
    XorBits(a, b, 32)
  }

  /** The attributes followed by the integrity code, if there is a key. */
  function Signed(cs: Codes, msgType: int, attrs: seq<Octet>, txid: seq<Octet>,
                  key: Option<seq<Octet>>): seq<Attribute> {
    match key
    case None => []
    case Some(k) => [Attribute(ATTR_INTEGRITY, cs.mac(k, Header(msgType, |attrs| + 24, txid) + attrs))]
  }

  function Marked(cs: Codes, msgType: int, attrs: seq<Octet>, txid: seq<Octet>, fingerprint: bool): seq<Attribute> {
    if fingerprint then
      [Attribute(ATTR_FINGERPRINT, Be32(Xor32(cs.crc(Header(msgType, |attrs| + 8, txid) + attrs), FINGERPRINT_XOR)))]
    else []
  }

  method BuildStunMessage(cs: Codes, msgType: int, attrs: seq<Octet>, txid: seq<Octet>, key: Option<seq<Octet>>,
                          includeFingerprint: bool) returns (message: seq<Octet>)
    ensures var signed := attrs + EncodeAll(Signed(cs, msgType, attrs, txid, key));
            var body := signed + EncodeAll(Marked(cs, msgType, signed, txid, includeFingerprint));
            message == Header(msgType, |body|, txid) + body
  {
    hide Header, EncodeAttribute, Be16, Be32, EncodeAll, Xor32;
    OneEncoded();
    var attrsData := attrs;
    if key.Some? {
      var hmacHeader := Header(msgType, |attrsData| + 24, txid);
      var miAttr := EncodeAttribute(Attribute(ATTR_INTEGRITY, cs.mac(key.value, hmacHeader + attrsData)));
      attrsData := attrsData + miAttr;
    }
    ghost var signed := attrs + EncodeAll(Signed(cs, msgType, attrs, txid, key));
    assert attrsData == signed;
    if includeFingerprint {
      var crcHeader := Header(msgType, |attrsData| + 8, txid);
      var fingerprint := Xor32(cs.crc(crcHeader + attrsData), FINGERPRINT_XOR);
      var fpAttr := EncodeAttribute(Attribute(ATTR_FINGERPRINT, Be32(fingerprint)));
      attrsData := attrsData + fpAttr;
    }
    assert attrsData == signed + EncodeAll(Marked(cs, msgType, signed, txid, includeFingerprint));
    message := Header(msgType, |attrsData|, txid) + attrsData;
  }

  lemma OneEncoded()
    ensures EncodeAll([]) == [] && forall a :: EncodeAll([a]) == EncodeAttribute(a)
  {
    forall a ensures EncodeAll([a]) == EncodeAttribute(a) {
      assert [a][1..] == [];
    }
  }

  /** What is on the wire for a list of attributes. */
  function Trailer(cs: Codes, msgType: int, xs: seq<Attribute>, txid: seq<Octet>, key: Option<seq<Octet>>,
                   fingerprint: bool): seq<Attribute> {
    var attrs := EncodeAll(xs);
    var mi := Signed(cs, msgType, attrs, txid, key);
    mi + Marked(cs, msgType, attrs + EncodeAll(mi), txid, fingerprint)
  }

  function Message(cs: Codes, msgType: int, xs: seq<Attribute>, txid: seq<Octet>, key: Option<seq<Octet>>,
                   fingerprint: bool): seq<Octet> {
    var all := xs + Trailer(cs, msgType, xs, txid, key, fingerprint);
    Header(msgType, |EncodeAll(all)|, txid) + EncodeAll(all)
  }

  lemma BuiltMessage(cs: Codes, msgType: int, xs: seq<Attribute>, txid: seq<Octet>, key: Option<seq<Octet>>,
                     fingerprint: bool)
    ensures var attrs := EncodeAll(xs);
            var signed := attrs + EncodeAll(Signed(cs, msgType, attrs, txid, key));
            var body := signed + EncodeAll(Marked(cs, msgType, signed, txid, fingerprint));
            body == EncodeAll(xs + Trailer(cs, msgType, xs, txid, key, fingerprint))
            && Message(cs, msgType, xs, txid, key, fingerprint) == Header(msgType, |body|, txid) + body
  {
    var attrs := EncodeAll(xs);
    var mi := Signed(cs, msgType, attrs, txid, key);
    var fp := Marked(cs, msgType, attrs + EncodeAll(mi), txid, fingerprint);
    EncodeAppended(xs, mi + fp);
    EncodeAppended(mi, fp);
    hide EncodeAll, Signed, Marked, Header;
    assert attrs + (EncodeAll(mi) + EncodeAll(fp)) == attrs + EncodeAll(mi) + EncodeAll(fp);
  }

  // ---- reading ----

  datatype Notes = Notes(errorCode: nat, errorReason: seq<Octet>, routingId: nat)

  /** What the parser takes from one attribute. */
  function Note(n: Notes, a: Attribute, success: bool): Notes {
    var m :=
      if a.kind == ATTR_ERROR_CODE && |a.data| >= 4 then
        var errorClass: int, errorNumber: int := a.data[2] % 8, a.data[3];
        n.(errorCode := errorClass * 100 + errorNumber,
           errorReason := if |a.data| > 4 then a.data[4..] else n.errorReason)
      else n;
    if a.kind == ATTR_ROUTING_ID && success && |a.data| == 8 then
      m.(routingId := Read32(a.data, 0) * 0x1_0000_0000 + Read32(a.data, 4))
    else m
  }

  function NotesOf(xs: seq<Attribute>, success: bool): Notes {
    if xs == [] then Notes(0, [], 0) else Note(NotesOf(xs[..|xs| - 1], success), xs[|xs| - 1], success)
  }

  datatype Class = Request | Indication | Success | Error

  function ClassOf(raw: U16): Class {
    match (raw / 0x100 % 2 * 2 + raw / 0x10 % 2)
    case 0 => Request
    case 1 => Indication
    case 2 => Success
    case _ => Error
  }

  /** Twelve bits of the method, around the two of the class. */
  function MethodBits(raw: U16): nat {
    raw / 0x200 % 0x20 * 0x80 + raw / 0x20 % 8 * 0x10 + raw % 0x10
  }

  datatype Info = Info(rawType: U16, methodBits: nat, kind: Class, txid: seq<Octet>, length: nat,
                       attributes: seq<Attribute>, notes: Notes)

  /** The attributes from the offset on, those that start and end in time. */
  function ParsedFrom(data: seq<Octet>, offset: nat, limit: nat): seq<Attribute>
    decreases |data| - offset
  {
    if offset + 4 > limit || offset + 4 > |data| then []
    else
      var n := Read16(data, offset + 2);
      var end := offset + 4 + n;
      if end > |data| then []
      else [Attribute(Read16(data, offset), data[offset + 4..end])] + ParsedFrom(data, end + Padding(n), limit)
  }

  /** A message without the cookie is accepted only as a ping or a pong. */
  function Parsed(data: seq<Octet>): Option<Info> {
    if |data| < HEADER then None
    else
      var raw, txid := Read16(data, 0), data[8..20];
      if Read32(data, 4) != COOKIE then
        if raw == 0x0801 || raw == 0x0802 then
          Some(Info(raw, MethodBits(raw), Indication, txid, |data|, [], NotesOf([], false)))
        else None
      else
        var xs := ParsedFrom(data, HEADER, HEADER + Read16(data, 2));
        Some(Info(raw, MethodBits(raw), ClassOf(raw), txid, |data|, xs, NotesOf(xs, ClassOf(raw) == Success)))
  }

  /** One turn of the parser's loop. */
  lemma ParsedStep(data: seq<Octet>, offset: nat, limit: nat)
    ensures ParsedFrom(data, offset, limit)
            == if offset + 4 > limit || offset + 4 > |data| || offset + 4 + Read16(data, offset + 2) > |data| then []
               else
                 var n := Read16(data, offset + 2);
                 [Attribute(Read16(data, offset), data[offset + 4..offset + 4 + n])]
                 + ParsedFrom(data, offset + 4 + n + Padding(n), limit)
  {
  }

  lemma NotesSnoc(xs: seq<Attribute>, a: Attribute, success: bool)
    ensures NotesOf(xs + [a], success) == Note(NotesOf(xs, success), a, success)
    ensures NotesOf([], success) == Notes(0, [], 0)
  {
    assert (xs + [a])[..|xs|] == xs;
  }

  method ParseStunResponse(data: seq<Octet>) returns (r: Option<Info>)
    ensures r == Parsed(data)
  {
    if |data| < 20 {
      return None;
    }
    hide ParsedFrom, NotesOf, Note, Read16, Read32, ClassOf, MethodBits;
    var cookie := Read32(data, 4);
    var rawType := Read16(data, 0);
    if cookie != COOKIE {
      if rawType == 0x0801 || rawType == 0x0802 {
        NotesSnoc([], Attribute(0, []), false);
        return Some(Info(rawType, MethodBits(rawType), Indication, data[8..20], |data|, [], Notes(0, [], 0)));
      }
      return None;
    }
    var msgLength := Read16(data, 2);
    var kind := ClassOf(rawType);
    var attributes, notes := ParseAttributes(data, msgLength, kind == Success);
    r := Some(Info(rawType, MethodBits(rawType), kind, data[8..20], |data|, attributes, notes));
  }

  method ParseAttributes(data: seq<Octet>, msgLength: nat, success: bool)
      returns (attributes: seq<Attribute>, notes: Notes)
    requires |data| >= HEADER
    ensures attributes == ParsedFrom(data, HEADER, HEADER + msgLength) && notes == NotesOf(attributes, success)
  {
    hide ParsedFrom, NotesOf, Note, Read16, Padding;
    attributes := [];
    notes := Notes(0, [], 0);
    NotesSnoc([], Attribute(0, []), success);
    var offset := 20;
    ghost var limit, all := HEADER + msgLength, ParsedFrom(data, HEADER, HEADER + msgLength);
    assert [] + all == all;
    while offset + 4 <= 20 + msgLength && offset + 4 <= |data|
      invariant 0 <= offset && all == attributes + ParsedFrom(data, offset, limit)
      invariant notes == NotesOf(attributes, success)
      decreases |data| - offset
    {
      var attrType := Read16(data, offset);
      var attrLength := Read16(data, offset + 2);
      var attrEnd := offset + 4 + attrLength;
      if attrEnd > |data| {
        break;
      }
      var a := Attribute(attrType, data[offset + 4..attrEnd]);
      ParsedMore(data, offset, limit, attributes);
      NotesSnoc(attributes, a, success);
      attributes := attributes + [a];
      notes := TakeNote(notes, a, success);
      offset := attrEnd + Padding(attrLength);
    }
    ParsedStop(data, offset, limit);
    assert attributes + [] == attributes;
  }

  method TakeNote(notes: Notes, a: Attribute, success: bool) returns (r: Notes)
    ensures r == Note(notes, a, success)
  {
    r := notes;
    if a.kind == 0x0009 && |a.data| >= 4 {
      var errorClass: int, errorNumber: int := a.data[2] % 8, a.data[3];
      r := r.(errorCode := errorClass * 100 + errorNumber);
      if |a.data| > 4 {
        r := r.(errorReason := a.data[4..]);
      }
    }
    if a.kind == 0x4033 && success && |a.data| == 8 {
      r := r.(routingId := Read32(a.data, 0) * 0x1_0000_0000 + Read32(a.data, 4));
    }
  }

  /** An error attribute with a class and a number below a hundred is noted with the code whose hundreds
      and rest they are, and the text behind them. */
  lemma ErrorNoted(n: Notes, errorClass: Octet, errorNumber: Octet, reason: seq<Octet>, success: bool)
    requires errorClass < 8 && errorNumber < 100
    ensures var m := Note(n, Attribute(0x0009, [0, 0, errorClass, errorNumber] + reason), success);
            && m.errorCode / 100 == errorClass && m.errorCode % 100 == errorNumber && m.routingId == n.routingId
            && m.errorReason == if reason == [] then n.errorReason else reason
  {
    assert ([0, 0, errorClass, errorNumber] + reason)[4..] == reason;
  }

  /** Eight bytes of a routing identifier are noted as the number they spell, in a success only; nothing else
      changes the notes. */
  lemma RoutingNoted(n: Notes, a: Attribute, success: bool)
    ensures a.kind == 0x4033 && |a.data| == 8 && success ==> Note(n, a, success) == n.(routingId := Number(a.data))
    ensures a.kind != 0x0009 && (a.kind != 0x4033 || !success || |a.data| != 8) ==> Note(n, a, success) == n
    ensures a.kind == 0x0009 && |a.data| < 4 ==> Note(n, a, success) == n
  {
    if |a.data| == 8 {
      Number64(a.data);
    }
    hide Number, Read32;
  }

  lemma Number64(b: seq<Octet>)
    requires |b| == 8
    ensures Number(b) == Read32(b, 0) * 0x1_0000_0000 + Read32(b, 4)
  {
    Number32(b[..4]);
    Number32(b[4..]);
    NumberSplit(b[..4], b[4..]);
    Be32Read(Number(b[..4]));
    Be32Read(Number(b[4..]));
    assert b == b[..4] + b[4..];
    Read32Early(b[..4], b[4..], 0);
    Read32Later(b[..4], b[4..], 0);
    hide Number, Read32, Be32;
  }

  lemma ParsedMore(data: seq<Octet>, offset: nat, limit: nat, done: seq<Attribute>)
    requires offset + 4 <= limit && offset + 4 <= |data| && offset + 4 + Read16(data, offset + 2) <= |data|
    ensures var n := Read16(data, offset + 2);
            var a := Attribute(Read16(data, offset), data[offset + 4..offset + 4 + n]);
            done + ParsedFrom(data, offset, limit)
            == (done + [a]) + ParsedFrom(data, offset + 4 + n + Padding(n), limit)
  {
    ParsedStep(data, offset, limit);
    hide ParsedFrom, Read16, Padding;
  }

  lemma ParsedStop(data: seq<Octet>, offset: nat, limit: nat)
    requires offset + 4 > limit || offset + 4 > |data| || offset + 4 + Read16(data, offset + 2) > |data|
    ensures ParsedFrom(data, offset, limit) == []
  {
  }

  // ---- there and back ----

  /** The attributes that start, with their four bytes of head, within the room. */
  function Within(xs: seq<Attribute>, room: int): seq<Attribute> {
    if xs == [] || room < 4 then []
    else [xs[0]] + Within(xs[1..], room - |EncodeAttribute(xs[0])|)
  }

  lemma {:induction false} ParsedWithin(front: seq<Octet>, xs: seq<Attribute>, limit: nat)
    requires forall a :: a in xs ==> a.Wf()
    ensures ParsedFrom(front + EncodeAll(xs), |front|, limit) == Within(xs, limit - |front|)
    decreases |xs|
  {
    if xs != [] && |front| + 4 <= limit {
      ParsedOne(front, xs[0], EncodeAll(xs[1..]), limit);
      ParsedWithin(front + EncodeAttribute(xs[0]), xs[1..], limit);
    } else {
      ParsedStep(front + EncodeAll(xs), |front|, limit);
    }
    hide ParsedFrom, EncodeAttribute;
  }

  lemma ParsedOne(front: seq<Octet>, a: Attribute, rest: seq<Octet>, limit: nat)
    requires a.Wf() && |front| + 4 <= limit
    ensures var e := EncodeAttribute(a);
            ParsedFrom(front + (e + rest), |front|, limit) == [a] + ParsedFrom(front + e + rest, |front + e|, limit)
  {
    var e := EncodeAttribute(a);
    hide ParsedFrom, EncodeAttribute, Read16, Padding;
    AttributeBack(front, a, rest);
    ParsedStep(front + (e + rest), |front|, limit);
    assert front + e + rest == front + (e + rest);
  }

  lemma AttributeBack(front: seq<Octet>, a: Attribute, rest: seq<Octet>)
    requires a.Wf()
    ensures var data, at := front + (EncodeAttribute(a) + rest), |front|;
            && at + 4 + |a.data| <= |data|
            && Read16(data, at) == a.kind && Read16(data, at + 2) == |a.data|
            && data[at + 4..at + 4 + |a.data|] == a.data
  {
    var data := front + (EncodeAttribute(a) + rest);
    var tail := a.data + Filled<Octet>(0, Padding(|a.data|)) + rest;
    var n: U16 := |a.data|;
    hide Read16;
    assert data == front + (AttributeHead(a) + tail);
    hide EncodeAttribute;
    HeadBack(front, a.kind, n, tail);
    assert data[|front| + 4..] == tail && tail[..n] == a.data;
    assert data[|front| + 4..|front| + 4 + n] == tail[..n];
  }

  lemma HeadBack(front: seq<Octet>, kind: U16, n: U16, tail: seq<Octet>)
    ensures var data := front + (Be16(kind) + Be16(n) + tail);
            Read16(data, |front|) == kind && Read16(data, |front| + 2) == n
  {
    var k, l := Be16(kind), Be16(n);
    var f1 := front + k;
    hide Be16, Read16;
    assert front + (k + l + tail) == front + (k + (l + tail)) == f1 + (l + tail);
    Back16(front, kind, l + tail);
    Back16(f1, n, tail);
  }

  lemma Back16(front: seq<Octet>, x: U16, rest: seq<Octet>)
    ensures Read16(front + (Be16(x) + rest), |front|) == x
  {
    Be16Read(x);
    Read16Early(Be16(x), rest, 0);
    Read16Later(front, Be16(x) + rest, 0);
  }

  function Start(xs: seq<Attribute>, k: nat): nat
    requires k <= |xs|
  {
    |EncodeAll(xs[..k])|
  }

  /** All attributes are within the room exactly when the last one starts in it. */
  lemma {:induction false} WithinAll(xs: seq<Attribute>, room: int)
    requires xs != []
    ensures Within(xs, room) == xs <==> Start(xs, |xs| - 1) + 4 <= room
  {
    var ys := xs[1..];
    if ys == [] {
      assert xs == [xs[0]];
    } else {
      var n := |EncodeAttribute(xs[0])|;
      WithinAll(ys, room - n);
      assert xs[..|xs| - 1] == [xs[0]] + ys[..|ys| - 1];
      assert Start(xs, |xs| - 1) == n + Start(ys, |ys| - 1) by {
        var zs := xs[..|xs| - 1];
        assert zs[1..] == ys[..|ys| - 1];
      }
      assert xs == [xs[0]] + ys;
      if Within(xs, room) == xs {
        assert Within(xs, room)[1..] == Within(ys, room - n);
      }
    }
  }

  lemma HeaderBack(msgType: U16, length: nat, txid: seq<Octet>, body: seq<Octet>)
    requires |txid| == TXID
    ensures var data := Header(msgType, length, txid) + body;
            && Read16(data, 0) == msgType && Read16(data, 2) == length % 0x1_0000
            && Read32(data, 4) == COOKIE && data[8..20] == txid
  {
    var data := Header(msgType, length, txid) + body;
    var n: U16 := length % 0x1_0000;
    Be16Mod(length);
    var t, len, c := Be16(msgType), Be16(length), Be32(COOKIE);
    assert Header(msgType, length, txid) == t + len + c + txid;
    assert |t| == 2 && |len| == 2 && |c| == 4;
    hide Be16, Be32, Header, Read16, Read32;
    HeaderSlices(t, len, c, txid, body);
    Back16([], msgType, len + c + txid + body);
    Back16(t, n, c + txid + body);
    Be32Read(COOKIE);
    Read32Early(c, txid + body, 0);
    Read32Later(t + len, c + (txid + body), 0);
  }

  lemma Be16Mod(x: nat)
    ensures Be16(x) == Be16(x % 0x1_0000)
  {
    var q, r := x / 0x1_0000, x % 0x1_0000;
    assert x == 0x1_0000 * q + r;
    assert x / 256 == 256 * q + r / 256;
  }

  lemma HeaderSlices(t: seq<Octet>, len: seq<Octet>, c: seq<Octet>, txid: seq<Octet>, body: seq<Octet>)
    requires |t| == |len| == 2 && |c| == 4 && |txid| == TXID
    ensures var data := t + len + c + txid + body;
            && data == [] + (t + (len + c + txid + body)) && data == t + (len + (c + txid + body))
            && data == (t + len) + (c + (txid + body)) && data[8..20] == txid
  {
  }

  lemma TrailerWf(cs: Codes, msgType: int, xs: seq<Attribute>, txid: seq<Octet>, key: Option<seq<Octet>>,
                  fingerprint: bool)
    requires cs.Wf()
    ensures forall a :: a in Trailer(cs, msgType, xs, txid, key, fingerprint) ==> a.Wf()
    ensures var t := Trailer(cs, msgType, xs, txid, key, fingerprint);
            && |t| == (if key.Some? then 1 else 0) + (if fingerprint then 1 else 0)
            && (key.Some? ==> t[0].kind == ATTR_INTEGRITY && |t[0].data| == 20)
            && (fingerprint ==> t[|t| - 1].kind == ATTR_FINGERPRINT && |t[|t| - 1].data| == 4)
  {
  }

  /** The parser's answer to a body of the given attributes: the type, the transaction, and those
      attributes that start within the length that the header field can hold.  These are all of
      them exactly when the last one does, and so whenever the body is below the limit. */
  ghost predicate ReadBack(r: Option<Info>, msgType: U16, txid: seq<Octet>, all: seq<Attribute>) {
    var size := |EncodeAll(all)|;
    && r.Some? && r.value.rawType == msgType && r.value.txid == txid && r.value.length == HEADER + size
    && r.value.attributes == Within(all, size % 0x1_0000)
    && (r.value.attributes == all <==> all == [] || Start(all, |all| - 1) + 4 <= size % 0x1_0000)
    && (size < 0x1_0000 ==> r.value.attributes == all)
  }

  lemma ParsedShape(data: seq<Octet>)
    requires |data| >= HEADER && Read32(data, 4) == COOKIE
    ensures var r := Parsed(data);
            && r.Some? && r.value.rawType == Read16(data, 0) && r.value.txid == data[8..20] && r.value.length == |data|
            && r.value.attributes == ParsedFrom(data, HEADER, HEADER + Read16(data, 2))
  {
  }

  lemma AllWithin(all: seq<Attribute>)
    ensures var size := |EncodeAll(all)|;
            && (Within(all, size % 0x1_0000) == all <==> all == [] || Start(all, |all| - 1) + 4 <= size % 0x1_0000)
            && (size < 0x1_0000 ==> Within(all, size % 0x1_0000) == all)
  {
    hide Start, EncodeAll, Within;
    if all != [] {
      WithinAll(all, |EncodeAll(all)| % 0x1_0000);
      LastStarts(all);
    } else {
      NothingWithin(|EncodeAll(all)| % 0x1_0000);
    }
  }

  lemma NothingWithin(room: int)
    ensures Within([], room) == []
  {
  }

  lemma ParsedBody(msgType: U16, txid: seq<Octet>, all: seq<Attribute>)
    requires |txid| == TXID && forall a :: a in all ==> a.Wf()
    ensures ReadBack(Parsed(Header(msgType, |EncodeAll(all)|, txid) + EncodeAll(all)), msgType, txid, all)
  {
    AllWithin(all);
    hide Header, Parsed, Read16, Read32, ParsedFrom, EncodeAll, Within, Start;
    var body := EncodeAll(all);
    var h := Header(msgType, |body|, txid);
    var room: nat := |body| % 0x1_0000;
    HeaderBack(msgType, |body|, txid, body);
    ParsedShape(h + body);
    ParsedWithin(h, all, HEADER + room);
    assert HEADER + room - |h| == room;
  }

  /** Parsing what was built gives back the type, the transaction and the attributes, followed by the
      integrity code and the fingerprint that were asked for. */
  lemma RoundTrip(cs: Codes, msgType: U16, xs: seq<Attribute>, txid: seq<Octet>, key: Option<seq<Octet>>,
                  fingerprint: bool)
    requires cs.Wf() && |txid| == TXID && forall a :: a in xs ==> a.Wf()
    ensures ReadBack(Parsed(Message(cs, msgType, xs, txid, key, fingerprint)), msgType, txid,
                     xs + Trailer(cs, msgType, xs, txid, key, fingerprint))
  {
    TrailerWf(cs, msgType, xs, txid, key, fingerprint);
    hide Trailer, ReadBack, Parsed, Header, Attribute.Wf;
    ParsedBody(msgType, txid, xs + Trailer(cs, msgType, xs, txid, key, fingerprint));
  }

  lemma LastStarts(xs: seq<Attribute>)
    requires xs != []
    ensures Start(xs, |xs| - 1) + 4 <= |EncodeAll(xs)|
  {
    var n := |xs| - 1;
    assert xs == xs[..n] + [xs[n]];
    EncodeAppended(xs[..n], [xs[n]]);
    OneEncoded();
  }

  /** Two attributes of the greatest length are more than the field can hold, and the second
      is lost. */
  lemma TooLong(cs: Codes, txid: seq<Octet>)
    requires cs.Wf() && |txid| == TXID
    ensures var a := Attribute(0, Filled<Octet>(0, 0xFFFF));
            var r := Parsed(Message(cs, 1, [a, a], txid, None, false));
            r.Some? && r.value.attributes == [a]
  {
    var a := Attribute(0, Filled<Octet>(0, 0xFFFF));
    var none: seq<Attribute> := [];
    hide *;
    assert [a, a] + none == [a, a] && [a, a][1..] == [a] && [a][1..] == none && [a, a] == [a] + [a]
        && [a, a][..1] == [a];
    RoundTrip(cs, 1, [a, a], txid, None, false);
    assert |a.data| == 0xFFFF;
    TwoLongest(a);
    assert Trailer(cs, 1, [a, a], txid, None, false) == none by { NoTrailer(cs, 1, [a, a], txid); }
  }

  lemma NoTrailer(cs: Codes, msgType: int, xs: seq<Attribute>, txid: seq<Octet>)
    ensures Trailer(cs, msgType, xs, txid, None, false) == []
  {
  }

  lemma TwoLongest(a: Attribute)
    requires |a.data| == 0xFFFF
    ensures |EncodeAll([a, a])| == 0x2_0008 && Within([a, a], 0x2_0008 % 0x1_0000) == [a]
  {
    assert [a, a][1..] == [a] && [a][1..] == [] && [a] + [] == [a];
    PaddedSize(0xFFFF);
    assert |EncodeAttribute(a)| == 0x1_0004;
    assert EncodeAll([a]) == EncodeAttribute(a) + EncodeAll([]);
    assert EncodeAll([a, a]) == EncodeAttribute(a) + EncodeAll([a]);
    assert Within([a], 8 - 0x1_0004) == [];
    hide EncodeAttribute;
  }

  /** The length field is the length of the body, in whole words. */
  lemma HeaderLength(cs: Codes, msgType: U16, xs: seq<Attribute>, txid: seq<Octet>, key: Option<seq<Octet>>,
                     fingerprint: bool)
    requires |txid| == TXID
    ensures var m := Message(cs, msgType, xs, txid, key, fingerprint);
            Read16(m, 2) % 4 == 0 && (|m| - HEADER < 0x1_0000 ==> Read16(m, 2) == |m| - HEADER)
  {
    var body := EncodeAll(xs + Trailer(cs, msgType, xs, txid, key, fingerprint));
    HeaderBack(msgType, |body|, txid, body);
    assert |body| % 4 == 0;
    hide EncodeAll, Trailer, Header, Read16;
    WordsMod(|body|);
  }

  lemma WordsMod(n: nat)
    requires n % 4 == 0
    ensures n % 0x1_0000 % 4 == 0
  {
  }

  /** The fingerprint is the checksum of everything in front of it, as sent. */
  lemma FingerprintCovers(cs: Codes, msgType: U16, xs: seq<Attribute>, txid: seq<Octet>, key: Option<seq<Octet>>)
    ensures var m := Message(cs, msgType, xs, txid, key, true);
            |m| >= HEADER + 8 && m[|m| - 4..] == Be32(Xor32(cs.crc(m[..|m| - 8]), FINGERPRINT_XOR))
  {
    var h, signed, e := FingerprintShape(cs, msgType, xs, txid, key);
    hide *;
    LastEight(h, signed, e, Message(cs, msgType, xs, txid, key, true));
  }

  lemma FingerprintShape(cs: Codes, msgType: U16, xs: seq<Attribute>, txid: seq<Octet>, key: Option<seq<Octet>>)
    returns (h: seq<Octet>, signed: seq<Octet>, e: seq<Octet>)
    ensures |h| == HEADER && |e| == 8 && Message(cs, msgType, xs, txid, key, true) == h + (signed + e)
    ensures e[4..] == Be32(Xor32(cs.crc(h + signed), FINGERPRINT_XOR))
  {
    BuiltMessage(cs, msgType, xs, txid, key, true);
    OneEncoded();
    var attrs := EncodeAll(xs);
    signed := attrs + EncodeAll(Signed(cs, msgType, attrs, txid, key));
    h := Header(msgType, |signed| + 8, txid);
    var data := Be32(Xor32(cs.crc(h + signed), FINGERPRINT_XOR));
    var a := Attribute(ATTR_FINGERPRINT, data);
    e := EncodeAttribute(a);
    WholeWords(a);
    assert Marked(cs, msgType, signed, txid, true) == [a];
    hide *;
    assert h + (signed + e) == h + (signed + EncodeAll([a]));
  }

  lemma WholeWords(a: Attribute)
    requires |a.data| % 4 == 0
    ensures |EncodeAttribute(a)| == 4 + |a.data| && EncodeAttribute(a)[4..] == a.data
  {
    PaddedSize(|a.data|);
    hide AttributeHead;
  }

  lemma LastEight(h: seq<Octet>, body: seq<Octet>, e: seq<Octet>, m: seq<Octet>)
    requires |h| == HEADER && |e| == 8 && m == h + (body + e)
    ensures |m| >= HEADER + 8 && m[..|m| - 8] == h + body && m[|m| - 4..] == e[4..]
  {
  }

  /** The integrity code covers everything in front of it, with the length field ending at the
      integrity attribute itself; without a fingerprint behind it, that is the message as sent. */
  lemma IntegrityCovers(cs: Codes, msgType: U16, xs: seq<Attribute>, txid: seq<Octet>, k: seq<Octet>, fingerprint: bool)
    requires cs.Wf()
    ensures var m, n := Message(cs, msgType, xs, txid, Some(k), fingerprint), HEADER + |EncodeAll(xs)|;
            && n + 24 <= |m|
            && m[n + 4..n + 24] == cs.mac(k, m[..2] + Be16(n - HEADER + 24) + m[4..n])
            && (!fingerprint ==> m[n + 4..] == cs.mac(k, m[..n]))
  {
    BuiltMessage(cs, msgType, xs, txid, Some(k), fingerprint);
    hide Header, Message, EncodeAll, Be16, Be32, AttributeHead, Filled, Xor32;
    var attrs := EncodeAll(xs);
    var mi := Signed(cs, msgType, attrs, txid, Some(k));
    var fp := EncodeAll(Marked(cs, msgType, attrs + EncodeAll(mi), txid, fingerprint));
    OneEncoded();
    var m := Message(cs, msgType, xs, txid, Some(k), fingerprint);
    var n := HEADER + |attrs|;
    var size := |attrs| + 24 + |fp|;
    var e := EncodeAttribute(mi[0]);
    assert mi == [mi[0]] && |e| == 24 && e[4..] == mi[0].data;
    assert m == Header(msgType, size, txid) + (attrs + e + fp);
    HeaderParts(msgType, size, |attrs| + 24, txid);
    assert !fingerprint ==> fp == [];
    var h := Header(msgType, size, txid);
    IntegritySlices(h, attrs, e, fp);
    assert h[..2] + Be16(|attrs| + 24) + (h[4..] + attrs) == (h[..2] + Be16(|attrs| + 24) + h[4..]) + attrs;
  }

  lemma HeaderParts(msgType: int, size: nat, other: nat, txid: seq<Octet>)
    ensures var h := Header(msgType, size, txid);
            h[..2] + Be16(other) + h[4..] == Header(msgType, other, txid)
  {
  }

  lemma IntegritySlices(h: seq<Octet>, attrs: seq<Octet>, e: seq<Octet>, fp: seq<Octet>)
    requires |h| == HEADER && |e| == 24
    ensures var m, n := h + (attrs + e + fp), HEADER + |attrs|;
            && m[..2] == h[..2] && m[4..n] == h[4..] + attrs && m[..n] == h + attrs
            && m[n + 4..n + 24] == e[4..] && (fp == [] ==> m[n + 4..] == e[4..])
  {
  }

  // ---- message types ----

  function ClassNum(kind: Class): nat {
    match kind case Request => 0 case Indication => 1 case Success => 2 case Error => 3
  }

  /** Section 6 of RFC 5389: the bits of the method with those of the class between them. */
  function TypeOf(method12: nat, kind: Class): U16
    requires method12 < 0x1000
  {
    var c := ClassNum(kind);
    method12 / 0x80 * 0x200 + c / 2 * 0x100 + method12 / 0x10 % 8 * 0x20 + c % 2 * 0x10 + method12 % 0x10
  }

  /** The two bits of the class are bits 4 and 8 of the type, the others those of the method. */
  lemma ClassBits(method12: nat, kind: Class)
    requires method12 < 0x1000
    ensures TypeOf(method12, kind) / 0x10 % 2 == (if kind == Indication || kind == Error then 1 else 0)
    ensures TypeOf(method12, kind) / 0x100 % 2 == (if kind == Success || kind == Error then 1 else 0)
    ensures TypeOf(method12, kind) % 0x10 == method12 % 0x10
    ensures TypeOf(method12, kind) / 0x20 % 8 == method12 / 0x10 % 8
    ensures TypeOf(method12, kind) / 0x200 == method12 / 0x80
  {
    var c := ClassNum(kind);
    MethodParts(method12);
    RawFields(method12 / 0x80, c / 2, method12 / 0x10 % 8, c % 2, method12 % 0x10);
  }

  lemma RawFields(hi: nat, c1: nat, mid: nat, c0: nat, lo: nat)
    requires hi < 0x20 && c1 < 2 && mid < 8 && c0 < 2 && lo < 0x10
    ensures var raw := hi * 0x200 + c1 * 0x100 + mid * 0x20 + c0 * 0x10 + lo;
            && raw / 0x200 % 0x20 == hi && raw / 0x100 % 2 == c1 && raw / 0x20 % 8 == mid
            && raw / 0x10 % 2 == c0 && raw % 0x10 == lo
  {
    var raw := hi * 0x200 + c1 * 0x100 + mid * 0x20 + c0 * 0x10 + lo;
    assert raw / 0x200 == hi;
    assert raw / 0x100 == 2 * hi + c1;
    assert raw / 0x20 == 8 * (2 * hi + c1) + mid;
    assert raw / 0x10 == 2 * (8 * (2 * hi + c1) + mid) + c0;
  }

  lemma MethodFields(hi: nat, mid: nat, lo: nat)
    requires hi < 0x20 && mid < 8 && lo < 0x10
    ensures var m := hi * 0x80 + mid * 0x10 + lo; m / 0x80 == hi && m / 0x10 % 8 == mid && m % 0x10 == lo
  {
    var m := hi * 0x80 + mid * 0x10 + lo;
    assert m / 0x80 == hi;
    assert m / 0x10 == 8 * hi + mid;
  }

  lemma TypeBack(method12: nat, kind: Class)
    requires method12 < 0x1000
    ensures MethodBits(TypeOf(method12, kind)) == method12 && ClassOf(TypeOf(method12, kind)) == kind
  {
    var c := ClassNum(kind);
    var hi, mid, lo := method12 / 0x80, method12 / 0x10 % 8, method12 % 0x10;
    MethodParts(method12);
    RawFields(hi, c / 2, mid, c % 2, lo);
  }

  lemma MethodParts(m: nat)
    requires m < 0x1000
    ensures m == m / 0x80 * 0x80 + m / 0x10 % 8 * 0x10 + m % 0x10 && m / 0x80 < 0x20
  {
    var q := m / 0x10;
    assert m == 0x10 * q + m % 0x10 && q == 8 * (q / 8) + q % 8 && m / 0x80 == q / 8;
  }

  lemma RawParts(raw: U16)
    requires raw < 0x4000
    ensures raw == raw / 0x200 * 0x200 + raw / 0x100 % 2 * 0x100 + raw / 0x20 % 8 * 0x20 + raw / 0x10 % 2 * 0x10
            + raw % 0x10
    ensures raw / 0x200 < 0x20
  {
    var a := raw / 0x10;
    assert raw == 0x10 * a + raw % 0x10;
    var b := raw / 0x20;
    assert b == a / 2 && a == 2 * b + a % 2;
    var c := raw / 0x100;
    assert c == b / 8 && b == 8 * c + b % 8;
    assert raw / 0x200 == c / 2 && c == 2 * (c / 2) + c % 2;
  }

  /** Every type with its two top bits clear is read so. */
  lemma TypeThere(raw: U16)
    requires raw < 0x4000
    ensures MethodBits(raw) < 0x1000 && TypeOf(MethodBits(raw), ClassOf(raw)) == raw
  {
    var hi, c1, mid, c0, lo := raw / 0x200, raw / 0x100 % 2, raw / 0x20 % 8, raw / 0x10 % 2, raw % 0x10;
    RawParts(raw);
    assert MethodBits(raw) == hi * 0x80 + mid * 0x10 + lo;
    assert ClassNum(ClassOf(raw)) == 2 * c1 + c0;
    hide MethodBits, ClassOf, ClassNum;
    MethodFields(hi, mid, lo);
    TypeOfFields(MethodBits(raw), ClassOf(raw), hi, c1, mid, c0, lo);
  }

  lemma TypeOfFields(m: nat, kind: Class, hi: nat, c1: nat, mid: nat, c0: nat, lo: nat)
    requires m < 0x1000 && m / 0x80 == hi && m / 0x10 % 8 == mid && m % 0x10 == lo
    requires ClassNum(kind) == 2 * c1 + c0 && c1 < 2 && c0 < 2
    ensures TypeOf(m, kind) == hi * 0x200 + c1 * 0x100 + mid * 0x20 + c0 * 0x10 + lo
  {
    hide ClassNum;
  }
}
