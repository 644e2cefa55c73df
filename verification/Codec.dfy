/** net/codec.go: the framing of messages between peers. */
module Codec {
  import opened Arith
  import opened BitFields
  import WordOps
  import opened Wrappers

  datatype Msg = Msg(code: Byte, id: nat, payload: seq<Byte>) {
    predicate Ok() {
      id < TWO32 && |payload| < TWO64
    }
  }

  /** The compressor. Decoding fails on bytes that are no encoding. */
  datatype Snappy = Snappy(encode: seq<Byte> -> seq<Byte>, decode: seq<Byte> -> Option<seq<Byte>>) {
    ghost predicate Inverse() {
      forall p :: decode(encode(p)) == Some(p)
    }
  }

  const MAX_PAYLOAD: nat := 0x100_0000 - 1
  const HEAD_SIZE: nat := 9

  // ----- the head -----

  function IdLengthToBits(n: nat): nat {
    if n == 4 then 3 else n
  }

  function BitsToIdLength(bits: nat): nat {
    if bits == 3 then 4 else bits
  }

  predicate IsIdLength(n: nat) {
    n == 0 || n == 1 || n == 2 || n == 4
  }

  /** The id bits, the length size and the flag, shifted to their places and or-ed into one byte. */
  function StoreMeta(isize: nat, lsize: nat, compressed: bool): (meta: Byte)
    requires IsIdLength(isize)
  {
    MetaValue(IdLengthToBits(isize), lsize, if compressed then 1 else 0);
    Or(Or(IdLengthToBits(isize) * 64, (lsize * 16) % 256), if compressed then 8 else 0)
  }

  /** The top two bits: the id bits or-ed with what of the length size runs over its two bits. */
  function TopBits(idBits: nat, lsize: nat): (r: nat)
    requires idBits < 4
    ensures r < 4 && (lsize < 4 ==> r == idBits)
  {
    var p := (lsize / 4) % 4;
    (if idBits / 2 == 1 || p / 2 == 1 then 2 else 0) + (if idBits % 2 == 1 || p % 2 == 1 then 1 else 0)
  }

  lemma {:induction false} MetaValue(idBits: nat, lsize: nat, flag: nat)
    requires idBits < 4 && flag < 2
    ensures Or(Or(idBits * 64, (lsize * 16) % 256), 8 * flag)
         == TopBits(idBits, lsize) * 64 + (lsize % 4) * 16 + 8 * flag < 256
  {
    hide WordOps.BitwiseN;
    var n := 32;
    var p, l := (lsize / 4) % 4, lsize % 4;
    LengthBits(lsize);
    OrLengths(idBits, p, l, n);
    OrTop(idBits, p, n - 6);
    OrFlag(TopBits(idBits, lsize), l, flag, n);
  }

  /** What the byte keeps of the length size shifted by four. */
  lemma {:induction false} LengthBits(lsize: nat)
    ensures (lsize * 16) % 256 == 64 * ((lsize / 4) % 4) + 16 * (lsize % 4)
  {
    var q, l := lsize / 4, lsize % 4;
    var k, p := q / 4, q % 4;
    assert lsize * 16 == 256 * k + (64 * p + 16 * l);
    DivModUnique(lsize * 16, 256, k, 64 * p + 16 * l);
  }

  lemma {:induction false} SixteenFold(x: nat)
    ensures ShiftLeft(x, 4) == 16 * x && ShiftLeft(x, 3) == 8 * x
  {
    assert ShiftLeft(x, 1) == 2 * x;
    assert ShiftLeft(x, 2) == 4 * x;
  }

  lemma {:induction false} OrLengths(a: nat, p: nat, l: nat, n: nat)
    requires a < 4 && p < 4 && l < 4 && n == 32
    ensures WordOps.BitwiseN(WordOps.OR, 64 * a, 64 * p + 16 * l, n) ==
            64 * WordOps.BitwiseN(WordOps.OR, a, p, n - 6) + 16 * l
  {
    hide WordOps.BitwiseN, ShiftLeft;
    SixteenFold(4 * a);
    SixteenFold(4 * p + l);
    SixteenFold(WordOps.BitwiseN(WordOps.OR, 4 * a, 4 * p + l, n - 4));
    OrShifted(4 * a, 4 * p + l, 4, n);
    OrHigher(0, 2 * a, l % 2, 2 * p + l / 2, n - 4);
    OrHigher(0, a, l / 2, p, n - 5);
  }

  lemma {:induction false} OrTop(a: nat, p: nat, n: nat)
    requires a < 4 && p < 4 && n >= 2
    ensures WordOps.BitwiseN(WordOps.OR, a, p, n)
         == (if a / 2 == 1 || p / 2 == 1 then 2 else 0) + (if a % 2 == 1 || p % 2 == 1 then 1 else 0)
  {
    hide WordOps.BitwiseN;
    BitStep(WordOps.OR, a, p, n);
    BitStep(WordOps.OR, a / 2, p / 2, n - 1);
    OrZero(0, n - 2);
  }

  lemma {:induction false} OrFlag(r: nat, l: nat, flag: nat, n: nat)
    requires r < 4 && l < 4 && flag < 2 && n == 32
    ensures WordOps.BitwiseN(WordOps.OR, 64 * r + 16 * l, 8 * flag, n) == 64 * r + 16 * l + 8 * flag
  {
    hide WordOps.BitwiseN, ShiftLeft, Pow2;
    var x := 4 * r + l;
    SixteenFold(2 * x);
    SixteenFold(flag);
    SixteenFold(flag + 2 * x);
    OrShifted(2 * x, flag, 3, n);
    OrHigher(0, x, flag, 0, n - 3);
    FitsWord(x, n - 4);
    OrZero(x, n - 4);
  }

  lemma {:induction false} FitsWord(x: nat, n: nat)
    requires x < 16 && n >= 4
    ensures x < Pow2(n)
  {
    Pow2Monotone(4, n);
  }

  datatype Meta = Meta(isize: nat, lsize: nat, compressed: bool)

  function RetrieveMeta(meta: Byte): (r: Meta)
    ensures IsIdLength(r.isize) && r.lsize < 4
  {
    Meta(BitsToIdLength(meta / 64), (meta / 16) % 4, (meta / 8) % 2 > 0)
  }

  /** The meta byte keeps its three parts exactly when the length takes at most three bytes. */
  lemma {:induction false} MetaRoundTrip(isize: nat, lsize: nat, compressed: bool)
    requires IsIdLength(isize) && lsize <= 8
    ensures RetrieveMeta(StoreMeta(isize, lsize, compressed)) == Meta(isize, lsize, compressed) <==> lsize < 4
    ensures RetrieveMeta(StoreMeta(isize, lsize, compressed)).lsize == lsize % 4
  {
    hide StoreMeta;
    var top, l, flag := TopBits(IdLengthToBits(isize), lsize), lsize % 4, if compressed then 1 else 0;
    StoredMeta(isize, lsize, compressed);
    var meta := StoreMeta(isize, lsize, compressed);
    assert meta / 64 == top && meta / 16 == 4 * top + l && meta / 8 == 8 * top + 2 * l + flag;
  }

  lemma {:induction false} StoredMeta(isize: nat, lsize: nat, compressed: bool)
    requires IsIdLength(isize)
    ensures StoreMeta(isize, lsize, compressed) ==
            TopBits(IdLengthToBits(isize), lsize) * 64 + (lsize % 4) * 16 + (if compressed then 8 else 0)
  {
    hide Or, TopBits;
    MetaValue(IdLengthToBits(isize), lsize, if compressed then 1 else 0);
  }

  function IdBytes(id: nat): (s: seq<Byte>)
    ensures IsIdLength(|s|)
  {
    if id == 0 then []
    else if id > 65535 then BigEndian(id, 4)
    else if id > 255 then BigEndian(id, 2)
    else BigEndian(id, 1)
  }

  lemma {:induction false} IdRoundTrip(id: nat)
    requires id < TWO32
    ensures FromBytes(IdBytes(id)) == id
  {
    if id > 65535 {
      Pow256IsPow2(4);
      Pow2Constants();
      BigEndianRoundTrip(id, 4);
    } else if id > 255 {
      assert Pow256(2) == 65536;
      BigEndianRoundTrip(id, 2);
    } else if id > 0 {
      assert Pow256(1) == 256;
      BigEndianRoundTrip(id, 1);
    }
  }

  // ----- one message -----

  datatype Stored = Stored(bytes: seq<Byte>, compressed: bool)

  /** A payload is stored compressed only when it is long enough and comes out shorter. */
  function Store(z: Snappy, least: int, payload: seq<Byte>): (s: Stored)
    ensures |s.bytes| <= |payload|
  {
    if |payload| > least && |z.encode(payload)| < |payload| then Stored(z.encode(payload), true)
    else Stored(payload, false)
  }

  function Head(code: Byte, id: nat, length: nat, compressed: bool): (s: seq<Byte>) {
    [StoreMeta(|IdBytes(id)|, |MinimalBytes(length)|, compressed), code] + IdBytes(id) + MinimalBytes(length)
  }

  function Encode(z: Snappy, least: int, msg: Msg): (s: seq<Byte>) {
    var st := Store(z, least, msg.payload);
    Head(msg.code, msg.id, |st.bytes|, st.compressed) + st.bytes
  }

  datatype ReadError = NoMeta | NoId | NoLength | TooLarge | NoPayload | NotCompressed

  datatype ReadResult = Ok(msg: Msg, rest: seq<Byte>) | Err(why: ReadError, rest: seq<Byte>)

  function Decode(z: Snappy, s: seq<Byte>): (r: ReadResult) {
    if |s| < 2 then Err(NoMeta, []) else DecodeId(z, RetrieveMeta(s[0]), s[1], s[2..])
  }

  function DecodeId(z: Snappy, meta: Meta, code: Byte, s: seq<Byte>): (r: ReadResult) {
    if |s| < meta.isize then Err(NoId, [])
    else DecodeLength(z, meta, code, FromBytes(s[..meta.isize]), s[meta.isize..])
  }

  function DecodeLength(z: Snappy, meta: Meta, code: Byte, id: nat, s: seq<Byte>): (r: ReadResult) {
    if |s| < meta.lsize then Err(NoLength, [])
    else DecodePayload(z, meta.compressed, code, id, FromBytes(s[..meta.lsize]), s[meta.lsize..])
  }

  function DecodePayload(z: Snappy, compressed: bool, code: Byte, id: nat, length: nat, s: seq<Byte>): (r: ReadResult) {
    if length > MAX_PAYLOAD then Err(TooLarge, s)
    else if |s| < length then Err(NoPayload, [])
    else Unpack(z, compressed, code, id, s[..length], s[length..])
  }

  function Unpack(z: Snappy, compressed: bool, code: Byte, id: nat, stored: seq<Byte>, rest: seq<Byte>)
    : (r: ReadResult)
  {
    if !compressed then Ok(Msg(code, id, stored), rest)
    else match z.decode(stored)
      case None => Err(NotCompressed, rest)
      case Some(p) => Ok(Msg(code, id, p), rest)
  }

  lemma {:induction false} LengthSize(n: nat)
    requires n < TWO64
    ensures |MinimalBytes(n)| <= 8
    ensures |MinimalBytes(n)| < 4 <==> n <= MAX_PAYLOAD
    ensures |MinimalBytes(n)| < 5 <==> n < TWO32
  {
    Pow256IsPow2(8);
    Pow256IsPow2(4);
    Pow2Constants();
    assert Pow256(3) == 0x100_0000;
    MinimalBytesLength(n, 8);
    if n < TWO32 { MinimalBytesLength(n, 4); }
    if n <= MAX_PAYLOAD { MinimalBytesLength(n, 3); }
    MinimalBytesRoundTrip(n);
    FromBytesBound(MinimalBytes(n));
    if |MinimalBytes(n)| < 4 { Pow256Monotone(|MinimalBytes(n)|, 3); }
    if |MinimalBytes(n)| < 5 { Pow256Monotone(|MinimalBytes(n)|, 4); }
  }

  lemma {:induction false} Pow256Monotone(a: nat, b: nat)
    requires a <= b
    ensures Pow256(a) <= Pow256(b)
  {
    if a < b { Pow256Monotone(a, b - 1); }
  }

  lemma {:induction false} Front<T>(a: seq<T>, b: seq<T>)
    ensures (a + b)[..|a|] == a && (a + b)[|a|..] == b
  {
  }

  lemma {:induction false} DecodeHead(z: Snappy, meta: Meta, b0: Byte, code: Byte, id: seq<Byte>, length: seq<Byte>,
      body: seq<Byte>)
    requires RetrieveMeta(b0) == meta && |id| == meta.isize && |length| == meta.lsize
    ensures Decode(z, [b0, code] + (id + (length + body)))
         == DecodePayload(z, meta.compressed, code, FromBytes(id), FromBytes(length), body)
  {
    hide RetrieveMeta, FromBytes, DecodePayload;
    Front([b0, code], id + (length + body));
    Front(id, length + body);
    Front(length, body);
  }

  /** What ReadMsg takes off the stream is at most the head and the largest payload. */
  lemma {:induction false} DecodeTakesLittle(z: Snappy, s: seq<Byte>)
    requires Decode(z, s).Ok?
    ensures |s| - |Decode(z, s).rest| <= 9 + MAX_PAYLOAD
    ensures RetrieveMeta(s[0]).lsize == 0 ==> |s| - |Decode(z, s).rest| <= 6
  {
  }

  /** A message and what follows it come back exactly when the stored payload is below 2^24 bytes. */
  lemma {:induction false} RoundTrip(z: Snappy, least: int, msg: Msg, rest: seq<Byte>)
    requires z.Inverse() && msg.Ok()
    ensures Decode(z, Encode(z, least, msg) + rest) == Ok(msg, rest)
       <==> |Store(z, least, msg.payload).bytes| <= MAX_PAYLOAD
  {
    hide Decode, MinimalBytes, IdBytes, StoreMeta, RetrieveMeta, FromBytes;
    var st := Store(z, least, msg.payload);
    var id, length := IdBytes(msg.id), MinimalBytes(|st.bytes|);
    var b0 := StoreMeta(|id|, |length|, st.compressed);
    var all := Encode(z, least, msg) + rest;
    LengthSize(|st.bytes|);
    MetaRoundTrip(|id|, |length|, st.compressed);
    IdRoundTrip(msg.id);
    MinimalBytesRoundTrip(|st.bytes|);
    assert all == [b0, msg.code] + (id + (length + (st.bytes + rest)));
    if |st.bytes| <= MAX_PAYLOAD {
      DecodeHead(z, RetrieveMeta(b0), b0, msg.code, id, length, st.bytes + rest);
      assert (st.bytes + rest)[..|st.bytes|] == st.bytes && (st.bytes + rest)[|st.bytes|..] == rest;
    } else if Decode(z, all).Ok? {
      DecodeTakesLittle(z, all);
      assert all[0] == b0;
    }
  }

  /** Three length bytes cannot name too large a payload: that error never comes. */
  lemma {:induction false} NeverTooLarge(z: Snappy, s: seq<Byte>)
    ensures Decode(z, s).Err? ==> Decode(z, s).why != TooLarge
  {
    hide FromBytes;
    if |s| >= 2 {
      var meta := RetrieveMeta(s[0]);
      var t := s[2..];
      if |t| >= meta.isize && |t[meta.isize..]| >= meta.lsize {
        var length := t[meta.isize..][..meta.lsize];
        FromBytesBound(length);
        Pow256Monotone(meta.lsize, 3);
        assert Pow256(3) == 0x100_0000;
      }
    }
  }

  /** Reading any bytes whatever: what the meta byte announces, which error comes first when bytes are missing, and
      what is taken off the stream. */
  lemma {:induction false} DecodeLayout(z: Snappy, s: seq<Byte>)
    ensures var r := Decode(z, s);
            if |s| < 2 then r == Err(NoMeta, [])
            else
              var n, m := (if s[0] / 64 == 3 then 4 else s[0] / 64), (s[0] / 16) % 4;
              if |s| < 2 + n then r == Err(NoId, [])
              else if |s| < 2 + n + m then r == Err(NoLength, [])
              else
                var length := FromBytes(s[2 + n..2 + n + m]);
                if |s| < 2 + n + m + length then r == Err(NoPayload, [])
                else
                  var stored, packed := s[2 + n + m..2 + n + m + length], (s[0] / 8) % 2 == 1;
                  && r.rest == s[2 + n + m + length..]
                  && (r.Ok? <==> packed ==> z.decode(stored).Some?)
                  && (r.Err? ==> r.why == NotCompressed)
                  && (r.Ok? ==> r.msg == Msg(s[1], FromBytes(s[2..2 + n]),
                                             if packed then z.decode(stored).value else stored))
  {
    hide FromBytes, Decode, DecodePayload, RetrieveMeta;
    ShortFrame(z, s);
    if |s| >= 2 {
      var meta := RetrieveMeta(s[0]);
      MetaParts(s[0]);
      if |s| >= 2 + meta.isize + meta.lsize {
        WholeHead(z, s, meta);
        BodyLayout(z, s, meta);
      }
    }
  }

  lemma {:induction false} MetaParts(b: Byte)
    ensures var meta := RetrieveMeta(b);
            && meta.isize == (if b / 64 == 3 then 4 else b / 64) && meta.lsize == (b / 16) % 4
            && (meta.compressed <==> (b / 8) % 2 == 1)
  {
  }

  lemma {:induction false} ShortFrame(z: Snappy, s: seq<Byte>)
    ensures |s| < 2 ==> Decode(z, s) == Err(NoMeta, [])
    ensures |s| >= 2 ==> var meta := RetrieveMeta(s[0]);
              && (|s| < 2 + meta.isize ==> Decode(z, s) == Err(NoId, []))
              && (2 + meta.isize <= |s| < 2 + meta.isize + meta.lsize ==> Decode(z, s) == Err(NoLength, []))
  {
    hide FromBytes, RetrieveMeta;
  }

  lemma {:induction false} WholeHead(z: Snappy, s: seq<Byte>, meta: Meta)
    requires |s| >= 2 && meta == RetrieveMeta(s[0]) && |s| >= 2 + meta.isize + meta.lsize
    ensures var n, m := meta.isize, meta.lsize;
            && FromBytes(s[2 + n..2 + n + m]) <= MAX_PAYLOAD
            && Decode(z, s) == DecodePayload(z, meta.compressed, s[1], FromBytes(s[2..2 + n]),
                                             FromBytes(s[2 + n..2 + n + m]), s[2 + n + m..])
  {
    hide FromBytes, RetrieveMeta, DecodePayload;
    var n, m := meta.isize, meta.lsize;
    assert s[2..][..n] == s[2..2 + n] && s[2..][n..][..m] == s[2 + n..2 + n + m];
    assert s[2..][n..][m..] == s[2 + n + m..];
    FromBytesBound(s[2 + n..2 + n + m]);
    Pow256Monotone(m, 3);
    assert Pow256(3) == 0x100_0000;
  }

  lemma {:induction false} BodyLayout(z: Snappy, s: seq<Byte>, meta: Meta)
    requires |s| >= 2 + meta.isize + meta.lsize
    ensures var n, m := meta.isize, meta.lsize;
            var id, length := FromBytes(s[2..2 + n]), FromBytes(s[2 + n..2 + n + m]);
            length <= MAX_PAYLOAD ==>
              DecodePayload(z, meta.compressed, s[1], id, length, s[2 + n + m..]) ==
              if |s| < 2 + n + m + length then Err(NoPayload, [])
              else Unpack(z, meta.compressed, s[1], id, s[2 + n + m..2 + n + m + length], s[2 + n + m + length..])
  {
    hide FromBytes, Unpack;
    var n, m := meta.isize, meta.lsize;
    var length := FromBytes(s[2 + n..2 + n + m]);
    if |s| >= 2 + n + m + length {
      assert s[2 + n + m..][..length] == s[2 + n + m..2 + n + m + length];
      assert s[2 + n + m..][length..] == s[2 + n + m + length..];
    }
  }

  /** A message below the payload limit always fits the head buffer. */
  lemma {:induction false} HeadFits(msg: Msg, n: nat)
    requires n <= MAX_PAYLOAD
    ensures 2 + |IdBytes(msg.id)| + |MinimalBytes(n)| <= HEAD_SIZE
  {
    LengthSize(n);
  }

  /** How many bytes an id takes: none, one, two or four. */
  function IdSize(id: nat): nat { if id == 0 then 0 else if id < 0x100 then 1 else if id < 0x1_0000 then 2 else 4 }

  /** How many bytes a length below 2^24 takes. */
  function LengthBytes(n: nat): nat { if n == 0 then 0 else if n < 0x100 then 1 else if n < 0x1_0000 then 2 else 3 }

  /** The frame on the wire: a meta byte with the size of the id in its top two bits (four bytes as 3), the size of the
      length in the next two and the compression flag below, then the code, the id and the length, the highest byte
      first, then the stored payload. */
  lemma {:induction false} FrameLayout(z: Snappy, least: int, msg: Msg)
    requires msg.Ok() && |Store(z, least, msg.payload).bytes| <= MAX_PAYLOAD
    ensures var st := Store(z, least, msg.payload);
            var f, n, m := Encode(z, least, msg), IdSize(msg.id), LengthBytes(|st.bytes|);
            && |f| == 2 + n + m + |st.bytes|
            && f[0] == (if n == 4 then 3 else n) * 64 + m * 16 + (if st.compressed then 8 else 0)
            && f[1] == msg.code
            && FromBytes(f[2..2 + n]) == msg.id && FromBytes(f[2 + n..2 + n + m]) == |st.bytes|
            && f[2 + n + m..] == st.bytes
  {
    hide MinimalBytes, IdBytes, StoreMeta, FromBytes, Store;
    var st := Store(z, least, msg.payload);
    var id, length := IdBytes(msg.id), MinimalBytes(|st.bytes|);
    IdSizes(msg.id);
    LengthSizes(|st.bytes|);
    StoredMeta(|id|, |length|, st.compressed);
    IdRoundTrip(msg.id);
    MinimalBytesRoundTrip(|st.bytes|);
    var f := Encode(z, least, msg);
    var b0 := StoreMeta(|id|, |length|, st.compressed);
    assert f == [b0, msg.code] + id + length + st.bytes;
    FrameParts(b0, msg.code, id, length, st.bytes);
  }

  lemma {:induction false} FrameParts(b0: Byte, code: Byte, id: seq<Byte>, length: seq<Byte>, body: seq<Byte>)
    ensures var f, n, m := [b0, code] + id + length + body, |id|, |length|;
            && |f| == 2 + n + m + |body| && f[0] == b0 && f[1] == code
            && f[2..2 + n] == id && f[2 + n..2 + n + m] == length && f[2 + n + m..] == body
  {
    var head := [b0, code];
    Front(head + id + length, body);
    Front(head + id, length);
    Front(head, id);
    var f, n, m := head + id + length + body, |id|, |length|;
    assert f[..2 + n + m] == head + id + length;
    assert f[2 + n..2 + n + m] == f[..2 + n + m][2 + n..];
    assert f[..2 + n] == f[..2 + n + m][..2 + n] == head + id;
    assert f[2..2 + n] == f[..2 + n][2..];
  }

  lemma {:induction false} IdSizes(id: nat)
    ensures |IdBytes(id)| == IdSize(id)
  {
  }

  lemma {:induction false} LengthSizes(n: nat)
    requires n <= MAX_PAYLOAD
    ensures |MinimalBytes(n)| == LengthBytes(n)
  {
    hide MinimalBytes;
    MinimalStep(n);
    if n > 0 {
      MinimalStep(n / 256);
      if n >= 0x100 {
        MinimalStep(n / 256 / 256);
        if n >= 0x1_0000 { MinimalStep(n / 256 / 256 / 256); }
      }
    }
  }

  lemma {:induction false} MinimalStep(n: nat)
    ensures |MinimalBytes(n)| == if n == 0 then 0 else |MinimalBytes(n / 256)| + 1
  {
  }

  // ----- a stream of messages -----

  function EncodeAll(z: Snappy, least: int, msgs: seq<Msg>): (s: seq<Byte>) {
    if msgs == [] then [] else Encode(z, least, msgs[0]) + EncodeAll(z, least, msgs[1..])
  }

  /** Reading n messages one after another. */
  function DecodeMany(z: Snappy, n: nat, s: seq<Byte>): (r: Option<(seq<Msg>, seq<Byte>)>) {
    if n == 0 then Some(([], s))
    else match Decode(z, s)
      case Err(_, _) => None
      case Ok(msg, rest) =>
        match DecodeMany(z, n - 1, rest)
        case None => None
        case Some((msgs, left)) => Some(([msg] + msgs, left))
  }

  predicate Sendable(z: Snappy, least: int, msgs: seq<Msg>) {
    forall i :: 0 <= i < |msgs| ==> msgs[i].Ok() && |Store(z, least, msgs[i].payload).bytes| <= MAX_PAYLOAD
  }

  /** Any sequence of messages comes back in order, and exactly its bytes are consumed. */
  lemma {:induction false} StreamRoundTrip(z: Snappy, least: int, msgs: seq<Msg>, rest: seq<Byte>)
    requires z.Inverse() && Sendable(z, least, msgs)
    ensures DecodeMany(z, |msgs|, EncodeAll(z, least, msgs) + rest) == Some((msgs, rest))
  {
    hide Decode, Encode, Store;
    if msgs == [] {
      assert EncodeAll(z, least, msgs) + rest == rest;
    } else {
      var tail := EncodeAll(z, least, msgs[1..]) + rest;
      assert EncodeAll(z, least, msgs) + rest == Encode(z, least, msgs[0]) + tail;
      RoundTrip(z, least, msgs[0], tail);
      StreamRoundTrip(z, least, msgs[1..], rest);
      assert [msgs[0]] + msgs[1..] == msgs;
    }
  }

  // ----- the transport -----

  lemma {:induction false} MinimalIsBigEndian(n: nat)
    ensures MinimalBytes(n) == BigEndian(n, |MinimalBytes(n)|)
  {
    if n > 0 { MinimalIsBigEndian(n / 256); }
  }

  /** The bytes left after dropping m are none exactly from the minimal length on. */
  lemma {:induction false} MinimalEnds(n: nat, m: nat)
    ensures DropBytes(n, m) > 0 <==> m < |MinimalBytes(n)|
  {
    if n == 0 {
      DropBytesZero(m);
    } else if m > 0 {
      MinimalEnds(n / 256, m - 1);
    }
  }

  lemma {:induction false} FromBytesNext(s: seq<Byte>, i: nat, p: nat)
    requires i < |s|
    ensures FromBytes(s[..i + 1]) * p == FromBytes(s[..i]) * (256 * p) + s[i] * p
  {
    assert s[..i + 1][..i] == s[..i];
    var f := FromBytes(s[..i]);
    assert (f * 256 + s[i]) * p == f * (256 * p) + s[i] * p;
  }

  /** Or-ing the shifted bytes; their bits do not meet, so it is a sum. */
  method Varint(buf: seq<Byte>) returns (n: nat)
    ensures n == FromBytes(buf)
  {
    n := 0;
    var i := 0;
    while i < |buf|
      invariant 0 <= i <= |buf|
      invariant n == FromBytes(buf[..i]) * Pow256(|buf| - i)
    {
      FromBytesNext(buf, i, Pow256(|buf| - i - 1));
      n := n + buf[i] * Pow256(|buf| - i - 1);
      i := i + 1;
    }
    assert buf[..i] == buf;
  }

  method PutId(id: nat, buf: array<Byte>, at: nat) returns (n: nat)
    requires id < TWO32 && at + 4 <= buf.Length
    modifies buf
    ensures n == |IdBytes(id)|
    ensures buf[..at + n] == old(buf[..at]) + IdBytes(id)
  {
    if id == 0 { return 0; }
    if id > 65535 {
      BigEndianAt(id, 4, 0);
      BigEndianAt(id, 4, 1);
      BigEndianAt(id, 4, 2);
      BigEndianAt(id, 4, 3);
      buf[at], buf[at + 1], buf[at + 2], buf[at + 3] :=
        DropBytes(id, 3) % 256, DropBytes(id, 2) % 256, DropBytes(id, 1) % 256, id % 256;
      return 4;
    }
    if id > 255 {
      BigEndianAt(id, 2, 0);
      BigEndianAt(id, 2, 1);
      buf[at], buf[at + 1] := DropBytes(id, 1) % 256, id % 256;
      return 2;
    }
    buf[at] := id;
    return 1;
  }

  /** Fails, as an index out of range, exactly when the bytes do not fit behind at. */
  method PutVarint(buf: array<Byte>, at: nat, n: nat) returns (ok: bool, m: nat)
    requires n < TWO64 && at <= buf.Length
    modifies buf
    ensures m == |MinimalBytes(n)| && (ok <==> at + m <= buf.Length)
    ensures ok ==> buf[..at + m] == old(buf[..at]) + MinimalBytes(n)
  {
    if n == 0 { return true, 0; }
    m := 1;
    MinimalEnds(n, 0);
    while DropBytes(n, m) > 0
      invariant 1 <= m <= |MinimalBytes(n)| && buf[..at] == old(buf[..at])
      decreases |MinimalBytes(n)| - m
    {
      MinimalEnds(n, m);
      m := m + 1;
    }
    MinimalEnds(n, m);
    MinimalIsBigEndian(n);
    var i := 0;
    while i < m
      invariant 0 <= i <= m && at + i <= buf.Length
      invariant buf[..at + i] == old(buf[..at]) + BigEndian(n, m)[..i]
    {
      if at + i >= buf.Length { return false, m; }
      BigEndianAt(n, m, m - i - 1);
      buf[at + i] := DropBytes(n, m - i - 1) % 256;
      i := i + 1;
    }
    return true, m;
  }

  class Transport {
    const z: Snappy
    const least: int
    const readHead: array<Byte>
    const writeHead: array<Byte>
    var incoming: seq<Byte>
    var outgoing: seq<Byte>

    ghost predicate Valid()
      reads this
    {
      readHead.Length == 4 && writeHead.Length == HEAD_SIZE && readHead != writeHead
    }

    constructor (snappy: Snappy, minCompressLength: int, received: seq<Byte>)
      ensures Valid() && fresh(readHead) && fresh(writeHead)
      ensures z == snappy && least == minCompressLength && incoming == received && outgoing == []
    {
      z, least, incoming, outgoing := snappy, minCompressLength, received, [];
      readHead := new Byte[4](_ => 0);
      writeHead := new Byte[HEAD_SIZE](_ => 0);
    }

    /** Fills the first n bytes of the head buffer; a short stream is used up and reported. */
    method ReadFull(n: nat) returns (ok: bool)
      requires Valid() && n <= 4
      modifies this`incoming, readHead
      ensures ok <==> n <= |old(incoming)|
      ensures ok ==> readHead[..n] == old(incoming)[..n] && incoming == old(incoming)[n..]
      ensures !ok ==> incoming == []
    {
      var i := 0;
      while i < n && i < |incoming|
        invariant 0 <= i <= n && i <= |incoming| && incoming == old(incoming)
        invariant readHead[..i] == incoming[..i]
      {
        readHead[i] := incoming[i];
        i := i + 1;
      }
      ok := i == n;
      incoming := incoming[i..];
    }

    method ReadPayload(length: nat) returns (ok: bool, payload: seq<Byte>)
      modifies this`incoming
      ensures ok <==> length <= |old(incoming)|
      ensures ok ==> payload == old(incoming)[..length] && incoming == old(incoming)[length..]
      ensures !ok ==> incoming == []
    {
      if length <= |incoming| {
        ok, payload, incoming := true, incoming[..length], incoming[length..];
      } else {
        ok, payload, incoming := false, [], [];
      }
    }

    /** Reads one message: what Decode makes of the stream, leaving what Decode leaves. */
    method ReadMsg() returns (r: ReadResult)
      requires Valid()
      modifies this`incoming, readHead
      ensures Valid() && r == Decode(z, old(incoming)) && incoming == r.rest
    {
      hide FromBytes, RetrieveMeta;
      var ok := ReadFull(2);
      if !ok { return Err(NoMeta, []); }
      var meta, code := RetrieveMeta(readHead[0]), readHead[1];
      assert readHead[..2][0] == readHead[0] && readHead[..2][1] == readHead[1];
      r := ReadBody(meta, code);
    }

    method ReadBody(meta: Meta, code: Byte) returns (r: ReadResult)
      requires Valid() && meta.isize <= 4 && meta.lsize <= 4
      modifies this`incoming, readHead
      ensures Valid() && r == DecodeId(z, meta, code, old(incoming)) && incoming == r.rest
    {
      hide FromBytes, RetrieveMeta;
      var id := 0;
      FromNoBytes();
      if meta.isize > 0 {
        var ok := ReadFull(meta.isize);
        if !ok { return Err(NoId, []); }
        id := Varint(readHead[..meta.isize]);
      }
      var payload := [];
      var length := 0;
      if meta.lsize > 0 {
        var ok := ReadFull(meta.lsize);
        if !ok { return Err(NoLength, []); }
        length := Varint(readHead[..meta.lsize]);
        if length > MAX_PAYLOAD { return Err(TooLarge, incoming); }
        ok, payload := ReadPayload(length);
        if !ok { return Err(NoPayload, []); }
      }
      if meta.compressed {
        match z.decode(payload) {
          case None => return Err(NotCompressed, incoming);
          case Some(p) => payload := p;
        }
      }
      return Ok(Msg(code, id, payload), incoming);
    }

    /** Compresses the payload if that pays. */
    method Pack(payload: seq<Byte>) returns (st: Stored)
      ensures st == Store(z, least, payload)
      ensures st.compressed <==> |payload| > least && |z.encode(payload)| < |payload|
      ensures st.bytes == if st.compressed then z.encode(payload) else payload
    {
      st := Stored(payload, false);
      if |payload| > least {
        var packed := z.encode(payload);
        if |packed| < |payload| { st := Stored(packed, true); }
      }
    }

    /** Lays the head out in its buffer; fails when it would run over. */
    method PutHead(code: Byte, id: nat, length: nat, compressed: bool) returns (ok: bool, headLen: nat)
      requires Valid() && id < TWO32 && length < TWO64
      modifies writeHead
      ensures headLen == 2 + |IdBytes(id)| + |MinimalBytes(length)| && (ok <==> headLen <= HEAD_SIZE)
      ensures ok ==> writeHead[..headLen] == Head(code, id, length, compressed)
    {
      hide MinimalBytes, IdBytes, StoreMeta;
      writeHead[1] := code;
      var isize := PutId(id, writeHead, 2);
      ghost var before := writeHead[..2 + isize];
      assert before[1] == code && before[2..] == IdBytes(id);
      var fits, lsize := PutVarint(writeHead, 2 + isize, length);
      headLen := 2 + isize + lsize;
      if !fits { return false, headLen; }
      ghost var after := writeHead[..headLen];
      assert after == before + MinimalBytes(length);
      writeHead[0] := StoreMeta(isize, lsize, compressed);
      assert writeHead[..headLen] == after[0 := writeHead[0]];
      HeadLaidOut(before, after, code, id, length, compressed);
      return true, headLen;
    }

    /** Writes one message, unless its head would run over the nine bytes of the head buffer. */
    method WriteMsg(msg: Msg) returns (ok: bool)
      requires Valid() && msg.Ok()
      modifies this`outgoing, writeHead
      ensures Valid()
      ensures ok <==> 2 + |IdBytes(msg.id)| + |MinimalBytes(|Store(z, least, msg.payload).bytes|)| <= HEAD_SIZE
      ensures outgoing == old(outgoing) + if ok then Encode(z, least, msg) else []
    {
      hide MinimalBytes, IdBytes, Store, Head;
      var st := Pack(msg.payload);
      var fits, headLen := PutHead(msg.code, msg.id, |st.bytes|, st.compressed);
      if !fits { return false; }
      outgoing := outgoing + writeHead[..headLen];
      outgoing := outgoing + st.bytes;
      return true;
    }
  }

  lemma {:induction false} HeadLaidOut(before: seq<Byte>, after: seq<Byte>, code: Byte, id: nat, length: nat,
      compressed: bool)
    requires |before| == 2 + |IdBytes(id)| && before[1] == code && before[2..] == IdBytes(id)
    requires after == before + MinimalBytes(length)
    ensures after[0 := StoreMeta(|IdBytes(id)|, |MinimalBytes(length)|, compressed)] ==
            Head(code, id, length, compressed)
  {
    hide MinimalBytes, IdBytes, StoreMeta;
    assert before == [before[0], code] + IdBytes(id);
  }

  lemma {:induction false} FromNoBytes()
    ensures FromBytes([]) == 0
  {
  }
}
