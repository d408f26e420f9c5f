/** The wire form of a request: a count, then each message's registered id and its own bytes.
    Messages bring their own codecs; what is assumed of those is that they delimit
    themselves. */
module AmGroupCodec {
  import opened Options
  import opened Arith
  import opened Sums

  type Byte = x: int | 0 <= x < 256

  // ---------------------------------------------------------------- fixed-width integers

  const CountWidth: nat := 8
  const IdWidth: nat := 4

  function Bound(width: nat): (b: nat)
    ensures b >= 1
  {
    if width == 0 then 1 else 256 * Bound(width - 1)
  }

  /** Little-endian, in exactly `width` bytes. */
  function EncodeLE(n: nat, width: nat): (bs: seq<Byte>)
    ensures |bs| == width
  {
    if width == 0 then [] else [n % 256] + EncodeLE(n / 256, width - 1)
  }

  function DecodeLE(bs: seq<Byte>): nat {
    if bs == [] then 0 else bs[0] + 256 * DecodeLE(bs[1..])
  }

  lemma {:induction false} LittleEndianRoundTrip(n: nat, width: nat)
    requires n < Bound(width)
    ensures DecodeLE(EncodeLE(n, width)) == n
  {
    if width > 0 {
      LittleEndianRoundTrip(n / 256, width - 1);
    }
  }

  /** Byte `i` is the `i`-th digit of the number to base 256, the lowest first. */
  lemma {:induction false} LittleEndianByte(n: nat, width: nat, i: nat)
    requires i < width
    ensures EncodeLE(n, width)[i] == (n / Bound(i)) % 256
  {
    if i > 0 {
      LittleEndianByte(n / 256, width - 1, i - 1);
      DivDiv(n, 256, Bound(i - 1));
    }
  }

  lemma DivDiv(n: nat, a: nat, b: nat)
    requires a > 0 && b > 0
    ensures a * b > 0 && n / a / b == n / (a * b)
  {
    var q, r := n / a, n % a;
    var q', r' := q / b, q % b;
    assert n == a * q + r && q == b * q' + r';
    assert a * b > 0 by { MulMonotone(1, a, 1, b); }
    assert n == q' * (a * b) + (a * r' + r);
    assert a * r' + r < a * b by { MulMonotone(a, a, r' + 1, b); assert a * (r' + 1) == a * r' + a; }
    DivModUnique(n, q', a * r' + r, a * b);
  }

  lemma {:induction false} LittleEndianCanonical(bs: seq<Byte>)
    ensures DecodeLE(bs) < Bound(|bs|) && EncodeLE(DecodeLE(bs), |bs|) == bs
  {
    if bs != [] {
      LittleEndianCanonical(bs[1..]);
      DivModUnique(DecodeLE(bs), DecodeLE(bs[1..]), bs[0], 256);
    }
  }

  /** Message ids are 32-bit signed integers, in two's complement. */
  predicate IsId(id: int) {
    -0x8000_0000 <= id < 0x8000_0000
  }

  function EncodeId(id: int): (bs: seq<Byte>)
    requires IsId(id)
    ensures |bs| == IdWidth
  {
    EncodeLE(if id < 0 then id + 0x1_0000_0000 else id, IdWidth)
  }

  function DecodeId(bs: seq<Byte>): (id: int)
    requires |bs| == IdWidth
    ensures IsId(id)
  {
    LittleEndianCanonical(bs);
    IdBound();
    var n := DecodeLE(bs);
    if n >= 0x8000_0000 then n - 0x1_0000_0000 else n
  }

  lemma IdBound()
    ensures Bound(IdWidth) == 0x1_0000_0000
  {
    assert Bound(1) == 256 && Bound(2) == 0x1_0000 && Bound(3) == 0x100_0000;
  }

  lemma IdRoundTrip(id: int)
    requires IsId(id)
    ensures DecodeId(EncodeId(id)) == id
  {
    IdBound();
    LittleEndianRoundTrip(if id < 0 then id + 0x1_0000_0000 else id, IdWidth);
  }

  lemma IdCanonical(bs: seq<Byte>)
    requires |bs| == IdWidth
    ensures EncodeId(DecodeId(bs)) == bs
  {
    LittleEndianCanonical(bs);
  }

  // ---------------------------------------------------------------- messages

  /** The registered codecs: a message's id, its bytes, its announced size, and the unpacking
      function registered for an id, which gets all remaining bytes. */
  datatype Registry<!Am> = Registry(id: Am -> int, bytes: Am -> seq<Byte>, size: Am -> nat,
                                    unpack: (int, seq<Byte>) -> Option<Am>)

  /** Every message announces the number of bytes it writes, and its unpacking function
      recovers it whatever follows. */
  ghost predicate SelfDelimiting<Am(!new)>(g: Registry<Am>) {
    && (forall am :: IsId(g.id(am)) && g.size(am) == |g.bytes(am)|)
    && (forall am, rest: seq<Byte> :: g.unpack(g.id(am), g.bytes(am) + rest) == Some(am))
  }

  /** Unpacking functions accept only bytes that a message would write. */
  ghost predicate Canonical<Am(!new)>(g: Registry<Am>) {
    forall id, bs: seq<Byte>, am :: g.unpack(id, bs) == Some(am) ==>
      g.id(am) == id && g.bytes(am) <= bs
  }

  /** The bytes of the messages, one after the other. */
  function Body<Am>(g: Registry<Am>, ams: seq<Am>): seq<Byte>
    requires forall am :: am in ams ==> IsId(g.id(am))
  {
    if ams == [] then [] else EncodeId(g.id(ams[0])) + g.bytes(ams[0]) + Body(g, ams[1..])
  }

  /** A message takes four bytes for its id and its own bytes. */
  lemma {:induction false} BodySize<Am>(g: Registry<Am>, ams: seq<Am>)
    requires forall am :: am in ams ==> IsId(g.id(am))
    ensures |Body(g, ams)| == Sum(Lengths(g, ams))
  {
    if ams != [] {
      BodySize(g, ams[1..]);
      assert Lengths(g, ams)[1..] == Lengths(g, ams[1..]);
    }
  }

  function Lengths<Am>(g: Registry<Am>, ams: seq<Am>): (s: seq<nat>)
    ensures |s| == |ams|
  {
    seq(|ams|, i requires 0 <= i < |ams| => 4 + |g.bytes(ams[i])|)
  }

  function Encoded<Am>(g: Registry<Am>, ams: seq<Am>): seq<Byte>
    requires forall am :: am in ams ==> IsId(g.id(am))
  {
    EncodeLE(|ams|, CountWidth) + Body(g, ams)
  }

  // ---------------------------------------------------------------- reading

  /** The reference reader: `num` messages from position `i` on. `None` stands for each way the
      reader can panic: too few bytes, an unknown id, or a message that does not unpack. */
  function ParseFrom<Am>(g: Registry<Am>, bytes: seq<Byte>, i: nat, num: nat): Option<seq<Am>>
    decreases num
  {
    if num == 0 then Some([])
    else if i + IdWidth > |bytes| then None
    else
      match g.unpack(DecodeId(bytes[i..i + IdWidth]), bytes[i + IdWidth..])
      case None => None
      case Some(am) =>
        Prepend([am], ParseFrom(g, bytes, i + IdWidth + g.size(am), num - 1))
  }

  function Decoded<Am>(g: Registry<Am>, bytes: seq<Byte>): Option<seq<Am>> {
    if |bytes| < CountWidth then None
    else ParseFrom(g, bytes, CountWidth, DecodeLE(bytes[..CountWidth]))
  }

  /** Reading a slice that begins with three pieces. */
  lemma Pieces(bytes: seq<Byte>, i: nat, a: seq<Byte>, b: seq<Byte>, c: seq<Byte>)
    requires i <= |bytes| && a + b + c <= bytes[i..]
    ensures i + |a| + |b| <= |bytes| && bytes[i..i + |a|] == a
    ensures bytes[i + |a|..] == b + bytes[i + |a| + |b|..] && c <= bytes[i + |a| + |b|..]
  {
    var all := a + b + c;
    assert all == bytes[i..][..|all|] == bytes[i..i + |all|];
    assert a == all[..|a|] && b == all[|a|..|a| + |b|] && c == all[|a| + |b|..];
  }

  lemma {:induction false} ParseBody<Am(!new)>(g: Registry<Am>, bytes: seq<Byte>, i: nat, ams: seq<Am>)
    requires SelfDelimiting(g) && i <= |bytes| && Body(g, ams) <= bytes[i..]
    ensures ParseFrom(g, bytes, i, |ams|) == Some(ams)
    decreases |ams|
  {
    hide EncodeId, DecodeId;
    if ams != [] {
      var id, own := EncodeId(g.id(ams[0])), g.bytes(ams[0]);
      Pieces(bytes, i, id, own, Body(g, ams[1..]));
      IdRoundTrip(g.id(ams[0]));
      var after := i + IdWidth + |own|;
      assert g.unpack(g.id(ams[0]), own + bytes[after..]) == Some(ams[0]);
      ParseBody(g, bytes, after, ams[1..]);
      assert [ams[0]] + ams[1..] == ams;
    }
  }

  /** What was written is read back, whatever follows it. */
  lemma RoundTrip<Am(!new)>(g: Registry<Am>, ams: seq<Am>, rest: seq<Byte>)
    requires SelfDelimiting(g) && |ams| < Bound(CountWidth)
    ensures Decoded(g, Encoded(g, ams) + rest) == Some(ams)
  {
    var bytes := Encoded(g, ams) + rest;
    assert bytes[..CountWidth] == EncodeLE(|ams|, CountWidth);
    LittleEndianRoundTrip(|ams|, CountWidth);
    assert bytes[CountWidth..] == Body(g, ams) + rest;
    ParseBody(g, bytes, CountWidth, ams);
  }

  lemma Joined(bytes: seq<Byte>, i: nat, a: seq<Byte>, b: seq<Byte>, c: seq<Byte>)
    requires i + |a| <= |bytes| && bytes[i..i + |a|] == a && b <= bytes[i + |a|..]
    requires c <= bytes[i + |a| + |b|..]
    ensures a + b + c <= bytes[i..]
  {
    assert b == bytes[i + |a|..][..|b|] == bytes[i + |a|..i + |a| + |b|];
    assert bytes[i..] == a + b + bytes[i + |a| + |b|..];
  }

  lemma {:induction false} ParsedBody<Am(!new)>(g: Registry<Am>, bytes: seq<Byte>, i: nat, num: nat, ams: seq<Am>)
    requires SelfDelimiting(g) && Canonical(g) && i <= |bytes| && ParseFrom(g, bytes, i, num) == Some(ams)
    ensures |ams| == num && Body(g, ams) <= bytes[i..]
    decreases num
  {
    hide EncodeId, DecodeId;
    if num > 0 {
      var at := i + IdWidth;
      var id := DecodeId(bytes[i..at]);
      var am, own := ams[0], g.bytes(ams[0]);
      assert g.unpack(id, bytes[at..]) == Some(am);
      ParsedBody(g, bytes, at + |own|, num - 1, ams[1..]);
      IdCanonical(bytes[i..at]);
      Joined(bytes, i, EncodeId(id), own, Body(g, ams[1..]));
    }
  }

  /** With canonical message codecs the reader yields `ams` exactly on byte strings that begin
      with the encoding of `ams`. */
  lemma DecodedIff<Am(!new)>(g: Registry<Am>, bytes: seq<Byte>, ams: seq<Am>)
    requires SelfDelimiting(g) && Canonical(g) && |ams| < Bound(CountWidth)
    ensures Decoded(g, bytes) == Some(ams) <==> Encoded(g, ams) <= bytes
  {
    if Decoded(g, bytes) == Some(ams) {
      var num := DecodeLE(bytes[..CountWidth]);
      ParsedBody(g, bytes, CountWidth, num, ams);
      LittleEndianCanonical(bytes[..CountWidth]);
      assert bytes == bytes[..CountWidth] + bytes[CountWidth..];
    }
    if Encoded(g, ams) <= bytes {
      var rest := bytes[|Encoded(g, ams)|..];
      assert bytes == Encoded(g, ams) + rest;
      RoundTrip(g, ams, rest);
    }
  }

  function Prepend<Am>(ams: seq<Am>, r: Option<seq<Am>>): Option<seq<Am>> {
    match r
    case None => None
    case Some(rest) => Some(ams + rest)
  }

  lemma PrependNone<Am>(r: Option<seq<Am>>)
    ensures Prepend([], r) == r
  {
    if r.Some? { assert [] + r.value == r.value; }
  }

  lemma PrependOne<Am>(ams: seq<Am>, am: Am, r: Option<seq<Am>>)
    ensures Prepend(ams + [am], r) == Prepend(ams, Prepend([am], r))
  {
    if r.Some? { assert ams + [am] + r.value == ams + ([am] + r.value); }
  }

  /** The unpacking loop. */
  method Unpack<Am>(g: Registry<Am>, bytes: seq<Byte>) returns (r: Option<seq<Am>>)
    ensures r == Decoded(g, bytes)
  {
    if |bytes| < CountWidth {
      return None;
    }
    var ams: seq<Am> := [];
    var i: nat := 0;
    var num := DecodeLE(bytes[i..i + CountWidth]);
    assert bytes[i..i + CountWidth] == bytes[..CountWidth];
    i := i + CountWidth;
    PrependNone(ParseFrom(g, bytes, i, num));
    while num > 0
      invariant Decoded(g, bytes) == Prepend(ams, ParseFrom(g, bytes, i, num))
    {
      if i + IdWidth > |bytes| {
        return None;
      }
      var id := DecodeId(bytes[i..i + IdWidth]);
      i := i + IdWidth;
      var am := g.unpack(id, bytes[i..]);
      if am.None? {
        return None;
      }
      i := i + g.size(am.value);
      PrependOne(ams, am.value, ParseFrom(g, bytes, i, num - 1));
      ams := ams + [am.value];
      num := num - 1;
    }
    assert ams + [] == ams;
    return Some(ams);
  }

  // ---------------------------------------------------------------- writing

  lemma {:induction false} BodyConcat<Am>(g: Registry<Am>, a: seq<Am>, b: seq<Am>)
    requires (forall x :: x in a ==> IsId(g.id(x))) && (forall x :: x in b ==> IsId(g.id(x)))
    ensures Body(g, a + b) == Body(g, a) + Body(g, b)
  {
    hide EncodeId;
    if a == [] {
      assert a + b == b;
    } else {
      BodyConcat(g, a[1..], b);
      assert (a + b)[1..] == a[1..] + b;
    }
  }

  lemma BodyTake<Am(!new)>(g: Registry<Am>, ams: seq<Am>, si: nat, i: nat, ei: nat)
    requires SelfDelimiting(g) && si <= i < ei <= |ams|
    ensures Body(g, ams[si..i + 1]) == Body(g, ams[si..i]) + (EncodeId(g.id(ams[i])) + g.bytes(ams[i]))
    ensures |Body(g, ams[si..i + 1])| <= |Body(g, ams[si..ei])|
  {
    var one := [ams[i]];
    assert ams[si..i + 1] == ams[si..i] + one && one[1..] == [];
    BodyConcat(g, ams[si..i], one);
    assert Body(g, one) == EncodeId(g.id(ams[i])) + g.bytes(ams[i]) + Body(g, []);
    assert ams[si..ei] == ams[si..i + 1] + ams[i + 1..ei];
    BodyConcat(g, ams[si..i + 1], ams[i + 1..ei]);
  }

  /** The size a request announces is the number of bytes it writes. */
  method SerializedSize<Am(!new)>(g: Registry<Am>, ams: seq<Am>, si: nat, ei: nat) returns (size: nat)
    requires SelfDelimiting(g) && si <= ei <= |ams|
    ensures size == |Encoded(g, ams[si..ei])| == 8 + Sum(Lengths(g, ams[si..ei]))
  {
    BodySize(g, ams[si..ei]);
    hide Lengths, Sum;
    size := CountWidth;
    for i := si to ei
      invariant size == CountWidth + |Body(g, ams[si..i])|
    {
      BodyTake(g, ams, si, i, ei);
      size := size + IdWidth;
      size := size + g.size(ams[i]);
    }
  }

  /** Copies `bs` into the buffer at `at`. */
  method Write(buf: array<Byte>, at: nat, bs: seq<Byte>)
    requires at + |bs| <= buf.Length
    modifies buf
    ensures buf[..at] == old(buf[..at]) && buf[at..at + |bs|] == bs
    ensures buf[at + |bs|..] == old(buf[at + |bs|..])
  {
    for k := 0 to |bs|
      invariant buf[..at] == old(buf[..at]) && buf[at + |bs|..] == old(buf[at + |bs|..])
      invariant forall j :: 0 <= j < k ==> buf[at + j] == bs[j]
    {
      buf[at + k] := bs[k];
    }
  }

  /** Writes one message behind what is already there. */
  method WriteMessage<Am(!new)>(g: Registry<Am>, am: Am, buf: array<Byte>, at: nat) returns (next: nat)
    requires SelfDelimiting(g) && at + IdWidth + |g.bytes(am)| <= buf.Length
    modifies buf
    ensures next == at + IdWidth + |g.bytes(am)|
    ensures buf[..next] == old(buf[..at]) + (EncodeId(g.id(am)) + g.bytes(am))
    ensures buf[next..] == old(buf[next..])
  {
    hide EncodeId;
    next := at;
    Write(buf, next, EncodeId(g.id(am)));
    assert buf[..next + IdWidth] == old(buf[..at]) + EncodeId(g.id(am)) by {
      assert buf[..next + IdWidth] == buf[..next] + buf[next..next + IdWidth];
    }
    next := next + IdWidth;
    ghost var front, tail := buf[..next], buf[next + |g.bytes(am)|..];
    assert tail == old(buf[next + |g.bytes(am)|..]) by {
      assert tail == buf[next..][|g.bytes(am)|..] == old(buf[next..])[|g.bytes(am)|..];
    }
    Write(buf, next, g.bytes(am));
    assert buf[..next + |g.bytes(am)|] == front + g.bytes(am) by {
      assert buf[..next + |g.bytes(am)|] == buf[..next] + buf[next..next + |g.bytes(am)|];
    }
    next := next + g.size(am);
  }

  /** Writes a request into a buffer that has room for it and leaves the rest of the buffer
      alone. */
  method SerializeInto<Am(!new)>(g: Registry<Am>, ams: seq<Am>, si: nat, ei: nat, buf: array<Byte>)
    requires SelfDelimiting(g) && si <= ei <= |ams| && |Encoded(g, ams[si..ei])| <= buf.Length
    modifies buf
    ensures var e := Encoded(g, ams[si..ei]);
            buf[..|e|] == e && buf[|e|..] == old(buf[|e|..])
  {
    hide Body, EncodeLE, EncodeId;
    var i: nat := 0;
    var num := ei - si;
    var head := EncodeLE(num, CountWidth);
    ghost var was := buf[..];
    Write(buf, i, head);
    i := i + CountWidth;
    EmptyBody(g, ams, si);
    for k := si to ei
      invariant i == CountWidth + |Body(g, ams[si..k])| <= buf.Length
      invariant buf[..i] == head + Body(g, ams[si..k])
      invariant buf[i..] == was[i..]
    {
      BodyTake(g, ams, si, k, ei);
      ghost var before, own := buf[..i], EncodeId(g.id(ams[k])) + g.bytes(ams[k]);
      ghost var i0 := i;
      i := WriteMessage(g, ams[k], buf, i);
      assert buf[i..] == was[i..] by {
        assert was[i..] == was[i0..][i - i0..];
      }
      assert buf[..i] == head + Body(g, ams[si..k + 1]) by {
        assert before + own == head + (Body(g, ams[si..k]) + own);
      }
    }
  }

  lemma EmptyBody<Am>(g: Registry<Am>, ams: seq<Am>, si: nat)
    requires si <= |ams|
    ensures Body(g, ams[si..si]) == []
  {
  }

  /** A request as a byte string. */
  method Serialize<Am(!new)>(g: Registry<Am>, ams: seq<Am>, si: nat, ei: nat) returns (data: seq<Byte>)
    requires SelfDelimiting(g) && si <= ei <= |ams| && |ams| < Bound(CountWidth)
    ensures data == Encoded(g, ams[si..ei]) && Decoded(g, data) == Some(ams[si..ei])
  {
    var size := SerializedSize(g, ams, si, ei);
    var buf := new Byte[size](_ => 0);
    SerializeInto(g, ams, si, ei, buf);
    data := buf[..];
    RoundTrip(g, ams[si..ei], []);
    assert data == Encoded(g, ams[si..ei]) + [];
  }
}
