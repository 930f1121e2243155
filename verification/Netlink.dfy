/**
 The attribute codec of generic-netlink messages (message format of section 2.2 of RFC 3549): a
 two-byte length that includes the header, a two-byte type, the payload, zero padding to four bytes.
 */
module Netlink {
  import opened Options

  type Byte = b: int | 0 <= b < 256
  type U16 = n: int | 0 <= n < 0x1_0000

  const HEADER: nat := 4

  /** The longest payload whose length field does not wrap. */
  const LONGEST: nat := 0x1_0000 - HEADER - 1

  datatype Attr = Attr(kind: U16, payload: seq<Byte>)

  /** Rounding up to four bytes. */
  function Align(n: nat): (r: nat)
    ensures r % 4 == 0 && n <= r < n + 4
  {
    (n + 3) / 4 * 4
  }

  function Le16(n: U16): seq<Byte> {
    [n % 256, n / 256]
  }

  function FromLe16(lo: Byte, hi: Byte): U16 {
    lo + 256 * hi
  }

  function Zeros(n: nat): seq<Byte> {
    seq(n, i => 0)
  }

  /** The stored length is cut to 16 bits. */
  function Encode(a: Attr): seq<Byte> {
    var len := HEADER + |a.payload|;
    Le16(len % 0x1_0000) + Le16(a.kind) + a.payload + Zeros(Align(len) - len)
  }

  function EncodeAll(attrs: seq<Attr>): seq<Byte> {
    if attrs == [] then [] else EncodeAll(attrs[..|attrs| - 1]) + Encode(attrs[|attrs| - 1])
  }

  // ------------------------------------------------------------------ reading

  /** Whether an attribute that lies wholly inside starts at the front. */
  predicate StartsWithAttr(bytes: seq<Byte>) {
    HEADER <= |bytes| && HEADER <= FromLe16(bytes[0], bytes[1]) <= |bytes|
  }

  function Front(bytes: seq<Byte>): Attr
    requires StartsWithAttr(bytes)
  {
    Attr(FromLe16(bytes[2], bytes[3]), bytes[HEADER..FromLe16(bytes[0], bytes[1])])
  }

  /** What follows the front attribute and its padding, which may be cut short. */
  function Rest(bytes: seq<Byte>): (r: seq<Byte>)
    requires StartsWithAttr(bytes)
    ensures |r| < |bytes|
  {
    var next := Align(FromLe16(bytes[0], bytes[1]));
    if next <= |bytes| then bytes[next..] else []
  }

  /** Every attribute up to the first malformed one. */
  function Decode(bytes: seq<Byte>): seq<Attr>
    decreases |bytes|
  {
    if StartsWithAttr(bytes) then [Front(bytes)] + Decode(Rest(bytes)) else []
  }

  /** The first attribute of the type that is long enough, cut to the wanted length. */
  function First(attrs: seq<Attr>, kind: U16, want: nat): Option<seq<Byte>> {
    if attrs == [] then None
    else if attrs[0].kind == kind && |attrs[0].payload| >= want then Some(attrs[0].payload[..want])
    else First(attrs[1..], kind, want)
  }

  function From(bytes: seq<Byte>, p: nat): seq<Byte> {
    if p <= |bytes| then bytes[p..] else []
  }

  /** A well-formed attribute at p, in terms of the bytes the loop reads. */
  lemma AttrAt(bytes: seq<Byte>, p: nat)
    requires p + HEADER <= |bytes|
    ensures var len := FromLe16(bytes[p], bytes[p + 1]);
            && (StartsWithAttr(From(bytes, p)) <==> HEADER <= len && p + len <= |bytes|)
            && (StartsWithAttr(From(bytes, p)) ==>
                  && Front(From(bytes, p)) == Attr(FromLe16(bytes[p + 2], bytes[p + 3]), bytes[p + HEADER..p + len])
                  && Rest(From(bytes, p)) == From(bytes, p + Align(len)))
  {
  }

  /** One turn of the walk, on any byte string. */
  lemma FirstUnfolds(bytes: seq<Byte>, kind: U16, want: nat)
    ensures !StartsWithAttr(bytes) ==> First(Decode(bytes), kind, want) == None
    ensures StartsWithAttr(bytes) ==>
              First(Decode(bytes), kind, want) ==
              if Front(bytes).kind == kind && |Front(bytes).payload| >= want then Some(Front(bytes).payload[..want])
              else First(Decode(Rest(bytes)), kind, want)
  {
  }

  /** The loop from position p on: it stops at the end, at a length below the header's, and at one past the end. */
  function Walk(bytes: seq<Byte>, p: nat, kind: U16, want: nat): Option<seq<Byte>>
    decreases |bytes| - p
  {
    if p + HEADER > |bytes| then None
    else
      var len := FromLe16(bytes[p], bytes[p + 1]);
      if len < HEADER || p + len > |bytes| then None
      else if FromLe16(bytes[p + 2], bytes[p + 3]) == kind && len >= HEADER + want then
        Some(bytes[p + HEADER..p + HEADER + want])
      else Walk(bytes, p + Align(len), kind, want)
  }

  /** One step of the walk, in terms of what starts at p. */
  lemma WalkUnfolds(bytes: seq<Byte>, p: nat, kind: U16, want: nat)
    ensures !StartsWithAttr(From(bytes, p)) ==> Walk(bytes, p, kind, want) == None
    ensures StartsWithAttr(From(bytes, p)) ==>
              var front := Front(From(bytes, p));
              && p + HEADER <= |bytes|
              && Rest(From(bytes, p)) == From(bytes, p + Align(FromLe16(bytes[p], bytes[p + 1])))
              && Walk(bytes, p, kind, want) ==
                 if front.kind == kind && |front.payload| >= want then Some(front.payload[..want])
                 else Walk(bytes, p + Align(FromLe16(bytes[p], bytes[p + 1])), kind, want)
  {
    if p + HEADER <= |bytes| {
      AttrAt(bytes, p);
      var len := FromLe16(bytes[p], bytes[p + 1]);
      if HEADER + want <= len && p + len <= |bytes| {
        SliceOfSlice(bytes, p + HEADER, p + len, want);
      }
    }
  }

  lemma SliceOfSlice(bytes: seq<Byte>, a: nat, b: nat, n: nat)
    requires a + n <= b <= |bytes|
    ensures bytes[a..b][..n] == bytes[a..a + n]
  {
  }

  /** found answers for the front attribute, or for what follows it. */
  ghost predicate AnswersAt(found: seq<Byte> -> Option<seq<Byte>>, bytes: seq<Byte>, kind: U16, want: nat) {
    found(bytes) ==
      if !StartsWithAttr(bytes) then None
      else if Front(bytes).kind == kind && |Front(bytes).payload| >= want then Some(Front(bytes).payload[..want])
      else found(Rest(bytes))
  }

  lemma {:induction false} WalkAnswers(found: seq<Byte> -> Option<seq<Byte>>,
                                       bytes: seq<Byte>, p: nat, kind: U16, want: nat)
    requires forall b :: AnswersAt(found, b, kind, want)
    ensures Walk(bytes, p, kind, want) == found(From(bytes, p))
    decreases |bytes| - p
  {
    assert AnswersAt(found, From(bytes, p), kind, want);
    WalkUnfolds(bytes, p, kind, want);
    if StartsWithAttr(From(bytes, p)) {
      WalkAnswers(found, bytes, p + Align(FromLe16(bytes[p], bytes[p + 1])), kind, want);
    }
  }

  lemma WalkIsFirstDecoded(bytes: seq<Byte>, kind: U16, want: nat)
    ensures Walk(bytes, 0, kind, want) == First(Decode(bytes), kind, want)
  {
    var found := (b: seq<Byte>) => First(Decode(b), kind, want);
    forall b
      ensures AnswersAt(found, b, kind, want)
    {
      FirstUnfolds(b, kind, want);
    }
    WalkAnswers(found, bytes, 0, kind, want);
    assert From(bytes, 0) == bytes;
  }

  /** On arbitrary bytes the walk ends, reads only inside them and finds what decoding them would. */
  method FindAttr(bytes: seq<Byte>, kind: U16, want: nat) returns (r: Option<seq<Byte>>)
    ensures r == First(Decode(bytes), kind, want)
  {
    WalkIsFirstDecoded(bytes, kind, want);
    r := WalkAttrs(bytes, kind, want);
  }

  method WalkAttrs(bytes: seq<Byte>, kind: U16, want: nat) returns (r: Option<seq<Byte>>)
    ensures r == Walk(bytes, 0, kind, want)
  {
    var p: nat := 0;
    while p + HEADER <= |bytes|
      invariant Walk(bytes, p, kind, want) == Walk(bytes, 0, kind, want)
      decreases |bytes| - p
    {
      var len := FromLe16(bytes[p], bytes[p + 1]);
      if len < HEADER {
        return None;
      }
      if p + len > |bytes| {
        return None;
      }
      if FromLe16(bytes[p + 2], bytes[p + 3]) == kind && len >= HEADER + want {
        return Some(bytes[p + HEADER..p + HEADER + want]);
      }
      p := p + Align(len);
    }
    r := None;
  }

  // ------------------------------------------------------------------ round trip

  ghost predicate Storable(attrs: seq<Attr>) {
    forall i :: 0 <= i < |attrs| ==> |attrs[i].payload| <= LONGEST
  }

  lemma EncodedBytes(a: Attr)
    requires |a.payload| <= LONGEST
    ensures var len, bytes := HEADER + |a.payload|, Encode(a);
            && |bytes| == Align(len)
            && FromLe16(bytes[0], bytes[1]) == len && FromLe16(bytes[2], bytes[3]) == a.kind
            && bytes[HEADER..len] == a.payload
  {
  }

  lemma FrontOfEncoded(a: Attr, bytes: seq<Byte>, tail: seq<Byte>)
    requires HEADER + |a.payload| <= |bytes| == Align(HEADER + |a.payload|)
    requires FromLe16(bytes[0], bytes[1]) == HEADER + |a.payload| && FromLe16(bytes[2], bytes[3]) == a.kind
    requires bytes[HEADER..HEADER + |a.payload|] == a.payload
    ensures StartsWithAttr(bytes + tail) && Front(bytes + tail) == a && Rest(bytes + tail) == tail
  {
  }

  lemma DecodeFront(a: Attr, tail: seq<Byte>)
    requires |a.payload| <= LONGEST
    ensures Decode(Encode(a) + tail) == [a] + Decode(tail)
  {
    EncodedBytes(a);
    FrontOfEncoded(a, Encode(a), tail);
  }

  lemma Associate<T>(a: seq<T>, b: seq<T>, c: seq<T>)
    ensures (a + b) + c == a + (b + c)
  {
  }

  lemma {:induction false} EncodeFront(attrs: seq<Attr>)
    requires attrs != []
    ensures EncodeAll(attrs) == Encode(attrs[0]) + EncodeAll(attrs[1..])
    decreases |attrs|
  {
    var n := |attrs| - 1;
    if n == 0 {
      assert EncodeAll(attrs[..0]) == [] && EncodeAll(attrs[1..]) == [];
    } else {
      EncodeFront(attrs[..n]);
      assert attrs[..n][1..] == attrs[1..][..n - 1];
      Associate(Encode(attrs[0]), EncodeAll(attrs[1..][..n - 1]), Encode(attrs[n]));
    }
  }

  /** A payload above the longest wraps the stored length below the header's: nothing is read from there on. */
  lemma WrappedLengthHidesAll(a: Attr, tail: seq<Byte>)
    requires LONGEST < |a.payload| < 0x1_0000
    ensures Decode(Encode(a) + tail) == []
  {
  }

  /** The payload length is a 16-bit argument. */
  ghost predicate Sendable(attrs: seq<Attr>) {
    forall i :: 0 <= i < |attrs| ==> |attrs[i].payload| < 0x1_0000
  }

  /** The attributes in front of the first one whose length wraps. */
  function Readable(attrs: seq<Attr>): seq<Attr> {
    if attrs == [] || |attrs[0].payload| > LONGEST then [] else [attrs[0]] + Readable(attrs[1..])
  }

  /** Decoding the encoding of any attributes gives back those in front of the first wrapped length. */
  lemma {:induction false} DecodeEncodeAll(attrs: seq<Attr>)
    requires Sendable(attrs)
    ensures Decode(EncodeAll(attrs)) == Readable(attrs)
    decreases |attrs|
  {
    if attrs != [] {
      EncodeFront(attrs);
      if |attrs[0].payload| <= LONGEST {
        DecodeFront(attrs[0], EncodeAll(attrs[1..]));
        DecodeEncodeAll(attrs[1..]);
      } else {
        WrappedLengthHidesAll(attrs[0], EncodeAll(attrs[1..]));
      }
    }
  }

  lemma {:induction false} ReadableExactlyWhen(attrs: seq<Attr>)
    ensures Readable(attrs) == attrs <==> Storable(attrs)
    ensures Storable(Readable(attrs))
    decreases |attrs|
  {
    if attrs != [] && |attrs[0].payload| <= LONGEST {
      ReadableExactlyWhen(attrs[1..]);
      assert [attrs[0]] + attrs[1..] == attrs;
      assert Readable(attrs) == attrs ==> Readable(attrs[1..]) == Readable(attrs)[1..] == attrs[1..];
      assert Storable(attrs) <==> Storable(attrs[1..]);
    }
  }

  /** Encoding and decoding is lossless exactly when every length can be stored. */
  lemma RoundTripExactlyWhen(attrs: seq<Attr>)
    requires Sendable(attrs)
    ensures Decode(EncodeAll(attrs)) == attrs <==> Storable(attrs)
  {
    DecodeEncodeAll(attrs);
    ReadableExactlyWhen(attrs);
  }

  lemma {:induction false} FirstFinds(attrs: seq<Attr>, i: nat)
    requires i < |attrs|
    ensures First(attrs, attrs[i].kind, |attrs[i].payload|).Some?
    decreases i
  {
    if i > 0 {
      FirstFinds(attrs[1..], i - 1);
    }
  }

  lemma {:induction false} FirstFitsIn(attrs: seq<Attr>, kind: U16, want: nat)
    requires Storable(attrs) && First(attrs, kind, want).Some?
    ensures want <= LONGEST
    decreases |attrs|
  {
    if !(attrs[0].kind == kind && |attrs[0].payload| >= want) {
      FirstFitsIn(attrs[1..], kind, want);
    }
  }

  ghost predicate AnswersAsSent(attrs: seq<Attr>) {
    forall kind: U16, want: nat :: First(Decode(EncodeAll(attrs)), kind, want) == First(attrs, kind, want)
  }

  /** Every lookup answers as the sent attributes would exactly when every length can be stored. */
  lemma AnswersAsSentExactlyWhen(attrs: seq<Attr>)
    requires Sendable(attrs)
    ensures AnswersAsSent(attrs) <==> Storable(attrs)
  {
    DecodeEncodeAll(attrs);
    ReadableExactlyWhen(attrs);
    if !Storable(attrs) {
      var i :| 0 <= i < |attrs| && |attrs[i].payload| > LONGEST;
      var kind, want := attrs[i].kind, |attrs[i].payload|;
      FirstFinds(attrs, i);
      if First(Readable(attrs), kind, want).Some? {
        FirstFitsIn(Readable(attrs), kind, want);
      }
      assert First(Decode(EncodeAll(attrs)), kind, want) != First(attrs, kind, want);
    }
  }

  // ------------------------------------------------------------------ building a message

  lemma EncodedPointwise(bytes: seq<Byte>, a: Attr)
    requires var len := HEADER + |a.payload|;
             && |bytes| == Align(len)
             && bytes[0] == len % 0x1_0000 % 256 && bytes[1] == len % 0x1_0000 / 256
             && bytes[2] == a.kind % 256 && bytes[3] == a.kind / 256
             && (forall i :: 0 <= i < |a.payload| ==> bytes[HEADER + i] == a.payload[i])
             && (forall i :: len <= i < |bytes| ==> bytes[i] == 0)
    ensures bytes == Encode(a)
  {
  }

  /** Aligned headers up to base, then exactly the encodings of the attributes. */
  ghost predicate Built(bytes: seq<Byte>, base: nat, attrs: seq<Attr>) {
    && base % 4 == 0 && |bytes| % 4 == 0 && base <= |bytes|
    && bytes[base..] == EncodeAll(attrs)
  }

  lemma BuiltAppended(bytes: seq<Byte>, base: nat, attrs: seq<Attr>, a: Attr)
    requires Built(bytes, base, attrs) && Sendable(attrs) && |a.payload| < 0x1_0000
    ensures Built(bytes + Encode(a), base, attrs + [a]) && Sendable(attrs + [a])
  {
    EncodeAppended(attrs, a);
    EncodedAligned(a);
    BuiltExtends(bytes, base, attrs, attrs + [a], Encode(a));
  }

  lemma BuiltExtends(bytes: seq<Byte>, base: nat, attrs: seq<Attr>, more: seq<Attr>, tail: seq<Byte>)
    requires Built(bytes, base, attrs) && |tail| % 4 == 0 && EncodeAll(more) == EncodeAll(attrs) + tail
    ensures Built(bytes + tail, base, more)
  {
    DropOfConcat(bytes, tail, base);
    AlignedSum(|bytes|, |tail|);
  }

  lemma AlignedSum(m: nat, n: nat)
    requires m % 4 == 0 && n % 4 == 0
    ensures (m + n) % 4 == 0
  {
  }

  lemma EncodeAppended(attrs: seq<Attr>, a: Attr)
    ensures EncodeAll(attrs + [a]) == EncodeAll(attrs) + Encode(a)
  {
    assert (attrs + [a])[..|attrs|] == attrs;
  }

  lemma EncodedAligned(a: Attr)
    ensures |Encode(a)| == Align(HEADER + |a.payload|) && |Encode(a)| % 4 == 0
  {
  }

  lemma FrontKept<T>(whole: seq<T>, s: seq<T>, t: seq<T>)
    requires whole == s + t
    ensures |whole| >= |s| && whole[..|s|] == s
  {
  }

  lemma DropOfConcat<T>(s: seq<T>, t: seq<T>, n: nat)
    requires n <= |s|
    ensures (s + t)[n..] == s[n..] + t
  {
  }

  method Fill(buf: array<Byte>, offset: nat, kind: U16, data: seq<Byte>)
    requires |data| < 0x1_0000 && offset + Align(HEADER + |data|) <= buf.Length
    modifies buf
    ensures buf[offset] == (HEADER + |data|) % 0x1_0000 % 256 && buf[offset + 1] == (HEADER + |data|) % 0x1_0000 / 256
    ensures buf[offset + 2] == kind % 256 && buf[offset + 3] == kind / 256
    ensures forall i :: 0 <= i < |data| ==> buf[offset + HEADER..][i] == data[i]
    ensures forall i :: HEADER + |data| <= i < Align(HEADER + |data|) ==> buf[offset..][i] == 0
    ensures forall i :: 0 <= i < offset ==> buf[i] == old(buf[i])
  {
    var attrLen := HEADER + |data|;
    buf[offset], buf[offset + 1] := attrLen % 0x1_0000 % 256, attrLen % 0x1_0000 / 256;
    buf[offset + 2], buf[offset + 3] := kind % 256, kind / 256;
    forall i | 0 <= i < |data| {
      buf[offset + HEADER + i] := data[i];
    }
    forall i | attrLen <= i < Align(attrLen) {
      buf[offset + i] := 0;
    }
  }

  /** Writes one attribute, header, payload and padding, at the given offset. */
  method WriteAttr(buf: array<Byte>, offset: nat, kind: U16, data: seq<Byte>)
    requires |data| < 0x1_0000 && offset + Align(HEADER + |data|) <= buf.Length
    modifies buf
    ensures buf[..offset + Align(HEADER + |data|)] == old(buf[..offset]) + Encode(Attr(kind, data))
  {
    Fill(buf, offset, kind, data);
    ghost var end := offset + Align(HEADER + |data|);
    ghost var bytes := buf[offset..end];
    forall i | 0 <= i < |data|
      ensures bytes[HEADER + i] == data[i]
    {
      assert bytes[HEADER + i] == buf[offset + HEADER..][i];
    }
    assert forall i :: 0 <= i < |bytes| ==> bytes[i] == buf[offset..][i];
    EncodedPointwise(bytes, Attr(kind, data));
    assert buf[..end] == buf[..offset] + bytes;
  }

  /** A message under construction: headers up to base, then the attributes appended so far. */
  class Message {
    const buf: array<Byte>
    const base: nat
    var len: nat
    ghost var attrs: seq<Attr>

    ghost predicate Valid()
      reads this, buf
    {
      len <= buf.Length && Built(buf[..len], base, attrs) && Sendable(attrs)
    }

    constructor (cap: nat, base: nat)
      requires base % 4 == 0 && base <= cap
      ensures Valid() && fresh(buf) && buf.Length == cap && this.base == base && attrs == []
    {
      buf := new Byte[cap](i => 0);
      this.base := base;
      len := base;
      attrs := [];
    }

    method Put(kind: U16, data: seq<Byte>)
      requires Valid() && |data| < 0x1_0000 && len + Align(HEADER + |data|) <= buf.Length
      modifies this`len, this`attrs, buf
      ensures Valid() && attrs == old(attrs) + [Attr(kind, data)]
      ensures len == old(len) + Align(HEADER + |data|) && buf[..old(len)] == old(buf[..len])
    {
      ghost var a, bytes := Attr(kind, data), buf[..len];
      BuiltAppended(bytes, base, attrs, a);
      WriteAttr(buf, len, kind, data);
      len := len + Align(HEADER + |data|);
      FrontKept(buf[..len], bytes, Encode(a));
      assert buf[..len][..|bytes|] == buf[..|bytes|];
      attrs := attrs + [a];
    }

    /** Appends when the padded attribute still fits, else leaves the message alone. */
    method AppendAttr(kind: U16, data: seq<Byte>) returns (ok: bool)
      requires Valid() && |data| < 0x1_0000
      modifies this`len, this`attrs, buf
      ensures Valid()
      ensures ok <==> old(len) + Align(HEADER + |data|) <= buf.Length
      ensures attrs == if ok then old(attrs) + [Attr(kind, data)] else old(attrs)
      ensures buf[..old(len)] == old(buf[..len])
      ensures !ok ==> len == old(len) && buf[..] == old(buf[..])
    {
      if Align(len) + Align(HEADER + |data|) > buf.Length {
        return false;
      }
      Put(kind, data);
      ok := true;
    }

    /**
     After any appends, a lookup returns the first attribute of that type with enough payload among
     those in front of the first wrapped length: all of them if every length can be stored, as it
     can in a message below 64 KiB.
     */
    method Find(kind: U16, want: nat) returns (r: Option<seq<Byte>>)
      requires Valid()
      ensures r == First(Readable(attrs), kind, want)
      ensures Storable(attrs) ==> r == First(attrs, kind, want)
      ensures buf.Length <= LONGEST ==> Storable(attrs)
    {
      DecodeEncodeAll(attrs);
      ReadableExactlyWhen(attrs);
      PayloadsFit(attrs);
      r := FindAttr(buf[..len][base..], kind, want);
    }
  }

  /** In a message below 64 KiB no length can wrap. */
  lemma {:induction false} PayloadsFit(attrs: seq<Attr>)
    ensures forall i :: 0 <= i < |attrs| ==> |attrs[i].payload| <= |EncodeAll(attrs)|
    decreases |attrs|
  {
    if attrs != [] {
      PayloadsFit(attrs[..|attrs| - 1]);
    }
  }
}
