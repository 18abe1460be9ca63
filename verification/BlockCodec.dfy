/** Byte format of one Bitswap block: a two-byte link count, the links, the data. */
module BlockCodec {
  import opened LittleEndian
  import opened Schema

  /** A link is the 32-byte hash of the block it points to. */
  datatype Digest = Digest(bytes: seq<Byte>)

  type Link = l: Digest | |l.bytes| == LINK_SIZE witness Digest(seq(LINK_SIZE, _ => 0))

  datatype Parsed = Parsed(links: seq<Link>, data: seq<Byte>) | Unreadable

  function Flatten(links: seq<Link>): (b: seq<Byte>)
    ensures |b| == LINK_SIZE * |links|
  {
    if links == [] then [] else links[0].bytes + Flatten(links[1..])
  }

  function EncodeBlock(links: seq<Link>, data: seq<Byte>): seq<Byte>
    requires |links| <= 65535
  {
    ToBytes(|links|, 2) + Flatten(links) + data
  }

  /** The first `l` links of `b`, which starts right after the link count. */
  function ReadLinks(b: seq<Byte>, l: nat): (links: seq<Link>)
    requires LINK_SIZE * l <= |b|
    ensures |links| == l
  {
    if l == 0 then [] else [Digest(b[..LINK_SIZE])] + ReadLinks(b[LINK_SIZE..], l - 1)
  }

  function ReadBlock(block: seq<Byte>): Parsed {
    if |block| < 2 then Unreadable
    else
      var l := FromBytes(block[..2]);
      var prefix := LINK_SIZE * l + 2;
      if |block| < prefix then Unreadable
      else Parsed(ReadLinks(block[2..], l), block[prefix..])
  }

  lemma {:induction false} ReadLinksFlatten(links: seq<Link>, rest: seq<Byte>)
    ensures ReadLinks(Flatten(links) + rest, |links|) == links
  {
    if links != [] {
      var b := Flatten(links) + rest;
      assert b[..LINK_SIZE] == links[0].bytes;
      assert b[LINK_SIZE..] == Flatten(links[1..]) + rest;
      ReadLinksFlatten(links[1..], rest);
    }
  }

  lemma {:induction false} FlattenReadLinks(b: seq<Byte>, l: nat)
    requires LINK_SIZE * l <= |b|
    ensures Flatten(ReadLinks(b, l)) == b[..LINK_SIZE * l]
  {
    if l > 0 {
      FlattenReadLinks(b[LINK_SIZE..], l - 1);
      assert ReadLinks(b, l)[1..] == ReadLinks(b[LINK_SIZE..], l - 1);
      assert b[..LINK_SIZE] + b[LINK_SIZE..][..LINK_SIZE * (l - 1)] == b[..LINK_SIZE * l];
    }
  }

  /** Reading undoes writing. */
  lemma ReadEncode(links: seq<Link>, data: seq<Byte>)
    requires |links| <= 65535
    ensures ReadBlock(EncodeBlock(links, data)) == Parsed(links, data)
    ensures |EncodeBlock(links, data)| == 2 + LINK_SIZE * |links| + |data|
  {
    var block := EncodeBlock(links, data);
    assert block[..2] == ToBytes(|links|, 2);
    assert Pow256(2) == 65536;
    FromToBytes(|links|, 2);
    assert block[2..] == Flatten(links) + data;
    ReadLinksFlatten(links, data);
    assert block[LINK_SIZE * |links| + 2..] == data;
  }

  /** Writing undoes reading: a readable block is the encoding of what was read from it. */
  lemma EncodeRead(block: seq<Byte>)
    requires ReadBlock(block).Parsed?
    ensures var r := ReadBlock(block); |r.links| <= 65535 && block == EncodeBlock(r.links, r.data)
  {
    var r := ReadBlock(block);
    var l := FromBytes(block[..2]);
    assert Pow256(2) == 65536;
    ToFromBytes(block[..2]);
    FlattenReadLinks(block[2..], l);
    assert block[..2] + block[2..][..LINK_SIZE * l] + block[LINK_SIZE * l + 2..] == block;
  }

  lemma {:induction false} LinkBytes(links: seq<Link>, i: nat)
    requires i < |links|
    ensures Flatten(links)[LINK_SIZE * i..LINK_SIZE * (i + 1)] == links[i].bytes
  {
    if i > 0 {
      LinkBytes(links[1..], i - 1);
      var rest := Flatten(links[1..]);
      assert Flatten(links)[LINK_SIZE * i..LINK_SIZE * (i + 1)] == rest[LINK_SIZE * (i - 1)..LINK_SIZE * i];
    }
  }

  lemma CountBytes(n: nat)
    requires n <= 65535
    ensures ToBytes(n, 2)[0] == n % 256 && ToBytes(n, 2)[1] == n / 256
  {
    hide ToBytes;
    ByteAt(n, 2, 0);
    ByteAt(n, 2, 1);
    assert Pow256(0) == 1 && Pow256(1) == 256;
  }

  /** The bytes of a block: the low and high byte of the link count, the links in order, the data. */
  lemma BlockFormat(links: seq<Link>, data: seq<Byte>)
    requires |links| <= 65535
    ensures var b, n := EncodeBlock(links, data), |links|;
      && |b| == 2 + LINK_SIZE * n + |data|
      && b[0] == n % 256 && b[1] == n / 256
      && (forall i :: 0 <= i < n ==> b[2 + LINK_SIZE * i..2 + LINK_SIZE * (i + 1)] == links[i].bytes)
      && b[2 + LINK_SIZE * n..] == data
  {
    hide Flatten, ToBytes;
    var b, n := EncodeBlock(links, data), |links|;
    CountBytes(n);
    var flat := Flatten(links);
    assert b[2..2 + LINK_SIZE * n] == flat;
    forall i | 0 <= i < n ensures b[2 + LINK_SIZE * i..2 + LINK_SIZE * (i + 1)] == links[i].bytes {
      LinkBytes(links, i);
      assert b[2 + LINK_SIZE * i..2 + LINK_SIZE * (i + 1)] == flat[LINK_SIZE * i..LINK_SIZE * (i + 1)];
    }
  }
}
