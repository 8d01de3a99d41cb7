/** Memory shared by block headers, list links and payload bytes.  Every store destroys
    whatever else was kept in the bytes it covers, so that data survives an allocator
    only because the allocator never stores into it. */
module HeapMem {
  import opened Tiling
  import opened FreeLists
  import Octets

  type byte = Octets.byte

  /** Headers by block address, links by the address of their block, single payload bytes. */
  datatype Mem<H> = Mem(hdr: map<Addr, H>, link: Links, data: map<Addr, byte>)

  /** Sizes of a header and of the link record that follows it in a free block. */
  datatype Layout = Layout(hs: nat, ls: nat)

  /** After a store to [lo, hi), nothing that overlaps it can be read back. */
  function Clobber<H>(m: Mem<H>, lo: Addr, hi: Addr, y: Layout): Mem<H> {
    Mem(map a | a in m.hdr && (a + y.hs <= lo || hi <= a) :: m.hdr[a],
        map a | a in m.link && (a + y.hs + y.ls <= lo || hi <= a + y.hs) :: m.link[a],
        map d | d in m.data && (d < lo || hi <= d) :: m.data[d])
  }

  function PutHdr<H>(m: Mem<H>, a: Addr, h: H, y: Layout): Mem<H> {
    var c := Clobber(m, a, a + y.hs, y);
    c.(hdr := c.hdr[a := h])
  }

  function PutLink<H>(m: Mem<H>, a: Addr, l: Link, y: Layout): Mem<H> {
    var c := Clobber(m, a + y.hs, a + y.hs + y.ls, y);
    c.(link := c.link[a := l])
  }

  function PutBytes<H>(m: Mem<H>, d: Addr, bytes: seq<byte>, y: Layout): Mem<H> {
    var c := Clobber(m, d, d + |bytes|, y);
    c.(data := Fill(c.data, d, bytes))
  }

  function Fill(data: map<Addr, byte>, d: Addr, bytes: seq<byte>): map<Addr, byte>
    decreases |bytes|
  {
    if bytes == [] then data else Fill(data[d := bytes[0]], d + 1, bytes[1..])
  }

  ghost predicate Readable(data: map<Addr, byte>, d: Addr, n: nat) {
    forall i :: d <= i < d + n ==> i in data
  }

  /** The n bytes from d on. */
  function Read(data: map<Addr, byte>, d: Addr, n: nat): (r: seq<byte>)
    requires Readable(data, d, n)
    ensures |r| == n
    decreases n
  {
    if n == 0 then [] else [data[d]] + Read(data, d + 1, n - 1)
  }

  lemma {:induction false} FillOutside(data: map<Addr, byte>, d: Addr, bytes: seq<byte>)
    ensures forall i :: i < d || d + |bytes| <= i ==>
      (i in data <==> i in Fill(data, d, bytes)) && (i in data ==> Fill(data, d, bytes)[i] == data[i])
    decreases |bytes|
  {
    if bytes != [] { FillOutside(data[d := bytes[0]], d + 1, bytes[1..]); }
  }

  /** What was written is read back. */
  lemma {:induction false} ReadFill(data: map<Addr, byte>, d: Addr, bytes: seq<byte>)
    ensures Readable(Fill(data, d, bytes), d, |bytes|) && Read(Fill(data, d, bytes), d, |bytes|) == bytes
    decreases |bytes|
  {
    if bytes != [] {
      ReadFill(data[d := bytes[0]], d + 1, bytes[1..]);
      FillOutside(data[d := bytes[0]], d + 1, bytes[1..]);
    }
  }

  lemma {:induction false} ReadSame(data: map<Addr, byte>, data': map<Addr, byte>, d: Addr, n: nat)
    requires Readable(data, d, n) && forall i :: d <= i < d + n ==> i in data' && data'[i] == data[i]
    ensures Readable(data', d, n) && Read(data', d, n) == Read(data, d, n)
    decreases n
  {
    if n > 0 { ReadSame(data, data', d + 1, n - 1); }
  }

  // --------------------------------------------------------------- frames

  /** Headers of all blocks but x are as before. */
  ghost predicate HdrsKept<H>(m: Mem<H>, m': Mem<H>, t: Tiles, x: Addr) {
    forall b :: b in t.ext && b != x && b in m.hdr ==> b in m'.hdr && m'.hdr[b] == m.hdr[b]
  }

  /** Links of all listed blocks but x are as before. */
  ghost predicate LinksKept<H>(m: Mem<H>, m': Mem<H>, place: map<Addr, nat>, x: Addr) {
    forall b :: b in place && b != x && b in m.link ==> b in m'.link && m'.link[b] == m.link[b]
  }

  /** The bytes behind the header of block u are as before. */
  ghost predicate BytesKept<H>(m: Mem<H>, m': Mem<H>, t: Tiles, u: Addr, y: Layout)
    requires u in t.ext
  {
    forall d :: u + y.hs <= d < u + t.ext[u] ==>
      (d in m.data <==> d in m'.data) && (d in m.data ==> m'.data[d] == m.data[d])
  }

  ghost predicate OthersKept<H>(m: Mem<H>, m': Mem<H>, t: Tiles, x: Addr, y: Layout) {
    forall u {:trigger BytesKept(m, m', t, u, y)} :: u in t.ext && u != x ==> BytesKept(m, m', t, u, y)
  }

  /** Room for a header in every block and for a link in every listed one. */
  ghost predicate Roomy(t: Tiles, place: map<Addr, nat>, y: Layout) {
    y.hs > 0 && (forall a :: a in t.ext ==> t.ext[a] >= y.hs) && forall a :: a in place ==>
      a in t.ext && t.ext[a] >= y.hs + y.ls
  }

  /** Storing the header of a block touches no other header, no link and no payload. */
  lemma PutHdrFrame<H>(m: Mem<H>, t: Tiles, place: map<Addr, nat>, a: Addr, h: H, y: Layout)
    requires Tiled(t) && Roomy(t, place, y) && a in t.ext
    ensures a in PutHdr(m, a, h, y).hdr && PutHdr(m, a, h, y).hdr[a] == h
    ensures HdrsKept(m, PutHdr(m, a, h, y), t, a) && LinksKept(m, PutHdr(m, a, h, y), place, 0)
    ensures forall u {:trigger BytesKept(m, PutHdr(m, a, h, y), t, u, y)} :: u in t.ext ==>
      BytesKept(m, PutHdr(m, a, h, y), t, u, y)
  {
    forall b | b in t.ext && b != a ensures b + t.ext[b] <= a || a + t.ext[a] <= b { BlocksDisjoint(t, a, b); }
  }

  /** Storing a header inside block a, behind its own header, touches nothing outside a. */
  lemma PutInnerHdrFrame<H>(m: Mem<H>, t: Tiles, place: map<Addr, nat>, a: Addr, n: nat, h: H, y: Layout)
    requires Tiled(t) && Roomy(t, place, y) && a in t.ext && y.hs <= n && n + y.hs <= t.ext[a]
    ensures a + n in PutHdr(m, a + n, h, y).hdr && PutHdr(m, a + n, h, y).hdr[a + n] == h
    ensures forall b :: b in t.ext && b in m.hdr ==>
      b in PutHdr(m, a + n, h, y).hdr && PutHdr(m, a + n, h, y).hdr[b] == m.hdr[b]
    ensures LinksKept(m, PutHdr(m, a + n, h, y), place, a) && OthersKept(m, PutHdr(m, a + n, h, y), t, a, y)
  {
    NextFacts(t, a);
    forall b | b in t.ext && b != a ensures b + t.ext[b] <= a || a + t.ext[a] <= b { BlocksDisjoint(t, a, b); }
  }

  /** Storing the link of a block touches no header, no other link and no other payload. */
  lemma PutLinkFrame<H>(m: Mem<H>, t: Tiles, place: map<Addr, nat>, a: Addr, l: Link, y: Layout)
    requires Tiled(t) && Roomy(t, place, y) && a in t.ext && t.ext[a] >= y.hs + y.ls
    ensures a in PutLink(m, a, l, y).link && PutLink(m, a, l, y).link[a] == l
    ensures forall b :: b in t.ext && b in m.hdr ==>
      b in PutLink(m, a, l, y).hdr && PutLink(m, a, l, y).hdr[b] == m.hdr[b]
    ensures LinksKept(m, PutLink(m, a, l, y), place, a) && OthersKept(m, PutLink(m, a, l, y), t, a, y)
  {
    forall b | b in t.ext && b != a ensures b + t.ext[b] <= a || a + t.ext[a] <= b { BlocksDisjoint(t, a, b); }
  }

  /** Writing bytes behind the header of block a touches no header, no link and no other payload. */
  lemma PutBytesFrame<H>(m: Mem<H>, t: Tiles, place: map<Addr, nat>, a: Addr, bytes: seq<byte>, y: Layout)
    requires Tiled(t) && Roomy(t, place, y) && a in t.ext && a !in place && y.hs + |bytes| <= t.ext[a]
    ensures forall b :: b in t.ext && b in m.hdr ==>
      b in PutBytes(m, a + y.hs, bytes, y).hdr && PutBytes(m, a + y.hs, bytes, y).hdr[b] == m.hdr[b]
    ensures LinksKept(m, PutBytes(m, a + y.hs, bytes, y), place, a)
      && OthersKept(m, PutBytes(m, a + y.hs, bytes, y), t, a, y)
  {
    hide PutBytes;
    PutBytesOutside(m, a + y.hs, bytes, y);
    var m' := PutBytes(m, a + y.hs, bytes, y);
    forall b | b in t.ext && b != a ensures b + t.ext[b] <= a || a + t.ext[a] <= b { BlocksDisjoint(t, a, b); }
    forall b | b in t.ext && b in m.hdr ensures b in m'.hdr && m'.hdr[b] == m.hdr[b] {
      assert b == a || b + y.hs <= a || a + y.hs + |bytes| <= b;
    }
  }

  /** What lies outside the bytes written is as before. */
  lemma PutBytesOutside<H>(m: Mem<H>, d: Addr, bytes: seq<byte>, y: Layout)
    ensures var m' := PutBytes(m, d, bytes, y); var e := d + |bytes|;
      && (forall a {:trigger a in m'.hdr} :: a in m.hdr && (a + y.hs <= d || e <= a) ==>
        a in m'.hdr && m'.hdr[a] == m.hdr[a])
      && (forall a {:trigger a in m'.link} :: a in m.link && (a + y.hs + y.ls <= d || e <= a + y.hs) ==>
        a in m'.link && m'.link[a] == m.link[a])
      && (forall x {:trigger x in m'.data} :: x < d || e <= x ==>
        (x in m'.data <==> x in m.data) && (x in m.data ==> m'.data[x] == m.data[x]))
  {
    hide Fill;
    FillOutside(Clobber(m, d, d + |bytes|, y).data, d, bytes);
  }

  lemma PutBytesRead<H>(m: Mem<H>, d: Addr, bytes: seq<byte>, y: Layout)
    ensures Readable(PutBytes(m, d, bytes, y).data, d, |bytes|)
      && Read(PutBytes(m, d, bytes, y).data, d, |bytes|) == bytes
  {
    ReadFill(Clobber(m, d, d + |bytes|, y).data, d, bytes);
  }
}
