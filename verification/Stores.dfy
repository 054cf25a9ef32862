/** The two content-addressed stores over the ledger: hyperlinks (src/emu/link.rs), which keep the
    URI and compare it, and images (src/emu/image.rs), which keep a digest that is the last word.
    The hash and the digest are any functions at all. */
module Stores {
  import opened Cells
  import opened LedgerObject

  const MAX_TRACKED_LINKS: nat := 4096
  const MAX_RETAINED_URI_BYTES: nat := 0x40_0000
  const MAX_TRACKED_IMAGES: nat := 4096
  const BUCKETS: nat := 0x1_0000_0000_0000_0000

  // ----- bytes held -----

  /** The summed length of what the ids in `order` stand for. */
  ghost function Bytes(order: seq<Id>, uris: map<Id, string>): nat
    requires forall id :: id in order ==> id in uris
  {
    if order == [] then 0 else |uris[order[0]]| + Bytes(order[1..], uris)
  }

  lemma {:induction false} BytesSame(order: seq<Id>, a: map<Id, string>, b: map<Id, string>)
    requires forall id :: id in order ==> id in a && id in b && a[id] == b[id]
    ensures Bytes(order, a) == Bytes(order, b)
  {
    if order != [] {
      BytesSame(order[1..], a, b);
    }
  }

  lemma {:induction false} BytesSnoc(order: seq<Id>, id: Id, uris: map<Id, string>)
    requires forall x :: x in order + [id] ==> x in uris
    ensures Bytes(order + [id], uris) == Bytes(order, uris) + |uris[id]|
  {
    if order == [] {
      assert order + [id] == [id];
    } else {
      assert (order + [id])[0] == order[0] && (order + [id])[1..] == order[1..] + [id];
      BytesSnoc(order[1..], id, uris);
    }
  }

  lemma {:induction false} BytesWithout(order: seq<Id>, id: Id, uris: map<Id, string>)
    requires (forall x :: x in order ==> x in uris) && id in order
    ensures forall x :: x in Without(order, id) ==> x in order
    ensures Bytes(Without(order, id), uris) == Bytes(order, uris) - |uris[id]|
  {
    if order[0] != id {
      BytesWithout(order[1..], id, uris);
    }
  }

  lemma MovedBytes(order: seq<Id>, id: Id, uris: map<Id, string>)
    requires (forall x :: x in order ==> x in uris) && id in order
    ensures forall x :: x in Without(order, id) + [id] ==> x in uris
    ensures Bytes(Without(order, id) + [id], uris) == Bytes(order, uris)
  {
    BytesWithout(order, id, uris);
    BytesSnoc(Without(order, id), id, uris);
  }

  /** What is left of the order once the oldest have gone until both caps are met. */
  ghost function Capped(order: seq<Id>, uris: map<Id, string>): (kept: seq<Id>)
    requires forall id :: id in order ==> id in uris
    ensures forall id :: id in kept ==> id in order
  {
    if order != [] && (|order| > MAX_TRACKED_LINKS || Bytes(order, uris) > MAX_RETAINED_URI_BYTES)
    then Capped(order[1..], uris) else order
  }

  /** The newest `k` of the order are too many, or too long. */
  ghost predicate OverCap(order: seq<Id>, k: nat, uris: map<Id, string>)
    requires k <= |order| && forall id :: id in order ==> id in uris
  {
    k > MAX_TRACKED_LINKS || Bytes(order[|order| - k..], uris) > MAX_RETAINED_URI_BYTES
  }

  /** Oldest first, as few as will do, and both caps met. */
  lemma {:induction false} CappedIs(order: seq<Id>, uris: map<Id, string>)
    requires forall id :: id in order ==> id in uris
    ensures var kept := Capped(order, uris);
            && |kept| <= MAX_TRACKED_LINKS && Bytes(kept, uris) <= MAX_RETAINED_URI_BYTES
            && |kept| <= |order| && kept == order[|order| - |kept|..]
            && forall k :: |kept| < k <= |order| ==> OverCap(order, k, uris)
    decreases |order|
  {
    if order != [] && (|order| > MAX_TRACKED_LINKS || Bytes(order, uris) > MAX_RETAINED_URI_BYTES) {
      var rest := order[1..];
      CappedIs(rest, uris);
      var kept := Capped(order, uris);
      assert rest[|rest| - |kept|..] == order[|order| - |kept|..];
      forall k | |kept| < k <= |order| ensures OverCap(order, k, uris) {
        if k < |order| {
          assert OverCap(rest, k, uris);
          assert rest[|rest| - k..] == order[|order| - k..];
        } else {
          assert order[|order| - k..] == order;
        }
      }
    }
  }

  // ----- hyperlinks -----

  /** The tables agree: the same ids in each, filed under their own URI's hash, no URI twice, and
      the count of bytes the sum of the URIs held. */
  ghost predicate LinksAgree(uris: map<Id, string>, order: seq<Id>, hashes: map<Id, nat>, hash: string -> nat, bytes: nat) {
    && (forall id :: id in uris <==> id in order)
    && (forall id :: id in uris ==> id in hashes && hashes[id] == hash(uris[id]))
    && (forall a, b :: a in uris && b in uris && uris[a] == uris[b] ==> a == b)
    && bytes == Bytes(order, uris)
  }

  lemma LinksNone(hash: string -> nat)
    ensures LinksAgree(map[], [], map[], hash, 0)
  {
  }

  lemma LinksHeld(uris: map<Id, string>, order: seq<Id>, hashes: map<Id, nat>, hash: string -> nat, bytes: nat)
    requires LinksAgree(uris, order, hashes, hash, bytes)
    ensures forall id :: id in uris <==> id in order
    ensures forall id :: id in uris ==> id in hashes && hashes[id] == hash(uris[id])
    ensures bytes == Bytes(order, uris)
  {
  }

  lemma LinksMoved(uris: map<Id, string>, order: seq<Id>, hashes: map<Id, nat>, hash: string -> nat, bytes: nat, id: Id)
    requires LinksAgree(uris, order, hashes, hash, bytes) && id in uris
    ensures LinksAgree(uris, Without(order, id) + [id], hashes, hash, bytes)
    ensures |Without(order, id) + [id]| == |order|
  {
    MovedBytes(order, id, uris);
    MovedIds(order, id);
  }

  lemma LinksAdded(uris: map<Id, string>, order: seq<Id>, hashes: map<Id, nat>, hash: string -> nat, bytes: nat,
                   id: Id, uri: string)
    requires LinksAgree(uris, order, hashes, hash, bytes) && id !in uris
    requires forall x :: x in uris ==> uris[x] != uri
    ensures LinksAgree(uris[id := uri], order + [id], hashes[id := hash(uri)], hash, bytes + |uri|)
  {
    BytesSame(order, uris, uris[id := uri]);
    BytesSnoc(order, id, uris[id := uri]);
  }

  lemma LinksDropped(uris: map<Id, string>, order: seq<Id>, hashes: map<Id, nat>, hash: string -> nat, bytes: nat)
    requires LinksAgree(uris, order, hashes, hash, bytes) && order != [] && Distinct(order)
    ensures order[0] in uris && bytes >= |uris[order[0]]|
    ensures LinksAgree(uris - {order[0]}, order[1..], Forgotten(hashes, order[0]), hash, bytes - |uris[order[0]]|)
    ensures Capped(order[1..], uris - {order[0]}) == Capped(order[1..], uris)
  {
    HeadGone(order);
    assert order[0] in order;
    BytesSame(order[1..], uris, uris - {order[0]});
    CappedSame(order[1..], uris, uris - {order[0]});
  }

  class LinkStore {
    const ledger: Ledger
    const hash: string -> nat
    var uris: map<Id, string>
    var bytes: nat

    ghost predicate Agree()
      reads this, ledger
    {
      ledger.Valid() && LinksAgree(uris, ledger.order, ledger.Hashes(), hash, bytes)
    }

    ghost predicate Valid()
      reads this, ledger
    {
      Agree() && |ledger.order| <= MAX_TRACKED_LINKS && bytes <= MAX_RETAINED_URI_BYTES
    }

    constructor (hash: string -> nat)
      ensures Valid() && fresh(ledger) && uris == map[] && this.hash == hash
    {
      ledger := new Ledger();
      this.hash := hash;
      uris := map[];
      bytes := 0;
      new;
      LinksNone(hash);
    }

    /** The id of a URI, and whether it has yet to be sent. One URI has one id for as long as it is
        held, and asking for it makes it the newest; a new one may push the oldest out. */
    method Intern(uri: string) returns (id: Id, isNew: bool)
      requires Valid() && ledger.next < ID_LIMIT - 1
      modifies this`uris, this`bytes, ledger
      ensures Valid()
      ensures isNew == (forall x :: x in old(uris) ==> old(uris)[x] != uri)
      ensures !isNew ==>
        && id in old(uris) && old(uris)[id] == uri && uris == old(uris)
        && ledger.order == Without(old(ledger.order), id) + [id]
      ensures isNew ==> id == old(ledger.next) && id !in old(uris)
      ensures isNew ==> (forall x :: x in old(ledger.order) + [id] ==> x in old(uris)[id := uri])
      ensures isNew ==> ledger.order == Capped(old(ledger.order) + [id], old(uris)[id := uri])
      ensures isNew ==> forall x :: x in uris ==> uris[x] == old(uris)[id := uri][x]
    {
      hide Filed, Chained, HashesOf, LinksAgree, Capped, Bytes, Without;
      ghost var order, hashes, count := ledger.order, ledger.Hashes(), bytes;
      LinksHeld(uris, order, hashes, hash, bytes);
      var h := hash(uri);
      var held := uris;
      var found := ledger.Find(h, x => x in held && held[x] == uri);
      if found.Some? {
        LinksMoved(uris, order, hashes, hash, bytes, found.value);
        return found.value, false;
      }
      IdsBelowNext();
      id := ledger.Insert(h);
      LinksAdded(uris, order, hashes, hash, bytes, id, uri);
      bytes := bytes + |uri|;
      uris := uris[id := uri];
      LinksHeld(uris, ledger.order, ledger.Hashes(), hash, bytes);
      Evict();
      isNew := true;
    }

    lemma IdsBelowNext()
      requires ledger.Valid()
      ensures forall id :: id in ledger.order ==> id < ledger.next
    {
    }

    /** Drop the oldest, one at a time, until both caps are met. */
    method Evict()
      requires Agree()
      modifies this`uris, this`bytes, ledger
      ensures Valid() && ledger.next == old(ledger.next)
      ensures forall x :: x in old(ledger.order) ==> x in old(uris)
      ensures ledger.order == Capped(old(ledger.order), old(uris))
      ensures forall x :: x in uris ==> x in old(uris) && uris[x] == old(uris)[x]
    {
      hide Filed, Chained, HashesOf, LinksAgree, Bytes;
      LinksHeld(uris, ledger.order, ledger.Hashes(), hash, bytes);
      ghost var target := Capped(ledger.order, uris);
      ledger.LenIs();
      while ledger.Len() > MAX_TRACKED_LINKS || bytes > MAX_RETAINED_URI_BYTES
        invariant Agree() && ledger.next == old(ledger.next) && ledger.Len() == |ledger.order|
        invariant forall x :: x in ledger.order ==> x in uris
        invariant bytes == Bytes(ledger.order, uris) && Capped(ledger.order, uris) == target
        invariant forall x :: x in uris ==> x in old(uris) && uris[x] == old(uris)[x]
        decreases |ledger.order|
      {
        var oldest := DropOldest();
        if oldest.None? {
          NoBytes(uris);
          break;
        }
        ledger.LenIs();
        LinksHeld(uris, ledger.order, ledger.Hashes(), hash, bytes);
      }
    }

    /** One step of the eviction: the oldest id out of every table. */
    method DropOldest() returns (id: Option<Id>)
      requires Agree()
      modifies this`uris, this`bytes, ledger
      ensures Agree() && ledger.next == old(ledger.next)
      ensures id.None? == (old(ledger.order) == [])
      ensures id.None? ==> ledger.order == [] && uris == old(uris) && bytes == old(bytes)
      ensures id.Some? ==> ledger.order == old(ledger.order)[1..]
      ensures forall x :: x in old(ledger.order) ==> x in old(uris)
      ensures id.Some? ==> (forall x :: x in ledger.order ==> x in uris)
                           && Capped(ledger.order, uris) == Capped(ledger.order, old(uris))
      ensures forall x :: x in uris ==> x in old(uris) && uris[x] == old(uris)[x]
    {
      hide Filed, Chained, HashesOf, LinksAgree, Bytes, Capped, Distinct, Forgotten;
      LinksHeld(uris, ledger.order, ledger.Hashes(), hash, bytes);
      ghost var order := ledger.order;
      ledger.DistinctOrder();
      if order != [] {
        LinksDropped(uris, order, ledger.Hashes(), hash, bytes);
      }
      id := ledger.EvictOldest();
      if id.None? {
        return;
      }
      if id.value in uris {
        bytes := bytes - |uris[id.value]|;
        uris := uris - {id.value};
      }
      LinksHeld(uris, ledger.order, ledger.Hashes(), hash, bytes);
    }
  }

  lemma NoBytes(uris: map<Id, string>)
    ensures Bytes([], uris) == 0
  {
  }

  lemma HeadGone(order: seq<Id>)
    requires Distinct(order) && order != []
    ensures order[0] !in order[1..]
    ensures forall id :: id in order[1..] <==> id in order && id != order[0]
  {
    assert order == [order[0]] + order[1..];
  }

  lemma {:induction false} CappedSame(order: seq<Id>, a: map<Id, string>, b: map<Id, string>)
    requires forall id :: id in order ==> id in a && id in b && a[id] == b[id]
    ensures Capped(order, a) == Capped(order, b)
    decreases |order|
  {
    BytesSame(order, a, b);
    if order != [] {
      CappedSame(order[1..], a, b);
    }
  }

  // ----- images -----

  datatype Size = Size(width: nat, height: nat)

  datatype Picture = Picture(px: Size, asked: Option<Size>)

  /** The same ids in all three tables, bucketed by the low half of their digest, no digest twice. */
  ghost predicate ImagesAgree(images: map<Id, Picture>, digests: map<Id, nat>, order: seq<Id>, hashes: map<Id, nat>) {
    && (forall id :: id in images <==> id in order)
    && (forall id :: id in digests <==> id in order)
    && (forall id :: id in digests ==> id in hashes && hashes[id] == digests[id] % BUCKETS)
    && (forall a, b :: a in digests && b in digests && digests[a] == digests[b] ==> a == b)
  }

  lemma ImagesNone()
    ensures ImagesAgree(map[], map[], [], map[])
  {
  }

  lemma ImagesHeld(images: map<Id, Picture>, digests: map<Id, nat>, order: seq<Id>, hashes: map<Id, nat>)
    requires ImagesAgree(images, digests, order, hashes)
    ensures forall id :: id in images <==> id in order
    ensures forall id :: id in digests <==> id in order
    ensures forall id :: id in digests ==> id in hashes && hashes[id] == digests[id] % BUCKETS
  {
  }

  lemma ImagesMoved(images: map<Id, Picture>, digests: map<Id, nat>, order: seq<Id>, hashes: map<Id, nat>, id: Id)
    requires ImagesAgree(images, digests, order, hashes) && id in images
    ensures ImagesAgree(images, digests, Without(order, id) + [id], hashes)
    ensures |Without(order, id) + [id]| == |order|
  {
    MovedIds(order, id);
  }

  lemma ImagesAdded(images: map<Id, Picture>, digests: map<Id, nat>, order: seq<Id>, hashes: map<Id, nat>,
                    id: Id, picture: Picture, digest: nat)
    requires ImagesAgree(images, digests, order, hashes) && id !in images
    requires forall x :: x in digests ==> digests[x] != digest
    ensures ImagesAgree(images[id := picture], digests[id := digest], order + [id], hashes[id := digest % BUCKETS])
  {
  }

  lemma ImagesForgotten(images: map<Id, Picture>, digests: map<Id, nat>, order: seq<Id>, hashes: map<Id, nat>, id: Id)
    requires ImagesAgree(images, digests, order, hashes) && Distinct(order)
    ensures ImagesAgree(images - {id}, digests - {id}, Without(order, id), Forgotten(hashes, id))
    ensures |Without(order, id)| <= |order|
  {
    WithoutIds(order, id);
  }

  lemma WithoutFirst(order: seq<Id>)
    requires order != []
    ensures Without(order, order[0]) == order[1..]
  {
  }

  lemma FirstMoves(front: seq<Id>, order: seq<Id>)
    requires order != []
    ensures front + order == (front + [order[0]]) + order[1..]
  {
  }

  class ImageStore {
    const ledger: Ledger
    const digest: seq<nat> -> nat
    var images: map<Id, Picture>
    var hashes: map<Id, nat>

    ghost predicate Agree()
      reads this, ledger
    {
      ledger.Valid() && ImagesAgree(images, hashes, ledger.order, ledger.Hashes())
    }

    ghost predicate Valid()
      reads this, ledger
    {
      Agree() && |ledger.order| <= MAX_TRACKED_IMAGES
    }

    constructor (digest: seq<nat> -> nat)
      ensures Valid() && fresh(ledger) && images == map[] && this.digest == digest
    {
      ledger := new Ledger();
      this.digest := digest;
      images, hashes := map[], map[];
      new;
      ImagesNone();
    }

    /** The id of a picture, whether its bytes have yet to cross, and what the cap dropped for it. */
    method Intern(bytes: seq<nat>, px: Size) returns (id: Id, isNew: bool, retired: seq<Id>)
      requires Valid() && ledger.next < ID_LIMIT - 1
      modifies this`images, this`hashes, ledger
      ensures Valid()
      ensures isNew == (forall x :: x in old(hashes) ==> old(hashes)[x] != digest(bytes))
      ensures !isNew ==>
        && id in old(hashes) && old(hashes)[id] == digest(bytes)
        && images == old(images) && hashes == old(hashes) && retired == []
        && ledger.order == Without(old(ledger.order), id) + [id]
      ensures isNew ==>
        && id == old(ledger.next) && id !in old(images)
        && retired + ledger.order == old(ledger.order) + [id]
        && |retired| == (if |old(ledger.order)| == MAX_TRACKED_IMAGES then 1 else 0)
        && id in images && images[id] == Picture(px, None)
        && (forall x :: x in images && x != id ==> x in old(images) && images[x] == old(images)[x])
        && (forall x :: x in hashes ==> hashes[x] == old(hashes)[id := digest(bytes)][x])
    {
      hide Filed, Chained, HashesOf, ImagesAgree, Without;
      ghost var order := ledger.order;
      ImagesHeld(images, hashes, order, ledger.Hashes());
      var hash := digest(bytes);
      var held := hashes;
      ghost var filed := ledger.Hashes();
      var found := ledger.Find(hash % BUCKETS, x => x in held && held[x] == hash);
      if found.Some? {
        ImagesMoved(images, hashes, order, filed, found.value);
        return found.value, false, [];
      }
      IdsBelowNext();
      id := ledger.Insert(hash % BUCKETS);
      ImagesAdded(images, hashes, order, filed, id, Picture(px, None), hash);
      images := images[id := Picture(px, None)];
      hashes := hashes[id := hash];
      retired := Evict();
      isNew := true;
      LastStays(order, id, retired, ledger.order);
      ImagesHeld(images, hashes, ledger.order, ledger.Hashes());
    }

    lemma IdsBelowNext()
      requires ledger.Valid()
      ensures forall id :: id in ledger.order ==> id < ledger.next
    {
    }

    /** Emacs has dropped a picture: forget it in every table. */
    method Forget(id: Id)
      requires Valid()
      modifies this`images, this`hashes, ledger
      ensures Valid() && id !in images && id !in hashes
      ensures ledger.order == Without(old(ledger.order), id)
      ensures images == old(images) - {id} && hashes == old(hashes) - {id}
    {
      hide Filed, Chained, HashesOf, ImagesAgree, Without, Distinct, Forgotten;
      ledger.DistinctOrder();
      ImagesForgotten(images, hashes, ledger.order, ledger.Hashes(), id);
      var held := ledger.Remove(id);
      images := images - {id};
      hashes := hashes - {id};
    }

    method SetAsked(id: Id, asked: Option<Size>)
      requires Valid()
      modifies this`images
      ensures Valid() && images.Keys == old(images).Keys
      ensures forall x :: x in images ==>
                images[x] == if x == id then old(images)[x].(asked := asked) else old(images)[x]
    {
      if id in images {
        images := images[id := images[id].(asked := asked)];
      }
    }

    /** The rectangle to lay a picture in: what the child asked for, or what its pixels come to in
        cells of the moment; nothing for a picture no longer known. */
    method CellsOf(id: Id, metrics: Size) returns (cells: Option<Size>)
      requires Valid()
      ensures cells.Some? == (id in ledger.order)
      ensures cells.Some? ==> cells.value == Laid(images[id], metrics)
    {
      ImagesHeld(images, hashes, ledger.order, ledger.Hashes());
      if id !in images {
        return None;
      }
      var image := images[id];
      cells := Some(if image.asked.Some? then image.asked.value else CellsFor(metrics, image.px));
    }

    /** Drop the oldest until the cap is met, saying which went. */
    method Evict() returns (retired: seq<Id>)
      requires Agree()
      modifies this`images, this`hashes, ledger
      ensures Valid() && ledger.next == old(ledger.next)
      ensures retired + ledger.order == old(ledger.order)
      ensures |retired| == (if |old(ledger.order)| <= MAX_TRACKED_IMAGES then 0
                            else |old(ledger.order)| - MAX_TRACKED_IMAGES)
      ensures forall x :: x in images ==> x in old(images) && images[x] == old(images)[x]
      ensures forall x :: x in hashes ==> x in old(hashes) && hashes[x] == old(hashes)[x]
    {
      hide Filed, Chained, HashesOf, ImagesAgree;
      retired := [];
      ledger.LenIs();
      while ledger.Len() > MAX_TRACKED_IMAGES
        invariant Agree() && ledger.next == old(ledger.next) && ledger.Len() == |ledger.order|
        invariant retired + ledger.order == old(ledger.order)
        invariant retired == [] || |ledger.order| >= MAX_TRACKED_IMAGES
        invariant forall x :: x in images ==> x in old(images) && images[x] == old(images)[x]
        invariant forall x :: x in hashes ==> x in old(hashes) && hashes[x] == old(hashes)[x]
        decreases |ledger.order|
      {
        ghost var order := ledger.order;
        var oldest := DropOldest();
        ledger.LenIs();
        FirstMoves(retired, order);
        retired := retired + [oldest];
      }
    }

    method DropOldest() returns (id: Id)
      requires Agree() && ledger.order != []
      modifies this`images, this`hashes, ledger
      ensures Agree() && ledger.next == old(ledger.next)
      ensures id == old(ledger.order)[0] && ledger.order == old(ledger.order)[1..]
      ensures images == old(images) - {id} && hashes == old(hashes) - {id}
    {
      hide Filed, Chained, HashesOf, ImagesAgree, Without, Distinct, Forgotten;
      ledger.DistinctOrder();
      ImagesForgotten(images, hashes, ledger.order, ledger.Hashes(), ledger.order[0]);
      WithoutFirst(ledger.order);
      var oldest := ledger.EvictOldest();
      id := oldest.value;
      images := images - {id};
      hashes := hashes - {id};
    }
  }

  lemma LastStays(order: seq<Id>, id: Id, retired: seq<Id>, kept: seq<Id>)
    requires retired + kept == order + [id] && |kept| >= 1
    ensures id in kept
  {
    assert (order + [id])[|order|] == id && kept[|kept| - 1] == (retired + kept)[|order|];
  }

  const MAX_CELLS: nat := 0xFFFF

  /** Cells along one axis: every part of one counts as a whole, at least one, at most a u16. */
  function CellsAlong(size: nat, cell: nat): (n: nat)
    ensures 1 <= n <= MAX_CELLS
  {
    if cell == 0 then 1
    else
      var n := (size + cell - 1) / cell;
      if n == 0 then 1 else if n > MAX_CELLS then MAX_CELLS else n
  }

  function CellsFor(metrics: Size, px: Size): Size {
    Size(CellsAlong(px.width, metrics.width), CellsAlong(px.height, metrics.height))
  }

  function Laid(picture: Picture, metrics: Size): Size {
    if picture.asked.Some? then picture.asked.value else CellsFor(metrics, picture.px)
  }

  /** The cells cover the picture, and one fewer would not. */
  lemma CellsCover(size: nat, cell: nat)
    requires cell > 0
    ensures var n := CellsAlong(size, cell);
            && (n < MAX_CELLS ==> size <= n * cell)
            && (n > 1 ==> (n - 1) * cell < size)
  {
    var n := (size + cell - 1) / cell;
    assert n * cell <= size + cell - 1 < n * cell + cell;
    assert (n - 1) * cell == n * cell - cell;
    if n > MAX_CELLS {
      Times(MAX_CELLS - 1, n - 1, cell);
    }
  }

  lemma Times(a: nat, b: nat, c: nat)
    requires a <= b
    ensures a * c <= b * c
  {
  }

  lemma WithoutIds(order: seq<Id>, id: Id)
    requires Distinct(order)
    ensures forall x :: x in Without(order, id) <==> x in order && x != id
  {
    if id in order {
      var i :| 0 <= i < |order| && order[i] == id;
      WithoutAt(order, i);
    }
  }

  lemma {:induction false} MovedIds(order: seq<Id>, id: Id)
    requires id in order
    ensures |Without(order, id) + [id]| == |order|
    ensures forall x :: x in Without(order, id) + [id] <==> x in order
  {
    if order[0] != id {
      MovedIds(order[1..], id);
      assert order == [order[0]] + order[1..];
      assert Without(order, id) + [id] == [order[0]] + (Without(order[1..], id) + [id]);
    } else {
      assert order == [id] + order[1..];
    }
  }
}
