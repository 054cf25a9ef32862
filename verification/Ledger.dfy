/** The least-recently-used ledger (src/emu/intern.rs): a doubly linked list threaded through a map
    by id, and hash buckets beside it. It is proved to be a plain sequence of ids, oldest first. */
module LedgerObject {
  import opened Cells

  type Id = nat

  const ID_LIMIT: nat := 0x1_0000_0000

  datatype Place = Place(hash: nat, older: Option<Id>, newer: Option<Id>)

  ghost predicate Distinct(s: seq<Id>) {
    forall i, j :: 0 <= i < j < |s| ==> s[i] != s[j]
  }

  /** The sequence with one id taken out of it. */
  function Without(s: seq<Id>, id: Id): (r: seq<Id>)
    ensures id !in s ==> r == s
    ensures |r| <= |s|
  {
    if s == [] then [] else if s[0] == id then s[1..] else [s[0]] + Without(s[1..], id)
  }

  lemma WithoutAt(s: seq<Id>, i: nat)
    requires i < |s| && Distinct(s)
    ensures Without(s, s[i]) == s[..i] + s[i + 1..]
    ensures Distinct(s[..i] + s[i + 1..]) && s[i] !in s[..i] + s[i + 1..]
    ensures forall id :: id in s[..i] + s[i + 1..] <==> id in s && id != s[i]
  {
    hide Without;
    WithoutIs(s, i);
    var r := s[..i] + s[i + 1..];
    forall k | 0 <= k < |r| ensures r[k] == s[if k < i then k else k + 1] {
    }
    forall id | id in s && id != s[i] ensures id in r {
      var k :| 0 <= k < |s| && s[k] == id;
      assert r[if k < i then k else k - 1] == id;
    }
  }

  lemma {:induction false} WithoutIs(s: seq<Id>, i: nat)
    requires i < |s| && Distinct(s)
    ensures Without(s, s[i]) == s[..i] + s[i + 1..]
  {
    if i > 0 {
      WithoutIs(s[1..], i - 1);
      assert s[1..][..i - 1] == s[1..i] && s[1..][i..] == s[i + 1..];
      assert s[..i] == [s[0]] + s[1..i];
    }
  }

  ghost function IdSet(s: seq<Id>): set<Id> {
    set id | id in s
  }

  lemma {:induction false} DistinctSize(s: seq<Id>)
    requires Distinct(s)
    ensures |IdSet(s)| == |s|
  {
    if s == [] {
      assert IdSet(s) == {};
    } else {
      var init := s[..|s| - 1];
      DistinctSize(init);
      assert s == init + [s[|s| - 1]];
      assert IdSet(s) == IdSet(init) + {s[|s| - 1]};
    }
  }

  ghost predicate Increasing(s: seq<Id>) {
    forall i, j :: 0 <= i < j < |s| ==> s[i] < s[j]
  }

  /** The neighbour on one side of each id, as the order has it. */
  ghost predicate Chained(entries: map<Id, Place>, order: seq<Id>) {
    && Distinct(order)
    && (forall id :: id in entries <==> id in order)
    && forall i {:trigger entries[order[i]]} :: 0 <= i < |order| ==>
         && entries[order[i]].older == (if i == 0 then None else Some(order[i - 1]))
         && entries[order[i]].newer == (if i == |order| - 1 then None else Some(order[i + 1]))
  }

  /** Each bucket holds exactly the ids filed under its hash, in the order they were handed out. */
  ghost predicate Filed(byHash: map<nat, seq<Id>>, hashes: map<Id, nat>) {
    && (forall h :: h in byHash ==> byHash[h] != [] && Increasing(byHash[h]))
    && (forall h, id :: h in byHash && id in byHash[h] ==> id in hashes && hashes[id] == h)
    && (forall id :: id in hashes ==> hashes[id] in byHash && id in byHash[hashes[id]])
  }

  ghost function HashesOf(entries: map<Id, Place>): map<Id, nat> {
    map id | id in entries :: entries[id].hash
  }

  ghost function Forgotten(hashes: map<Id, nat>, id: Id): map<Id, nat> {
    map x | x in hashes && x != id :: hashes[x]
  }

  lemma ForgottenNone(hashes: map<Id, nat>, id: Id)
    requires id !in hashes
    ensures Forgotten(hashes, id) == hashes
  {
  }

  lemma WithoutNone(s: seq<Id>, id: Id)
    requires id !in s
    ensures Without(s, id) == s
  {
  }

  lemma HashIs(entries: map<Id, Place>, id: Id)
    requires id in entries
    ensures id in HashesOf(entries) && HashesOf(entries)[id] == entries[id].hash
  {
  }

  class Ledger {
    var byHash: map<nat, seq<Id>>
    var entries: map<Id, Place>
    var oldest: Option<Id>
    var newest: Option<Id>
    var next: nat
    ghost var order: seq<Id>

    ghost predicate Linked()
      reads this
    {
      && Chained(entries, order)
      && oldest == (if order == [] then None else Some(order[0]))
      && newest == (if order == [] then None else Some(order[|order| - 1]))
    }

    ghost function Hashes(): map<Id, nat>
      reads this
    {
      HashesOf(entries)
    }

    ghost predicate Valid()
      reads this
    {
      && Linked()
      && Filed(byHash, Hashes())
      && forall id :: id in order ==> id < next
    }

    constructor ()
      ensures Valid() && order == [] && next == 0 && Hashes() == map[]
    {
      byHash, entries := map[], map[];
      oldest, newest, next := None, None, 0;
      order := [];
    }

    /** Take an id out of the order; its bucket is left alone. */
    method Unlink(id: Id) returns (entry: Option<Place>)
      requires Linked()
      modifies this`entries, this`oldest, this`newest, this`order
      ensures Linked() && order == Without(old(order), id)
      ensures entry.Some? == (id in old(order))
      ensures entry.Some? ==> entry.value.hash == old(Hashes())[id]
      ensures Hashes() == Forgotten(old(Hashes()), id)
    {
      hide Chained, Distinct, HashesOf, Forgotten, Without, Spliced;
      SameIds();
      if id !in entries {
        ForgottenNone(Hashes(), id);
        WithoutNone(order, id);
        return None;
      }
      ghost var i :| 0 <= i < |order| && order[i] == id;
      ghost var rest := order[..i] + order[i + 1..];
      UnlinkedAt(entries, order, i);
      entry := Some(entries[id]);
      JoinNeighbours(id);
      order := rest;
    }

    /** Drop an entry, its neighbours or the ends taking over what it pointed at. */
    method JoinNeighbours(id: Id)
      requires id in entries
      modifies this`entries, this`oldest, this`newest
      ensures entries == Spliced(old(entries), id)
      ensures oldest == if old(entries)[id].older.Some? then old(oldest) else old(entries)[id].newer
      ensures newest == if old(entries)[id].newer.Some? then old(newest) else old(entries)[id].older
    {
      var place := entries[id];
      entries := entries - {id};
      if place.older.Some? {
        if place.older.value in entries {
          var e := entries[place.older.value];
          entries := entries[place.older.value := e.(newer := place.newer)];
        }
      } else {
        oldest := place.newer;
      }
      if place.newer.Some? {
        if place.newer.value in entries {
          var e := entries[place.newer.value];
          entries := entries[place.newer.value := e.(older := place.older)];
        }
      } else {
        newest := place.older;
      }
    }

    /** Put an id at the most-recently-used end. */
    method LinkNewest(id: Id, hash: nat)
      requires Linked() && id !in entries
      modifies this`entries, this`oldest, this`newest, this`order
      ensures Linked() && order == old(order) + [id]
      ensures Hashes() == old(Hashes())[id := hash]
    {
      hide Chained, HashesOf;
      AppendChained(entries, order, id, hash);
      AppendedHashes(entries, newest, id, hash);
      var older := newest;
      if older.Some? {
        if older.value in entries {
          var e := entries[older.value];
          entries := entries[older.value := e.(newer := Some(id))];
        }
      } else {
        oldest := Some(id);
      }
      newest := Some(id);
      entries := entries[id := Place(hash, older, None)];
      order := order + [id];
    }

    /** Move an id to the most-recently-used end, or do nothing if it is not held. */
    method Touch(id: Id)
      requires Valid()
      modifies this`entries, this`oldest, this`newest, this`order
      ensures Valid() && Hashes() == old(Hashes())
      ensures order == if id in old(order) then Without(old(order), id) + [id] else old(order)
    {
      hide Chained, Distinct, Filed, Without;
      ghost var was := Hashes();
      SameIds();
      if newest == Some(id) {
        DistinctOrder();
        WithoutLast(order);
        return;
      }
      var entry := Unlink(id);
      if entry.Some? {
        SameIds();
        LinkNewest(id, entry.value.hash);
        assert Hashes() == was;
      } else {
        assert Hashes() == was;
      }
      SameIds();
    }

    lemma SameIds()
      requires Linked()
      ensures forall id :: id in order <==> id in Hashes()
      ensures forall id :: id in entries <==> id in Hashes()
    {
    }

    lemma DistinctOrder()
      requires Linked()
      ensures Distinct(order)
    {
    }

    lemma WithoutLast(s: seq<Id>)
      requires Distinct(s) && s != []
      ensures Without(s, s[|s| - 1]) + [s[|s| - 1]] == s
    {
      hide Distinct, Without;
      WithoutAt(s, |s| - 1);
      assert s[..|s| - 1] + s[|s| - 1 + 1..] == s[..|s| - 1];
    }

    /** The first id filed under `hash` that `matches` accepts, which becomes the newest. */
    method Find(hash: nat, matches: Id -> bool) returns (id: Option<Id>)
      requires Valid()
      modifies this`entries, this`oldest, this`newest, this`order
      ensures Valid() && Hashes() == old(Hashes())
      ensures id.None? ==> order == old(order)
      ensures id.None? ==> forall x :: x in Hashes() && Hashes()[x] == hash ==> !matches(x)
      ensures id.Some? ==>
        && id.value in Hashes() && Hashes()[id.value] == hash && matches(id.value)
        && (forall x :: x in Hashes() && Hashes()[x] == hash && matches(x) ==> id.value <= x)
        && order == Without(old(order), id.value) + [id.value]
    {
      hide Chained, Distinct, HashesOf, Without, Filed;
      FiledUnder(byHash, Hashes(), hash);
      if hash !in byHash {
        return None;
      }
      var bucket := byHash[hash];
      var i := 0;
      while i < |bucket| && !matches(bucket[i])
        invariant 0 <= i <= |bucket|
        invariant forall j :: 0 <= j < i ==> !matches(bucket[j])
      {
        i := i + 1;
      }
      if i == |bucket| {
        return None;
      }
      Touch(bucket[i]);
      id := Some(bucket[i]);
      SameIds();
      forall x | x in Hashes() && Hashes()[x] == hash && matches(x) ensures bucket[i] <= x {
        var k :| 0 <= k < |bucket| && bucket[k] == x;
      }
    }

    /** Hand out the next id, which has never been handed out before. */
    method Insert(hash: nat) returns (id: Id)
      requires Valid() && next < ID_LIMIT - 1
      modifies this
      ensures Valid() && id == old(next) && next == old(next) + 1
      ensures order == old(order) + [id]
      ensures Hashes() == old(Hashes())[id := hash]
    {
      hide Chained, Filed, HashesOf, Increasing, Distinct;
      SameIds();
      id := next;
      next := (next + 1) % ID_LIMIT;
      FileUnder(hash, id);
      LinkNewest(id, hash);
    }

    method FileUnder(hash: nat, id: Id)
      requires Filed(byHash, Hashes()) && forall x :: x in Hashes() ==> x < id
      modifies this`byHash
      ensures Filed(byHash, Hashes()[id := hash])
    {
      hide Filed, HashesOf;
      FiledMore(byHash, Hashes(), hash, id);
      var bucket := if hash in byHash then byHash[hash] else [];
      byHash := byHash[hash := bucket + [id]];
    }

    /** Take an id out of the order and of its bucket; whether it was held. */
    method Remove(id: Id) returns (held: bool)
      requires Valid()
      modifies this`byHash, this`entries, this`oldest, this`newest, this`order
      ensures Valid() && held == (id in old(order))
      ensures order == Without(old(order), id)
      ensures Hashes() == Forgotten(old(Hashes()), id)
    {
      hide Filed, Chained, Increasing;
      ghost var was := Hashes();
      SameIds();
      var entry := Unlink(id);
      SameIds();
      if entry.None? {
        assert Forgotten(was, id) == was;
        return false;
      }
      var hash := entry.value.hash;
      BucketOf(byHash, was, id);
      var bucket := Dropping(byHash[hash], id);
      FiledLess(byHash, was, id, bucket);
      byHash := if bucket == [] then byHash - {hash} else byHash[hash := bucket];
      held := true;
    }

    /** Take the least-recently-used id. */
    method EvictOldest() returns (id: Option<Id>)
      requires Valid()
      modifies this`byHash, this`entries, this`oldest, this`newest, this`order
      ensures Valid()
      ensures id == if old(order) == [] then None else Some(old(order)[0])
      ensures order == if old(order) == [] then [] else old(order)[1..]
      ensures Hashes() == if old(order) == [] then old(Hashes()) else Forgotten(old(Hashes()), old(order)[0])
    {
      if oldest.None? {
        return None;
      }
      var first := oldest.value;
      var held := Remove(first);
      id := if held then Some(first) else None;
    }

    /** Every id, least recently used first, by following the links one way. */
    method Lru() returns (ids: seq<Id>)
      requires Linked()
      ensures ids == order
    {
      hide Chained, Distinct;
      ids := [];
      var at := oldest;
      while at.Some? && at.value in entries
        invariant |ids| <= |order| && ids == order[..|ids|]
        invariant at == if |ids| == |order| then None else Some(order[|ids|])
        decreases |order| - |ids|
      {
        ChainedAt(entries, order, |ids|);
        ids := ids + [at.value];
        at := entries[at.value].newer;
      }
      if at.Some? {
        ChainedAt(entries, order, |ids|);
      }
    }

    function Len(): nat
      reads this
    {
      |entries|
    }

    lemma LenIs()
      requires Linked()
      ensures Len() == |order|
    {
      DistinctSize(order);
      assert entries.Keys == IdSet(order);
    }
  }

  /** A bucket holds, in increasing order, exactly the ids filed under its hash. */
  lemma FiledUnder(byHash: map<nat, seq<Id>>, hashes: map<Id, nat>, hash: nat)
    requires Filed(byHash, hashes)
    ensures hash !in byHash ==> forall x :: x in hashes ==> hashes[x] != hash
    ensures hash in byHash ==> Increasing(byHash[hash])
    ensures hash in byHash ==> forall x :: x in byHash[hash] <==> x in hashes && hashes[x] == hash
  {
  }

  lemma BucketOf(byHash: map<nat, seq<Id>>, hashes: map<Id, nat>, id: Id)
    requires Filed(byHash, hashes) && id in hashes
    ensures hashes[id] in byHash && Increasing(byHash[hashes[id]])
  {
  }

  method Dropping(bucket: seq<Id>, id: Id) returns (kept: seq<Id>)
    requires Increasing(bucket)
    ensures Increasing(kept) && forall x :: x in kept <==> x in bucket && x != id
  {
    kept := [];
    for i := 0 to |bucket|
      invariant Increasing(kept) && (forall x :: x in kept ==> x in bucket[..i])
      invariant forall x :: x in kept <==> x in bucket[..i] && x != id
    {
      assert bucket[..i + 1] == bucket[..i] + [bucket[i]];
      if bucket[i] != id {
        forall k | 0 <= k < |kept| ensures kept[k] < bucket[i] {
          assert kept[k] in bucket[..i];
        }
        kept := kept + [bucket[i]];
      }
    }
    assert bucket[..|bucket|] == bucket;
  }

  lemma FiledMore(byHash: map<nat, seq<Id>>, hashes: map<Id, nat>, hash: nat, id: Id)
    requires Filed(byHash, hashes) && forall x :: x in hashes ==> x < id
    ensures Filed(byHash[hash := (if hash in byHash then byHash[hash] else []) + [id]], hashes[id := hash])
  {
    var bucket := if hash in byHash then byHash[hash] else [];
    forall k | 0 <= k < |bucket| ensures bucket[k] < id {
      assert bucket[k] in byHash[hash] && bucket[k] in hashes;
    }
    assert id !in hashes;
  }

  lemma FiledLess(byHash: map<nat, seq<Id>>, hashes: map<Id, nat>, id: Id, kept: seq<Id>)
    requires Filed(byHash, hashes) && id in hashes
    requires Increasing(kept) && forall x :: x in kept <==> x in byHash[hashes[id]] && x != id
    ensures Filed(if kept == [] then byHash - {hashes[id]} else byHash[hashes[id] := kept], Forgotten(hashes, id))
  {
    var hash, less := hashes[id], Forgotten(hashes, id);
    forall x | x in less && kept == [] ensures hashes[x] != hash {
      assert hashes[x] == hash ==> x in kept;
    }
  }

  // ----- splices -----

  /** The entries with the one for `id` gone and its neighbours joined. */
  function Spliced(entries: map<Id, Place>, id: Id): map<Id, Place>
    requires id in entries
  {
    var place := entries[id];
    var gone := entries - {id};
    var left := if place.older.Some? && place.older.value in gone
                then gone[place.older.value := gone[place.older.value].(newer := place.newer)] else gone;
    if place.newer.Some? && place.newer.value in left
    then left[place.newer.value := left[place.newer.value].(older := place.older)] else left
  }

  function Appended(entries: map<Id, Place>, newest: Option<Id>, id: Id, hash: nat): map<Id, Place> {
    var left := if newest.Some? && newest.value in entries
                then entries[newest.value := entries[newest.value].(newer := Some(id))] else entries;
    left[id := Place(hash, newest, None)]
  }

  lemma SplicedHashes(entries: map<Id, Place>, id: Id)
    requires id in entries
    ensures HashesOf(Spliced(entries, id)) == Forgotten(HashesOf(entries), id)
    ensures forall x :: x in Spliced(entries, id) <==> x in entries && x != id
  {
  }

  lemma AppendedHashes(entries: map<Id, Place>, newest: Option<Id>, id: Id, hash: nat)
    ensures HashesOf(Appended(entries, newest, id, hash)) == HashesOf(entries)[id := hash]
    ensures forall x :: x in Appended(entries, newest, id, hash) <==> x in entries || x == id
  {
  }

  lemma DistinctOf(entries: map<Id, Place>, order: seq<Id>)
    requires Chained(entries, order)
    ensures Distinct(order)
  {
  }

  lemma DistinctAt(s: seq<Id>, a: nat, b: nat)
    requires Distinct(s) && a < |s| && b < |s|
    ensures s[a] == s[b] <==> a == b
  {
  }

  lemma ChainedAt(entries: map<Id, Place>, order: seq<Id>, i: nat)
    requires Chained(entries, order) && i < |order|
    ensures order[i] in entries
    ensures entries[order[i]].older == (if i == 0 then None else Some(order[i - 1]))
    ensures entries[order[i]].newer == (if i == |order| - 1 then None else Some(order[i + 1]))
  {
    assert order[i] in order;
  }

  /** One id's neighbours once the id at `i` has gone. */
  lemma SplicedAt(entries: map<Id, Place>, order: seq<Id>, i: nat, k: nat)
    requires Chained(entries, order) && i < |order| && k < |order| - 1 && order[i] in entries
    ensures
      var rest := order[..i] + order[i + 1..];
      var both := Spliced(entries, order[i]);
      && rest[k] in both
      && both[rest[k]].older == (if k == 0 then None else Some(rest[k - 1]))
      && both[rest[k]].newer == (if k == |rest| - 1 then None else Some(rest[k + 1]))
  {
    hide Chained, Distinct;
    DistinctOf(entries, order);
    var at := if k < i then k else k + 1;
    ChainedAt(entries, order, i);
    ChainedAt(entries, order, at);
    DistinctAt(order, at, i);
    if i > 0 {
      ChainedAt(entries, order, i - 1);
      DistinctAt(order, at, i - 1);
      DistinctAt(order, i, i - 1);
    }
    if i + 1 < |order| {
      ChainedAt(entries, order, i + 1);
      DistinctAt(order, at, i + 1);
      DistinctAt(order, i, i + 1);
      if i > 0 {
        DistinctAt(order, i - 1, i + 1);
      }
    }
    var rest := order[..i] + order[i + 1..];
    assert rest[k] == order[at];
    assert k > 0 ==> rest[k - 1] == order[if k - 1 < i then k - 1 else k];
    assert k + 1 < |rest| ==> rest[k + 1] == order[if k + 1 < i then k + 1 else k + 2];
  }

  /** Joining the neighbours of the id at `i` keeps the chain. */
  lemma SpliceChained(entries: map<Id, Place>, order: seq<Id>, i: nat)
    requires Chained(entries, order) && i < |order|
    ensures order[i] in entries
    ensures Chained(Spliced(entries, order[i]), order[..i] + order[i + 1..])
  {
    hide Spliced, Distinct, HashesOf, Forgotten, Without;
    ChainedAt(entries, order, i);
    WithoutAt(order, i);
    SplicedHashes(entries, order[i]);
    var rest := order[..i] + order[i + 1..];
    var both := Spliced(entries, order[i]);
    forall k {:trigger both[rest[k]]} | 0 <= k < |rest|
      ensures rest[k] in both
      ensures both[rest[k]].older == (if k == 0 then None else Some(rest[k - 1]))
      ensures both[rest[k]].newer == (if k == |rest| - 1 then None else Some(rest[k + 1]))
    {
      SplicedAt(entries, order, i, k);
    }
  }

  /** All that taking the id at `i` out leaves true. */
  lemma UnlinkedAt(entries: map<Id, Place>, order: seq<Id>, i: nat)
    requires Chained(entries, order) && i < |order|
    ensures order[i] in entries
    ensures
      var id := order[i];
      var rest := order[..i] + order[i + 1..];
      && rest == Without(order, id) && Chained(Spliced(entries, id), rest)
      && HashesOf(Spliced(entries, id)) == Forgotten(HashesOf(entries), id)
      && id in HashesOf(entries) && HashesOf(entries)[id] == entries[id].hash
      && (entries[id].older.None? <==> i == 0) && (entries[id].newer.None? <==> i == |order| - 1)
      && (i == 0 ==> entries[id].newer == (if rest == [] then None else Some(rest[0])))
      && (i == |order| - 1 ==> entries[id].older == (if rest == [] then None else Some(rest[|rest| - 1])))
      && (i > 0 ==> rest[0] == order[0]) && (i < |order| - 1 ==> rest[|rest| - 1] == order[|order| - 1])
  {
    hide Chained, Distinct, HashesOf, Forgotten, Without, Spliced;
    ChainedAt(entries, order, i);
    SpliceChained(entries, order, i);
    DistinctOf(entries, order);
    WithoutAt(order, i);
    SplicedHashes(entries, order[i]);
    HashIs(entries, order[i]);
  }

  lemma AppendChained(entries: map<Id, Place>, order: seq<Id>, id: Id, hash: nat)
    requires Chained(entries, order) && id !in entries
    ensures Chained(Appended(entries, if order == [] then None else Some(order[|order| - 1]), id, hash), order + [id])
  {
    var newest := if order == [] then None else Some(order[|order| - 1]);
    var after := Appended(entries, newest, id, hash);
    AppendedHashes(entries, newest, id, hash);
    assert id !in order;
    forall k {:trigger after[(order + [id])[k]]} | 0 <= k < |order + [id]|
      ensures (order + [id])[k] in after
      ensures after[(order + [id])[k]].older == (if k == 0 then None else Some((order + [id])[k - 1]))
      ensures after[(order + [id])[k]].newer == (if k == |order| then None else Some((order + [id])[k + 1]))
    {
      AppendedAt(entries, order, id, hash, k);
    }
  }

  lemma AppendedAt(entries: map<Id, Place>, order: seq<Id>, id: Id, hash: nat, k: nat)
    requires Chained(entries, order) && id !in entries && k <= |order|
    ensures
      var after := Appended(entries, if order == [] then None else Some(order[|order| - 1]), id, hash);
      var longer := order + [id];
      && longer[k] in after
      && after[longer[k]].older == (if k == 0 then None else Some(longer[k - 1]))
      && after[longer[k]].newer == (if k == |order| then None else Some(longer[k + 1]))
  {
    hide Chained, Distinct;
    DistinctOf(entries, order);
    if k < |order| {
      ChainedAt(entries, order, k);
      ChainedAt(entries, order, |order| - 1);
      DistinctAt(order, k, |order| - 1);
    } else if order != [] {
      ChainedAt(entries, order, |order| - 1);
    }
  }
}
