// The storage index: the mutable name layer and the two levels of reference counts.
// Every method is one transaction.
module Index {
  import opened Prelude
  import opened Versions
  import opened FileStore
  import opened StoreModel
  import opened Namespaces

  class SqliteNameIndex {
    var names: Versions
    var objects: Objects
    var blocks: Blocks
    var edges: Edges

    constructor ()
      ensures names == map[] && objects == map[] && blocks == map[] && edges == map[]
    {
      names, objects, blocks, edges := map[], map[], map[], map[];
    }

    // ---- Blocks ----------------------------------------------------------

    /** Reserves the available generation of `h`, if there is one. The update counts up every
        available generation of the hash, which is one wherever the minting rule has been kept. */
    method ReserveBlock(h: Cid, now: int) returns (r: Option<nat>)
      modifies this`blocks
      ensures r.Some? ==>
                && Available(old(blocks), Key(h, r.value))
                && blocks.Keys == old(blocks).Keys
                && forall k | k in blocks :: blocks[k] ==
                     if k.hash == h && old(blocks)[k].available then BlockRow(old(blocks)[k].refcount + 1, true, now)
                     else old(blocks)[k]
      ensures r.Some? && OneAvailable(old(blocks)) ==>
                var b := Key(h, r.value);
                blocks == old(blocks)[b := BlockRow(old(blocks)[b].refcount + 1, true, now)]
      ensures r.None? ==>
                blocks == old(blocks) && forall b | b in blocks && b.hash == h :: !blocks[b].available
    {
      r := None;
      if b :| b in blocks && b.hash == h && blocks[b].available {
        assert b == Key(h, b.generation) && Available(blocks, b);
        r := Some(b.generation);
        assert OneAvailable(blocks) ==> forall k | k in blocks && k.hash == h && Available(blocks, k) :: k == b;
        blocks := map k | k in blocks ::
          if k.hash == h && blocks[k].available then BlockRow(blocks[k].refcount + 1, true, now) else blocks[k];
      }
    }

    /** Inserts `b` as a fresh available generation, unless one is available or `b` exists. */
    method MintBlock(b: Key, now: int) returns (ok: bool)
      modifies this`blocks
      ensures ok <==> b !in old(blocks) && forall k | k in old(blocks) && k.hash == b.hash :: !old(blocks)[k].available
      ensures blocks == if ok then old(blocks)[b := BlockRow(1, true, now)] else old(blocks)
    {
      ok := b !in blocks && forall k | k in blocks && k.hash == b.hash :: !blocks[k].available;
      if ok {
        blocks := blocks[b := BlockRow(1, true, now)];
      }
    }

    /** The smallest generation of `h` without a row. */
    method NextGeneration(h: Cid) returns (g: nat)
      ensures Key(h, g) !in blocks
      ensures forall i: nat | i < g :: Key(h, i) in blocks
    {
      g := 0;
      ghost var above := blocks.Keys;
      while Key(h, g) in blocks
        invariant forall i: nat | i < g :: Key(h, i) in blocks
        invariant above == blocks.Keys - set i: nat | 0 <= i < g :: Key(h, i)
        decreases |above|
      {
        above := above - {Key(h, g)};
        g := g + 1;
      }
    }

    method ReleaseBlock(b: Key)
      modifies this`blocks
      ensures blocks == AddBlock(old(blocks), b, -1)
    {
      blocks := AddBlock(blocks, b, -1);
    }

    method ClaimBlock(b: Key) returns (ok: bool)
      modifies this`blocks
      ensures ok <==> b in old(blocks) && old(blocks)[b].refcount == 0 && old(blocks)[b].available
      ensures blocks == if ok then old(blocks)[b := old(blocks)[b].(available := false)] else old(blocks)
    {
      ok := b in blocks && blocks[b].refcount == 0 && blocks[b].available;
      if ok {
        blocks := blocks[b := blocks[b].(available := false)];
      }
    }

    /** Lowers a drifted count to `to`, if the row has been at rest since `before`. */
    method ReconcileBlock(b: Key, to: int, before: int) returns (ok: bool)
      modifies this`blocks
      ensures ok <==> b in old(blocks) && old(blocks)[b].refcount > to && old(blocks)[b].touchedAt <= before
      ensures blocks == if ok then old(blocks)[b := old(blocks)[b].(refcount := to)] else old(blocks)
    {
      ok := b in blocks && blocks[b].refcount > to && blocks[b].touchedAt <= before;
      if ok {
        blocks := blocks[b := blocks[b].(refcount := to)];
      }
    }

    /** Every block row at refcount zero, with its claim flag. */
    method ClaimableBlocks() returns (rows: seq<(Key, bool)>)
      ensures forall r | r in rows ::
                r.0 in blocks && blocks[r.0].refcount == 0 && blocks[r.0].available == r.1
      ensures forall b | b in blocks && blocks[b].refcount == 0 :: (b, blocks[b].available) in rows
      ensures forall i, j | 0 <= i < j < |rows| :: rows[i].0 != rows[j].0
      ensures |rows| == |DeadBlocks(blocks)|
    {
      rows := [];
      var left := DeadBlocks(blocks);
      while left != {}
        invariant |rows| + |left| == |DeadBlocks(blocks)|
        invariant forall b | b in left :: b in blocks && blocks[b].refcount == 0
        invariant forall r | r in rows ::
            r.0 in blocks && blocks[r.0].refcount == 0 && blocks[r.0].available == r.1 && r.0 !in left
        invariant forall b | b in blocks && blocks[b].refcount == 0 :: b in left || (b, blocks[b].available) in rows
        invariant forall i, j | 0 <= i < j < |rows| :: rows[i].0 != rows[j].0
        decreases left
      {
        var b :| b in left;
        rows := rows + [(b, blocks[b].available)];
        left := left - {b};
      }
    }

    method DeleteBlock(b: Key)
      modifies this`blocks
      ensures blocks == if b in old(blocks) && old(blocks)[b].refcount == 0 && !old(blocks)[b].available
                        then old(blocks) - {b} else old(blocks)
    {
      if b in blocks && blocks[b].refcount == 0 && !blocks[b].available {
        blocks := blocks - {b};
      }
    }

    // ---- Objects ---------------------------------------------------------

    /** Reserves an object; only a writer that will write the manifest may create it. The
        result is the prior count, or `None` when the object is claimed or gone. */
    method ReserveObject(c: Cid, createIfAbsent: bool, now: int) returns (r: Option<int>)
      modifies this`objects
      ensures r.None? <==> (if c in old(objects) then !old(objects)[c].available else !createIfAbsent)
      ensures r.None? ==> objects == old(objects)
      ensures r.Some? ==>
                && r.value == (if c in old(objects) then old(objects)[c].refcount else 0)
                && objects == old(objects)[c := ObjectRow(r.value + 1, true, now)]
    {
      if c in objects {
        if !objects[c].available {
          return None;
        }
        r := Some(objects[c].refcount);
        objects := objects[c := ObjectRow(objects[c].refcount + 1, true, now)];
      } else if createIfAbsent {
        r := Some(0);
        objects := objects[c := ObjectRow(1, true, now)];
      } else {
        r := None;
      }
    }

    method ReleaseObject(c: Cid)
      modifies this`objects
      ensures objects == AddObject(old(objects), c, -1)
    {
      objects := AddObject(objects, c, -1);
    }

    method ClaimObject(c: Cid) returns (ok: bool)
      modifies this`objects
      ensures ok <==> c in old(objects) && old(objects)[c].refcount == 0 && old(objects)[c].available
      ensures objects == if ok then old(objects)[c := old(objects)[c].(available := false)] else old(objects)
    {
      ok := c in objects && objects[c].refcount == 0 && objects[c].available;
      if ok {
        objects := objects[c := objects[c].(available := false)];
      }
    }

    method ReconcileObject(c: Cid, to: int, before: int) returns (ok: bool)
      modifies this`objects
      ensures ok <==> c in old(objects) && old(objects)[c].refcount > to && old(objects)[c].touchedAt <= before
      ensures objects == if ok then old(objects)[c := old(objects)[c].(refcount := to)] else old(objects)
    {
      ok := c in objects && objects[c].refcount > to && objects[c].touchedAt <= before;
      if ok {
        objects := objects[c := objects[c].(refcount := to)];
      }
    }

    method ClaimableObjects() returns (rows: seq<(Cid, bool)>)
      ensures forall r | r in rows ::
                r.0 in objects && objects[r.0].refcount == 0 && objects[r.0].available == r.1
      ensures forall c | c in objects && objects[c].refcount == 0 :: (c, objects[c].available) in rows
      ensures forall i, j | 0 <= i < j < |rows| :: rows[i].0 != rows[j].0
      ensures |rows| == |DeadObjects(objects)|
    {
      rows := [];
      var left := DeadObjects(objects);
      while left != {}
        invariant |rows| + |left| == |DeadObjects(objects)|
        invariant forall c | c in left :: c in objects && objects[c].refcount == 0
        invariant forall r | r in rows ::
            r.0 in objects && objects[r.0].refcount == 0 && objects[r.0].available == r.1 && r.0 !in left
        invariant forall c | c in objects && objects[c].refcount == 0 :: c in left || (c, objects[c].available) in rows
        invariant forall i, j | 0 <= i < j < |rows| :: rows[i].0 != rows[j].0
        decreases left
      {
        var c :| c in left;
        rows := rows + [(c, objects[c].available)];
        left := left - {c};
      }
    }

    /** Deletes a claimed, dead object and its edges. */
    method DeleteObject(c: Cid)
      modifies this`objects, this`edges
      ensures
        if c in old(objects) && old(objects)[c].refcount == 0 && !old(objects)[c].available then
          objects == old(objects) - {c} && edges == old(edges) - EdgesOf(old(edges), {c})
        else
          objects == old(objects) && edges == old(edges)
    {
      if c in objects && objects[c].refcount == 0 && !objects[c].available {
        edges := edges - EdgesOf(edges, {c});
        objects := objects - {c};
      }
    }

    // ---- Names -----------------------------------------------------------

    method Resolve(n: Name) returns (r: Option<Cid>)
      ensures r == Current(names, n)
    {
      r := Current(names, n);
    }

    /** The names of a namespace, sorted: the name itself and its dotted descendants. */
    method List(prefix: Name) returns (r: seq<Name>)
      ensures Sorted(r)
      ensures forall n :: n in r <==> n in names && (prefix == [] || NamespaceCovers(prefix, n))
    {
      r := [];
      var left := names.Keys;
      while left != {}
        invariant left <= names.Keys && Sorted(r)
        invariant forall n :: n in r <==> n in names && n !in left && (prefix == [] || NamespaceCovers(prefix, n))
        decreases left
      {
        var n :| n in left;
        left := left - {n};
        if Selects(prefix, n) {
          r := Insert(r, n);
        }
        if prefix != [] { SelectsIsCovers(prefix, n); }
      }
    }

    /** Binds `n` to an object the caller has reserved. `prevRc` is the count before that
        reserve: zero means the object is going live and the block reservations become its
        edges, otherwise they are redundant. */
    method Bind(n: Name, c: Cid, reserved: seq<Key>, prevRc: int)
      modifies this
      ensures Current(old(names), n) == Some(c) ==>
                && names == old(names) && edges == old(edges)
                && objects == AddObject(old(objects), c, -1)
                && blocks == Released(old(blocks), reserved)
      ensures Current(old(names), n) != Some(c) ==>
                && names == Append(old(names), n, c) && objects == old(objects)
                && blocks == (if prevRc == 0 then old(blocks) else Released(old(blocks), reserved))
                && edges == (if prevRc == 0 then WithEdges(old(edges), c, reserved) else old(edges))
    {
      if Current(names, n) == Some(c) {
        objects := AddObject(objects, c, -1);
        ReleaseReservations(reserved);
        return;
      }
      names := Append(names, n, c);
      if prevRc == 0 {
        assert reserved[..0] == [];
        for i := 0 to |reserved|
          modifies this`edges
          invariant edges == WithEdges(old(edges), c, reserved[..i])
        {
          assert reserved[..i + 1][..i] == reserved[..i];
          var e := Edge(c, reserved[i].hash);
          if e !in edges {
            edges := edges[e := reserved[i].generation];
          }
        }
        assert reserved[..|reserved|] == reserved;
      } else {
        ReleaseReservations(reserved);
      }
    }

    method ReleaseReservations(reserved: seq<Key>)
      modifies this`blocks
      ensures blocks == Released(old(blocks), reserved)
    {
      assert reserved[..0] == [];
      for i := 0 to |reserved|
        modifies this`blocks
        invariant blocks == Released(old(blocks), reserved[..i])
      {
        assert reserved[..i + 1][..i] == reserved[..i];
        blocks := AddBlock(blocks, reserved[i], -1);
      }
      assert reserved[..|reserved|] == reserved;
    }

    ghost function Tables(): Store
      reads this
    {
      Store(names, objects, blocks, edges, map[], map[])
    }

    /** Removes `n` and its history. Fails, changing nothing, if a version names an object
        without a row. */
    method Unbind(n: Name) returns (ok: bool)
      modifies this
      ensures ok <==> forall i | 0 <= i < |History(old(names), n)| :: History(old(names), n)[i] in old(objects)
      ensures Tables() == if ok then Unbound(old(Tables()), n) else old(Tables())
    {
      var history := History(names, n);
      ok := forall i | 0 <= i < |history| :: history[i] in objects;
      if !ok {
        return;
      }
      DropVersions(n);
      names := names - {n};
    }

    /** Takes every version of `n` off the counts of the objects they name. */
    method DropVersions(n: Name)
      requires forall c | c in History(names, n) :: c in objects
      modifies this`objects, this`blocks, this`edges
      ensures Tables().(names := names - {n}) == Unbound(old(Tables()), n)
    {
      ghost var s := Tables();
      var all := set c | c in History(names, n);
      var left := all;
      ghost var order: seq<Cid> := [];
      while left != {}
        modifies this`objects, this`blocks, this`edges
        invariant left <= all && IsOrder(order, all - left)
        invariant objects.Keys == s.objects.Keys && Tables() == UnboundBy(s, n, order)
        decreases left
      {
        var c :| c in left;
        DropReferences(n, c);
        assert (order + [c])[..|order|] == order;
        left, order := left - {c}, order + [c];
      }
      UnboundByIsUnbound(s, n, order);
    }

    /** Takes the versions of `n` off the count of `c`, and kills `c` if none are left. */
    method DropReferences(n: Name, c: Cid)
      requires c in objects
      modifies this`objects, this`blocks, this`edges
      ensures Tables() == WithoutRefs(old(Tables()), n, c) && objects.Keys == old(objects).Keys
    {
      objects := objects[c := objects[c].(refcount := objects[c].refcount - |RefsOf(names, n, c)|)];
      if objects[c].refcount == 0 {
        DropEdges(c);
      }
    }

    /** Gives back the block references of a dead object and deletes its edges. */
    method DropEdges(c: Cid)
      modifies this`blocks, this`edges
      ensures edges == old(edges) - EdgesOf(old(edges), {c})
      ensures blocks == Lowered(old(blocks), old(edges), EdgesOf(old(edges), {c}))
    {
      var left := EdgesOf(edges, {c});
      ghost var gone: set<Edge> := {};
      LowerNothing(blocks, edges);
      while left != {}
        modifies this`blocks
        invariant left + gone == EdgesOf(edges, {c}) && left !! gone
        invariant blocks == Lowered(old(blocks), edges, gone)
        decreases left
      {
        var e :| e in left;
        LowerOne(old(blocks), edges, gone, e);
        blocks := AddBlock(blocks, Key(e.block, edges[e]), -1);
        left, gone := left - {e}, gone + {e};
      }
      assert gone == EdgesOf(edges, {c});
      edges := edges - EdgesOf(edges, {c});
    }
  }
}
