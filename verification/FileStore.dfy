// The filesystem content store: block files keyed by hash and generation, and
// manifests that list an object's blocks in order.
module FileStore {
  import opened Prelude

  const U64_LIMIT: int := 0x1_0000_0000_0000_0000

  lemma SizesHave64Bits()
    ensures U64_LIMIT == 65536 * 65536 * 65536 * 65536
  {
  }

  type u64 = x: int | 0 <= x < U64_LIMIT

  datatype StoreError =
    | NotFound(cid: Cid)
    | Corrupt
    | Conflict
    | NameNotFound
    | Io

  datatype Result<+T> = Ok(value: T) | Err(error: StoreError)

  datatype BlockRef = BlockRef(hash: Cid, generation: nat, len: u64)

  datatype Manifest = Manifest(size: u64, blocks: seq<BlockRef>)

  type Files = map<Key, Bytes>

  function Block(r: BlockRef): Key {
    Key(r.hash, r.generation)
  }

  /** The bytes of `blocks`, in order; `None` when a block file is missing. */
  function Contents(files: Files, blocks: seq<BlockRef>): Option<Bytes> {
    if blocks == [] then Some([])
    else
      var last := Block(blocks[|blocks| - 1]);
      match Contents(files, blocks[..|blocks| - 1])
      case None => None
      case Some(bytes) => if last in files then Some(bytes + files[last]) else None
  }

  /** Every block has its file, each file has the recorded length, and the recorded size is
      their total. */
  predicate WellFormed(files: Files, m: Manifest) {
    && (forall i | 0 <= i < |m.blocks| ::
          Block(m.blocks[i]) in files && |files[Block(m.blocks[i])]| == m.blocks[i].len)
    && m.size == Length(m.blocks)
  }

  function Length(blocks: seq<BlockRef>): nat {
    if blocks == [] then 0 else Length(blocks[..|blocks| - 1]) + blocks[|blocks| - 1].len
  }

  lemma {:induction false} LengthMonotone(blocks: seq<BlockRef>, i: nat)
    requires i <= |blocks|
    ensures Length(blocks[..i]) <= Length(blocks)
    decreases |blocks|
  {
    if i == |blocks| {
      assert blocks[..i] == blocks;
    } else {
      var front := blocks[..|blocks| - 1];
      LengthMonotone(front, i);
      assert front[..i] == blocks[..i];
    }
  }

  /** A well-formed manifest reads completely, and to its recorded size. */
  lemma {:induction false} WellFormedReads(files: Files, blocks: seq<BlockRef>, i: nat)
    requires forall j | 0 <= j < |blocks| ::
               Block(blocks[j]) in files && |files[Block(blocks[j])]| == blocks[j].len
    requires i <= |blocks|
    ensures Contents(files, blocks[..i]).Some?
    ensures |Contents(files, blocks[..i]).value| == Length(blocks[..i])
  {
    if i > 0 {
      WellFormedReads(files, blocks, i - 1);
      assert blocks[..i][..i - 1] == blocks[..i - 1];
    }
  }

  /** What has been read of a manifest is a prefix of the whole. */
  lemma {:induction false} ContentsPrefix(files: Files, blocks: seq<BlockRef>, i: nat)
    requires i <= |blocks| && Contents(files, blocks).Some?
    ensures Contents(files, blocks[..i]).Some?
    ensures Contents(files, blocks[..i]).value <= Contents(files, blocks).value
    decreases |blocks|
  {
    if i == |blocks| {
      assert blocks[..i] == blocks;
    } else {
      var front := blocks[..|blocks| - 1];
      ContentsPrefix(files, front, i);
      assert front[..i] == blocks[..i];
    }
  }

  lemma WholeLength(files: Files, m: Manifest)
    requires WellFormed(files, m)
    ensures Contents(files, m.blocks).Some? && |Contents(files, m.blocks).value| == m.size
  {
    WellFormedReads(files, m.blocks, |m.blocks|);
    assert m.blocks[..|m.blocks|] == m.blocks;
  }

  /** Block `i` of a well-formed manifest is the stretch of the whole that starts where the
      blocks before it end. */
  lemma BlockIsStretch(files: Files, m: Manifest, i: nat, all: Bytes)
    requires WellFormed(files, m) && i < |m.blocks| && Contents(files, m.blocks) == Some(all)
    ensures |all| == m.size
    ensures Length(m.blocks[..i]) + m.blocks[i].len == Length(m.blocks[..i + 1]) <= m.size
    ensures files[Block(m.blocks[i])] == all[Length(m.blocks[..i])..Length(m.blocks[..i + 1])]
  {
    WholeLength(files, m);
    WellFormedReads(files, m.blocks, i);
    ContentsPrefix(files, m.blocks, i + 1);
    LengthMonotone(m.blocks, i + 1);
    var upTo := m.blocks[..i + 1];
    assert upTo[..i] == m.blocks[..i] && upTo[i] == m.blocks[i];
    var before := Contents(files, m.blocks[..i]).value;
    assert Contents(files, upTo) == Some(before + files[Block(m.blocks[i])]);
    assert all[..|before| + |files[Block(m.blocks[i])]|] == before + files[Block(m.blocks[i])];
  }

  /** The piece `get_range` takes from the block at `start`, for the range from `offset` to
      `end`. A manifest whose recorded length exceeds the file must not slice out of
      bounds, so both ends are clamped to the file. */
  function Piece(data: Bytes, start: nat, len: nat, offset: nat, end: nat): Bytes
    requires start < end
  {
    var from := Min(if offset > start then offset - start else 0, |data|);
    var to := Min(Min(end - start, len), |data|);
    data[from..if to > from then to else from]
  }

  lemma PieceIsStretch(all: Bytes, start: nat, len: nat, offset: nat, end: nat)
    requires start + len <= |all| && start < end <= |all| && offset < end && offset < start + len
    ensures Piece(all[start..start + len], start, len, offset, end)
         == all[Clamp(start, offset, end)..Clamp(start + len, offset, end)]
  {
    var from := if offset > start then offset - start else 0;
    var to := Min(end - start, len);
    assert Piece(all[start..start + len], start, len, offset, end) == all[start..start + len][from..to];
    SliceOfSlice(all, start, start + len, from, to);
  }

  /** One round of the block walk: what the block at `i` adds to the range read so far. */
  lemma RangeStep(files: Files, m: Manifest, i: nat, all: Bytes, offset: nat, end: nat)
    requires WellFormed(files, m) && i < |m.blocks| && Contents(files, m.blocks) == Some(all)
    requires offset < end <= m.size
    ensures
      var start, next, len := Length(m.blocks[..i]), Length(m.blocks[..i + 1]), m.blocks[i].len;
      && start + len == next <= m.size == |all|
      && (next > offset && start < end ==>
            all[offset..Clamp(start, offset, end)] + Piece(files[Block(m.blocks[i])], start, len, offset, end)
            == all[offset..Clamp(next, offset, end)])
  {
    BlockIsStretch(files, m, i, all);
    var start, next, len := Length(m.blocks[..i]), Length(m.blocks[..i + 1]), m.blocks[i].len;
    if next > offset && start < end {
      PieceIsStretch(all, start, len, offset, end);
      JoinSlices(all, offset, Clamp(start, offset, end), Clamp(next, offset, end));
    }
  }

  function SaturatingAdd(a: u64, b: u64): (r: u64)
    ensures r as int == if a + b < U64_LIMIT then a + b else U64_LIMIT - 1
  {
    if a + b < U64_LIMIT then a + b else U64_LIMIT - 1
  }

  function Clamp(x: int, lo: int, hi: int): int {
    if x < lo then lo else if x > hi then hi else x
  }

  function Min(a: int, b: int): int {
    if a < b then a else b
  }

  /** The part of `bytes` from `offset`, at most `len` long, truncated at the end. */
  function Slice(bytes: Bytes, offset: nat, len: nat): Bytes {
    if offset >= |bytes| then [] else bytes[offset..Min(offset + len, |bytes|)]
  }

  /** As many bytes as were asked for, or as there are from `offset`; each the byte at its place. */
  lemma SliceMeans(bytes: Bytes, offset: nat, len: nat)
    ensures |Slice(bytes, offset, len)| ==
              if offset >= |bytes| then 0 else if len <= |bytes| - offset then len else |bytes| - offset
    ensures forall i | 0 <= i < |Slice(bytes, offset, len)| :: Slice(bytes, offset, len)[i] == bytes[offset + i]
  {
  }

  datatype Chunk = Chunk(hash: Cid, offset: nat, len: nat)

  /** Where the first `i` chunks end. */
  function ChunkEnd(chunks: seq<Chunk>, i: nat): nat
    requires i <= |chunks|
  {
    if i == 0 then 0 else chunks[i - 1].offset + chunks[i - 1].len
  }

  /** Chunk `i` of `chunks` starts where the one before it ends and is named by its hash. */
  predicate IsPiece(chunks: seq<Chunk>, content: Bytes, i: nat)
    requires i < |chunks|
  {
    && chunks[i].offset == ChunkEnd(chunks, i)
    && chunks[i].offset + chunks[i].len <= |content|
    && chunks[i].hash == Cid(content[chunks[i].offset..chunks[i].offset + chunks[i].len])
  }

  /** `chunks` cuts `content` into consecutive pieces. */
  predicate IsPartition(chunks: seq<Chunk>, content: Bytes) {
    (forall i | 0 <= i < |chunks| :: IsPiece(chunks, content, i)) && ChunkEnd(chunks, |chunks|) == |content|
  }

  type Chunker = Bytes -> seq<Chunk>

  /** The chunker is any deterministic function that partitions its input. */
  ghost predicate Partitions(chunk: Chunker) {
    forall content :: IsPartition(chunk(content), content)
  }

  class FilesystemStore {
    const chunk: Chunker
    var files: Files
    var manifests: map<Cid, Manifest>

    constructor (chunk: Chunker)
      ensures this.chunk == chunk && files == map[] && manifests == map[]
    {
      this.chunk := chunk;
      files, manifests := map[], map[];
    }

    method Get(cid: Cid) returns (r: Result<Bytes>)
      ensures cid !in manifests ==> r == Err(NotFound(cid))
      ensures cid in manifests ==>
                r == match Contents(files, manifests[cid].blocks)
                     case Some(bytes) => Ok(bytes)
                     case None => Err(Corrupt)
    {
      if cid !in manifests {
        return Err(NotFound(cid));
      }
      var blocks := manifests[cid].blocks;
      var out: Bytes := [];
      for i := 0 to |blocks|
        invariant Contents(files, blocks[..i]) == Some(out)
      {
        assert blocks[..i + 1][..i] == blocks[..i];
        if Block(blocks[i]) !in files {
          if Contents(files, blocks).Some? { ContentsPrefix(files, blocks, i + 1); }
          return Err(Corrupt);
        }
        out := out + files[Block(blocks[i])];
      }
      assert blocks[..|blocks|] == blocks;
      return Ok(out);
    }

    /** Walking only the blocks that meet the range gives exactly the clamped slice of what
        `Get` returns. */
    method GetRange(cid: Cid, offset: u64, len: u64) returns (r: Result<Bytes>)
      ensures cid !in manifests ==> r == Err(NotFound(cid))
      ensures cid in manifests && WellFormed(files, manifests[cid]) ==>
                && Contents(files, manifests[cid].blocks).Some?
                && r == Ok(Slice(Contents(files, manifests[cid].blocks).value, offset, len))
    {
      if cid !in manifests {
        return Err(NotFound(cid));
      }
      var m := manifests[cid];
      ghost var good := WellFormed(files, m);
      if good {
        WholeLength(files, m);
      }
      ghost var all := if good then Contents(files, m.blocks).value else [];
      var end := Min(SaturatingAdd(offset, len), m.size);
      if offset >= m.size || end <= offset {
        assert good && offset < |all| ==> len == 0 && all[offset..offset] == [];
        return Ok([]);
      }
      r := ReadRange(m, offset, end, all);
    }

    /** The block walk of `GetRange`, over a non-empty range inside the object. */
    method ReadRange(m: Manifest, offset: u64, end: u64, ghost all: Bytes) returns (r: Result<Bytes>)
      requires offset < end <= m.size
      ensures WellFormed(files, m) && Contents(files, m.blocks) == Some(all) ==>
                end <= |all| && r == Ok(all[offset..end])
    {
      ghost var good := WellFormed(files, m) && Contents(files, m.blocks) == Some(all);
      if good { WholeLength(files, m); }
      var out: Bytes := [];
      var pos: u64 := 0;
      for i := 0 to |m.blocks|
        invariant good ==> pos == Length(m.blocks[..i])
        invariant good ==> out == all[offset..Clamp(pos, offset, end)]
      {
        if good { RangeStep(files, m, i, all, offset, end); }
        var b := m.blocks[i];
        var start := pos;
        pos := SaturatingAdd(pos, b.len);
        if pos <= offset {
          continue;
        }
        if start >= end {
          return Ok(out);
        }
        if Block(b) !in files {
          return Err(Corrupt);
        }
        out := out + Piece(files[Block(b)], start, b.len, offset, end);
      }
      assert m.blocks[..|m.blocks|] == m.blocks;
      r := Ok(out);
    }

    method Has(cid: Cid) returns (r: bool)
      ensures r == (cid in manifests)
    {
      r := cid in manifests;
    }

    /** The hashes of the object's blocks, in order. */
    method Blocks(cid: Cid) returns (r: Result<seq<Cid>>)
      ensures cid !in manifests ==> r == Err(NotFound(cid))
      ensures cid in manifests ==>
                r.Ok? && |r.value| == |manifests[cid].blocks| &&
                forall i | 0 <= i < |r.value| :: r.value[i] == manifests[cid].blocks[i].hash
    {
      if cid !in manifests {
        return Err(NotFound(cid));
      }
      var blocks := manifests[cid].blocks;
      return Ok(seq(|blocks|, i requires 0 <= i < |blocks| => blocks[i].hash));
    }

    /** An extant file is left untouched. */
    method WriteBlock(b: Key, bytes: Bytes)
      modifies this`files
      ensures files == if b in old(files) then old(files) else old(files)[b := bytes]
    {
      if b !in files {
        files := files[b := bytes];
      }
    }

    method WriteObject(cid: Cid, m: Manifest)
      modifies this`manifests
      ensures manifests == old(manifests)[cid := m]
    {
      manifests := manifests[cid := m];
    }

    method Remove(cid: Cid)
      modifies this`manifests
      ensures manifests == old(manifests) - {cid}
    {
      manifests := manifests - {cid};
    }

    method RemoveBlock(b: Key)
      modifies this`files
      ensures files == old(files) - {b}
    {
      files := files - {b};
    }
  }
}
