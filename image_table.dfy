/** The image de-duplication table of src/compat/compat-qxl_image.c as values: the row hash
    computed by `hash_and_copy`, the chains of `image_info_t` nodes hanging off the 4096 buckets,
    the search `lookup_image_info` makes in one chain, and the unlinking `remove_image_info`
    performs.  The table itself (an array of chains) lives in `Screen.Screen`. */
module ImageTable {
  import opened Protocol
  import opened Memory

  /** `HASH_SIZE`: the number of buckets. */
  const HASH_SIZE: nat := 4096

  /** The bucket of a hash: `hash % HASH_SIZE`. */
  function Bucket(hash: int): (b: nat)
    requires hash >= 0
    ensures b < HASH_SIZE && (hash - b) % HASH_SIZE == 0
  {
    hash % HASH_SIZE
  }

  /** An `image_info_t` node: the image it caches and its reference count.  A node is told apart
      from the others of its chain by the image it holds. */
  datatype ImageInfo = ImageInfo(image: u64, refCount: int)

  /** What the table compares: descriptor id, width and height. */
  datatype Key = Key(id: u64, width: u32, height: u32)

  function KeyOfImage(img: Image): Key
  {
    Key(img.id, img.width, img.height)
  }

  /** The key of the image record at address `a`, if `a` holds an image. */
  function KeyAt(blocks: map<u64, Block>, a: u64): Option<Key>
  {
    if a in blocks && blocks[a].rec.ImageRec? then Some(KeyOfImage(blocks[a].rec.image)) else None
  }

  predicate Matches(blocks: map<u64, Block>, e: ImageInfo, k: Key)
  {
    KeyAt(blocks, e.image) == Some(k)
  }

  /** `lookup_image_info` within one chain: the position of the first node whose image has key
      `k`, or `None` when no node has. */
  function LookupChain(chain: seq<ImageInfo>, blocks: map<u64, Block>, k: Key): (r: Option<nat>)
    ensures r.Some? ==> r.value < |chain| && Matches(blocks, chain[r.value], k)
    ensures r.Some? ==> forall j :: 0 <= j < r.value ==> !Matches(blocks, chain[j], k)
    ensures r.None? <==> forall j :: 0 <= j < |chain| ==> !Matches(blocks, chain[j], k)
    decreases |chain|
  {
    if chain == [] then None
    else if Matches(blocks, chain[0], k) then Some(0)
    else
      match LookupChain(chain[1..], blocks, k)
      case None => None
      case Some(i) => Some(i + 1)
  }

  /** The position of the first node holding image `x`. */
  function FirstIndex(chain: seq<ImageInfo>, x: u64): (r: Option<nat>)
    ensures r.Some? ==> r.value < |chain| && chain[r.value].image == x
    ensures r.Some? ==> forall j :: 0 <= j < r.value ==> chain[j].image != x
    ensures r.None? <==> forall j :: 0 <= j < |chain| ==> chain[j].image != x
    decreases |chain|
  {
    if chain == [] then None
    else if chain[0].image == x then Some(0)
    else
      match FirstIndex(chain[1..], x)
      case None => None
      case Some(i) => Some(i + 1)
  }

  /** `remove_image_info`'s walk: the chain with its first node holding `x` taken out. */
  function Unlink(chain: seq<ImageInfo>, x: u64): seq<ImageInfo>
    decreases |chain|
  {
    if chain == [] then []
    else if chain[0].image == x then chain[1..]
    else [chain[0]] + Unlink(chain[1..], x)
  }

  /** Unlinking removes exactly the first node holding `x` and keeps the others in order; a chain
      without such a node is left as it is. */
  lemma UnlinkAt(chain: seq<ImageInfo>, x: u64)
    ensures FirstIndex(chain, x).None? ==> Unlink(chain, x) == chain
    ensures FirstIndex(chain, x).Some? ==>
              var k := FirstIndex(chain, x).value;
              Unlink(chain, x) == chain[..k] + chain[k + 1..]
  {
    match FirstIndex(chain, x)
    case None => UnlinkMissing(chain, x);
    case Some(k) => UnlinkFound(chain, x, k);
  }

  lemma {:induction false} UnlinkMissing(chain: seq<ImageInfo>, x: u64)
    requires forall j :: 0 <= j < |chain| ==> chain[j].image != x
    ensures Unlink(chain, x) == chain
    decreases |chain|
  {
    if chain != [] {
      UnlinkMissing(chain[1..], x);
    }
  }

  lemma {:induction false} UnlinkFound(chain: seq<ImageInfo>, x: u64, k: nat)
    requires k < |chain| && chain[k].image == x
    requires forall j :: 0 <= j < k ==> chain[j].image != x
    ensures Unlink(chain, x) == chain[..k] + chain[k + 1..]
    decreases k
  {
    if k == 0 {
      assert chain[..0] + chain[1..] == chain[1..];
    } else {
      var tail := chain[1..];
      assert tail[k - 1] == chain[k];
      UnlinkFound(tail, x, k - 1);
      SpliceCons(chain, k);
    }
  }

  /** Splicing out position `k > 0` commutes with taking the head off. */
  lemma SpliceCons(chain: seq<ImageInfo>, k: nat)
    requires 0 < k < |chain|
    ensures [chain[0]] + (chain[1..][..k - 1] + chain[1..][k..]) == chain[..k] + chain[k + 1..]
  {
    assert [chain[0]] + chain[1..][..k - 1] == chain[..k];
    assert chain[1..][k..] == chain[k + 1..];
  }

  /** Linking a node at the head of a chain and then unlinking it gives the chain back. */
  lemma {:induction false} UnlinkUndoesInsert(chain: seq<ImageInfo>, e: ImageInfo)
    requires FirstIndex(chain, e.image).None?
    ensures Unlink([e] + chain, e.image) == chain
    ensures Unlink(chain, e.image) == chain
  {
    UnlinkAt(chain, e.image);
    assert ([e] + chain)[1..] == chain;
  }

  /* The table invariant: every node of bucket b caches a live image whose descriptor says it is
     cached under a 32-bit id that falls into bucket b, the node's count is positive, and no two
     nodes of a chain hold images with the same key. */

  ghost predicate EntryOk(blocks: map<u64, Block>, b: nat, e: ImageInfo)
  {
    && e.refCount >= 1
    && e.image in blocks && blocks[e.image].rec.ImageRec?
    && var img := blocks[e.image].rec.image;
       img.id < 0x1_0000_0000 && Bucket(img.id) == b && img.flags == QXL_IMAGE_CACHE
  }

  ghost predicate ChainOk(blocks: map<u64, Block>, b: nat, chain: seq<ImageInfo>)
  {
    && (forall k :: 0 <= k < |chain| ==> EntryOk(blocks, b, chain[k]))
    && (forall i, j :: 0 <= i < j < |chain| ==> KeyAt(blocks, chain[i].image) != KeyAt(blocks, chain[j].image))
  }

  ghost predicate TableOk(t: seq<seq<ImageInfo>>, blocks: map<u64, Block>)
  {
    |t| == HASH_SIZE && forall b :: 0 <= b < HASH_SIZE ==> ChainOk(blocks, b, t[b])
  }

  /** `a` is the image of some node of the table. */
  ghost predicate InTable(t: seq<seq<ImageInfo>>, a: u64)
  {
    exists b, k :: 0 <= b < |t| && 0 <= k < |t[b]| && t[b][k].image == a
  }

  /** In a well-formed chain the lookup of a node's own key finds that very node. */
  lemma LookupFindsOwnNode(blocks: map<u64, Block>, b: nat, chain: seq<ImageInfo>, k: nat)
    requires ChainOk(blocks, b, chain) && k < |chain|
    ensures KeyAt(blocks, chain[k].image).Some?
    ensures LookupChain(chain, blocks, KeyAt(blocks, chain[k].image).value) == Some(k)
  {
    var key := KeyAt(blocks, chain[k].image).value;
    var r := LookupChain(chain, blocks, key);
    assert Matches(blocks, chain[k], key);
  }

  /** Well-formedness of a chain depends only on the blocks its nodes name. */
  lemma ChainOkFrame(blocks: map<u64, Block>, blocks': map<u64, Block>, b: nat, chain: seq<ImageInfo>)
    requires ChainOk(blocks, b, chain)
    requires forall k :: 0 <= k < |chain| ==> chain[k].image in blocks' && blocks'[chain[k].image] == blocks[chain[k].image]
    ensures ChainOk(blocks', b, chain)
  {
    forall k | 0 <= k < |chain|
      ensures KeyAt(blocks', chain[k].image) == KeyAt(blocks, chain[k].image)
    {
    }
  }

  /** Well-formedness of the table depends only on the blocks its nodes name. */
  lemma TableOkFrame(t: seq<seq<ImageInfo>>, blocks: map<u64, Block>, blocks': map<u64, Block>)
    requires TableOk(t, blocks)
    requires forall a :: InTable(t, a) ==> a in blocks' && blocks'[a] == blocks[a]
    ensures TableOk(t, blocks')
  {
    forall b | 0 <= b < HASH_SIZE
      ensures ChainOk(blocks', b, t[b])
    {
      forall k | 0 <= k < |t[b]|
        ensures t[b][k].image in blocks' && blocks'[t[b][k].image] == blocks[t[b][k].image]
      {
        assert InTable(t, t[b][k].image);
      }
      ChainOkFrame(blocks, blocks', b, t[b]);
    }
  }

  /** Taking one node out of a well-formed chain leaves it well-formed. */
  lemma ChainOkRemove(blocks: map<u64, Block>, b: nat, chain: seq<ImageInfo>, k: nat)
    requires ChainOk(blocks, b, chain) && k < |chain|
    ensures ChainOk(blocks, b, chain[..k] + chain[k + 1..])
  {
    var c := chain[..k] + chain[k + 1..];
    assert forall i :: 0 <= i < |c| ==> c[i] == chain[if i < k then i else i + 1];
  }

  /** Changing one node's count to another positive value keeps the chain well-formed. */
  lemma ChainOkRecount(blocks: map<u64, Block>, b: nat, chain: seq<ImageInfo>, k: nat, n: int)
    requires ChainOk(blocks, b, chain) && k < |chain| && n >= 1
    ensures ChainOk(blocks, b, chain[k := chain[k].(refCount := n)])
  {
  }

  /** Linking a node for a well-formed image whose key the chain does not hold keeps it well-formed. */
  lemma ChainOkInsert(blocks: map<u64, Block>, b: nat, chain: seq<ImageInfo>, e: ImageInfo)
    requires ChainOk(blocks, b, chain) && EntryOk(blocks, b, e)
    requires LookupChain(chain, blocks, KeyAt(blocks, e.image).value).None?
    ensures ChainOk(blocks, b, [e] + chain)
  {
    var c := [e] + chain;
    var key := KeyAt(blocks, e.image).value;
    forall i, j | 0 <= i < j < |c|
      ensures KeyAt(blocks, c[i].image) != KeyAt(blocks, c[j].image)
    {
      if i == 0 {
        assert c[j] == chain[j - 1];
        assert !Matches(blocks, chain[j - 1], key);
      } else {
        assert c[i] == chain[i - 1] && c[j] == chain[j - 1];
      }
    }
  }

  /* Row hashing (`hash_and_copy`).  `compat_hashlittle` (Jenkins' lookup3, not part of this
     model) is a parameter: any function of the bytes of a row and the running hash. */

  type RowHash = (seq<u8>, u32) -> u32

  /** The bytes of one row: `width * bytes_per_pixel`. */
  function RowBytes(width: nat, bytesPerPixel: nat): nat
  {
    width * bytesPerPixel
  }

  /** Offset of row `i` of a rectangle that starts at `offset` with `stride` bytes per line. */
  function RowStart(offset: nat, stride: nat, i: nat): nat
  {
    offset + i * stride
  }

  /** Every row of `n` bytes of an `h`-row rectangle lies inside a buffer of `len` bytes: as the
      rows only move forward, it is enough that the last one does. */
  predicate RowsInBounds(len: nat, offset: nat, stride: nat, n: nat, h: nat)
  {
    h == 0 || RowStart(offset, stride, h - 1) + n <= len
  }

  /** The first `h` rows of the rectangle, in row order. */
  function Rows(src: seq<u8>, offset: nat, stride: nat, n: nat, h: nat): (rows: seq<seq<u8>>)
    requires RowsInBounds(|src|, offset, stride, n, h)
    ensures |rows| == h
    decreases h
  {
    if h == 0 then []
    else Rows(src, offset, stride, n, h - 1) + [src[RowStart(offset, stride, h - 1)..RowStart(offset, stride, h - 1) + n]]
  }

  /** Row `i` is the `n` bytes at `offset + i * stride`. */
  lemma {:induction false} RowAt(src: seq<u8>, offset: nat, stride: nat, n: nat, h: nat, i: nat)
    requires RowsInBounds(|src|, offset, stride, n, h) && i < h
    ensures RowStart(offset, stride, i) + n <= |src|
    ensures Rows(src, offset, stride, n, h)[i] == src[RowStart(offset, stride, i)..RowStart(offset, stride, i) + n]
    decreases h
  {
    if i < h - 1 {
      RowAt(src, offset, stride, n, h - 1, i);
    }
  }

  /** The hash of a sequence of rows: starting from 0, each row in order is hashed with the
      running hash as its seed. */
  function HashOf(hash: RowHash, rows: seq<seq<u8>>): u32
    decreases |rows|
  {
    if rows == [] then 0 else hash(rows[|rows| - 1], HashOf(hash, rows[..|rows| - 1]))
  }

  /** The rows laid end to end, as they are copied into a chunk whose stride is the row length. */
  function Flatten(rows: seq<seq<u8>>): seq<u8>
    decreases |rows|
  {
    if rows == [] then [] else Flatten(rows[..|rows| - 1]) + rows[|rows| - 1]
  }

  /** The copy holds byte `j` of row `i` at `i * n + j`. */
  lemma {:induction false} FlattenAt(rows: seq<seq<u8>>, n: nat, i: nat, j: nat)
    requires forall r :: 0 <= r < |rows| ==> |rows[r]| == n
    requires i < |rows| && j < n
    ensures |Flatten(rows)| == |rows| * n
    ensures i * n + j < |Flatten(rows)| && Flatten(rows)[i * n + j] == rows[i][j]
    decreases |rows|
  {
    var last := |rows| - 1;
    var init := rows[..last];
    FlattenLength(init, n);
    assert |Flatten(rows)| == |rows| * n by {
      assert |Flatten(rows)| == last * n + n;
      MulSucc(last, n);
    }
    if i < last {
      FlattenAt(init, n, i, j);
      MulMono(i, last, n);
    } else {
      assert Flatten(rows) == Flatten(init) + rows[last];
    }
  }

  lemma {:induction false} FlattenLength(rows: seq<seq<u8>>, n: nat)
    requires forall r :: 0 <= r < |rows| ==> |rows[r]| == n
    ensures |Flatten(rows)| == |rows| * n
    decreases |rows|
  {
    if rows != [] {
      FlattenLength(rows[..|rows| - 1], n);
      MulSucc(|rows| - 1, n);
    }
  }

  lemma MulSucc(a: nat, n: nat)
    ensures a * n + n == (a + 1) * n
  {
  }

  /** Row `i` ends no later than row `i + 1` starts when the rows are `n` bytes apart. */
  lemma MulMono(i: nat, k: nat, n: nat)
    requires i < k
    ensures i * n + n <= k * n
  {
    MulSucc(i, n);
    assert (i + 1) * n <= k * n;
  }

  /** Byte `j` of row `i` of the copy made by `hash_and_copy` is the source byte at
      `offset + i * stride + j`: the copy is faithful. */
  lemma CopiedByteAt(src: seq<u8>, offset: nat, stride: nat, n: nat, h: nat, i: nat, j: nat)
    requires RowsInBounds(|src|, offset, stride, n, h)
    requires i < h && j < n
    ensures |Flatten(Rows(src, offset, stride, n, h))| == h * n
    ensures i * n + j < h * n
    ensures RowStart(offset, stride, i) + j < |src|
    ensures Flatten(Rows(src, offset, stride, n, h))[i * n + j] == src[RowStart(offset, stride, i) + j]
  {
    RowInBounds(|src|, offset, stride, n, h, i);
    var rows := Rows(src, offset, stride, n, h);
    forall r | 0 <= r < h
      ensures |rows[r]| == n
    {
      RowAt(src, offset, stride, n, h, r);
    }
    FlattenAt(rows, n, i, j);
    RowAt(src, offset, stride, n, h, i);
  }

  /** Rows are in bounds up to the last one. */
  lemma RowInBounds(len: nat, offset: nat, stride: nat, n: nat, h: nat, i: nat)
    requires RowsInBounds(len, offset, stride, n, h) && i < h
    ensures RowStart(offset, stride, i) + n <= len
    ensures RowsInBounds(len, offset, stride, n, i)
  {
    MulLe(i, h - 1, stride);
    if i > 0 {
      MulLe(i - 1, h - 1, stride);
    }
  }

  lemma MulLe(i: nat, k: nat, s: nat)
    requires i <= k
    ensures i * s <= k * s
  {
    if i < k {
      MulMono(i, k, s);
    }
  }

  /** What `hash_and_copy` holds after `i` rows: the hash of those rows and, when copying,
      their bytes end to end. */
  ghost predicate HashedUpTo(hash: RowHash, src: seq<u8>, offset: nat, stride: nat, n: nat, copy: bool,
                             i: nat, h: u32, dest: seq<u8>)
  {
    && RowsInBounds(|src|, offset, stride, n, i)
    && h == HashOf(hash, Rows(src, offset, stride, n, i))
    && (copy ==> dest == Flatten(Rows(src, offset, stride, n, i)))
    && (!copy ==> dest == [])
  }

  /** One more row: the rows grow by that row, the hash by one step, the copy by its bytes. */
  lemma RowsStep(hash: RowHash, src: seq<u8>, offset: nat, stride: nat, n: nat, copy: bool,
                 height: nat, i: nat, h: u32, dest: seq<u8>)
    requires RowsInBounds(|src|, offset, stride, n, height) && i < height
    requires HashedUpTo(hash, src, offset, stride, n, copy, i, h, dest)
    ensures RowStart(offset, stride, i) + n <= |src|
    ensures var line := src[RowStart(offset, stride, i)..RowStart(offset, stride, i) + n];
            HashedUpTo(hash, src, offset, stride, n, copy, i + 1, hash(line, h), if copy then dest + line else dest)
  {
    RowInBounds(|src|, offset, stride, n, height, i);
    var before := Rows(src, offset, stride, n, i);
    var after := Rows(src, offset, stride, n, i + 1);
    assert after[..i] == before;
  }

  /** `hash_and_copy`: folds the row hash over rows 0 .. height-1 in order, each
      `width * bytes_per_pixel` bytes at `offset + i * stride`, and copies the rows end to end
      when a destination is given (`copy`). */
  method HashAndCopy(hash: RowHash, src: seq<u8>, offset: nat, stride: nat, copy: bool,
                     bytesPerPixel: nat, width: nat, height: nat)
    returns (h: u32, dest: seq<u8>)
    requires RowsInBounds(|src|, offset, stride, width * bytesPerPixel, height)
    ensures h == HashOf(hash, Rows(src, offset, stride, width * bytesPerPixel, height))
    ensures copy ==> dest == Flatten(Rows(src, offset, stride, width * bytesPerPixel, height))
    ensures !copy ==> dest == []
  {
    h, dest := HashRows(hash, src, offset, stride, copy, width * bytesPerPixel, height);
  }

  /** The loop of `hash_and_copy`, over rows of `n` bytes. */
  method HashRows(hash: RowHash, src: seq<u8>, offset: nat, stride: nat, copy: bool, n: nat, height: nat)
    returns (h: u32, dest: seq<u8>)
    requires RowsInBounds(|src|, offset, stride, n, height)
    ensures h == HashOf(hash, Rows(src, offset, stride, n, height))
    ensures copy ==> dest == Flatten(Rows(src, offset, stride, n, height))
    ensures !copy ==> dest == []
  {
    h := 0;
    dest := [];
    var i := 0;
    while i < height
      invariant i <= height
      invariant HashedUpTo(hash, src, offset, stride, n, copy, i, h, dest)
    {
      RowsStep(hash, src, offset, stride, n, copy, height, i, h, dest);
      var start := RowStart(offset, stride, i);
      var line := src[start..start + n];
      if copy {
        dest := dest + line;
      }
      h := hash(line, h);
      i := i + 1;
    }
    assert i == height;
  }
}
