/**
  Values shared by the whole model: blocks, their ERC-20 transfers, checkpoints,
  and the block tree ("world") that the Ethereum node may answer from.
  */
module Chain {
  datatype Option<+T> = None | Some(value: T)
  datatype Result<+T, +E> = Ok(value: T) | Err(error: E)

  type Hash = string
  type Cause = string

  const MAX_U64: nat := 0xFFFF_FFFF_FFFF_FFFF
  const MAX_BIGINT: nat := 0x7FFF_FFFF_FFFF_FFFF
  const MAX_U256: nat := 0xFFFF_FFFF_FFFF_FFFF_FFFF_FFFF_FFFF_FFFF_FFFF_FFFF_FFFF_FFFF_FFFF_FFFF_FFFF_FFFF

  /** Go's uint and uint64. */
  type Uint64 = n: int | 0 <= n <= MAX_U64

  /** A decoded ERC-20 transfer log; `value` is None for a nil pointer. */
  datatype Transfer = Transfer(token: string, sender: string, receiver: string,
                               value: Option<int>, txHash: string, logIndex: Uint64)

  /** Go's unsigned 64-bit arithmetic: the result modulo 2^64. */
  function Wrap(n: int): Uint64 {
    n % (MAX_U64 + 1)
  }

  /** Go's conversion of an unsigned number to int64, the type of the signed columns. */
  function AsInt64(n: int): (r: int)
    ensures 0 <= n <= MAX_U64 ==> -0x8000_0000_0000_0000 <= r <= MAX_BIGINT && (r - n) % (MAX_U64 + 1) == 0
  {
    if n <= MAX_BIGINT then n else n - (MAX_U64 + 1)
  }

  /** What GetObservedBlockByNumber yields. */
  datatype Header = Header(number: nat, hash: Hash, parent: Hash)

  /** An indexed block: the header plus the logs fetched for its hash. */
  datatype Block = Block(number: nat, hash: Hash, parent: Hash, transfers: seq<Transfer>) {
    function Head(): Header {
      Header(number, hash, parent)
    }
  }

  function Assemble(h: Header, transfers: seq<Transfer>): Block {
    Block(h.number, h.hash, h.parent, transfers)
  }

  datatype Checkpoint = Checkpoint(number: nat, hash: Hash)

  /** Every block that may ever be mined, on any fork. */
  type World = iset<Block>

  ghost predicate Follows(a: Block, b: Block) {
    b.number == a.number + 1 && b.parent == a.hash
  }

  ghost predicate LinkAt(p: seq<Block>, i: nat)
    requires 0 < i < |p|
  {
    Follows(p[i - 1], p[i])
  }

  ghost predicate Linked(p: seq<Block>) {
    forall i :: 0 < i < |p| ==> LinkAt(p, i)
  }

  /** A stretch of one chain of the world. */
  ghost predicate Path(w: World, p: seq<Block>) {
    Linked(p) && forall i :: 0 <= i < |p| ==> p[i] in w
  }

  ghost predicate DistinctLogs(b: Block) {
    forall i, j :: 0 <= i < j < |b.transfers| ==> b.transfers[i].logIndex != b.transfers[j].logIndex
  }

  ghost predicate NoSharedTransaction(a: Block, b: Block) {
    forall x, y :: 0 <= x < |a.transfers| && 0 <= y < |b.transfers| ==>
      a.transfers[x].txHash != b.transfers[y].txHash
  }

  ghost predicate DisjointTransactions(p: seq<Block>) {
    forall i, j :: 0 <= i < j < |p| ==> NoSharedTransaction(p[i], p[j])
  }

  ghost predicate CollisionFree(w: World) {
    forall a, b :: a in w && b in w && a.hash == b.hash ==> a == b
  }

  /**
    What the protocol may rely on: hashes are never empty and identify a block with its
    parent and logs, log indexes are unique inside a block, and a transaction is mined at
    most once along any one chain.
    */
  ghost predicate WellFormed(w: World) {
    && CollisionFree(w)
    && (forall b :: b in w ==> b.hash != "" && b.parent != "" && DistinctLogs(b))
    && (forall p :: Path(w, p) ==> DisjointTransactions(p))
  }

  /** A whole chain, from block zero up to its head. */
  ghost predicate Canonical(w: World, chain: seq<Block>) {
    Path(w, chain) && chain != [] && chain[0].number == 0
  }

  lemma {:induction false} LinkedNumbers(p: seq<Block>, i: nat)
    requires Linked(p) && i < |p|
    ensures p[i].number == p[0].number + i
  {
    if i > 0 {
      LinkedNumbers(p, i - 1);
      assert LinkAt(p, i);
    }
  }

  lemma LinkedExtend(w: World, p: seq<Block>, b: Block)
    requires Path(w, p) && b in w
    requires p != [] ==> Follows(p[|p| - 1], b)
    ensures Path(w, p + [b])
  {
    var q := p + [b];
    forall i | 0 < i < |q| ensures LinkAt(q, i) {
      assert i < |p| ==> LinkAt(p, i);
    }
  }

  lemma LinkedSlice(p: seq<Block>, lo: nat, hi: nat)
    requires Linked(p) && lo <= hi <= |p|
    ensures Linked(p[lo..hi]) && (lo == 0 ==> p[lo..hi] == p[..hi])
  {
    var q := p[lo..hi];
    forall i | 0 < i < |q| ensures LinkAt(q, i) {
      assert LinkAt(p, lo + i);
    }
  }

  /** Agreement of two chains at one block is downward closed. */
  lemma {:induction false} AgreementIsDownwardClosed(w: World, p: seq<Block>, i: nat, q: seq<Block>, j: nat, k: nat)
    requires CollisionFree(w) && Path(w, p) && Path(w, q)
    requires i < |p| && j < |q| && k <= i && k <= j
    requires p[i].hash == q[j].hash
    ensures p[i - k] == q[j - k]
  {
    assert p[i] == q[j];
    if k > 0 {
      assert LinkAt(p, i) && LinkAt(q, j);
      AgreementIsDownwardClosed(w, p, i - 1, q, j - 1, k - 1);
    }
  }
}
