/** The lazily allocated blocks of sixteen permission slots (PermissionManager.h, lines 876-966). */
module BlockStore {
  import opened PermissionData
  import opened PermissionSpec
  import opened Options

  type Block = b: seq<PermissionContainer> | |b| == BLOCK_SIZE witness seq(BLOCK_SIZE, _ => EMPTY_CONTAINER)

  function BlockCount(idMax: nat): nat {
    idMax / BLOCK_SIZE + if idMax % BLOCK_SIZE == 0 then 0 else 1
  }

  function BlockOf(p: nat): nat {
    p / BLOCK_SIZE
  }

  function BlockIndex(p: nat): (i: nat)
    ensures i < BLOCK_SIZE
  {
    p % BLOCK_SIZE
  }

  /** Block number and index determine the permission, and every pair is one. */
  lemma BlockBijection(p: nat, b: nat, i: nat)
    requires i < BLOCK_SIZE
    ensures (BlockOf(p) == b && BlockIndex(p) == i) <==> p == BLOCK_SIZE * b + i
    ensures forall idMax: nat :: p < idMax ==> BlockOf(p) < BlockCount(idMax)
  {
  }

  /** The shift and the mask of the source are this division. */
  lemma ShiftAndMask(p: bv16)
    ensures p >> 4 == p / 16
    ensures p & (!(1 << 4) & ((1 << 4) - 1)) == p % 16
  {
  }

  ghost predicate WellFormed(bs: seq<Option<Block>>, idMax: nat) {
    && |bs| == BlockCount(idMax)
    && forall p: nat :: idMax <= p && BlockOf(p) < |bs| ==> SlotAt(bs, p) == EMPTY_CONTAINER
  }

  function SlotAt(bs: seq<Option<Block>>, p: nat): PermissionContainer
    requires BlockOf(p) < |bs|
  {
    match bs[BlockOf(p)]
    case None => EMPTY_CONTAINER
    case Some(b) => b[BlockIndex(p)]
  }

  /** The slots that the blocks represent. */
  function SlotsOf(bs: seq<Option<Block>>, idMax: nat): (slots: seq<PermissionContainer>)
    requires |bs| == BlockCount(idMax)
    ensures |slots| == idMax
    ensures forall p: nat :: p < idMax ==> BlockOf(p) < |bs| && slots[p] == SlotAt(bs, p)
  {
    assert forall p: nat :: p < idMax ==> BlockOf(p) < |bs|;
    seq(idMax, p requires 0 <= p < idMax => SlotAt(bs, p))
  }

  /** Allocating a missing block changes nothing that can be seen. */
  lemma AllocateInvisible(bs: seq<Option<Block>>, idMax: nat, b: nat)
    requires WellFormed(bs, idMax) && b < |bs| && bs[b].None?
    ensures var bs' := bs[b := Some(seq(BLOCK_SIZE, _ => EMPTY_CONTAINER))];
            WellFormed(bs', idMax) && SlotsOf(bs', idMax) == SlotsOf(bs, idMax)
  {
    var bs' := bs[b := Some(seq(BLOCK_SIZE, _ => EMPTY_CONTAINER))];
    forall p: nat | BlockOf(p) < |bs| ensures SlotAt(bs', p) == SlotAt(bs, p) {
    }
  }

  /** Writing one slot of an allocated block changes exactly that permission. */
  lemma WriteSlot(bs: seq<Option<Block>>, idMax: nat, p: nat, c: PermissionContainer)
    requires WellFormed(bs, idMax) && p < idMax && BlockOf(p) < |bs| && bs[BlockOf(p)].Some?
    ensures var bs' := bs[BlockOf(p) := Some(bs[BlockOf(p)].value[BlockIndex(p) := c])];
            WellFormed(bs', idMax) && SlotsOf(bs', idMax) == SlotsOf(bs, idMax)[p := c]
  {
    var bs' := bs[BlockOf(p) := Some(bs[BlockOf(p)].value[BlockIndex(p) := c])];
    forall q: nat | BlockOf(q) < |bs| ensures SlotAt(bs', q) == if q == p then c else SlotAt(bs, q) {
      BlockBijection(q, BlockOf(p), BlockIndex(p));
      BlockBijection(p, BlockOf(p), BlockIndex(p));
    }
  }
}
