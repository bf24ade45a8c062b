/** Host-side collaborators of an inventory transaction result: item stacks,
    their snapshots, the record of one slot change, and the slots themselves.
    Their real behaviour lives in the server implementation; here they are
    plain values with just the operations the result and its builder call. */
module Items {

  /** What a stack holds; `NoItem` stands for the host's "no item" type. */
  datatype ItemKind = NoItem | Kind(id: nat)

  /** A live item stack (in the host a mutable object, here a value). */
  datatype ItemStack = ItemStack(kind: ItemKind, quantity: nat) {

    /** The host's notion of "this stack holds nothing". */
    predicate IsEmpty() {
      kind == NoItem || quantity == 0
    }

    /** Captures the stack's current state as an immutable snapshot. */
    function CreateSnapshot(): (s: ItemStackSnapshot)
      ensures s.IsEmpty() <==> IsEmpty()
    {
      ItemStackSnapshot(kind, quantity)
    }
  }

  /** An immutable point-in-time capture of an item stack. */
  datatype ItemStackSnapshot = ItemStackSnapshot(kind: ItemKind, quantity: nat) {

    predicate IsEmpty() {
      kind == NoItem || quantity == 0
    }

    /** Materialises a fresh live stack from the snapshot. */
    function CreateStack(): (s: ItemStack)
      ensures s.IsEmpty() <==> IsEmpty()
    {
      ItemStack(kind, quantity)
    }
  }

  /** Snapshot and stack conversions undo each other. */
  lemma SnapshotRoundTrip(stack: ItemStack, snapshot: ItemStackSnapshot)
    ensures stack.CreateSnapshot().CreateStack() == stack
    ensures snapshot.CreateStack().CreateSnapshot() == snapshot
  {
  }

  /** A slot is identified by its position in the host's inventory. */
  type SlotId = nat

  /** One slot change: the slot it happened on and the item it held before. */
  datatype SlotTransaction = SlotTransaction(slot: SlotId, original: ItemStackSnapshot)

  /** One call of the host's `Slot.set`. */
  datatype SlotWrite = SlotWrite(slot: SlotId, stack: ItemStack)

  /** The slot contents after performing the writes `ws` in order on `store`. */
  function ApplyWrites(store: map<SlotId, ItemStack>, ws: seq<SlotWrite>): map<SlotId, ItemStack>
    decreases |ws|
  {
    if ws == [] then store else ApplyWrites(store[ws[0].slot := ws[0].stack], ws[1..])
  }

  /** Performing one more write updates the slot it names and nothing else. */
  lemma {:induction false} ApplyWritesAppend(store: map<SlotId, ItemStack>, ws: seq<SlotWrite>, w: SlotWrite)
    ensures ApplyWrites(store, ws + [w]) == ApplyWrites(store, ws)[w.slot := w.stack]
    decreases |ws|
  {
    if ws == [] {
      assert [] + [w] == [w];
      assert [w][1..] == [];
    } else {
      assert (ws + [w])[0] == ws[0];
      assert (ws + [w])[1..] == ws[1..] + [w];
      ApplyWritesAppend(store[ws[0].slot := ws[0].stack], ws[1..], w);
    }
  }

  /** The host's slots, as a store from slot to stack. `writes` logs every
      `Slot.set` call in order, so the order of writes can be stated. */
  class SlotStore {
    var items: map<SlotId, ItemStack>
    ghost var writes: seq<SlotWrite>
    ghost const initial: map<SlotId, ItemStack>

    /** The store is its initial contents with the logged writes applied. */
    ghost predicate Valid()
      reads this
    {
      items == ApplyWrites(initial, writes)
    }

    constructor (contents: map<SlotId, ItemStack>)
      ensures Valid()
      ensures items == contents && initial == contents && writes == []
    {
      items := contents;
      initial := contents;
      writes := [];
    }

    /** `Slot.set(stack)`: the slot now holds `stack`. */
    method Set(slot: SlotId, stack: ItemStack)
      requires Valid()
      modifies this
      ensures Valid()
      ensures items == old(items)[slot := stack]
      ensures writes == old(writes) + [SlotWrite(slot, stack)]
    {
      ApplyWritesAppend(initial, writes, SlotWrite(slot, stack));
      items := items[slot := stack];
      writes := writes + [SlotWrite(slot, stack)];
    }
  }
}
