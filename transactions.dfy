/** The immutable outcome of an inventory operation: its outcome type, the
    items the target inventory rejected, and the slot changes it applied;
    how two outcomes merge, and how the slot changes are undone. */
module Transactions {
  import opened Items

  /** The outcome classification. `Failure` is an expected refusal (full
      inventory, vetoed move); `Error` an unexpected one that leaves the
      inventory undefined. */
  datatype Type = Success | Failure | Error

  function Max(a: nat, b: nat): nat {
    if a < b then b else a
  }

  /** Priority of a type in a merge: the higher rank wins. */
  function Rank(t: Type): nat {
    match t
    case Success => 0
    case Error => 1
    case Failure => 2
  }

  /** The type `and` computes: it starts at `Success`, moves to `Error` when
      either side is `Error`, and then to `Failure` when either side is
      `Failure`, so `Failure` overrides `Error`. */
  function MergeType(a: Type, b: Type): (t: Type)
    ensures Rank(t) == Max(Rank(a), Rank(b))
    ensures t == a || t == b
  {
    var afterError := if a == Error || b == Error then Error else Success;
    if a == Failure || b == Failure then Failure else afterError
  }

  /** The precedence the documentation of `and` announces: the first of
      `Error`, `Failure`, `Success` that occurs. */
  function DocumentedMergeType(a: Type, b: Type): (t: Type)
    ensures t == Error <==> (a == Error || b == Error)
    ensures t == Failure <==> (a != Error && b != Error && (a == Failure || b == Failure))
  {
    if a == Error || b == Error then Error
    else if a == Failure || b == Failure then Failure
    else Success
  }

  /** Either side being `Failure` makes the merge `Failure`; otherwise
      `Error` on either side makes it `Error`; otherwise it is `Success`. */
  lemma MergeTypeCases(a: Type, b: Type)
    ensures MergeType(a, b) == Failure <==> (a == Failure || b == Failure)
    ensures MergeType(a, b) == Error <==> (a != Failure && b != Failure && (a == Error || b == Error))
    ensures MergeType(a, b) == Success <==> (a == Success && b == Success)
  {
  }

  lemma MergeTypeCommutative(a: Type, b: Type)
    ensures MergeType(a, b) == MergeType(b, a)
  {
  }

  lemma MergeTypeAssociative(a: Type, b: Type, c: Type)
    ensures MergeType(MergeType(a, b), c) == MergeType(a, MergeType(b, c))
  {
  }

  /** The code and its documentation disagree exactly when one side is
      `Error` and the other `Failure`. */
  lemma MergeTypeAgreesWithDocumentation(a: Type, b: Type)
    ensures MergeType(a, b) != DocumentedMergeType(a, b) <==>
            ((a == Error && b == Failure) || (a == Failure && b == Error))
  {
  }

  /** The announced "Error takes precedence over Failure" is not met. */
  lemma DocumentedPrecedenceNotMet()
    ensures DocumentedMergeType(Error, Failure) == Error
    ensures MergeType(Error, Failure) == Failure
  {
  }

  /** No snapshot in `s` is empty. */
  predicate NoneEmpty(s: seq<ItemStackSnapshot>) {
    forall i :: 0 <= i < |s| ==> !s[i].IsEmpty()
  }

  lemma NoneEmptyConcat(a: seq<ItemStackSnapshot>, b: seq<ItemStackSnapshot>)
    ensures NoneEmpty(a + b) <==> NoneEmpty(a) && NoneEmpty(b)
  {
    if NoneEmpty(a) && NoneEmpty(b) {
      forall i | 0 <= i < |a + b| ensures !(a + b)[i].IsEmpty() {
        if i >= |a| { assert (a + b)[i] == b[i - |a|]; }
      }
    }
    if NoneEmpty(a + b) {
      forall i | 0 <= i < |a| ensures !a[i].IsEmpty() {
        assert (a + b)[i] == a[i];
      }
      forall i | 0 <= i < |b| ensures !b[i].IsEmpty() {
        assert (a + b)[|a| + i] == b[i];
      }
    }
  }

  /** The non-empty snapshots of `s`, in their order: what `reject` keeps. */
  function NonEmpty(s: seq<ItemStackSnapshot>): (r: seq<ItemStackSnapshot>)
    ensures NoneEmpty(r)
    ensures |r| <= |s|
  {
    if s == [] then []
    else
      var rest := NonEmpty(s[1..]);
      NoneEmptyConcat(if s[0].IsEmpty() then [] else [s[0]], rest);
      (if s[0].IsEmpty() then [] else [s[0]]) + rest
  }

  /** Filtering distributes over concatenation: in particular, rejecting two
      lists in two calls keeps what one call on their concatenation keeps. */
  lemma {:induction false} NonEmptyAppend(a: seq<ItemStackSnapshot>, b: seq<ItemStackSnapshot>)
    ensures NonEmpty(a + b) == NonEmpty(a) + NonEmpty(b)
  {
    if a == [] {
      assert a + b == b;
    } else {
      var head := if a[0].IsEmpty() then [] else [a[0]];
      assert (a + b)[0] == a[0];
      assert (a + b)[1..] == a[1..] + b;
      assert NonEmpty(a + b) == head + NonEmpty(a[1..] + b);
      assert NonEmpty(a) == head + NonEmpty(a[1..]);
      NonEmptyAppend(a[1..], b);
      assert head + (NonEmpty(a[1..]) + NonEmpty(b)) == (head + NonEmpty(a[1..])) + NonEmpty(b);
    }
  }

  /** Filtering keeps a list unchanged exactly when it holds no empty item. */
  lemma {:induction false} NonEmptyIdentity(s: seq<ItemStackSnapshot>)
    ensures NonEmpty(s) == s <==> NoneEmpty(s)
  {
    if s != [] && NoneEmpty(s) {
      assert NoneEmpty(s[1..]) by {
        forall i | 0 <= i < |s[1..]| ensures !s[1..][i].IsEmpty() {
          assert s[1..][i] == s[i + 1];
        }
      }
      NonEmptyIdentity(s[1..]);
      assert [s[0]] + s[1..] == s;
    }
  }

  /** The filter keeps exactly the non-empty members. */
  lemma {:induction false} NonEmptyMembers(s: seq<ItemStackSnapshot>, x: ItemStackSnapshot)
    ensures x in NonEmpty(s) <==> x in s && !x.IsEmpty()
  {
    if s != [] {
      NonEmptyMembers(s[1..], x);
      assert s == [s[0]] + s[1..];
    }
  }

  /** An input of empty items only leaves nothing to record, and only such
      an input does. */
  lemma {:induction false} NonEmptyAllEmpty(s: seq<ItemStackSnapshot>)
    ensures NonEmpty(s) == [] <==> forall i :: 0 <= i < |s| ==> s[i].IsEmpty()
  {
    if s != [] {
      NonEmptyAllEmpty(s[1..]);
      if forall i :: 0 <= i < |s| ==> s[i].IsEmpty() {
        assert forall i :: 0 <= i < |s[1..]| ==> s[1..][i].IsEmpty() by {
          forall i | 0 <= i < |s[1..]| ensures s[1..][i].IsEmpty() {
            assert s[1..][i] == s[i + 1];
          }
        }
      } else if NonEmpty(s) == [] {
        assert s[0].IsEmpty();
        forall i | 0 <= i < |s| ensures s[i].IsEmpty() {
          if i > 0 { assert s[i] == s[1..][i - 1]; }
        }
      }
    }
  }

  /** The snapshots of a list of live stacks, in order. */
  function SnapshotsOf(stacks: seq<ItemStack>): seq<ItemStackSnapshot> {
    seq(|stacks|, i requires 0 <= i < |stacks| => stacks[i].CreateSnapshot())
  }

  /** The fields of a built result: its type, rejected items and slot
      transactions, the last two in the order they were recorded. */
  datatype ResultData = ResultData(
    resultType: Type,
    rejected: seq<ItemStackSnapshot>,
    slotTransactions: seq<SlotTransaction>)

  /** A result as the builder produces it: empty items never appear among
      the rejected ones. Results are only made by the builder, so this holds
      of every result. */
  type InventoryTransactionResult = r: ResultData | NoneEmpty(r.rejected)
    witness ResultData(Success, [], [])

  /** `and`: a fresh result with the merged type and both operands' lists,
      this one's first. Like the builder chain it is built with, it passes
      both rejected lists through the empty-item filter again. */
  function And(r: InventoryTransactionResult, other: InventoryTransactionResult): (m: InventoryTransactionResult)
    ensures m.resultType == MergeType(r.resultType, other.resultType)
    ensures m.rejected == r.rejected + other.rejected
    ensures m.slotTransactions == r.slotTransactions + other.slotTransactions
  {
    NonEmptyIdentity(r.rejected);
    NonEmptyIdentity(other.rejected);
    NoneEmptyConcat(r.rejected, other.rejected);
    ResultData(
      MergeType(r.resultType, other.resultType),
      NonEmpty(r.rejected) + NonEmpty(other.rejected),
      r.slotTransactions + other.slotTransactions)
  }

  /** A result with the merged type and both operands' lists, this one's
      first, is their `and`. */
  lemma AndOfParts(r: InventoryTransactionResult, other: InventoryTransactionResult, m: InventoryTransactionResult)
    requires m.resultType == MergeType(r.resultType, other.resultType)
    requires m.rejected == r.rejected + other.rejected
    requires m.slotTransactions == r.slotTransactions + other.slotTransactions
    ensures m == And(r, other)
  {
  }

  /** Merging is associative. */
  lemma AndAssociative(a: InventoryTransactionResult, b: InventoryTransactionResult, c: InventoryTransactionResult)
    ensures And(And(a, b), c) == And(a, And(b, c))
  {
    MergeTypeAssociative(a.resultType, b.resultType, c.resultType);
    assert (a.rejected + b.rejected) + c.rejected == a.rejected + (b.rejected + c.rejected);
    assert (a.slotTransactions + b.slotTransactions) + c.slotTransactions
        == a.slotTransactions + (b.slotTransactions + c.slotTransactions);
  }

  /** The empty success result is a two-sided identity of `and`. */
  lemma AndSuccessIdentity(r: InventoryTransactionResult)
    ensures And(ResultData(Success, [], []), r) == r
    ensures And(r, ResultData(Success, [], [])) == r
  {
    assert [] + r.rejected == r.rejected && r.rejected + [] == r.rejected;
    assert [] + r.slotTransactions == r.slotTransactions && r.slotTransactions + [] == r.slotTransactions;
  }

  /** The `Slot.set` call that undoes transaction `t`. */
  function RestoreWrite(t: SlotTransaction): SlotWrite {
    SlotWrite(t.slot, t.original.CreateStack())
  }

  /** The writes `revert` makes: one per transaction, last transaction first. */
  function RevertWrites(ts: seq<SlotTransaction>): seq<SlotWrite> {
    if ts == [] then [] else RevertWrites(ts[1..]) + [RestoreWrite(ts[0])]
  }

  /** The slot contents after `revert`: the writes of the later transactions
      first, then the write of the first transaction on top. */
  function RevertedStore(ts: seq<SlotTransaction>, store: map<SlotId, ItemStack>): map<SlotId, ItemStack> {
    if ts == [] then store
    else RevertedStore(ts[1..], store)[ts[0].slot := ts[0].original.CreateStack()]
  }

  /** `revert` writes once per transaction, in reverse transaction order. */
  lemma {:induction false} RevertWritesReverseOrder(ts: seq<SlotTransaction>)
    ensures |RevertWrites(ts)| == |ts|
    ensures forall k :: 0 <= k < |ts| ==> RevertWrites(ts)[k] == RestoreWrite(ts[|ts| - 1 - k])
  {
    if ts != [] {
      RevertWritesReverseOrder(ts[1..]);
      forall k | 0 <= k < |ts| ensures RevertWrites(ts)[k] == RestoreWrite(ts[|ts| - 1 - k]) {
        if k < |ts| - 1 {
          assert RevertWrites(ts)[k] == RevertWrites(ts[1..])[k];
          assert ts[1..][|ts| - 2 - k] == ts[|ts| - 1 - k];
        }
      }
    }
  }

  /** The reverted contents are what performing those writes in order gives. */
  lemma {:induction false} RevertedStoreIsWriteLog(ts: seq<SlotTransaction>, store: map<SlotId, ItemStack>)
    ensures RevertedStore(ts, store) == ApplyWrites(store, RevertWrites(ts))
  {
    if ts != [] {
      RevertedStoreIsWriteLog(ts[1..], store);
      ApplyWritesAppend(store, RevertWrites(ts[1..]), RestoreWrite(ts[0]));
    }
  }

  /** After `revert`, a slot named by some transaction holds the original
      item of the earliest transaction on that slot. */
  lemma {:induction false} RevertRestoresEarliest(ts: seq<SlotTransaction>, store: map<SlotId, ItemStack>, i: nat)
    requires i < |ts|
    requires forall j :: 0 <= j < i ==> ts[j].slot != ts[i].slot
    ensures ts[i].slot in RevertedStore(ts, store)
    ensures RevertedStore(ts, store)[ts[i].slot] == ts[i].original.CreateStack()
  {
    if i > 0 {
      forall j | 0 <= j < i - 1 ensures ts[1..][j].slot != ts[1..][i - 1].slot {
        assert ts[1..][j] == ts[j + 1];
      }
      RevertRestoresEarliest(ts[1..], store, i - 1);
    }
  }

  /** `revert` leaves every slot no transaction names as it was. */
  lemma {:induction false} RevertLeavesOtherSlots(ts: seq<SlotTransaction>, store: map<SlotId, ItemStack>, s: SlotId)
    requires forall j :: 0 <= j < |ts| ==> ts[j].slot != s
    ensures s in RevertedStore(ts, store) <==> s in store
    ensures s in store ==> RevertedStore(ts, store)[s] == store[s]
  {
    if ts != [] {
      assert ts[0].slot != s;
      forall j | 0 <= j < |ts[1..]| ensures ts[1..][j].slot != s {
        assert ts[1..][j] == ts[j + 1];
      }
      RevertLeavesOtherSlots(ts[1..], store, s);
    }
  }

  /** The order matters: undoing two changes of one slot first-to-last
      would leave the later original in the slot, not the earlier one. */
  lemma ForwardUndoDiffers(slot: SlotId, first: ItemStackSnapshot, second: ItemStackSnapshot, store: map<SlotId, ItemStack>)
    requires first != second
    ensures ApplyWrites(store, [RestoreWrite(SlotTransaction(slot, first)), RestoreWrite(SlotTransaction(slot, second))])
         != RevertedStore([SlotTransaction(slot, first), SlotTransaction(slot, second)], store)
  {
    var ts := [SlotTransaction(slot, first), SlotTransaction(slot, second)];
    var ws := [RestoreWrite(ts[0]), RestoreWrite(ts[1])];
    assert ws == [ws[0]] + [ws[1]];
    ApplyWritesAppend(store, [ws[0]], ws[1]);
    RevertRestoresEarliest(ts, store, 0);
    SnapshotRoundTrip(first.CreateStack(), first);
  }

  /** `revert`: writes each transaction's original item back into its slot,
      last transaction first. The result itself is a value and is unchanged. */
  method Revert(r: InventoryTransactionResult, store: SlotStore)
    requires store.Valid()
    modifies store
    ensures store.Valid()
    ensures store.items == RevertedStore(r.slotTransactions, old(store.items))
    ensures store.writes == old(store.writes) + RevertWrites(r.slotTransactions)
  {
    var ts := r.slotTransactions;
    var i := |ts|;
    while i > 0
      invariant 0 <= i <= |ts|
      invariant store.Valid()
      invariant store.items == RevertedStore(ts[i..], old(store.items))
      invariant store.writes == old(store.writes) + RevertWrites(ts[i..])
    {
      i := i - 1;
      assert ts[i..][1..] == ts[i + 1..];
      store.Set(ts[i].slot, ts[i].original.CreateStack());
    }
    assert ts[0..] == ts;
  }

  /** `revertOnFailure`: reverts only a `Failure`; a `Success` or an `Error`
      leaves every slot alone and writes nothing. */
  method RevertOnFailure(r: InventoryTransactionResult, store: SlotStore)
    requires store.Valid()
    modifies store
    ensures store.Valid()
    ensures r.resultType == Failure ==>
              store.items == RevertedStore(r.slotTransactions, old(store.items)) &&
              store.writes == old(store.writes) + RevertWrites(r.slotTransactions)
    ensures r.resultType != Failure ==> store.items == old(store.items) && store.writes == old(store.writes)
  {
    if r.resultType == Failure {
      Revert(r, store);
    }
  }
}
