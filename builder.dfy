/** The mutable staging object that accumulates a result's type and lists
    and turns them into an immutable result; the two convenience results
    and `and`, which are written as builder chains. */
module TransactionBuilder {
  import opened Items
  import opened Transactions

  datatype Option<T> = None | Some(value: T)

  /** A staged list as `build` reads it: a list never created is empty. */
  function Staged<T>(o: Option<seq<T>>): seq<T> {
    match o
    case None => []
    case Some(s) => s
  }

  /** What `build` gives: a result, or the invalid-state failure raised when
      no type was set. */
  datatype BuildOutcome = Built(result: InventoryTransactionResult) | MissingResultType

  /** The builder. `None` in a field is a field the source leaves null. */
  class Builder {
    var resultType: Option<Type>
    var rejected: Option<seq<ItemStackSnapshot>>
    var slotTransactions: Option<seq<SlotTransaction>>

    /** Every staged rejected item is non-empty. */
    ghost predicate Valid()
      reads this
    {
      NoneEmpty(Staged(rejected))
    }

    constructor ()
      ensures Valid()
      ensures resultType == None && rejected == None && slotTransactions == None
    {
      resultType := None;
      rejected := None;
      slotTransactions := None;
    }

    /** `type(t)`: overwrites the staged type. */
    method SetType(t: Type)
      requires Valid()
      modifies this
      ensures Valid()
      ensures resultType == Some(t)
      ensures rejected == old(rejected) && slotTransactions == old(slotTransactions)
    {
      resultType := Some(t);
    }

    /** `reject(ItemStack...)`: appends a snapshot of every non-empty stack,
        in argument order, to the staged rejected items. */
    method RejectStacks(itemStacks: array<ItemStack>)
      requires Valid()
      modifies this
      ensures Valid()
      ensures rejected == Some(Staged(old(rejected)) + NonEmpty(SnapshotsOf(itemStacks[..])))
      ensures resultType == old(resultType) && slotTransactions == old(slotTransactions)
    {
      if rejected == None {
        rejected := Some([]);
      }
      assert SnapshotsOf(itemStacks[..0]) == [];
      assert Staged(old(rejected)) + [] == Staged(old(rejected));
      for i := 0 to itemStacks.Length
        invariant rejected == Some(Staged(old(rejected)) + NonEmpty(SnapshotsOf(itemStacks[..i])))
        invariant resultType == old(resultType) && slotTransactions == old(slotTransactions)
      {
        var stack := itemStacks[i];
        assert SnapshotsOf(itemStacks[..i + 1]) == SnapshotsOf(itemStacks[..i]) + [stack.CreateSnapshot()];
        NonEmptyAppend(SnapshotsOf(itemStacks[..i]), [stack.CreateSnapshot()]);
        assert NonEmpty([stack.CreateSnapshot()]) == if stack.IsEmpty() then [] else [stack.CreateSnapshot()] by {
          assert [stack.CreateSnapshot()][1..] == [];
        }
        ghost var done := NonEmpty(SnapshotsOf(itemStacks[..i]));
        if !stack.IsEmpty() {
          rejected := Some(rejected.value + [stack.CreateSnapshot()]);
          assert Staged(old(rejected)) + done + [stack.CreateSnapshot()]
              == Staged(old(rejected)) + (done + [stack.CreateSnapshot()]);
        } else {
          assert done + [] == done;
        }
      }
      assert itemStacks[..itemStacks.Length] == itemStacks[..];
      NoneEmptyConcat(Staged(old(rejected)), NonEmpty(SnapshotsOf(itemStacks[..])));
    }

    /** `reject(List<ItemStackSnapshot>)`: appends every non-empty snapshot,
        in list order, to the staged rejected items. */
    method RejectSnapshots(itemStacks: seq<ItemStackSnapshot>)
      requires Valid()
      modifies this
      ensures Valid()
      ensures rejected == Some(Staged(old(rejected)) + NonEmpty(itemStacks))
      ensures resultType == old(resultType) && slotTransactions == old(slotTransactions)
    {
      if rejected == None {
        rejected := Some([]);
      }
      assert itemStacks[..0] == [];
      assert Staged(old(rejected)) + [] == Staged(old(rejected));
      for i := 0 to |itemStacks|
        invariant rejected == Some(Staged(old(rejected)) + NonEmpty(itemStacks[..i]))
        invariant resultType == old(resultType) && slotTransactions == old(slotTransactions)
      {
        var snapshot := itemStacks[i];
        assert itemStacks[..i + 1] == itemStacks[..i] + [snapshot];
        NonEmptyAppend(itemStacks[..i], [snapshot]);
        assert NonEmpty([snapshot]) == if snapshot.IsEmpty() then [] else [snapshot] by {
          assert [snapshot][1..] == [];
        }
        ghost var done := NonEmpty(itemStacks[..i]);
        if !snapshot.IsEmpty() {
          rejected := Some(rejected.value + [snapshot]);
          assert Staged(old(rejected)) + done + [snapshot] == Staged(old(rejected)) + (done + [snapshot]);
        } else {
          assert done + [] == done;
        }
      }
      assert itemStacks[..|itemStacks|] == itemStacks;
      NoneEmptyConcat(Staged(old(rejected)), NonEmpty(itemStacks));
    }

    /** `transaction(SlotTransaction...)`: the list overload on the arguments. */
    method TransactionArray(transactions: array<SlotTransaction>)
      requires Valid()
      modifies this
      ensures Valid()
      ensures slotTransactions == Some(Staged(old(slotTransactions)) + transactions[..])
      ensures resultType == old(resultType) && rejected == old(rejected)
    {
      TransactionList(transactions[..]);
    }

    /** `transaction(List<SlotTransaction>)`: appends all, in list order. */
    method TransactionList(transactions: seq<SlotTransaction>)
      requires Valid()
      modifies this
      ensures Valid()
      ensures slotTransactions == Some(Staged(old(slotTransactions)) + transactions)
      ensures resultType == old(resultType) && rejected == old(rejected)
    {
      if slotTransactions == None {
        slotTransactions := Some([]);
      }
      slotTransactions := Some(slotTransactions.value + transactions);
    }

    /** `build()`: fails unless a type was set; otherwise a result holding
        the staged type and lists, a never-created list read as empty. The
        result is a value, so later changes to the builder cannot reach it. */
    method Build() returns (outcome: BuildOutcome)
      requires Valid()
      ensures resultType == None <==> outcome == MissingResultType
      ensures resultType.Some? ==>
                outcome == Built(ResultData(resultType.value, Staged(rejected), Staged(slotTransactions)))
    {
      if resultType == None {
        return MissingResultType;
      }
      outcome := Built(ResultData(resultType.value, Staged(rejected), Staged(slotTransactions)));
    }

    /** `from(value)`: the staged state becomes a copy of `value`'s. */
    method From(value: InventoryTransactionResult)
      requires Valid()
      modifies this
      ensures Valid()
      ensures resultType == Some(value.resultType)
      ensures rejected == Some(value.rejected) && slotTransactions == Some(value.slotTransactions)
    {
      resultType := Some(value.resultType);
      slotTransactions := Some(value.slotTransactions);
      rejected := Some(value.rejected);
    }

    /** `reset()`: the type and both lists go back to unset. */
    method Reset()
      requires Valid()
      modifies this
      ensures Valid()
      ensures resultType == None && rejected == None && slotTransactions == None
    {
      resultType := None;
      rejected := None;
      slotTransactions := None;
    }
  }

  /** `successNoTransactions()`: a fresh builder given `Success` and built. */
  method SuccessNoTransactions() returns (r: InventoryTransactionResult)
    ensures r.resultType == Success && r.rejected == [] && r.slotTransactions == []
  {
    var b := new Builder();
    b.SetType(Success);
    var outcome := b.Build();
    r := outcome.result;
  }

  /** `failNoTransactions()`: despite its name it is built with `Error`,
      not with `Failure`. */
  method FailNoTransactions() returns (r: InventoryTransactionResult)
    ensures r.resultType == Error && r.rejected == [] && r.slotTransactions == []
    ensures r.resultType != Failure
  {
    var b := new Builder();
    b.SetType(Error);
    var outcome := b.Build();
    r := outcome.result;
  }

  /** `and(other)` as the source writes it: the type by two overriding
      tests, then a builder chain over both operands. It computes `And`. */
  method AndByBuilder(r: InventoryTransactionResult, other: InventoryTransactionResult)
    returns (m: InventoryTransactionResult)
    ensures m == And(r, other)
    ensures m.rejected == r.rejected + other.rejected
  {
    var mergedType := Success;
    if r.resultType == Error || other.resultType == Error {
      mergedType := Error;
    }
    if r.resultType == Failure || other.resultType == Failure {
      mergedType := Failure;
    }
    assert mergedType == MergeType(r.resultType, other.resultType);
    var b := new Builder();
    b.SetType(mergedType);
    NonEmptyIdentity(r.rejected);
    NonEmptyIdentity(other.rejected);
    b.RejectSnapshots(r.rejected);
    assert b.rejected == Some(r.rejected) by {
      assert [] + r.rejected == r.rejected;
    }
    b.RejectSnapshots(other.rejected);
    assert b.rejected == Some(r.rejected + other.rejected);
    b.TransactionList(r.slotTransactions);
    assert b.slotTransactions == Some(r.slotTransactions) by {
      assert [] + r.slotTransactions == r.slotTransactions;
    }
    b.TransactionList(other.slotTransactions);
    assert b.slotTransactions == Some(r.slotTransactions + other.slotTransactions);
    assert b.resultType == Some(mergedType);
    var outcome := b.Build();
    m := outcome.result;
    AndOfParts(r, other, m);
  }

  /** A builder reset and built again fails, whatever it staged before. */
  method ResetThenBuild(b: Builder) returns (outcome: BuildOutcome)
    requires b.Valid()
    modifies b
    ensures outcome == MissingResultType
  {
    b.Reset();
    outcome := b.Build();
  }

  /** The type of a built result is the last one set. */
  method TypeTwiceThenBuild(b: Builder, first: Type, last: Type) returns (outcome: BuildOutcome)
    requires b.Valid()
    modifies b
    ensures outcome.Built? && outcome.result.resultType == last
  {
    b.SetType(first);
    b.SetType(last);
    outcome := b.Build();
  }

  /** Re-seeding a builder from a result and building gives that result back. */
  method FromThenBuild(b: Builder, value: InventoryTransactionResult) returns (outcome: BuildOutcome)
    requires b.Valid()
    modifies b
    ensures outcome == Built(value)
  {
    b.From(value);
    outcome := b.Build();
  }

  /** A result built earlier is unaffected by later rejections and transactions
      on the same builder, which do reach the next build. */
  method BuildIsDetached(b: Builder, t: Type, items: seq<ItemStackSnapshot>, ts: seq<SlotTransaction>)
    returns (before: InventoryTransactionResult, after: InventoryTransactionResult)
    requires b.Valid()
    modifies b
    ensures before == ResultData(t, Staged(old(b.rejected)), Staged(old(b.slotTransactions)))
    ensures after == ResultData(t, before.rejected + NonEmpty(items), before.slotTransactions + ts)
  {
    b.SetType(t);
    var first := b.Build();
    before := first.result;
    b.RejectSnapshots(items);
    b.TransactionList(ts);
    var second := b.Build();
    after := second.result;
  }
}
