# InventoryTransactionResult, modelled in Dafny

SpongeAPI reports the outcome of every inventory operation (move, merge,
pickup, craft) as an `InventoryTransactionResult`. A result is immutable. It
holds an outcome type (`SUCCESS`, `FAILURE` or `ERROR`), the ordered list of
item snapshots that the target inventory rejected, and the ordered list of
slot transactions the operation applied. A mutable `Builder` stages these
parts and builds the result. `and` merges two results. `revert` writes every
transaction's original item back into its slot, last transaction first.
`revertOnFailure` reverts only a `FAILURE`.

The model has three modules:

- `Items` (`items.dfy`) holds the host-side collaborators as plain values:
  item stacks and snapshots with an `IsEmpty` predicate, the
  `CreateSnapshot`/`CreateStack` conversions, and a slot transaction as a
  `(slot, original)` pair. `SlotStore` is a class standing for the host's
  slots. It holds a map from slot to stack and a ghost log of every
  `Slot.set` call, so the order of writes can be stated.
- `Transactions` (`transactions.dfy`) holds the `Type` enum, the merge rule,
  the empty-item filter and the result type. A result is `ResultData`
  restricted by the invariant "no rejected item is empty". It also holds
  `And`, the specification of `revert` (`RevertWrites`, `RevertedStore`) and
  the imperative `Revert` and `RevertOnFailure` methods over a `SlotStore`.
  The getters `getType`, `getRejectedItems` and `getSlotTransactions` are the
  datatype's fields `resultType`, `rejected` and `slotTransactions`.
- `TransactionBuilder` (`builder.dfy`) holds the `Builder` class. Its three
  fields are `Option`s, and `None` stands for a field the source leaves
  `null`. The module also has `successNoTransactions`, `failNoTransactions`,
  and `and` written as the source writes it, as a builder chain
  (`AndByBuilder`, proved equal to `And`). Some client methods state what
  sequences of builder calls produce.

Where the documentation and the code disagree, the model follows the code.
The doc comment of `and` (InventoryTransactionResult.java line 123) says
that `ERROR` takes precedence over `FAILURE`. The code (lines 129-135) tests
`FAILURE` last, so `FAILURE` overrides `ERROR`. `MergeType` models the code.
`DocumentedMergeType` models the doc comment. `DocumentedPrecedenceNotMet`
and `MergeTypeAgreesWithDocumentation` show that the two differ exactly on
an `ERROR`/`FAILURE` pair. Also, `failNoTransactions` builds an `ERROR`
result, not a `FAILURE` one, despite its name. The model keeps that.

## Model

| member | source | states |
|---|---|---|
| `Transactions.MergeType` | src/main/java/org/spongepowered/api/item/inventory/transaction/InventoryTransactionResult.java:129-135 | the merged type is whichever operand ranks higher in Failure > Error > Success, so it is always one of the two operands |
| `Transactions.MergeTypeCases` | src/main/java/org/spongepowered/api/item/inventory/transaction/InventoryTransactionResult.java:129-135 | each as an iff: Failure exactly when either side is Failure; Error exactly when neither is Failure and one is Error; Success exactly when both are Success |
| `Transactions.MergeTypeCommutative` | src/main/java/org/spongepowered/api/item/inventory/transaction/InventoryTransactionResult.java:129-135 | type resolution does not depend on operand order |
| `Transactions.MergeTypeAssociative` | src/main/java/org/spongepowered/api/item/inventory/transaction/InventoryTransactionResult.java:129-135 | type resolution does not depend on how a chain of merges is grouped |
| `Transactions.DocumentedMergeType` | src/main/java/org/spongepowered/api/item/inventory/transaction/InventoryTransactionResult.java:121-123 | the rule the doc comment announces: Error if either side is Error, else Failure if either is Failure, else Success |
| `Transactions.MergeTypeAgreesWithDocumentation` | src/main/java/org/spongepowered/api/item/inventory/transaction/InventoryTransactionResult.java:123-135 | the code and the doc comment differ exactly when one side is Error and the other Failure |
| `Transactions.DocumentedPrecedenceNotMet` | src/main/java/org/spongepowered/api/item/inventory/transaction/InventoryTransactionResult.java:123-135 | for (Error, Failure) the doc comment promises Error but the code yields Failure |
| `Transactions.NonEmpty` | src/main/java/org/spongepowered/api/item/inventory/transaction/InventoryTransactionResult.java:237-241 | what reject keeps contains no empty item and is no longer than its input |
| `Transactions.NonEmptyAppend` | src/main/java/org/spongepowered/api/item/inventory/transaction/InventoryTransactionResult.java:233-243 | filtering two lists one after the other keeps the same items, in the same order, as filtering their concatenation; so reject calls accumulate |
| `Transactions.NonEmptyIdentity` | src/main/java/org/spongepowered/api/item/inventory/transaction/InventoryTransactionResult.java:136 | filtering leaves a list unchanged if and only if it holds no empty item, so re-filtering stored rejected items changes nothing |
| `Transactions.NonEmptyMembers` | src/main/java/org/spongepowered/api/item/inventory/transaction/InventoryTransactionResult.java:237-241 | an item is kept if and only if it is in the input and is not empty |
| `Transactions.NonEmptyAllEmpty` | src/main/java/org/spongepowered/api/item/inventory/transaction/InventoryTransactionResult.java:233-243 | reject adds nothing if and only if every given item is empty |
| `Transactions.And` | src/main/java/org/spongepowered/api/item/inventory/transaction/InventoryTransactionResult.java:128-139 | the merge has the resolved type, this result's rejected items followed by the other's, and this result's transactions followed by the other's; it is a fresh value and the operands are untouched |
| `Transactions.AndAssociative` | src/main/java/org/spongepowered/api/item/inventory/transaction/InventoryTransactionResult.java:128-139 | merging is associative |
| `Transactions.AndSuccessIdentity` | src/main/java/org/spongepowered/api/item/inventory/transaction/InventoryTransactionResult.java:128-139 | merging with the empty Success result on either side gives the other result back |
| `Transactions.RevertWritesReverseOrder` | src/main/java/org/spongepowered/api/item/inventory/transaction/InventoryTransactionResult.java:144-148 | revert makes one write per transaction; its k-th write restores the original item of the k-th transaction from the end |
| `Transactions.RevertedStoreIsWriteLog` | src/main/java/org/spongepowered/api/item/inventory/transaction/InventoryTransactionResult.java:144-148 | the slot contents after revert are what those writes give when performed in that order |
| `Transactions.RevertRestoresEarliest` | src/main/java/org/spongepowered/api/item/inventory/transaction/InventoryTransactionResult.java:144-148 | after revert, every slot a transaction names holds the original item of the earliest transaction on that slot |
| `Transactions.RevertLeavesOtherSlots` | src/main/java/org/spongepowered/api/item/inventory/transaction/InventoryTransactionResult.java:144-148 | a slot no transaction names is present after revert exactly when it was present before, and holds the same stack |
| `Transactions.ForwardUndoDiffers` | src/main/java/org/spongepowered/api/item/inventory/transaction/InventoryTransactionResult.java:145 | undoing two changes of one slot in forward order would leave a different stack than the reverse order does |
| `Transactions.Revert` | src/main/java/org/spongepowered/api/item/inventory/transaction/InventoryTransactionResult.java:144-148 | the loop leaves the store equal to the reverted contents, and appends exactly the reverse-order writes to the store's write log |
| `Transactions.RevertOnFailure` | src/main/java/org/spongepowered/api/item/inventory/transaction/InventoryTransactionResult.java:153-157 | on Failure it has exactly revert's effect; on Success or Error the store and its write log are unchanged |
| `Items.SlotStore.Set` | src/main/java/org/spongepowered/api/item/inventory/transaction/InventoryTransactionResult.java:146 | a slot write replaces that slot's stack, leaves the other slots as they were, and is logged |
| `TransactionBuilder.Builder.constructor` | src/main/java/org/spongepowered/api/item/inventory/transaction/InventoryTransactionResult.java:190-194 | a new builder has no type and no lists |
| `TransactionBuilder.Builder.SetType` | src/main/java/org/spongepowered/api/item/inventory/transaction/InventoryTransactionResult.java:202-205 | the given type replaces the staged type and both lists are unchanged |
| `TransactionBuilder.Builder.RejectStacks` | src/main/java/org/spongepowered/api/item/inventory/transaction/InventoryTransactionResult.java:214-224 | the staged rejected list becomes the old one, empty if it was unset, followed by snapshots of the non-empty stacks in argument order; the staged list stays free of empty items |
| `TransactionBuilder.Builder.RejectSnapshots` | src/main/java/org/spongepowered/api/item/inventory/transaction/InventoryTransactionResult.java:233-243 | the staged rejected list becomes the old one followed by the non-empty snapshots, in list order; the staged list stays free of empty items |
| `TransactionBuilder.Builder.TransactionArray` | src/main/java/org/spongepowered/api/item/inventory/transaction/InventoryTransactionResult.java:253-255 | the varargs overload appends every argument in order, as the list overload does |
| `TransactionBuilder.Builder.TransactionList` | src/main/java/org/spongepowered/api/item/inventory/transaction/InventoryTransactionResult.java:264-270 | the staged transactions become the old ones, empty if unset, followed by all the given ones in order |
| `TransactionBuilder.Builder.Build` | src/main/java/org/spongepowered/api/item/inventory/transaction/InventoryTransactionResult.java:277-280 | it fails if and only if no type is set; otherwise the result holds the staged type and staged lists, and a list never created reads as empty |
| `TransactionBuilder.Builder.From` | src/main/java/org/spongepowered/api/item/inventory/transaction/InventoryTransactionResult.java:283-289 | the staged type and lists become exactly the given result's |
| `TransactionBuilder.Builder.Reset` | src/main/java/org/spongepowered/api/item/inventory/transaction/InventoryTransactionResult.java:292-297 | the type and both lists become unset |
| `TransactionBuilder.SuccessNoTransactions` | src/main/java/org/spongepowered/api/item/inventory/transaction/InventoryTransactionResult.java:65-67 | the result is Success with no rejected items and no transactions |
| `TransactionBuilder.FailNoTransactions` | src/main/java/org/spongepowered/api/item/inventory/transaction/InventoryTransactionResult.java:75-77 | the result is Error, not Failure, with no rejected items and no transactions |
| `TransactionBuilder.AndByBuilder` | src/main/java/org/spongepowered/api/item/inventory/transaction/InventoryTransactionResult.java:128-139 | the source's builder chain computes exactly `And`, and the rejected lists come out concatenated, without loss |
| `TransactionBuilder.ResetThenBuild` | src/main/java/org/spongepowered/api/item/inventory/transaction/InventoryTransactionResult.java:277-297 | reset followed by build fails, whatever the builder held before |
| `TransactionBuilder.TypeTwiceThenBuild` | src/main/java/org/spongepowered/api/item/inventory/transaction/InventoryTransactionResult.java:202-205 | build succeeds after a type is set, and the built type is the last one set |
| `TransactionBuilder.FromThenBuild` | src/main/java/org/spongepowered/api/item/inventory/transaction/InventoryTransactionResult.java:283-289 | from followed by build gives back a result equal to the one the builder was seeded from |
| `TransactionBuilder.BuildIsDetached` | src/main/java/org/spongepowered/api/item/inventory/transaction/InventoryTransactionResult.java:115-119 | a result built earlier keeps the lists staged at its build; rejections and transactions added later show up only in the next build |

## Left out

- `Container.java` and `InteractItemEvent.java` are interfaces with declarations only and no behaviour. They are not part of this model.
- `ItemStack`, `ItemStackSnapshot`, `Slot` and `SlotTransaction` belong to the host. `IsEmpty` is modelled as "no item kind or zero quantity". `CreateSnapshot`/`CreateStack` are modelled as lossless conversions. A slot is a key of a map, and `Slot.set` is a map update.
- The result that `Slot.set` itself returns is ignored by `revert` and is not modelled. Slot writes are total, so the partial revert left by a write that throws is not modelled.
- `type(null)` and `from(null)` cannot be expressed with Dafny's non-null types. Nor can a null list, or a null element, given to `reject` or `transaction`. In the source a null element makes `reject` throw at `isEmpty()` (lines 219, 238). A null element passed to `transaction(List)` is accepted by `addAll` (line 268) and makes `build()` throw later, in `ImmutableList.copyOf` (line 118). So `Build` failing exactly when no type is set holds for the inputs without nulls that the model can express. The second null check on the type inside the result's constructor (line 116) and inside `from` (line 285) can never fail once `build` has checked it, so those checks do not appear separately.
- Builder methods return `this` for chaining. The model's methods return nothing, and callers chain the calls as statements.
- The `ResettableBuilder` interface and `builder()` (a plain `new Builder()`, modelled by the constructor) have no logic of their own.
- `ImmutableList.copyOf`, `Collections.emptyList`, `Lists.reverse` and `Arrays.asList` are library mechanics. Dafny's sequence values give the copies their independence, and `Revert` walks the list from the back. The source also gives a read-only `Collection` view on the rejected list; that distinction is not modelled.
- Thread-safety is the host's responsibility and is not modelled.
