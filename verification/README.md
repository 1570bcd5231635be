# PhoenixCreator contracts: a verified model

A Dafny model of the membership contract and the token contract of PhoenixCreator, and proofs about every run of them. `dafny verify dfyconfig.toml` checks the whole project.

The contracts are written in C++ for EOSIO. An action either runs to its end or a failed check rolls the whole transaction back; methods here return `Ok` or `Aborted(message)`, and an aborted method leaves the state as it was.

| files | part of the system |
|---|---|
| `Words`, `Buckets`, `Shards`, `TableModel`, `VramTable` | the vRAM table: byte buckets in shards in an immutable content store, with lazy creation, lazy reset by revision, lazy restore from a manifest, backups and constant-time clear |
| `Fees`, `PledgeModel`, `PledgeLaws`, `PledgeHistory`, `PledgeStore`, `Relations`, `PledgeContract` | recurring pledges: the pledges table and the two relation tables, renewals, timers, their rows in a vRAM table, and the fee in double arithmetic |
| `Names`, `Sums`, `Memos`, `Ledger`, `TokenLaws`, `TokenContract` | the virtual token ledger: supply, balances, deposits, withdrawals, fee payouts, and the real tokens held |
| `Posts`, `PostHistory` | posts and the keys of encrypted ones, and the list of latest posts beside each author's own list |
| `Follows` | the two-sided follow graph, edited by `diff_vectors` |
| `Wrappers`, `Sequences` | results and options; finding and erasing in a list |

How the parts are built. State that the contracts change in place is a class (`VramTable`, `TokenContract`, `PledgeContract`, `PostContract`, `FollowContract`). Each of its methods is proved to do one step of a small machine on values (`TableModel.Step`, `Ledger.Step`, `PledgeModel.Step`, `Posts.Step`, `Follows.Step`), in which `None` is an abort, and the laws are proved of that machine for every run. For the vRAM table the machine is refined once more, to a plain map with saved copies.

What a machine does is stated a second time without its own functions: the bytes of a record position by position, each action's success by its checks and its effect on every balance, and the rows, timers, keys and lists at the end of a run by the calls of that run and who signed them.

Where a promise does not hold of the code, the exact condition is proved; only the fee of amounts from 2^55 units on has a bound instead:

- **Clear and restore.** `clear` and a restore move the 32-bit revision on by one, and only a restore replaces the residual manifest. A clear empties the table if and only if no row waits in the manifest and no shard outside it carries the next revision, which wraps, and holds a row (`ClearIsPlain`). A restore brings the backup back if and only if no shard outside the backup does (`RestoreIsPlain`), and a backup saves what the table answers if and only if no pending shard has a differing row of the current revision (`BackupIsPlain`). With fewer than 2^32 revision changes only clears over pending rows are left of these conditions (`SafeWithoutWrap`). A backup, any run and the restore together bring every answer back if and only if the backup met its condition and no shard outside it has rows under the revision that the load moves to (`RestoreUndoesTheRunIff`), which is never in question below 2^32 changes (`RestoreUndoesTheRun`). Runs from the empty table show both failures, exactly at multiples of 2^32: a row that an empty backup does not take away (`RestoreAfterWrap`), and a backup that saves another row than the table answers (`BackupCanDiffer`). The same is proved for any number of clears in a row (`ManyClears`), with a run that writes a row and reads it again exactly after multiples of 2^32 clears (`ClearedRowComesBack`). Right after a restore a clear removes nothing, yet the key counter restarts at zero (`ClearAfterRestoreKeepsEverything`); in a run of six operations the emplace under the available key then fails (`ClearedKeyIsTaken`). Stored keys stay below the next key under the condition of the clear itself (`ClearKeepsFreshIff`).
- **Reads from another contract** skip the manifest, so they agree with the owner's if and only if a pending shard holds the same for the key as the shard row that the reader sees (`ExternalGet`). After one write, a backup and its restore they do not (`RestoredRowIsPending`).
- **Backing.** Every step changes "real tokens held minus balances of everyone but PHOENIX" by an exact amount (`StepChangesCover`). The backing holds in every run in which PHOENIX signs nothing; a transfer PHOENIX signs keeps it if and only if the surplus pays for it (`PhoenixMaySpendOnlyTheCover`). A run of seven actions with that signature ends where a covered withdrawal aborts (`CoveredWithdrawalCanFail`). Without it a withdrawal needs its checks, a covering balance and another account than the contract's own to go to, and for PHOENIX itself, whose balance nothing backs, enough real tokens (`WithdrawalIsHonoured`).
- **Fee.** It is exactly one fiftieth, rounded down, below 2^53 units (`FeeIsExact`). From there up to 2^54 it is so if and only if the amount does not end in 99; those amounts pay one unit more (`FeeIsExactIff`), the first of them 2^53 + 7 (`FeeAboveTwo53`). From 2^54 up to 2^55 the exact fee is one fiftieth of the nearest multiple of four, and one unit more where that ends in 48 and is at least 7/6 of 2^54 (`FeeFromTwo54`); the amounts that miss one fiftieth are listed by their last digits (`FeeFromTwo54IsExactIff`), and the first is 2^54 + 14 (`FirstMissFromTwo54`). From 2^55 on only a bound is proved: one fiftieth, cut to an integer, up to one part in 2^57 of the amount (`FeeIsBounded`).
- **Follow.** The result of `std::unique` is thrown away, so a repeated name is never repaired (`UniqueIsNoRepair`); what the call does instead is take out the names that repeat their neighbour and put in as many from the end of the list (`UniqueCounts`). Distinct names that are not followed yet keep the two tables in order (`FollowKeepsInv`); for a payload without unfollows that is also necessary (`FollowNeedsNewNames`). For any payload the exact condition compares, name by name, how often it is listed, taken out, put in and unfollowed (`FollowKeepsInvIff`), and it is exact over whole runs (`RunKeepsInvIff`). A payload that breaks the symmetry is given (`RepeatedFollowBreaksSymmetry`).
- **Payable pledges.** A renewal that passes its own checks finishes if and only if the ledger is running, payer and creator are two different users, a balance row covers the quantity, and, from 50 units on, the payer is not the fees account and that account is a user (`RenewalSucceedsIff`). A pledge call checks less. A pledge is charged in some run if and only if its payer is not its creator, nor the fees account at 50 units or more, and its quantity is in the asset range (`PaidInSomeRunIff`); the others are accepted all the same (`UnpayablePledgeIsAccepted`).
- **Keys of deleted posts.** A deletion takes the key of an encrypted post away but leaves the post row, which can still be edited. In a run keys belong to live posts throughout if and only if no finished step is an encrypted edit of a deleted post (`KeysAlwaysLiveIff`, and for one step `KeysStayLiveIff`). Signing up, posting, deleting the post and editing it is such a run (`DeletedPostGetsAKey`).
- **Least price.** The least price of an encrypted post is the double nearest to 0.01. The float nearest to 0.01 is refused, and the next one is the least that passes (`NearestFloatIsRefused`).

## Model

| member | source | states |
|---|---|---|
| `Words.U64RoundTrip` | zeus_boxes/contracts/eos/phoenix/advanced_multi_index.strip.hpp:562-565 | a scope or key written as eight bytes reads back as itself, and every eight bytes are the encoding of what they decode to |
| `Words.U64Layout` | zeus_boxes/contracts/eos/phoenix/advanced_multi_index.strip.hpp:605-606 | eight bytes mean the sum of each byte times its power of 256, lowest first |
| `Words.U64Bytes` | zeus_boxes/contracts/eos/phoenix/advanced_multi_index.strip.hpp:561-564 | byte i of a written word is its i-th digit to the base 256, for each of the eight |
| `Words.BitAndBits` | zeus_boxes/contracts/eos/phoenix/advanced_multi_index.strip.hpp:894-895 | the mask keeps a bit exactly where both numbers have it |
| `Words.BitAndBound` | zeus_boxes/contracts/eos/phoenix/advanced_multi_index.strip.hpp:894-895 | masking with n - 1 gives an index below n, for every hash and every n >= 1 |
| `Words.BitAndIsRemainder` | zeus_boxes/contracts/eos/phoenix/advanced_multi_index.strip.hpp:894-895 | for a power of two the mask is the remainder |
| `Words.Increment256IsSuccessor` | zeus_boxes/contracts/eos/phoenix/advanced_multi_index.strip.hpp:745-755 | increment256 is +1 on the 256-bit number (wrapping at 2^256), and word order is numeric order |
| `Words.KeyToPrimaryIsLowWord` | zeus_boxes/contracts/eos/phoenix/advanced_multi_index.strip.hpp:735-738 | casting a 256-bit key back keeps it modulo 2^64 |
| `Words.KeyRoundTrip` | zeus_boxes/contracts/eos/phoenix/advanced_multi_index.strip.hpp:730-738 | a primary key survives the conversion to 256 bits and back, and its increment is the key plus one |
| `Buckets.BucketRoundTrip` | zeus_boxes/contracts/eos/phoenix/advanced_multi_index.strip.hpp:560-571 | decoding the bytes of any record sequence gives the records back |
| `Buckets.BytesRoundTrip` | zeus_boxes/contracts/eos/phoenix/advanced_multi_index.strip.hpp:599-646 | encoding the records of any well-sized bucket gives the bytes back |
| `Buckets.RecordLayout` | zeus_boxes/contracts/eos/phoenix/advanced_multi_index.strip.hpp:560-567 | the 52 bytes of a record: scope in bytes 0 to 7 and key in 8 to 15, each lowest byte first, and the value in 16 to 51 |
| `Buckets.ParseInBytes` | zeus_boxes/contracts/eos/phoenix/advanced_multi_index.strip.hpp:597-645 | a parse splits behind all records whose words show a larger scope or a smaller key, and hits if the words at the split are the scope and the key |
| `Buckets.CombinedInBytes` | zeus_boxes/contracts/eos/phoenix/advanced_multi_index.strip.hpp:558-571 | what is written back holds scope, key and value at these positions between the two parts |
| `Buckets.ScanIsMembership` | zeus_boxes/contracts/eos/phoenix/advanced_multi_index.strip.hpp:599-645 | under the no-shadow invariant the scan reports a value for (scope, key) exactly when that record is in the bucket |
| `Buckets.NoShadowIffEveryRecordIsReached` | zeus_boxes/contracts/eos/phoenix/advanced_multi_index.strip.hpp:611-626 | the no-shadow invariant holds if and only if the scan for any stored record stops at that record |
| `Buckets.InsertKeepsNoShadow` | zeus_boxes/contracts/eos/phoenix/advanced_multi_index.strip.hpp:851-860 | inserting an absent key where the scan stops keeps the invariant |
| `Buckets.ReplaceKeepsNoShadow` | zeus_boxes/contracts/eos/phoenix/advanced_multi_index.strip.hpp:862-870 | replacing a value keeps the invariant |
| `Buckets.DeleteKeepsNoShadow` | zeus_boxes/contracts/eos/phoenix/advanced_multi_index.strip.hpp:872-882 | deleting a record keeps the invariant |
| `Buckets.FindAfterInsert` | zeus_boxes/contracts/eos/phoenix/advanced_multi_index.strip.hpp:851-860 | after an insert the new place answers the new value and all others answer as before |
| `Buckets.FindAfterReplace` | zeus_boxes/contracts/eos/phoenix/advanced_multi_index.strip.hpp:862-870 | after a replace the place answers the new value and all others answer as before |
| `Buckets.FindAfterDelete` | zeus_boxes/contracts/eos/phoenix/advanced_multi_index.strip.hpp:872-882 | after a delete the place is absent and all others answer as before |
| `Buckets.ParseCacheBucket` | zeus_boxes/contracts/eos/phoenix/advanced_multi_index.strip.hpp:576-646 | the byte loop splits the bucket at the place where the scan of the decoded records stops, and reports a hit and its value there |
| `Buckets.CombineParsedBucketParts` | zeus_boxes/contracts/eos/phoenix/advanced_multi_index.strip.hpp:552-573 | the parts are joined as before, optional record, after |
| `Buckets.CombineUndoesParse` | zeus_boxes/contracts/eos/phoenix/advanced_multi_index.strip.hpp:553-646 | joining an untouched parse gives the same bytes, for every (scope, key) |
| `Buckets.EditedParts` | zeus_boxes/contracts/eos/phoenix/advanced_multi_index.strip.hpp:851-882 | the byte edits of add, set and erase are insert, replace and delete on the records, and keep the length a multiple of 52 |
| `Shards.PlaceInRange` | zeus_boxes/contracts/eos/phoenix/advanced_multi_index.strip.hpp:887-911 | the shard and bucket indexes are in range for any hash function |
| `Shards.PlaceBits` | zeus_boxes/contracts/eos/phoenix/advanced_multi_index.strip.hpp:908-909 | the bucket comes from the low bits of the hash, the shard from those above the lowest six, each under its mask |
| `Shards.PlaceIn1024By64` | zeus_boxes/contracts/eos/phoenix/advanced_multi_index.strip.hpp:908-909 | with 1024 shards of 64 buckets they are the hash modulo 64, and its quotient by 64 modulo 1024 |
| `Shards.EmptyShardHoldsNothing` | zeus_boxes/contracts/eos/phoenix/advanced_multi_index.strip.hpp:914-923 | a shard of empty buckets answers nothing for any key, whichever shard it stands for |
| `Shards.OverlayHolds` | zeus_boxes/contracts/eos/phoenix/advanced_multi_index.strip.hpp:1435-1464 | the manifest that takes live shards from their rows and the others from the residual manifest holds the table as it is |
| `Shards.WriteChangesOneKey` | zeus_boxes/contracts/eos/phoenix/advanced_multi_index.strip.hpp:1030-1055 | a bucket write through new store entries changes the answer for exactly one key of its shard |
| `Shards.GrowRows` | zeus_boxes/contracts/eos/phoenix/advanced_multi_index.strip.hpp:1040-1050 | adding to the content store changes what no shard holds |
| `TableModel.ClearIsPlain` | zeus_boxes/contracts/eos/phoenix/advanced_multi_index.strip.hpp:1426-1432 | a clear leaves no row if and only if no row is pending and no other shard carries the next revision, modulo 2^32, and holds a row |
| `TableModel.BackupIsPlain` | zeus_boxes/contracts/eos/phoenix/advanced_multi_index.strip.hpp:1435-1464 | a backup holds what the table answers if and only if no pending shard has a differing live row |
| `TableModel.RestoreIsPlain` | zeus_boxes/contracts/eos/phoenix/advanced_multi_index.strip.hpp:1466-1486 | a restore leaves exactly the rows of the backup if and only if no shard outside it carries the next revision, modulo 2^32, and holds a row |
| `TableModel.StepIsPlain` | zeus_boxes/contracts/eos/phoenix/advanced_multi_index.strip.hpp:1321-1486 | every step answers as a plain map with saved copies does, and acts as it does if and only if the step is safe, which only a clear, a backup or a restore can fail to be |
| `TableModel.RunIsPlain` | zeus_boxes/contracts/eos/phoenix/advanced_multi_index.strip.hpp:841-1055 | over every safe run, however long, the answers, the rows and the backups are those of a plain map with saved copies |
| `TableModel.SafeWithoutWrap` | zeus_boxes/contracts/eos/phoenix/advanced_multi_index.strip.hpp:1426-1432 | with fewer than 2^32 revision changes a run is safe if and only if no clear happens over a pending row |
| `TableModel.ClearForgets` | zeus_boxes/contracts/eos/phoenix/advanced_multi_index.strip.hpp:1426-1432 | after a safe clear no later step of a safe run sees an earlier row |
| `TableModel.RestoreUndoesTheRunIff` | zeus_boxes/contracts/eos/phoenix/advanced_multi_index.strip.hpp:1435-1486 | for every table and run, with any number of revision changes, a backup, the run and the restore bring back every answer if and only if no pending shard had a differing live row and no shard outside the backup has rows under the revision the load moves to |
| `TableModel.RestoreOfOneKeyIff` | zeus_boxes/contracts/eos/phoenix/advanced_multi_index.strip.hpp:1435-1486 | the same for a single key, exactly |
| `TableModel.RestoreUndoesTheRun` | zeus_boxes/contracts/eos/phoenix/advanced_multi_index.strip.hpp:1435-1486 | with fewer than 2^32 revision changes loading a backup gives the rows of all scopes and the key counter at the time it was taken, whatever ran in between and however far the table was loaded |
| `TableModel.ShapeIsFixed` | zeus_boxes/contracts/eos/phoenix/advanced_multi_index.strip.hpp:1352-1362 | the number of shards and buckets is recorded by the first finished emplace, and comes back with a backup |
| `TableModel.RestoreAfterWrap` | zeus_boxes/contracts/eos/phoenix/advanced_multi_index.strip.hpp:1466-1486 | a row written after the backup of the empty table and cleared n times is there after the restore exactly when n + 1 is a multiple of 2^32 |
| `TableModel.BackupCanDiffer` | zeus_boxes/contracts/eos/phoenix/advanced_multi_index.strip.hpp:1435-1464 | a run from the empty table after which a backup saves another row than the table answers, exactly when the revision has wrapped |
| `TableModel.RestoredRowIsPending` | zeus_boxes/contracts/eos/phoenix/advanced_multi_index.strip.hpp:953-1008 | after a write, a backup and its restore the owner reads the row and another contract reads none |
| `TableModel.ClearAfterRestoreKeepsEverything` | zeus_boxes/contracts/eos/phoenix/advanced_multi_index.strip.hpp:1426-1432 | a clear straight after a restore keeps all rows but restarts the keys, so an emplace under the available key fails where it is taken |
| `TableModel.ClearedKeyIsTaken` | zeus_boxes/contracts/eos/phoenix/advanced_multi_index.strip.hpp:1426-1432 | a run from the empty table that shows it: emplace, backup, restore, clear, and the emplace under the available key fails |
| `TableModel.ManyClears` | zeus_boxes/contracts/eos/phoenix/advanced_multi_index.strip.hpp:1426-1432 | after any number of clears only the residual manifest is left if and only if no other row carries the revision reached, modulo 2^32, and holds anything |
| `TableModel.ManyClearsOfCurrentRows` | zeus_boxes/contracts/eos/phoenix/advanced_multi_index.strip.hpp:1426-1432 | where all rows are current, that is so unless the number of clears is a multiple of 2^32 and a row is stored outside the manifest |
| `TableModel.ClearedRowComesBack` | zeus_boxes/contracts/eos/phoenix/advanced_multi_index.strip.hpp:1429 | a row written to the empty table and cleared n times is read again exactly when n is a multiple of 2^32 |
| `TableModel.ClearKeepsFreshIff` | zeus_boxes/contracts/eos/phoenix/advanced_multi_index.strip.hpp:1426-1432 | after a clear every stored key is below the next available key if and only if the clear is safe |
| `TableModel.RunKeepsFresh` | zeus_boxes/contracts/eos/phoenix/advanced_multi_index.strip.hpp:1349-1350 | in every run of the plain table stored keys are below the next key, also in the saved copies |
| `TableModel.AvailableKeyIsUnused` | zeus_boxes/contracts/eos/phoenix/advanced_multi_index.strip.hpp:1321-1366 | after every safe run stored keys are below the counter, and while it is below 2^64 an emplace under the available key succeeds in any scope |
| `VramTable.VramTable.MakeShardPointer` | zeus_boxes/contracts/eos/phoenix/advanced_multi_index.strip.hpp:914-923 | the new shard has the configured number of buckets, all empty |
| `VramTable.VramTable.GetBucket` | zeus_boxes/contracts/eos/phoenix/advanced_multi_index.strip.hpp:927-1028 | returns the bytes of the bucket; the lazy load, create and reset change no row and leave the shard live |
| `VramTable.VramTable.SetBucket` | zeus_boxes/contracts/eos/phoenix/advanced_multi_index.strip.hpp:1030-1055 | replaces one bucket by way of a new bucket and a new shard in the store, changing one key of the table |
| `VramTable.VramTable.Get` | zeus_boxes/contracts/eos/phoenix/advanced_multi_index.strip.hpp:841-849 | answers what the table holds for the key and changes no row |
| `VramTable.VramTable.ExternalGet` | zeus_boxes/contracts/eos/phoenix/advanced_multi_index.strip.hpp:953-1008 | a read by another contract agrees with the table if and only if a pending shard and the row it sees hold the same for the key |
| `VramTable.VramTable.Add` | zeus_boxes/contracts/eos/phoenix/advanced_multi_index.strip.hpp:851-860 | adds an absent key; a present one aborts with the tables as they were |
| `VramTable.VramTable.Set` | zeus_boxes/contracts/eos/phoenix/advanced_multi_index.strip.hpp:862-870 | replaces a present value; an absent key aborts with the tables as they were |
| `VramTable.VramTable.EraseKey` | zeus_boxes/contracts/eos/phoenix/advanced_multi_index.strip.hpp:872-882 | removes a present key; an absent one aborts with the tables as they were |
| `VramTable.VramTable.AvailablePrimaryKey` | zeus_boxes/contracts/eos/phoenix/advanced_multi_index.strip.hpp:1321-1329 | the key counter modulo 2^64 |
| `VramTable.VramTable.EmplaceRow` | zeus_boxes/contracts/eos/phoenix/advanced_multi_index.strip.hpp:1332-1369 | raises the key counter, never lowers it, and adds the row, or aborts with everything as it was |
| `VramTable.VramTable.ModifyRow` | zeus_boxes/contracts/eos/phoenix/advanced_multi_index.strip.hpp:1379-1394 | replaces the row or aborts |
| `VramTable.VramTable.ClearTable` | zeus_boxes/contracts/eos/phoenix/advanced_multi_index.strip.hpp:1426-1432 | the revision moves on, modulo 2^32, and the keys restart; shard rows and the residual manifest stay, for every revision |
| `VramTable.VramTable.CreateBackup` | zeus_boxes/contracts/eos/phoenix/advanced_multi_index.strip.hpp:1435-1464 | saves the residual manifest overlaid with every row of the current revision, also when the table is half loaded |
| `VramTable.VramTable.LoadBackup` | zeus_boxes/contracts/eos/phoenix/advanced_multi_index.strip.hpp:1466-1502 | the backup becomes the residual manifest under the next revision, modulo 2^32; an unknown id aborts |
| `VramTable.VramTable.ExecuteAll` | zeus_boxes/contracts/eos/phoenix/advanced_multi_index.strip.hpp:1308-1503 | every run of the class, however long, is a run of the abstract machine |
| `VramTable.VramTable.TakeRunRestore` | zeus_boxes/contracts/eos/phoenix/advanced_multi_index.strip.hpp:1435-1486 | a backup, any operations and a restore on the class, and exactly when all keys then answer as before, for every revision |
| `VramTable.VramTable.RestoreRoundTrip` | zeus_boxes/contracts/eos/phoenix/advanced_multi_index.strip.hpp:1435-1486 | a key read just before the backup answers the same after any operations and the restore, in every case |
| `Fees.FeeIsExact` | zeus_boxes/contracts/eos/phoenix/pledges.cpp:176-177 | the rounded double product, truncated, is amount / 50 for every 0 < amount < 2^53 |
| `Fees.NumeratorIsNearest` | zeus_boxes/contracts/eos/phoenix/constants.hpp:3 | the modelled constant is the 53-bit number nearest to 0.02 |
| `Fees.FeeIsExactIff` | zeus_boxes/contracts/eos/phoenix/pledges.cpp:176-177 | from 2^53 up to 2^54 the fee is amount / 50 if and only if the amount does not end in 99, and otherwise one unit more |
| `Fees.FeeFromTwo54` | zeus_boxes/contracts/eos/phoenix/pledges.cpp:176-177 | the exact fee from 2^54 up to 2^55: one fiftieth of the nearest multiple of four, plus one unit where that ends in 48 and is at least 7/6 of 2^54 |
| `Fees.FeeFromTwo54IsExactIff` | zeus_boxes/contracts/eos/phoenix/pledges.cpp:176-177 | there it is amount / 50 exactly for the amounts outside a list by last digits |
| `Fees.FirstMissFromTwo54` | zeus_boxes/contracts/eos/phoenix/pledges.cpp:176-177 | 2^54 + 14 is the first amount there whose fee is not one fiftieth |
| `Fees.RoundThenTruncate` | zeus_boxes/contracts/eos/phoenix/pledges.cpp:176-177 | rounding a product and truncating it come to one division that adds half the spacing |
| `Fees.FeeIsBounded` | zeus_boxes/contracts/eos/phoenix/pledges.cpp:176-177 | for every amount the fee is one fiftieth, cut to an integer, up to one part in 2^57 of the amount |
| `Fees.FeeAboveTwo53` | zeus_boxes/contracts/eos/phoenix/pledges.cpp:176-177 | 2^53 + 7 is the first amount whose fee is not one fiftieth |
| `Memos.ParseMemo` | zeus_boxes/contracts/eos/phoenixtoken/phoenixtoken.cpp:233-248 | the loop returns the words of the memo |
| `Memos.SplitThenJoin` | zeus_boxes/contracts/eos/phoenixtoken/phoenixtoken.cpp:233-248 | the words have no spaces and, joined, are the memo or the memo without one last space |
| `Memos.JoinThenSplit` | zeus_boxes/contracts/eos/phoenixtoken/phoenixtoken.cpp:233-248 | every list of space-free words comes back from its join |
| `Memos.DepositMemo` | zeus_boxes/contracts/eos/phoenixtoken/phoenixtoken.cpp:271-275 | a memo is a deposit to n exactly when it is "deposit n" with at most one space after it |
| `Names.CharValueIsPosition` | zeus_boxes/contracts/eos/phoenixtoken/phoenixtoken.cpp:277 | the characters of a name stand for 0 to 31 in the order of the alphabet, and no other is allowed |
| `Names.NameOfIff` | zeus_boxes/contracts/eos/phoenixtoken/phoenixtoken.cpp:277 | exactly the texts of at most thirteen such characters, the thirteenth from the first half, are names |
| `Names.NameDigits` | zeus_boxes/contracts/eos/phoenixtoken/phoenixtoken.cpp:277 | each of the twelve characters lies in five bits from the top, the thirteenth in the last four |
| `Names.PhoenixIsSpelled` | zeus_boxes/contracts/eos/phoenix/constants.hpp:25 | the vaccount that distributes the supply is "phoenix" |
| `Names.FeesIsSpelled` | zeus_boxes/contracts/eos/phoenix/constants.hpp:26 | the vaccount of the fees is "fees.phoenix" |
| `Names.SelfIsSpelled` | zeus_boxes/contracts/eos/phoenix/constants.hpp:28 | the token contract is "phoenixcreat" |
| `Names.AccountIsSpelled` | zeus_boxes/contracts/eos/phoenix/constants.hpp:27 | the membership contract is "phoenixgroup" |
| `Names.WeosdtContractIsSpelled` | zeus_boxes/contracts/eos/phoenix/constants.hpp:31-32 | the contract of the real tokens is "weosdttokens" |
| `Names.StakeIsSpelled` | zeus_boxes/contracts/eos/phoenixtoken/phoenixtoken.cpp:255 | the staking account is "eosio.stake" |
| `Names.WeosdtIsSpelled` | zeus_boxes/contracts/eos/phoenix/constants.hpp:31 | the symbol code of WEOSDT lies in memory as it is written, with 9 decimals |
| `Ledger.MoveIsExact` | zeus_boxes/contracts/eos/phoenixtoken/phoenixtoken.cpp:150-165 | a movement changes the two rows by the quantity and nothing else |
| `Ledger.MoveSucceedsIffCovered` | zeus_boxes/contracts/eos/phoenixtoken/phoenixtoken.cpp:150-206 | in a sound ledger a movement cannot leave the asset range; it succeeds exactly when the row covers it, also from an account to itself |
| `Ledger.TransferSucceedsIff` | zeus_boxes/contracts/eos/phoenixtoken/phoenixtoken.cpp:63-76 | in a sound ledger a transfer of WEOSDT succeeds exactly between two different users, the first of whom has a row that covers it |
| `Ledger.IssueSucceedsIffAllowed` | zeus_boxes/contracts/eos/phoenixtoken/phoenixtoken.cpp:28-61 | an issue succeeds exactly under the authority of this contract as issuer, to PHOENIX, in the right symbol and within the maximum; it cannot overflow the balance |
| `Ledger.StepKeepsSound` | zeus_boxes/contracts/eos/phoenixtoken/phoenixtoken.cpp:8-206 | balances are non-negative and sum to the supply, which is at most the maximum, for every symbol and step |
| `Ledger.StepChangesCover` | zeus_boxes/contracts/eos/phoenixtoken/phoenixtoken.cpp:111-165 | the exact change that each step makes to real tokens held minus balances outside PHOENIX |
| `Ledger.RunKeepsSoundAndBacked` | zeus_boxes/contracts/eos/phoenixtoken/phoenixtoken.cpp:111-280 | conservation holds in every run, and backing in every run in which PHOENIX signs nothing |
| `Ledger.PhoenixMaySpendOnlyTheCover` | zeus_boxes/contracts/eos/phoenixtoken/phoenixtoken.cpp:167-173 | a transfer signed by PHOENIX keeps the backing if and only if the surplus covers it |
| `Ledger.WithdrawalIsHonoured` | zeus_boxes/contracts/eos/phoenixtoken/phoenixtoken.cpp:111-131 | after any run with PHOENIX silent a withdrawal succeeds exactly when its checks pass, the balance covers it, it goes to another account than the contract's, and, if PHOENIX withdraws, the real tokens suffice |
| `Ledger.CoveredWithdrawalCanFail` | zeus_boxes/contracts/eos/phoenixtoken/phoenixtoken.cpp:167-173 | a run from the empty ledger with the signature of PHOENIX after which a permitted and covered withdrawal aborts |
| `Ledger.PayoutIsHonoured` | zeus_boxes/contracts/eos/phoenixtoken/phoenixtoken.cpp:133-148 | after such a run a payout of the collected fees succeeds exactly when its checks pass, there are fees, and it goes to another account than the contract's |
| `Ledger.WithdrawalUndoesDeposit` | zeus_boxes/contracts/eos/phoenixtoken/phoenixtoken.cpp:111-131 | what anyone deposited, PHOENIX included, can be withdrawn at once to any account but the contract's own, and then all balances and the real tokens are as before |
| `TokenLaws.ActionFlows` | zeus_boxes/contracts/eos/phoenixtoken/phoenixtoken.cpp:28-280 | what every finished action does to every balance and to the real tokens |
| `TokenLaws.ActionFrames` | zeus_boxes/contracts/eos/phoenixtoken/phoenixtoken.cpp:28-280 | what it leaves alone: the real tokens, the pause and the users |
| `TokenLaws.BalanceFallsOnlyByItsOwner` | zeus_boxes/contracts/eos/phoenixtoken/phoenixtoken.cpp:63-173 | a balance falls only by a transferv or withdrawal that its owner signed, a transfer or payout under contract authority, or, for PHOENIX, by a deposit |
| `TokenLaws.SilentBalanceNeverFalls` | zeus_boxes/contracts/eos/phoenixtoken/phoenixtoken.cpp:63-173 | over every run a balance never falls while its owner signs nothing and no contract takes from it |
| `TokenLaws.TransferVSucceedsIff` | zeus_boxes/contracts/eos/phoenixtoken/phoenixtoken.cpp:167-173 | a transferv succeeds exactly with the signature of the payer, a short memo, two different users and a covering row |
| `TokenLaws.TransferNeedsAContract` | zeus_boxes/contracts/eos/phoenixtoken/phoenixtoken.cpp:63-76 | a direct transfer succeeds exactly so under the authority of one of the two contracts |
| `TokenLaws.WithdrawSucceedsIff` | zeus_boxes/contracts/eos/phoenixtoken/phoenixtoken.cpp:111-131 | in any sound ledger a withdrawal succeeds exactly with the signature of its vaccount, its checks, a covering row and enough real tokens |
| `TokenLaws.PayoutSucceedsIff` | zeus_boxes/contracts/eos/phoenixtoken/phoenixtoken.cpp:133-148 | in any sound ledger a payout succeeds exactly under the authority of the contract, with fees that the real tokens cover |
| `TokenLaws.DepositSucceedsIff` | zeus_boxes/contracts/eos/phoenixtoken/phoenixtoken.cpp:250-280 | a real transfer is credited exactly if the contract runs, the memo is "deposit n" with at most one further space, n spells a user, and the row of PHOENIX covers the positive amount |
| `TokenLaws.OtherTransferSucceedsIff` | zeus_boxes/contracts/eos/phoenixtoken/phoenixtoken.cpp:250-267 | other notifications pass exactly if they come from this contract or the staking account, or are of another symbol |
| `TokenLaws.RealTransferSucceedsIff` | zeus_boxes/contracts/eos/phoenixtoken/phoenixtoken.cpp:254-257 | real tokens from the staking account are kept without a credit; a transfer to oneself is refused |
| `TokenLaws.CreateSucceedsIff` | zeus_boxes/contracts/eos/phoenixtoken/phoenixtoken.cpp:8-26 | a symbol is created exactly under contract authority, valid, new, and with a maximum from 1 to 2^62 - 1 |
| `TokenLaws.OpenSucceedsIff` | zeus_boxes/contracts/eos/phoenixtoken/phoenixtoken.cpp:78-108 | a row is opened exactly under the authority of the membership contract for a user and an existing symbol |
| `TokenLaws.SuppliesChangeOnlyByTheContract` | zeus_boxes/contracts/eos/phoenixtoken/phoenixtoken.cpp:8-61 | only the contract creates symbols, with no supply, and only its issues raise a supply, within a maximum that never changes |
| `TokenLaws.RowsAppear` | zeus_boxes/contracts/eos/phoenixtoken/phoenixtoken.cpp:78-108 | rows never go away; a new one is empty when opened and holds tokens otherwise |
| `TokenLaws.PausedDoesNothing` | zeus_boxes/contracts/eos/phoenixtoken/phoenixtoken.cpp:228-231 | a paused contract does nothing but create symbols |
| `TokenContract.TokenContract.IssueTokens` | zeus_boxes/contracts/eos/phoenixtoken/phoenixtoken.cpp:28-61 | supply and the row of PHOENIX grow together, exactly when the ledger machine permits it; otherwise both are as before |
| `TokenContract.TokenContract.TransferAction` | zeus_boxes/contracts/eos/phoenixtoken/phoenixtoken.cpp:63-76 | moves tokens between two different users under contract authority exactly when the ledger machine does, or changes nothing |
| `TokenContract.TokenContract.TransferVAction` | zeus_boxes/contracts/eos/phoenixtoken/phoenixtoken.cpp:167-173 | the same movement, under the signature of the account that pays |
| `TokenContract.TokenContract.OpenAccount` | zeus_boxes/contracts/eos/phoenixtoken/phoenixtoken.cpp:78-108 | an empty row appears if there was none; an existing balance is never reset |
| `TokenContract.TokenContract.WithdrawV` | zeus_boxes/contracts/eos/phoenixtoken/phoenixtoken.cpp:111-131 | virtual tokens to PHOENIX and real ones out, or neither |
| `TokenContract.TokenContract.PayoutFees` | zeus_boxes/contracts/eos/phoenixtoken/phoenixtoken.cpp:133-148 | the whole fee balance is paid out, or nothing happens |
| `TokenContract.TokenContract.MoveTokens` | zeus_boxes/contracts/eos/phoenixtoken/phoenixtoken.cpp:150-165 | both rows change or none does |
| `TokenContract.TokenContract.OnTransferNotice` | zeus_boxes/contracts/eos/phoenixtoken/phoenixtoken.cpp:250-280 | outgoing and foreign transfers change nothing, a well-formed deposit credits exactly the named user out of the row of PHOENIX, anything else aborts |
| `TokenContract.TokenContract.IncomingTransfer` | zeus_boxes/contracts/eos/phoenixtoken/phoenixtoken.cpp:250-280 | a real transfer and its notification happen together or not at all |
| `TokenContract.TokenContract.PerformAll` | zeus_boxes/contracts/eos/phoenixtoken/phoenixtoken.cpp:295-317 | every run of the contract is a run of the ledger machine |
| `PledgeModel.TimerIsNeverEarly` | zeus_boxes/contracts/eos/phoenix/pledges.cpp:216-220 | the scheduled delay ends after the cycle, by at most one second, for every remaining time |
| `PledgeModel.RunKeepsInv` | zeus_boxes/contracts/eos/phoenix/pledges.cpp:8-231 | in every run ids are below the counter and unique, the cycle is 30 days, quantities are positive, and each timer lies just after the end of the cycle it was set in |
| `PledgeLaws.RenewalMovesExactly` | zeus_boxes/contracts/eos/phoenix/pledges.cpp:172-190 | a renewal debits the payer exactly the quantity, credits creator and fees account with its two parts, and leaves all other balances |
| `PledgeLaws.RenewalSucceedsIff` | zeus_boxes/contracts/eos/phoenix/pledges.cpp:124-190 | a renewal finishes exactly when its checks pass, payer and creator are different users, a row covers the quantity, and a fee can go to the fees account |
| `PledgeLaws.UnpayablePledgeIsNeverRenewed` | zeus_boxes/contracts/eos/phoenix/pledges.cpp:179-185 | a pledge to oneself, or of the fees account where a fee is due, can never be renewed |
| `PledgeLaws.PaidInSomeRunIff` | zeus_boxes/contracts/eos/phoenix/pledges.cpp:172-190 | a pledge is charged in some run of the two contracts if and only if its payer is not its creator, nor the fees account at 50 units or more, and its quantity is in range |
| `PledgeLaws.UnpayablePledgeIsAccepted` | zeus_boxes/contracts/eos/phoenix/pledges.cpp:8-19 | a pledge call accepts every pair of users and every positive quantity, payable or not |
| `PledgeLaws.PledgeSucceedsIffAllowed` | zeus_boxes/contracts/eos/phoenix/pledges.cpp:8-63 | while ids are left a pledge succeeds exactly if the contract runs, the payer signed, both are users, and the quantity is positive WEOSDT |
| `PledgeStore.NewPledgeIsAnEmplace` | zeus_boxes/contracts/eos/phoenix/pledges.cpp:44-46 | creating a pledge succeeds with, and moves the counter like, an emplace under the available key of the vRAM table |
| `PledgeStore.StepIsStored` | zeus_boxes/contracts/eos/phoenix/pledges.cpp:8-168 | a step is an emplace under the available key, or a read and a modify, or nothing on the table; the read answers the pledge as it was and the write succeeds |
| `PledgeStore.RunIsStored` | zeus_boxes/contracts/eos/phoenix/pledges.cpp:8-231 | every run of the pledges is a run of the vRAM table from empty, in which all calls succeed and after which the table holds exactly the pledges |
| `PledgeLaws.NewPledgeIsPayableAtOnce` | zeus_boxes/contracts/eos/phoenix/pledges.cpp:151-166 | a new pledge can be paid immediately exactly when users and balance allow the payment, and after that only once 30 days have passed |
| `PledgeLaws.UpdateKeepsTheCycle` | zeus_boxes/contracts/eos/phoenix/pledges.cpp:65-76 | a pledge call moves no tokens, keeps the quantity, start and end of the running cycle, and leaves other pledges alone |
| `PledgeLaws.PaymentsAreSpaced` | zeus_boxes/contracts/eos/phoenix/pledges.cpp:151-166 | in every run n payments of one payer to one creator span more than n - 1 times 30 days |
| `PledgeLaws.PledgeIsSigned` | zeus_boxes/contracts/eos/phoenix/pledges.cpp:8-76 | in every run a pair has a pledge exactly if a pledge call of its payer, signed by the payer, went through; the next cycle is what the last such call says |
| `PledgeLaws.PaymentIsAuthorised` | zeus_boxes/contracts/eos/phoenix/pledges.cpp:8-76 | every payment is the positive quantity of the most recent pledge call, which the payer signed, and the payer signed the renewal too or asked for automatic renewal in that call |
| `PledgeLaws.TimerPassesTheCycleCheck` | zeus_boxes/contracts/eos/phoenix/pledges.cpp:192-231 | a due callback fails the running-cycle check only if the pledge was renewed meanwhile, and otherwise succeeds exactly when the contract runs, the pledge renews automatically, and users and balance allow the payment |
| `PledgeHistory.RenewalSchedules` | zeus_boxes/contracts/eos/phoenix/pledges.cpp:187-189 | a finished renewal sets the timer of its pledge to one second after the thirty days exactly if the pledge renews automatically, and touches no other timer |
| `PledgeHistory.OnlyRenewalsSchedule` | zeus_boxes/contracts/eos/phoenix/pledges.cpp:187-231 | nothing but a finished renewal touches a timer |
| `PledgeHistory.TimersTellRenewals` | zeus_boxes/contracts/eos/phoenix/pledges.cpp:187-231 | after every run a pledge has a timer exactly if it was ever renewed while it renewed automatically: that of the last such renewal |
| `PledgeHistory.CallbackSucceedsIff` | zeus_boxes/contracts/eos/phoenix/pledges.cpp:192-214 | a callback finishes exactly when it is due, the contract runs, the pledge renews automatically, its cycle is over and the payment can be made |
| `PledgeHistory.CallWrites` | zeus_boxes/contracts/eos/phoenix/pledges.cpp:42-76 | what a pledge call writes into a new row and into an old one |
| `PledgeHistory.RowsTellCycles` | zeus_boxes/contracts/eos/phoenix/pledges.cpp:42-168 | after every run the running cycle of a row started with the first call or else the last payment, at the price then called or charged |
| `PledgeHistory.PauseStopsPledges` | zeus_boxes/contracts/eos/phoenix/main.cpp:127-133 | a pause needs the authority of the membership contract and stops pledges and renewals |
| `PledgeHistory.ThirtyDays` | zeus_boxes/contracts/eos/phoenix/pledges.cpp:52 | a cycle is thirty days in microseconds |
| `PledgeLaws.RunKeepsBacked` | zeus_boxes/contracts/eos/phoenix/pledges.cpp:172-190 | conservation holds in every run of both contracts, and real tokens back all balances in those in which PHOENIX signs nothing |
| `PledgeLaws.WithdrawalIsHonouredBesidesPledges` | zeus_boxes/contracts/eos/phoenixtoken/phoenixtoken.cpp:111-131 | the exact condition of a withdrawal holds in those runs too |
| `Relations.RelationsAgree` | zeus_boxes/contracts/eos/phoenix/pledges.cpp:78-122 | (to, id) is in the payer's list iff (from, id) is in the creator's list iff the pledge has that id, self-pledges included |
| `Relations.AddKeepsMirrors` | zeus_boxes/contracts/eos/phoenix/pledges.cpp:78-122 | adding the link of a new pledge keeps a relation table an exact image of the pledges, one entry per name |
| `Relations.NamedIffPledged` | zeus_boxes/contracts/eos/phoenix/pledges.cpp:28-33 | a name is listed if and only if the pair has a pledge |
| `Relations.FindLink` | zeus_boxes/contracts/eos/phoenix/pledges.cpp:29-32 | the first link with the name, or the end |
| `Relations.UpsertLink` | zeus_boxes/contracts/eos/phoenix/pledges.cpp:82-121 | a new row, a longer list, or nothing when the name is listed |
| `PledgeContract.PledgeContract.SubmitPledgeAction` | zeus_boxes/contracts/eos/phoenix/pledges.cpp:8-40 | creates the one pledge of the pair or changes only its next cycle, and the three tables still agree; an abort changes nothing |
| `PledgeContract.PledgeContract.CreatePledge` | zeus_boxes/contracts/eos/phoenix/pledges.cpp:42-63 | the new pledge is in all three tables |
| `PledgeContract.PledgeContract.UpdatePledge` | zeus_boxes/contracts/eos/phoenix/pledges.cpp:65-76 | only the next cycle and the renewal flag change |
| `PledgeContract.PledgeContract.RenewPledge` | zeus_boxes/contracts/eos/phoenix/pledges.cpp:124-168 | starts the next cycle and pays for it, or aborts with both contracts as they were |
| `PledgeContract.PledgeContract.PayPledge` | zeus_boxes/contracts/eos/phoenix/pledges.cpp:172-190 | both transfers and the timer, or nothing |
| `PledgeContract.PledgeContract.ScheduleRenewal` | zeus_boxes/contracts/eos/phoenix/pledges.cpp:216-231 | the timer is due one second after the whole seconds left in the cycle |
| `PledgeContract.PledgeContract.TimerCallback` | zeus_boxes/contracts/eos/phoenix/pledges.cpp:192-214 | a renewal without a signature |
| `PledgeContract.PledgeContract.PerformAll` | zeus_boxes/contracts/eos/phoenix/pledges.cpp:8-231 | every run of the two contracts is a run of the machine, with the three tables in agreement |
| `Posts.LatestPostsAreTheNewest` | zeus_boxes/contracts/eos/phoenix/main.cpp:252-342 | in every run the latest list is the newest live posts, newest first, at most 20, without a gap; each listed id has one author, the one on its row; without deletions the list is full |
| `Posts.RunKeepsInv` | zeus_boxes/contracts/eos/phoenix/main.cpp:252-374 | in every run the latest list is a prefix of all live ids in descending order, row ids are 0 up to the number created, each author's list is increasing, and every live encrypted post has its key and price |
| `Posts.CreateSucceedsIffAllowed` | zeus_boxes/contracts/eos/phoenix/main.cpp:273-313 | until 2^64 posts are made a creation fails only by its checks: the new id meets no row and no key |
| `Posts.KeysStayLiveIff` | zeus_boxes/contracts/eos/phoenix/main.cpp:318-374 | a step leaves a key without a live post if and only if it is an encrypted edit of a deleted post |
| `Posts.KeysAlwaysLiveIff` | zeus_boxes/contracts/eos/phoenix/main.cpp:273-374 | in every run keys belong to live posts throughout if and only if no finished step is an encrypted edit of a deleted post |
| `Posts.DeletedPostGetsAKey` | zeus_boxes/contracts/eos/phoenix/main.cpp:318-374 | signing up, posting, deleting and editing leaves the key of a deleted post |
| `Posts.NearestFloatIsRefused` | zeus_boxes/contracts/eos/phoenix/main.cpp:301-303 | the float nearest to 0.01 is below the double constant and is refused; the next float is the least that passes |
| `Posts.DescendingWithout` | zeus_boxes/contracts/eos/phoenix/main.cpp:262-271 | deleting a live post deletes its id from the descending list |
| `PostHistory.CreateSucceedsIff` | zeus_boxes/contracts/eos/phoenix/main.cpp:273-313 | a post is created exactly if the contract runs, the author signed and is a user, the id is the number of posts made, and an encrypted post has a price and a key |
| `PostHistory.ChangeSucceedsIff` | zeus_boxes/contracts/eos/phoenix/main.cpp:315-374 | a post is deleted exactly by its signing author while it is listed, and edited exactly by its signing author |
| `PostHistory.RunsTellPosts` | zeus_boxes/contracts/eos/phoenix/main.cpp:273-374 | after every run a row is what its last creation or edit says, a key is that of the last encrypted one since the last deletion, and a listing is that of the creation unless deleted, each signed by the author |
| `PostHistory.AuthorStays` | zeus_boxes/contracts/eos/phoenix/main.cpp:343-352 | the author of a row never changes |
| `Posts.PostContract.UpdateLatestPosts` | zeus_boxes/contracts/eos/phoenix/main.cpp:252-260 | the new id goes to the front and the 21st is dropped |
| `Posts.PostContract.RemoveFromLatestPosts` | zeus_boxes/contracts/eos/phoenix/main.cpp:262-271 | the first occurrence is erased, if any |
| `Posts.PostContract.Create` | zeus_boxes/contracts/eos/phoenix/main.cpp:273-313 | the new post is on its row, on its author's list and at the front of the latest ones, under the expected id, and its key is stored if it is encrypted; or nothing changes |
| `Posts.PostContract.CheckSecret` | zeus_boxes/contracts/eos/phoenix/main.cpp:301-305 | an encrypted post passes exactly with a key and a price of at least the double 0.01, plus infinity included and not-a-number excluded |
| `Posts.PostContract.Update` | zeus_boxes/contracts/eos/phoenix/main.cpp:315-374 | deletes the post from both lists and its key, or changes the row and the key, or aborts with nothing changed |
| `Posts.PostContract.PerformAll` | zeus_boxes/contracts/eos/phoenix/main.cpp:252-374 | every run of the contract is a run of the machine |
| `Follows.Unique` | zeus_boxes/contracts/eos/phoenix/helpers.hpp:14 | what std::unique leaves in the vector when its result is discarded |
| `Follows.DiffVectors` | zeus_boxes/contracts/eos/phoenix/helpers.hpp:10-22 | append, compact in place, erase the first occurrence of each removed name |
| `Follows.UniqueIsNoRepair` | zeus_boxes/contracts/eos/phoenix/helpers.hpp:13-14 | the discarded std::unique leaves a list without repetition if and only if it had none |
| `Follows.UniqueCounts` | zeus_boxes/contracts/eos/phoenix/helpers.hpp:14 | the names that repeat their neighbour go, and as many from the end of the list come instead |
| `Follows.DiffMembers` | zeus_boxes/contracts/eos/phoenix/helpers.hpp:10-22 | for new distinct names the result is the old ones plus the added minus the removed, without repetition |
| `Follows.DiffKeepsOrder` | zeus_boxes/contracts/eos/phoenix/helpers.hpp:10-22 | for new distinct names the result keeps the order: the old list, then the additions, each without the removed names |
| `Follows.FollowKeepsInv` | zeus_boxes/contracts/eos/phoenix/main.cpp:376-432 | a payload of new distinct names keeps the tables symmetric and duplicate-free, and the list becomes old plus follows minus unfollows |
| `Follows.FollowNeedsNewNames` | zeus_boxes/contracts/eos/phoenix/main.cpp:376-417 | for payloads without unfollows that condition is exact |
| `Follows.FollowKeepsInvIff` | zeus_boxes/contracts/eos/phoenix/main.cpp:376-432 | for every payload the tables stay symmetric and duplicate-free if and only if each name is listed at most once more than unfollowed, and either as often taken out as put in or gone in both tables |
| `Follows.ToAfterStep` | zeus_boxes/contracts/eos/phoenix/main.cpp:401-431 | the follower lists after the two loops hold each follower as often as followed before and now, less the unfollows |
| `Follows.RunKeepsInv` | zeus_boxes/contracts/eos/phoenix/main.cpp:376-432 | symmetry holds in every run of such payloads |
| `Follows.RunKeepsInvIff` | zeus_boxes/contracts/eos/phoenix/main.cpp:376-432 | in every run the tables agree after each call exactly when each finished payload meets that condition |
| `Follows.FollowSucceedsIff` | zeus_boxes/contracts/eos/phoenix/main.cpp:376-431 | a follow call succeeds exactly if the contract runs, the user signed, and everyone in it is a user |
| `Follows.SilentListStays` | zeus_boxes/contracts/eos/phoenix/main.cpp:376-398 | in every run the list of a user who signs nothing stays as it is |
| `Follows.OthersStayFollowers` | zeus_boxes/contracts/eos/phoenix/main.cpp:400-431 | a call changes only its signer as a follower |
| `Follows.RepeatedFollowBreaksSymmetry` | zeus_boxes/contracts/eos/phoenix/main.cpp:376-432 | a repeated name leaves a follower listed whose own list lacks the user |
| `Follows.AddFollower` | zeus_boxes/contracts/eos/phoenix/main.cpp:401-417 | the loop over the follows, stopped by a missing user |
| `Follows.RemoveFollower` | zeus_boxes/contracts/eos/phoenix/main.cpp:419-431 | the loop over the unfollows, stopped by a missing user |
| `Follows.FollowContract.FollowAction` | zeus_boxes/contracts/eos/phoenix/main.cpp:376-432 | both tables change as the machine says, or, when the contract is paused or any name is not a user, neither does |
| `Follows.FollowContract.PerformAll` | zeus_boxes/contracts/eos/phoenix/main.cpp:376-432 | every run of the contract is a run of the machine |
| `Sequences.IndexOf` | zeus_boxes/contracts/eos/phoenix/main.cpp:262-271 | the first position of the value or the end, and what erasing there leaves |

## Left out

- The B-tree of `advanced_multi_index.strip.hpp` (lines 86-522): the hash table does not use it, and it is unfinished.
- Keys wider than 64 bits (`IPFS_FEATURE_PRIMKEY` with uint128 or checksum256): every table of the two contracts uses uint64 keys.
- Content addressing: an address is a position in a store that only grows, so equal contents may get two addresses. Hash values, pinning, cleanup delays and warm-up are the IPFS service's.
- The row objects themselves: a record's value is its 36-byte content address, and packing and unpacking rows is the library's. Value lengths other than 36 bytes are not modelled.
- SHA-256 of the text "scope-key": replaced by an arbitrary function of scope and key.
- Cross-chain reads and writes by a contract that does not own the table.
- A table opened with two different geometries: one number of shards and buckets is fixed for each table, so the two geometry checks of `emplace` cannot fail.
- Loading a manifest that did not come from a backup of the same table.
- Fees.FeeIsBounded: from 2^55 units on a bound is proved, not the exact value.
- Timestamps of backups, and the packed form of timer payloads.
- The real WEOSDT token contract is not part of this repository: it is taken to move exactly the stated quantity and to refuse non-positive amounts, overdrafts and transfers to oneself.
- Clocks: time is an unbounded number of microseconds, so the 64-bit overflow of time points is not modelled.
- The cron service: a timer is a due time and the pair it renews, and a callback comes no earlier; retries are not modelled.
- `usd_value` and its floats, which never move tokens; `next_delete` is stored but never acted on, as in the code.
- Vaccount signatures, nonces and chain authorities: a step carries the set of names that signed.
- Post contents, profile fields, tiers, featured lists, custom URLs, login keys, daily limits, account linking and creation: single checks or single writes.
- Names in payloads are 64-bit words; only names written in memos are parsed from text.
- `testreset`, the JavaScript scripts, the tests and the build files.
