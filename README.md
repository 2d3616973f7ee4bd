# Credibility-weighted matcher

A Dafny model of the credibility-weighted matcher program for the Percolator
perpetuals venue (`matcher/credibility/src/lib.rs`). The matcher is a Solana
program that keeps a 320-byte context account. Bytes 0..64 hold the return
record of the last match. Bytes 64..320 hold the matcher's parameters and state.

The program takes three instructions:

- **match** (tag `0x00`): the LP account must sign. The handler checks the
  context and quotes a price: the oracle price widened by a spread plus a fee,
  in basis points. It then records the new inventory and the prices.
- **init** (tag `0x02`): writes the magic, the version, the kind, the LP's key
  and every parameter into a context that is not yet initialized.
- **update credibility** (tag `0x03`): needs no permission. It copies the
  insurance-fund balance and the total open interest out of the venue's slab
  account, reads the current slot from the clock account, and advances the
  market's age.

The spread has four steps:

1. Start at the floor.
2. Widen it by the imbalance of the LP's inventory.
3. Narrow it by a discount proportional to insurance coverage of open interest.
4. Clamp it to `[1, max_spread_bps]`.

The modules are:

- `Ints`: the Rust integer widths, with `as` casts, wrapping and saturating
  arithmetic written out.
- `LittleEndian`: `read_*`/`write_*` and `from_le_bytes`/`to_le_bytes`, with
  their round trips and the frame of a write.
- `Layout`: the context's offsets and its decoding into a `MatcherContext`
  record.
- `Pricing`: the spread and the execution price, as pure functions.
- `Matcher`: each handler as a method that edits the account's byte array in
  place. Each method is proved against a pure specification function
  (`MatchOutcome`, `InitOutcome`, `UpdateOutcome`). Each specification gives
  either the error, or the new bytes of the context. The module also holds the
  dispatcher.
- `MatcherProperties` and `InstructionProperties`: what each instruction does
  to the decoded context, when it is accepted, and how instructions compose.
  For example: init happens once, init binds the LP, an update feeds the next
  quote, and the market age accumulates.

`lib.rs` rounds both the buy and the sell price down (lines 245-253); see
`Pricing.ExecPriceRoundsDown`.

The match handler is modelled as written, truncating `as u64` casts included
(`Pricing.SpreadAsWritten`). `Pricing.Spread` is the same rule without the two
casts and without the u128 wrap of `insurance * BPS`, which the Findings below
show to be wrong. The monotonicity lemmas are proved about it, and
`Pricing.SpreadAsWrittenAgrees` gives the inputs on which the handler's spread
equals it.

Integer overflow follows the release build, which wraps. This applies to the
i128 inventory sum, the u128 product `insurance * BPS`, the u64 age sum and the
`as u64` casts. A `clamp(1, 0)` panic is the error `Panic`. The panic comes
before any write, so the account is left unchanged.

## Model

| member | source | states |
|---|---|---|
| `Ints.UnsignedAbs` | matcher/credibility/src/lib.rs:187 | `unsigned_abs` of an i128 is its magnitude, and zero exactly for zero |
| `Ints.WrapI128` | matcher/credibility/src/lib.rs:194 | the i128 sum wraps modulo 2^128 and is exact when it fits |
| `Ints.TruncU64` | matcher/credibility/src/lib.rs:248 | an `as u64` cast keeps the value modulo 2^64, and exactly when it fits |
| `Ints.WrapU128` | matcher/credibility/src/lib.rs:229 | the release-mode u128 product `insurance * BPS` keeps the value modulo 2^128, and is exact when it fits |
| `Ints.AsI64` | matcher/credibility/src/lib.rs:261 | `exec_price as i64` reinterprets modulo 2^64 and is exact below 2^63 |
| `Ints.SaturatingAdd` | matcher/credibility/src/lib.rs:221 | `saturating_add` is the exact sum, or u64::MAX when the sum overflows; never below the first operand |
| `Ints.SaturatingSub` | matcher/credibility/src/lib.rs:237 | `saturating_sub` is the exact difference, or 0 when it would be negative; never above the first operand |
| `LittleEndian.FromLEToLE` | matcher/credibility/src/lib.rs:485-515 | decoding the little-endian encoding of an unsigned value gives the value back |
| `LittleEndian.ToLEFromLE` | matcher/credibility/src/lib.rs:485-515 | encoding the decoded value of any byte string gives the string back |
| `LittleEndian.FromLESignedToLESigned` | matcher/credibility/src/lib.rs:497-499 | two's-complement little-endian decoding inverts encoding for every in-range signed value |
| `LittleEndian.ToLESignedFromLESigned` | matcher/credibility/src/lib.rs:497-499 | every byte string is the two's-complement encoding of the signed value read from it |
| `LittleEndian.CopyFromSlice` | matcher/credibility/src/lib.rs:339-340 | `copy_from_slice` replaces exactly the target range with the source bytes |
| `LittleEndian.WriteU32` | matcher/credibility/src/lib.rs:501-503 | `write_u32` changes only bytes `[off, off+4)`, and `read_u32` there gives the value back |
| `LittleEndian.WriteU64` | matcher/credibility/src/lib.rs:505-507 | `write_u64` changes only its 8 bytes, and `read_u64` there gives the value back |
| `LittleEndian.WriteI64` | matcher/credibility/src/lib.rs:261-263 | the return record's i64 price store changes only its 8 bytes and reads back |
| `LittleEndian.WriteU128` | matcher/credibility/src/lib.rs:509-511 | `write_u128` changes only its 16 bytes, and `read_u128` there gives the value back |
| `LittleEndian.WriteI128` | matcher/credibility/src/lib.rs:513-515 | `write_i128` changes only its 16 bytes, and `read_i128` there gives the value back |
| `LittleEndian.ReadEncodedU32` | matcher/credibility/src/lib.rs:485-487 | `read_u32` of bytes holding an encoded u32 gives that u32 |
| `LittleEndian.ReadEncodedU64` | matcher/credibility/src/lib.rs:489-491 | `read_u64` of bytes holding an encoded u64 gives that u64 |
| `LittleEndian.ReadEncodedU128` | matcher/credibility/src/lib.rs:493-495 | `read_u128` of bytes holding an encoded u128 gives that u128 |
| `LittleEndian.ReadEncodedI64` | matcher/credibility/src/lib.rs:261-263 | the i64 in the return record reads back as stored |
| `LittleEndian.ReadEncodedI128` | matcher/credibility/src/lib.rs:497-499 | `read_i128` of bytes holding an encoded i128 gives that i128 |
| `LittleEndian.ReadWriteU32` | matcher/credibility/src/lib.rs:485-503 | read after write at the same offset gives the written u32 |
| `LittleEndian.ReadWriteU64` | matcher/credibility/src/lib.rs:489-507 | read after write at the same offset gives the written u64 |
| `LittleEndian.ReadWriteU128` | matcher/credibility/src/lib.rs:493-511 | read after write at the same offset gives the written u128 |
| `LittleEndian.ReadWriteI64` | matcher/credibility/src/lib.rs:261-263 | read after write of the i64 return price gives it back |
| `LittleEndian.ReadWriteI128` | matcher/credibility/src/lib.rs:497-515 | read after write at the same offset gives the written i128 |
| `LittleEndian.EncodeReadU32` | matcher/credibility/src/lib.rs:485-487 | the bytes a `read_u32` decodes are the encoding of the value it returns |
| `LittleEndian.EncodeReadU64` | matcher/credibility/src/lib.rs:489-491 | the bytes a `read_u64` decodes are the encoding of the value it returns |
| `LittleEndian.EncodeReadU128` | matcher/credibility/src/lib.rs:493-495 | the bytes a `read_u128` decodes are the encoding of the value it returns |
| `LittleEndian.EncodeReadI128` | matcher/credibility/src/lib.rs:497-499 | the bytes a `read_i128` decodes are the encoding of the value it returns |
| `Layout.DecodeContextEncodes` | matcher/credibility/src/lib.rs:143-184 | each field of the decoded context is exactly the value whose encoding sits at that field's offset, so decoding loses nothing |
| `Pricing.ImbalanceProduct` | matcher/credibility/src/lib.rs:217-219 | `checked_mul(..).unwrap_or(u128::MAX)` is the exact product when it fits and u128::MAX otherwise |
| `Pricing.ImbalanceCost` | matcher/credibility/src/lib.rs:215-221 | the corrected imbalance term: the saturated product over the liquidity, or u64::MAX when that quotient does not fit; 0 for a flat inventory |
| `Pricing.ImbalanceCostAsWritten` | matcher/credibility/src/lib.rs:217-221 | the imbalance term as written is the exact quotient whenever the product fits a u128 and the quotient fits a u64; 0 for a flat inventory |
| `Pricing.ImbalanceCostMonotone` | matcher/credibility/src/lib.rs:215-221 | a larger inventory magnitude never lowers the imbalance term |
| `Pricing.ImbalancedSpread` | matcher/credibility/src/lib.rs:211-222 | steps 1-2 never go below the floor, and equal the floor when liquidity, k or inventory is zero |
| `Pricing.ImbalancedSpreadAsWritten` | matcher/credibility/src/lib.rs:211-222 | steps 1-2 as written never go below the floor, and equal the floor when liquidity, k or inventory is zero |
| `Pricing.CoverageBps` | matcher/credibility/src/lib.rs:229-233 | coverage is at most 100%, is exactly 100% when insurance covers open interest, and is `insurance*BPS/oi` below that |
| `Pricing.CoverageBpsAsWritten` | matcher/credibility/src/lib.rs:229-231 | the coverage as written is the exact quotient whenever the product does not wrap and the quotient fits a u64; 0 without insurance |
| `Pricing.CoverageAsWrittenUpToFull` | matcher/credibility/src/lib.rs:229-233 | up to full coverage, and without wrap, the coverage as written is the capped coverage |
| `Pricing.Discount` | matcher/credibility/src/lib.rs:232-236 | the discount is at most the weight, equals it at full coverage, and is strictly below it at partial coverage |
| `Pricing.DiscountMonotone` | matcher/credibility/src/lib.rs:232-236 | more coverage never gives a smaller discount |
| `Pricing.CoverageMonotone` | matcher/credibility/src/lib.rs:229-233 | more insurance never gives less coverage |
| `Pricing.CoverageAntitone` | matcher/credibility/src/lib.rs:229-233 | more open interest never gives more coverage |
| `Pricing.DiscountedSpread` | matcher/credibility/src/lib.rs:228-238 | step 3 never widens the spread and takes off at most the weight; with zero weight, open interest or insurance nothing is taken off |
| `Pricing.DiscountedSpreadAsWritten` | matcher/credibility/src/lib.rs:228-238 | step 3 as written never widens the spread and takes off at most the weight; with zero weight, open interest or insurance nothing is taken off |
| `Pricing.Clamp` | matcher/credibility/src/lib.rs:241 | `clamp(1, max)` lies in `[1, max]`, keeps values already inside, and maps values below to 1 and above to max |
| `Pricing.ClampMonotone` | matcher/credibility/src/lib.rs:241 | clamping preserves order |
| `Pricing.Spread` | matcher/credibility/src/lib.rs:210-241 | the quoted spread always lies in `[1, max_spread_bps]` |
| `Pricing.SpreadAsWritten` | matcher/credibility/src/lib.rs:210-241 | the spread as written also lies in `[1, max_spread_bps]` |
| `Pricing.NoDiscountWithoutWeightOrInterest` | matcher/credibility/src/lib.rs:228 | with zero weight or zero open interest, the spread is the clamped floor-plus-imbalance |
| `Pricing.FullCoverageFullDiscount` | matcher/credibility/src/lib.rs:225-236 | when insurance covers open interest, the discount is exactly the weight |
| `Pricing.SpreadMonotoneInInsurance` | matcher/credibility/src/lib.rs:224-241 | more insurance never widens the spread |
| `Pricing.SpreadMonotoneInOpenInterest` | matcher/credibility/src/lib.rs:224-241 | more open interest never narrows the spread |
| `Pricing.SpreadMonotoneInInventory` | matcher/credibility/src/lib.rs:213-241 | a larger inventory imbalance never narrows the spread |
| `Pricing.SpreadAsWrittenAgrees` | matcher/credibility/src/lib.rs:215-241 | where the coverage product does not wrap and neither `as u64` cast truncates, the code as written and the corrected rule give the same spread |
| `Pricing.ImbalanceCostAsWrittenAgrees` | matcher/credibility/src/lib.rs:217-221 | without overflow or truncation, the imbalance term as written equals the intended one |
| `Pricing.DiscountedSpreadAsWrittenAgrees` | matcher/credibility/src/lib.rs:229-237 | without wrap or truncation of the coverage, step 3 as written equals the intended one |
| `Pricing.ZeroInsuranceKeepsMinSpread` | matcher/credibility/src/lib.rs:522-541 | zero insurance gives no discount: spread 20 stays 20 |
| `Pricing.FullCoverageSubtractsWeight` | matcher/credibility/src/lib.rs:543-559 | 100% coverage subtracts the whole weight: 100 becomes 50 |
| `Pricing.HalfCoverageSubtractsHalfWeight` | matcher/credibility/src/lib.rs:561-578 | 50% coverage subtracts half the weight: 100 becomes 75 |
| `Pricing.ExcessCoverageCapsAtWeight` | matcher/credibility/src/lib.rs:580-597 | 200% coverage still subtracts only the weight: 100 becomes 50 |
| `Pricing.HalfCoverageScenario` | matcher/credibility/src/lib.rs:210-241 | floor 50, weight 50 and half coverage with a flat inventory quote 25 bps |
| `Pricing.CoverageCastDeniesDiscount` | matcher/credibility/src/lib.rs:229-231 | the coverage cast truncates 2^64/10000 coverage to 0, so no discount is given (finding 1) |
| `Pricing.CoverageWrapDeniesDiscount` | matcher/credibility/src/lib.rs:229-231 | at full coverage with 2^127 of insurance the u128 product wraps to 0, so no discount is given (finding 3) |
| `Pricing.ImbalanceCastNarrowsSpread` | matcher/credibility/src/lib.rs:217-221 | an imbalance cost of 2^64 truncates to 0, so the floor is quoted instead of the cap (finding 2) |
| `Pricing.ExecPrice` | matcher/credibility/src/lib.rs:243-253 | a sell never pays more than the oracle price, and pays 0 once spread plus fee reach 100%; a buy whose price fits a u64 is never below the oracle price |
| `Pricing.ExecPriceRoundsDown` | matcher/credibility/src/lib.rs:245-253 | both sides round down: the price is the floor of the exact basis-point product |
| `Pricing.ExecPriceMonotoneInSpread` | matcher/credibility/src/lib.rs:244-253 | a wider spread makes a buy dearer and a sell cheaper |
| `Pricing.BuyPriceWrapsNearU64Max` | matcher/credibility/src/lib.rs:247-248 | for an oracle price of u64::MAX, the buy price wraps below the oracle price |
| `Matcher.ContextSpread` | matcher/credibility/src/lib.rs:172-241 | the spread a context quotes, computed as lib.rs computes it, lies in `[1, max_spread_bps]` |
| `Matcher.NewInventory` | matcher/credibility/src/lib.rs:194 | the new inventory is the exact sum when it fits an i128, and wraps by 2^128 above and below |
| `Matcher.MatchOutcome` | matcher/credibility/src/lib.rs:115-140 | the order of the match errors: data length, signer, account size, then `MatchChecked`; success keeps the account's length |
| `Matcher.MatchChecked` | matcher/credibility/src/lib.rs:142-253 | the order of the context checks: magic, LP key, oracle, fill, inventory, spread cap; success keeps the length |
| `Matcher.MatchSucceeds` | matcher/credibility/src/lib.rs:142-265 | when every check passes, the match writes the new inventory, the oracle price, the quoted price and the return record |
| `Matcher.MatchOk` | matcher/credibility/src/lib.rs:115-265 | conversely, a successful match passed every check and wrote exactly those bytes |
| `Matcher.ComputeSpread` | matcher/credibility/src/lib.rs:210-241 | steps 1-4, one at a time with the truncating casts, compute `Pricing.SpreadAsWritten`, or panic when the cap is 0 |
| `Matcher.WriteMatchResult` | matcher/credibility/src/lib.rs:255-265 | the five stores of a match leave the account equal to `MatchWrites` of the old bytes |
| `Matcher.ProcessMatch` | matcher/credibility/src/lib.rs:115-276 | returns the status of `MatchOutcome`; the context is rewritten on success and unchanged on every error |
| `Matcher.MatchOnContext` | matcher/credibility/src/lib.rs:137-275 | after the signer check, the handler's status and new bytes are those of `MatchOutcome` |
| `Matcher.PlanMatch` | matcher/credibility/src/lib.rs:142-253 | the context checks return `MatchChecked`'s error, or the inventory and price whose writes are its success |
| `Matcher.QuoteFromContext` | matcher/credibility/src/lib.rs:171-253 | reading the context's pricing fields gives the quoted price, or the clamp panic when the cap is 0 |
| `Matcher.DecodeInitParamsEncodes` | matcher/credibility/src/lib.rs:317-333 | the 73 bytes after the tag are the kind byte and the little-endian encodings of the nine parameters, in field order |
| `Matcher.InitOutcome` | matcher/credibility/src/lib.rs:290-350 | the order of the init errors: data length, account size, already initialized, kind; success keeps the length |
| `Matcher.WriteInitContext` | matcher/credibility/src/lib.rs:336-350 | the init's stores leave the account equal to `InitWrites` of the old bytes |
| `Matcher.WriteInitHeader` | matcher/credibility/src/lib.rs:336-340 | magic, version, kind byte and LP key are stored, and nothing else changes |
| `Matcher.WriteInitParams` | matcher/credibility/src/lib.rs:341-350 | the ten parameter stores, including the zero inventory, and nothing else changes |
| `Matcher.ProcessInit` | matcher/credibility/src/lib.rs:290-359 | returns the status of `InitOutcome`, with the parameters parsed in field order; the context is rewritten on success and unchanged on error |
| `Matcher.CurrentSlot` | matcher/credibility/src/lib.rs:436-442 | a clock account of 8 or more bytes reads as the little-endian u64 in its first 8 bytes; a shorter one reads as slot 0 |
| `Matcher.MarketAge` | matcher/credibility/src/lib.rs:452-462 | the age is 0 until the admin is burned and a snapshot exists; then it grows by the slots elapsed, modulo 2^64 as the release build wraps, and by nothing when the clock went back |
| `Matcher.AdminBurned` | matcher/credibility/src/lib.rs:426-434 | the admin counts as burned exactly when its 32 bytes are all zero |
| `Matcher.UpdateOutcome` | matcher/credibility/src/lib.rs:376-468 | the order of the update errors: size, magic, slab borrow, slab size, clock borrow; success keeps the length |
| `Matcher.UpdateSucceeds` | matcher/credibility/src/lib.rs:401-468 | with an initialized context, distinct accounts and a large enough slab, the update writes the slab's snapshots, the age and the slot |
| `Matcher.WriteSnapshots` | matcher/credibility/src/lib.rs:464-468 | the four stores leave the account equal to `UpdateWrites` of the old bytes |
| `Matcher.ProcessUpdateCredibility` | matcher/credibility/src/lib.rs:376-479 | returns the status of `UpdateOutcome`, where the slab or clock being the context is a borrow failure; the context is rewritten on success and unchanged on error |
| `Matcher.PlanUpdate` | matcher/credibility/src/lib.rs:417-462 | the values read from the slab and the clock and the computed age are exactly those of `UpdateOutcome`'s success |
| `Matcher.ProcessInstruction` | matcher/credibility/src/lib.rs:84-102 | empty data or an unknown tag is `InvalidInstructionData` and changes nothing; tags 0, 2 and 3 behave as their handlers; no account other than the context changes |
| `MatcherProperties.MatchWritesEffect` | matcher/credibility/src/lib.rs:255-265 | a match's writes set the inventory and the last prices, fill the return record, and leave every other field and byte as it was |
| `MatcherProperties.InitWritesEffect` | matcher/credibility/src/lib.rs:336-350 | init's writes set the header and every parameter with a zero inventory, and leave the return record, padding, prices, snapshots, age, deficit slot and reserved bytes |
| `MatcherProperties.UpdateWritesEffect` | matcher/credibility/src/lib.rs:465-468 | an update's writes set the two snapshots, the age and the slot, and leave every other byte |
| `InstructionProperties.MatchAccepted` | matcher/credibility/src/lib.rs:115-201 | a match succeeds if and only if data, signer and size pass and every context check passes |
| `InstructionProperties.MatchEffect` | matcher/credibility/src/lib.rs:194-265 | a successful match moves the inventory by the trade, records the oracle price and the quoted price, returns `[price, size]`, and changes no other field |
| `InstructionProperties.MatchRespectsLimits` | matcher/credibility/src/lib.rs:186-201 | after a successful match the fill is within max fill and the stored inventory is within max inventory (a zero limit means no limit) |
| `InstructionProperties.ContextSpreadAgrees` | matcher/credibility/src/lib.rs:215-241 | where the coverage product does not wrap and neither cast truncates, the handler's spread equals the corrected `Pricing.Spread` |
| `InstructionProperties.QuotedPriceSides` | matcher/credibility/src/lib.rs:243-253 | a quoted sell is at most the oracle price; a quoted buy is at least the oracle price when the widest buy price fits a u64 |
| `InstructionProperties.InitAccepted` | matcher/credibility/src/lib.rs:295-323 | an init succeeds if and only if the data and account are long enough, the magic is unset and the kind is 2 |
| `InstructionProperties.InitEffect` | matcher/credibility/src/lib.rs:319-350 | a successful init stores the header, the LP key and each instruction parameter, with zero inventory, and keeps the other fields |
| `InstructionProperties.InitOnlyOnce` | matcher/credibility/src/lib.rs:310-315 | a second init of the same context is refused as already initialized |
| `InstructionProperties.InitBindsLp` | matcher/credibility/src/lib.rs:149-158 | after init, a signed match is refused as the wrong account exactly when its key is not the initializing LP's |
| `InstructionProperties.MatchChecksLp` | matcher/credibility/src/lib.rs:149-158 | on an initialized context, a signed match fails with `InvalidAccountData` exactly when the key is not the stored LP |
| `InstructionProperties.UpdateAfterInit` | matcher/credibility/src/lib.rs:394-415 | after init, an update with distinct accounts and a large enough slab succeeds |
| `InstructionProperties.UpdateAccepted` | matcher/credibility/src/lib.rs:381-437 | an update succeeds if and only if the context is large and initialized, the slab is another account of at least 792 bytes, and the clock is another account |
| `InstructionProperties.UpdateEffect` | matcher/credibility/src/lib.rs:417-468 | a successful update copies the slab's insurance and open interest, records the slot and the age, and keeps every other field |
| `InstructionProperties.UpdateFeedsSpread` | matcher/credibility/src/lib.rs:181-238 | after an update, the next quote's spread (as lib.rs computes it) is priced on the slab's insurance and open interest, with the other inputs unchanged |
| `InstructionProperties.AgeZeroUntilBurned` | matcher/credibility/src/lib.rs:456-462 | while the admin key is not burned, the stored market age is 0 |
| `InstructionProperties.AgeAccumulates` | matcher/credibility/src/lib.rs:452-462 | two updates of a burned market add up: the age grows by all the slots since the first snapshot |

## Left out

- The `entrypoint!` macro, the unused program id, and every `msg!` log line: these are I/O with no effect on the account bytes.
- The reads of `last_crank_slot` and `lifetime_liqs` (lib.rs:444-450): their values are never used, and the slab length check keeps them in bounds.
- Account fields other than the key, the signer flag and the data (owner, lamports, writability): the program never looks at them.
- The numeric `ProgramError` codes: errors are datatype constructors.
- Debug-build overflow panics: the model follows release-build wrapping, as described above.
- `solana_program::system_program::id()` is the all-zero key, so the third burned-admin test coincides with the first; it is a constant.
- A panic aborts the transaction. It is modelled as the error `Panic` returned before any write, which leaves the account unchanged in the same way.
- Pricing.ExecPrice: the buy price is promised to be at least the oracle price only when it fits a u64. Above that the `as u64` cast wraps (`Pricing.BuyPriceWrapsNearU64Max`).
- InstructionProperties.QuotedPriceSides: the buy side carries the same u64 condition as `Pricing.ExecPrice`.
- Matcher.PlanUpdate: the handler reads the slab's fields before it borrows the clock. The model checks the clock borrow first and then reads. The reads are pure, so the errors and the writes are the same.

## Findings

| source | as written | input that shows it | evidently intended | confidence | as-written member | corrected member |
|---|---|---|---|---|---|---|
| matcher/credibility/src/lib.rs:229-231 | coverage `insurance * BPS / oi` is cast `as u64` (`Pricing.CoverageBpsAsWritten`) before it is capped at 100% | insurance 2^64, open interest 10000, weight 50, floor 100: the quotient 2^64 truncates to 0, no discount, spread 100 | cap the coverage at 100% first: full coverage gives the whole weight as discount, spread 50 | not executed | `Pricing.CoverageCastDeniesDiscount` | `Pricing.CoverageBps` |
| matcher/credibility/src/lib.rs:217-221 | the imbalance cost `k * abs / liquidity` is cast `as u64` (`Pricing.ImbalanceCostAsWritten`) before the saturating add | k 1, inventory 2^64, liquidity 1, floor 20, cap 200: the cost 2^64 truncates to 0 and the floor 20 is quoted | keep the saturated u128 product, and saturate the quotient at u64::MAX instead of truncating it: the spread reaches the cap, 200 | not executed | `Pricing.ImbalanceCastNarrowsSpread` | `Pricing.ImbalanceCost` |
| matcher/credibility/src/lib.rs:229 | the product `insurance * BPS` is a u128 multiplication, which the release build wraps modulo 2^128 before the division (`Pricing.CoverageBpsAsWritten`) | insurance 2^127, open interest 2^127, weight 50, floor 100, cap 200: exactly full coverage, but the product wraps to 0, no discount, spread 100 | compute the coverage without losing the product (checked or widened): full coverage gives the whole weight as discount, spread 50 | not executed | `Pricing.CoverageWrapDeniesDiscount` | `Pricing.CoverageBps` |
