/** The matcher program's three instructions, each as a method that edits the
    context account's bytes in place, proved against a pure specification
    function (`MatchOutcome`, `InitOutcome`, `UpdateOutcome`) whose properties
    are stated as lemmas; and the dispatcher on the instruction tag. */
module Matcher {
  import opened Ints
  import opened LittleEndian
  import opened Layout
  import opened Pricing

  datatype ProgramError =
    | NotEnoughAccountKeys
    | InvalidInstructionData
    | MissingRequiredSignature
    | AccountDataTooSmall
    | InvalidAccountData
    | AccountAlreadyInitialized
    | UninitializedAccount
    | AccountBorrowFailed   // a second borrow of the context account's data
    | Panic                 // `clamp(1, max)` with `max == 0`

  datatype Result<T> = Ok(value: T) | Err(error: ProgramError) {
    /** The status the program returns, without the new bytes. */
    function Status(): Result<()> {
      match this
      case Ok(_) => Ok(())
      case Err(e) => Err(e)
    }
  }

  /** The context bytes after an instruction: the new bytes on success, the
      old ones on any error. */
  function After(out: Result<seq<byte>>, before: seq<byte>): seq<byte> {
    if out.Ok? then out.value else before
  }

  /** An account as the program sees it. Two entries that share `data` are the
      same account passed twice. */
  datatype AccountInfo = AccountInfo(key: Pubkey, isSigner: bool, data: array<byte>)

  const MATCH_DATA_LEN: nat := 25
  const INIT_DATA_LEN: nat := 74

  // Slab layout (the external program's account), only what is read here
  const SLAB_ADMIN_OFF: nat := 16
  const SLAB_ENGINE_OFF: nat := 392
  const ENGINE_INSURANCE_OFF: nat := 16
  const ENGINE_TOTAL_OI_OFF: nat := 248
  const SLAB_MIN_LEN: nat := 792

  // ===========================================================================
  // Match (tag 0x00)
  // ===========================================================================

  /** The context after a successful match: new inventory, last oracle and
      execution prices, and the return record `[exec_price: i64, fill: i128]`. */
  function MatchWrites(ctx: seq<byte>, inventory: i128, oracle: u64, price: u64, tradeSize: i128): (s: seq<byte>)
    requires |ctx| >= CTX_LEN
    ensures |s| == |ctx|
  {
    Splice(Splice(Splice(Splice(Splice(ctx,
      CTX_BASE + INVENTORY_OFF, EncodeI128(inventory)),
      CTX_BASE + LAST_ORACLE_OFF, EncodeU64(oracle)),
      CTX_BASE + LAST_EXEC_OFF, EncodeU64(price)),
      RET_EXEC_PRICE_OFF, EncodeI64(AsI64(price))),
      RET_FILL_SIZE_OFF, EncodeI128(tradeSize))
  }

  /** The spread a context quotes, as lib.rs computes it (with both `as u64`
      casts; `Pricing.Spread` is the rule without them). */
  function ContextSpread(c: MatcherContext): (r: u32)
    requires c.maxSpreadBps >= 1
    ensures 1 <= r <= c.maxSpreadBps
  {
    SpreadAsWritten(c.minSpreadBps, c.maxSpreadBps, c.imbalanceKBps, c.liquidityE6, c.insuranceWeightBps,
           c.inventoryBase, c.insuranceSnapshot, c.totalOiSnapshot)
  }

  /** The oracle price in a match instruction's bytes 1..9. */
  function OraclePrice(data: seq<byte>): u64
    requires |data| >= MATCH_DATA_LEN
  {
    ReadU64(data, 1)
  }

  /** The signed trade size in a match instruction's bytes 9..25. */
  function TradeSize(data: seq<byte>): i128
    requires |data| >= MATCH_DATA_LEN
  {
    ReadI128(data, 9)
  }

  /** The inventory after a trade; the i128 addition wraps. */
  function NewInventory(inventory: i128, tradeSize: i128): (r: i128)
    ensures -TWO_127 <= inventory + tradeSize < TWO_127 ==> r == inventory + tradeSize
    ensures inventory + tradeSize >= TWO_127 ==> r == inventory + tradeSize - TWO_128
    ensures inventory + tradeSize < -TWO_127 ==> r == inventory + tradeSize + TWO_128
  {
    WrapI128(inventory + tradeSize)
  }

  /** The execution price a context quotes for a trade at an oracle price. */
  function QuotedPrice(c: MatcherContext, oracle: u64, tradeSize: i128): u64
    requires c.maxSpreadBps >= 1
  {
    ExecPrice(oracle, tradeSize, ContextSpread(c), c.baseFeeBps)
  }

  /** The checks on the context and the instruction that a match must pass:
      the context is initialized and bound to this LP, the oracle price is
      nonzero, the fill and the new inventory are within their limits (a zero
      limit is no limit) and the spread cap lets `clamp(1, max)` run. */
  predicate MatchAllowed(lpKey: Pubkey, oracle: u64, tradeSize: i128, c: MatcherContext) {
    && c.magic == MAGIC && lpKey == c.lpPda && oracle != 0
    && (c.maxFillAbs == 0 || UnsignedAbs(tradeSize) <= c.maxFillAbs)
    && (c.maxInventoryAbs == 0 || UnsignedAbs(NewInventory(c.inventoryBase, tradeSize)) <= c.maxInventoryAbs)
    && c.maxSpreadBps >= 1
  }

  /** Specification of `process_match` for an LP account (`lpIsSigner`, `lpKey`),
      instruction `data` and the context bytes `ctx`; every check comes before
      the first write. */
  function MatchOutcome(lpIsSigner: bool, lpKey: Pubkey, data: seq<byte>, ctx: seq<byte>): (r: Result<seq<byte>>)
    ensures r.Ok? ==> |r.value| == |ctx|
  {
    if |data| < MATCH_DATA_LEN then Err(InvalidInstructionData)
    else if !lpIsSigner then Err(MissingRequiredSignature)
    else if |ctx| < CTX_LEN then Err(AccountDataTooSmall)
    else MatchChecked(lpKey, OraclePrice(data), TradeSize(data), ctx)
  }

  /** The checks of `process_match` on a context of at least 320 bytes, and
      the bytes a match that passes them leaves. */
  function MatchChecked(lpKey: Pubkey, oracle: u64, tradeSize: i128, ctx: seq<byte>): (r: Result<seq<byte>>)
    requires |ctx| >= CTX_LEN
    ensures r.Ok? ==> |r.value| == |ctx|
  {
    var c := DecodeContext(ctx);
    if c.magic != MAGIC then Err(InvalidAccountData)
    else if lpKey != c.lpPda then Err(InvalidAccountData)
    else if oracle == 0 then Err(InvalidInstructionData)
    else if c.maxFillAbs > 0 && UnsignedAbs(tradeSize) > c.maxFillAbs then Err(InvalidInstructionData)
    else if c.maxInventoryAbs > 0 && UnsignedAbs(NewInventory(c.inventoryBase, tradeSize)) > c.maxInventoryAbs then
      Err(InvalidInstructionData)
    else if c.maxSpreadBps < 1 then Err(Panic)
    else Ok(MatchWrites(ctx, NewInventory(c.inventoryBase, tradeSize), oracle, QuotedPrice(c, oracle, tradeSize), tradeSize))
  }

  /** When every check passes, the match succeeds and writes the new inventory,
      the prices and the return record. */
  lemma MatchSucceeds(lpIsSigner: bool, lpKey: Pubkey, data: seq<byte>, ctx: seq<byte>)
    requires |data| >= MATCH_DATA_LEN && lpIsSigner && |ctx| >= CTX_LEN
    requires MatchAllowed(lpKey, OraclePrice(data), TradeSize(data), DecodeContext(ctx))
    ensures MatchOutcome(lpIsSigner, lpKey, data, ctx)
      == Ok(MatchWrites(ctx, NewInventory(DecodeContext(ctx).inventoryBase, TradeSize(data)), OraclePrice(data),
                        QuotedPrice(DecodeContext(ctx), OraclePrice(data), TradeSize(data)), TradeSize(data)))
  {
  }

  /** Conversely, a successful match passed every check and wrote exactly that. */
  lemma MatchOk(lpIsSigner: bool, lpKey: Pubkey, data: seq<byte>, ctx: seq<byte>, s: seq<byte>)
    requires MatchOutcome(lpIsSigner, lpKey, data, ctx) == Ok(s)
    ensures |data| >= MATCH_DATA_LEN && lpIsSigner && |ctx| >= CTX_LEN
    ensures MatchAllowed(lpKey, OraclePrice(data), TradeSize(data), DecodeContext(ctx))
    ensures s == MatchWrites(ctx, NewInventory(DecodeContext(ctx).inventoryBase, TradeSize(data)), OraclePrice(data),
                             QuotedPrice(DecodeContext(ctx), OraclePrice(data), TradeSize(data)), TradeSize(data))
  {
  }

  /** Steps 1-4 of the spread on the context's parameters, one step at a time
      as the match handler runs them, truncating casts included;
      `clamp(1, max)` panics when `max == 0`. This is the handler's
      straight-line counterpart of `Pricing.SpreadAsWritten`, proved equal to it. */
  method ComputeSpread(minSpreadBps: u32, maxSpreadBps: u32, imbalanceKBps: u32, liquidity: u128,
                       insuranceWeightBps: u32, inventory: i128, insurance: u128, totalOi: u128)
    returns (r: Result<u32>)
    ensures maxSpreadBps < 1 ==> r == Err(Panic)
    ensures maxSpreadBps >= 1 ==> r == Ok(SpreadAsWritten(minSpreadBps, maxSpreadBps, imbalanceKBps, liquidity,
                                                  insuranceWeightBps, inventory, insurance, totalOi))
  {
    var spread: u64 := minSpreadBps;
    if liquidity > 0 && imbalanceKBps > 0 {
      var imbalanceCost := ImbalanceCostAsWritten(imbalanceKBps, UnsignedAbs(inventory), liquidity);
      spread := SaturatingAdd(spread, imbalanceCost);
    }
    if insuranceWeightBps > 0 && totalOi > 0 {
      var coverage := CoverageBpsAsWritten(insurance, totalOi);
      var discount := Discount(coverage, insuranceWeightBps);
      spread := SaturatingSub(spread, discount);
    }
    if maxSpreadBps < 1 {
      return Err(Panic);
    }
    spread := Clamp(spread, maxSpreadBps);
    r := Ok(spread);
  }

  /** The writes of a successful match, in the order the handler makes them. */
  method WriteMatchResult(ctx: array<byte>, newInventory: i128, oraclePrice: u64, execPrice: u64, tradeSize: i128)
    requires ctx.Length >= CTX_LEN
    modifies ctx
    ensures ctx[..] == MatchWrites(old(ctx[..]), newInventory, oraclePrice, execPrice, tradeSize)
  {
    WriteI128(ctx, CTX_BASE + INVENTORY_OFF, newInventory);
    WriteU64(ctx, CTX_BASE + LAST_ORACLE_OFF, oraclePrice);
    WriteU64(ctx, CTX_BASE + LAST_EXEC_OFF, execPrice);
    WriteI64(ctx, RET_EXEC_PRICE_OFF, AsI64(execPrice));
    WriteI128(ctx, RET_FILL_SIZE_OFF, tradeSize);
  }

  method ProcessMatch(accounts: seq<AccountInfo>, data: seq<byte>) returns (r: Result<()>)
    modifies if |accounts| >= 2 then {accounts[1].data} else {}
    ensures |accounts| < 2 ==> r == Err(NotEnoughAccountKeys)
    ensures |accounts| >= 2 ==>
      r == MatchOutcome(accounts[0].isSigner, accounts[0].key, data, old(accounts[1].data[..])).Status()
      && accounts[1].data[..]
         == After(MatchOutcome(accounts[0].isSigner, accounts[0].key, data, old(accounts[1].data[..])),
                  old(accounts[1].data[..]))
  {
    if |accounts| < 2 {
      return Err(NotEnoughAccountKeys);
    }
    if |data| < MATCH_DATA_LEN {
      return Err(InvalidInstructionData);
    }
    var lpPda := accounts[0];
    var ctx := accounts[1].data;
    if !lpPda.isSigner {
      return Err(MissingRequiredSignature);
    }
    r := MatchOnContext(lpPda.key, data, ctx);
  }

  /** The part of `process_match` that runs once the LP's signature is checked
      and the context's data is borrowed. */
  method MatchOnContext(lpKey: Pubkey, data: seq<byte>, ctx: array<byte>) returns (r: Result<()>)
    requires |data| >= MATCH_DATA_LEN
    modifies ctx
    ensures r == MatchOutcome(true, lpKey, data, old(ctx[..])).Status()
    ensures ctx[..] == After(MatchOutcome(true, lpKey, data, old(ctx[..])), old(ctx[..]))
  {
    if ctx.Length < CTX_LEN {
      return Err(AccountDataTooSmall);
    }
    var oraclePrice := ReadU64(data, 1);
    var tradeSize := ReadI128(data, 9);
    var plan := PlanMatch(lpKey, oraclePrice, tradeSize, ctx[..]);
    if plan.Err? {
      return Err(plan.error);
    }
    var (newInventory, execPrice) := plan.value;
    WriteMatchResult(ctx, newInventory, oraclePrice, execPrice, tradeSize);
    r := Ok(());
  }

  /** Every check of `process_match` on a context of at least 320 bytes, in the
      handler's order, and the new inventory and execution price it would
      write; nothing is written. */
  method PlanMatch(lpKey: Pubkey, oraclePrice: u64, tradeSize: i128, ctx: seq<byte>) returns (r: Result<(i128, u64)>)
    requires |ctx| >= CTX_LEN
    ensures r.Err? ==> MatchChecked(lpKey, oraclePrice, tradeSize, ctx) == Err(r.error)
    ensures r.Ok? ==> MatchChecked(lpKey, oraclePrice, tradeSize, ctx)
                      == Ok(MatchWrites(ctx, r.value.0, oraclePrice, r.value.1, tradeSize))
  {
    ghost var c := DecodeContext(ctx);
    var magic := ReadU64(ctx, CTX_BASE + MAGIC_OFF);
    if magic != MAGIC {
      return Err(InvalidAccountData);
    }
    var storedPda := ctx[CTX_BASE + LP_PDA_OFF..CTX_BASE + LP_PDA_OFF + 32];
    assert storedPda == c.lpPda;
    if lpKey != storedPda {
      return Err(InvalidAccountData);
    }
    if oraclePrice == 0 {
      return Err(InvalidInstructionData);
    }

    var maxFill := ReadU128(ctx, CTX_BASE + MAX_FILL_OFF);
    var inventory := ReadI128(ctx, CTX_BASE + INVENTORY_OFF);
    var maxInventory := ReadU128(ctx, CTX_BASE + MAX_INVENTORY_OFF);
    assert maxFill == c.maxFillAbs && maxInventory == c.maxInventoryAbs && inventory == c.inventoryBase;
    var absSize := UnsignedAbs(tradeSize);
    if maxFill > 0 && absSize > maxFill {
      return Err(InvalidInstructionData);
    }
    var newInventory := NewInventory(inventory, tradeSize);
    if maxInventory > 0 {
      var newAbs := UnsignedAbs(newInventory);
      if newAbs > maxInventory {
        return Err(InvalidInstructionData);
      }
    }

    var quote := QuoteFromContext(ctx, oraclePrice, tradeSize);
    if quote.Err? {
      return Err(quote.error);
    }
    r := Ok((newInventory, quote.value));
  }

  /** Read the pricing fields of the context and quote the execution price;
      `clamp` panics when the stored maximum spread is zero. */
  method QuoteFromContext(ctx: seq<byte>, oraclePrice: u64, tradeSize: i128) returns (r: Result<u64>)
    requires |ctx| >= CTX_LEN
    ensures DecodeContext(ctx).maxSpreadBps < 1 ==> r == Err(Panic)
    ensures DecodeContext(ctx).maxSpreadBps >= 1 ==> r == Ok(QuotedPrice(DecodeContext(ctx), oraclePrice, tradeSize))
  {
    var baseFeeBps := ReadU32(ctx, CTX_BASE + BASE_FEE_OFF);
    var minSpreadBps := ReadU32(ctx, CTX_BASE + MIN_SPREAD_OFF);
    var maxSpreadBps := ReadU32(ctx, CTX_BASE + MAX_SPREAD_OFF);
    var imbalanceKBps := ReadU32(ctx, CTX_BASE + IMBALANCE_K_OFF);
    var liquidity := ReadU128(ctx, CTX_BASE + LIQUIDITY_OFF);
    var inventory := ReadI128(ctx, CTX_BASE + INVENTORY_OFF);
    var insurance := ReadU128(ctx, CTX_BASE + INSURANCE_OFF);
    var totalOi := ReadU128(ctx, CTX_BASE + TOTAL_OI_OFF);
    var insuranceWeightBps := ReadU32(ctx, CTX_BASE + INSURANCE_WEIGHT_OFF);
    var quote := ComputeSpread(minSpreadBps, maxSpreadBps, imbalanceKBps, liquidity, insuranceWeightBps,
                               inventory, insurance, totalOi);
    if quote.Err? {
      return Err(quote.error);
    }
    r := Ok(ExecPrice(oraclePrice, tradeSize, quote.value, baseFeeBps));
  }

  // ===========================================================================
  // Init (tag 0x02)
  // ===========================================================================

  /** The parameters of an init instruction, after the tag byte. */
  datatype InitParams = InitParams(
    kind: byte,
    baseFeeBps: u32,
    minSpreadBps: u32,
    maxSpreadBps: u32,
    imbalanceKBps: u32,
    liquidityE6: u128,
    maxFillAbs: u128,
    maxInventoryAbs: u128,
    ageHalflifeSlots: u32,
    insuranceWeightBps: u32)

  /** `[tag, kind, fee:4, min:4, max:4, k:4, liquidity:16, max_fill:16,
      max_inventory:16, halflife:4, weight:4]`: 74 bytes. */
  function DecodeInitParams(data: seq<byte>): (p: InitParams)
    requires |data| >= INIT_DATA_LEN
  {
    InitParams(data[1], ReadU32(data, 2), ReadU32(data, 6), ReadU32(data, 10), ReadU32(data, 14),
               ReadU128(data, 18), ReadU128(data, 34), ReadU128(data, 50), ReadU32(data, 66), ReadU32(data, 70))
  }

  /** The 73 bytes after the tag are the kind byte and the encodings of the
      parameters, in field order. */
  lemma DecodeInitParamsEncodes(data: seq<byte>)
    requires |data| >= INIT_DATA_LEN
    ensures DecodeInitParams(data).kind == data[1]
    ensures EncodeU32(DecodeInitParams(data).baseFeeBps) == data[2..6]
    ensures EncodeU32(DecodeInitParams(data).minSpreadBps) == data[6..10]
    ensures EncodeU32(DecodeInitParams(data).maxSpreadBps) == data[10..14]
    ensures EncodeU32(DecodeInitParams(data).imbalanceKBps) == data[14..18]
    ensures EncodeU128(DecodeInitParams(data).liquidityE6) == data[18..34]
    ensures EncodeU128(DecodeInitParams(data).maxFillAbs) == data[34..50]
    ensures EncodeU128(DecodeInitParams(data).maxInventoryAbs) == data[50..66]
    ensures EncodeU32(DecodeInitParams(data).ageHalflifeSlots) == data[66..70]
    ensures EncodeU32(DecodeInitParams(data).insuranceWeightBps) == data[70..74]
  {
    EncodeReadU32(data, 2);
    EncodeReadU32(data, 6);
    EncodeReadU32(data, 10);
    EncodeReadU32(data, 14);
    EncodeReadU128(data, 18);
    EncodeReadU128(data, 34);
    EncodeReadU128(data, 50);
    EncodeReadU32(data, 66);
    EncodeReadU32(data, 70);
  }

  /** The context after a successful init, written in the handler's order. The
      return-data area, the padding, the last prices, the snapshots, the age,
      the deficit slot and the reserved tail keep their old bytes. */
  function InitWrites(ctx: seq<byte>, lpKey: Pubkey, p: InitParams): (s: seq<byte>)
    requires |ctx| >= CTX_LEN
    ensures |s| == |ctx|
  {
    InitParamWrites(InitHeaderWrites(ctx, lpKey, p.kind), p)
  }

  /** The magic, version, kind and LP key. */
  function InitHeaderWrites(ctx: seq<byte>, lpKey: Pubkey, kind: byte): (s: seq<byte>)
    requires |ctx| >= CTX_LEN
    ensures |s| == |ctx|
  {
    Splice(Splice(Splice(Splice(ctx,
      CTX_BASE + MAGIC_OFF, EncodeU64(MAGIC)),
      CTX_BASE + VERSION_OFF, EncodeU32(VERSION)),
      CTX_BASE + KIND_OFF, [kind]),
      CTX_BASE + LP_PDA_OFF, lpKey)
  }

  /** The pricing parameters, the limits and a zero inventory. */
  function InitParamWrites(ctx: seq<byte>, p: InitParams): (s: seq<byte>)
    requires |ctx| >= CTX_LEN
    ensures |s| == |ctx|
  {
    Splice(Splice(Splice(Splice(Splice(Splice(Splice(Splice(Splice(Splice(ctx,
      CTX_BASE + BASE_FEE_OFF, EncodeU32(p.baseFeeBps)),
      CTX_BASE + MIN_SPREAD_OFF, EncodeU32(p.minSpreadBps)),
      CTX_BASE + MAX_SPREAD_OFF, EncodeU32(p.maxSpreadBps)),
      CTX_BASE + IMBALANCE_K_OFF, EncodeU32(p.imbalanceKBps)),
      CTX_BASE + LIQUIDITY_OFF, EncodeU128(p.liquidityE6)),
      CTX_BASE + MAX_FILL_OFF, EncodeU128(p.maxFillAbs)),
      CTX_BASE + INVENTORY_OFF, EncodeI128(0)),
      CTX_BASE + MAX_INVENTORY_OFF, EncodeU128(p.maxInventoryAbs)),
      CTX_BASE + AGE_HALFLIFE_OFF, EncodeU32(p.ageHalflifeSlots)),
      CTX_BASE + INSURANCE_WEIGHT_OFF, EncodeU32(p.insuranceWeightBps))
  }

  /** Specification of `process_init` for the LP account's key `lpKey`. The LP
      account need not sign; a context whose magic is already set is refused. */
  function InitOutcome(lpKey: Pubkey, data: seq<byte>, ctx: seq<byte>): (r: Result<seq<byte>>)
    ensures r.Ok? ==> |r.value| == |ctx|
  {
    if |data| < INIT_DATA_LEN then Err(InvalidInstructionData)
    else if |ctx| < CTX_LEN then Err(AccountDataTooSmall)
    else if ReadU64(ctx, CTX_BASE + MAGIC_OFF) == MAGIC then Err(AccountAlreadyInitialized)
    else if data[1] != KIND_CREDIBILITY then Err(InvalidInstructionData)
    else Ok(InitWrites(ctx, lpKey, DecodeInitParams(data)))
  }

  /** The writes of a successful init, in the order the handler makes them. */
  method WriteInitContext(ctx: array<byte>, lpKey: Pubkey, p: InitParams)
    requires ctx.Length >= CTX_LEN
    modifies ctx
    ensures ctx[..] == InitWrites(old(ctx[..]), lpKey, p)
  {
    WriteInitHeader(ctx, lpKey, p.kind);
    WriteInitParams(ctx, p);
  }

  method WriteInitHeader(ctx: array<byte>, lpKey: Pubkey, kind: byte)
    requires ctx.Length >= CTX_LEN
    modifies ctx
    ensures ctx[..] == InitHeaderWrites(old(ctx[..]), lpKey, kind)
  {
    WriteU64(ctx, CTX_BASE + MAGIC_OFF, MAGIC);
    WriteU32(ctx, CTX_BASE + VERSION_OFF, VERSION);
    SpliceByte(ctx[..], CTX_BASE + KIND_OFF, kind);
    ctx[CTX_BASE + KIND_OFF] := kind;
    CopyFromSlice(ctx, CTX_BASE + LP_PDA_OFF, lpKey);
  }

  method WriteInitParams(ctx: array<byte>, p: InitParams)
    requires ctx.Length >= CTX_LEN
    modifies ctx
    ensures ctx[..] == InitParamWrites(old(ctx[..]), p)
  {
    WriteU32(ctx, CTX_BASE + BASE_FEE_OFF, p.baseFeeBps);
    WriteU32(ctx, CTX_BASE + MIN_SPREAD_OFF, p.minSpreadBps);
    WriteU32(ctx, CTX_BASE + MAX_SPREAD_OFF, p.maxSpreadBps);
    WriteU32(ctx, CTX_BASE + IMBALANCE_K_OFF, p.imbalanceKBps);
    WriteU128(ctx, CTX_BASE + LIQUIDITY_OFF, p.liquidityE6);
    WriteU128(ctx, CTX_BASE + MAX_FILL_OFF, p.maxFillAbs);
    WriteI128(ctx, CTX_BASE + INVENTORY_OFF, 0);
    WriteU128(ctx, CTX_BASE + MAX_INVENTORY_OFF, p.maxInventoryAbs);
    WriteU32(ctx, CTX_BASE + AGE_HALFLIFE_OFF, p.ageHalflifeSlots);
    WriteU32(ctx, CTX_BASE + INSURANCE_WEIGHT_OFF, p.insuranceWeightBps);
  }

  method ProcessInit(accounts: seq<AccountInfo>, data: seq<byte>) returns (r: Result<()>)
    modifies if |accounts| >= 2 then {accounts[1].data} else {}
    ensures |accounts| < 2 ==> r == Err(NotEnoughAccountKeys)
    ensures |accounts| >= 2 ==>
      var out := InitOutcome(accounts[0].key, data, old(accounts[1].data[..]));
      r == out.Status() && accounts[1].data[..] == After(out, old(accounts[1].data[..]))
  {
    if |accounts| < 2 {
      return Err(NotEnoughAccountKeys);
    }
    if |data| < INIT_DATA_LEN {
      return Err(InvalidInstructionData);
    }
    var lpPda := accounts[0];
    var ctx := accounts[1].data;
    if ctx.Length < CTX_LEN {
      return Err(AccountDataTooSmall);
    }
    var existingMagic := ReadU64(ctx[..], CTX_BASE + MAGIC_OFF);
    if existingMagic == MAGIC {
      return Err(AccountAlreadyInitialized);
    }

    var off := 1;
    var kind := data[off];
    off := off + 1;
    if kind != KIND_CREDIBILITY {
      return Err(InvalidInstructionData);
    }
    var baseFeeBps := ReadU32(data, off);
    off := off + 4;
    var minSpreadBps := ReadU32(data, off);
    off := off + 4;
    var maxSpreadBps := ReadU32(data, off);
    off := off + 4;
    var imbalanceKBps := ReadU32(data, off);
    off := off + 4;
    var liquidity := ReadU128(data, off);
    off := off + 16;
    var maxFill := ReadU128(data, off);
    off := off + 16;
    var maxInventory := ReadU128(data, off);
    off := off + 16;
    var ageHalflife := ReadU32(data, off);
    off := off + 4;
    var insuranceWeightBps := ReadU32(data, off);

    var p := InitParams(kind, baseFeeBps, minSpreadBps, maxSpreadBps, imbalanceKBps,
                        liquidity, maxFill, maxInventory, ageHalflife, insuranceWeightBps);
    assert p == DecodeInitParams(data);
    WriteInitContext(ctx, lpPda.key, p);
    r := Ok(());
  }

  // ===========================================================================
  // Update credibility (tag 0x03)
  // ===========================================================================

  /** The system program's id, the all-zero key. */
  const SYSTEM_PROGRAM_ID: Pubkey := seq(32, _ => 0)

  /** The slab's admin key is burned when it is all zeros or the system program. */
  function AdminBurned(admin: seq<byte>): (burned: bool)
    ensures burned <==> |admin| == 32 && forall i :: 0 <= i < |admin| ==> admin[i] == 0
  {
    admin == seq(32, _ => 0) || admin == SYSTEM_PROGRAM_ID
  }

  /** The slot in the clock sysvar's first eight bytes, or 0 when it is shorter. */
  function CurrentSlot(clock: seq<byte>): (slot: u64)
    ensures |clock| < 8 ==> slot == 0
    ensures |clock| >= 8 ==> EncodeU64(slot) == clock[..8]
  {
    if |clock| >= 8 then EncodeReadU64(clock, 0); ReadU64(clock, 0) else 0
  }

  /** Slots since the admin key was burned, counted from the first update
      that saw it burned; the u64 addition wraps. */
  function MarketAge(burned: bool, existingAge: u64, existingSnapshot: u64, currentSlot: u64): (age: u64)
    ensures !burned || existingSnapshot == 0 ==> age == 0
    ensures burned && existingSnapshot > 0 && existingSnapshot <= currentSlot
            && existingAge + (currentSlot - existingSnapshot) <= U64_MAX
            ==> age == existingAge + (currentSlot - existingSnapshot)
    ensures burned && existingSnapshot > currentSlot ==> age == existingAge
    ensures burned && existingSnapshot > 0 && existingSnapshot <= currentSlot
            ==> (age - existingAge - (currentSlot - existingSnapshot)) % TWO_64 == 0
  {
    if existingSnapshot > 0 && burned then
      TruncU64(existingAge + SaturatingSub(currentSlot, existingSnapshot))
    else
      0
  }

  /** The context after a successful update: fresh insurance and open-interest
      snapshots, the market age and the snapshot slot. */
  function UpdateWrites(ctx: seq<byte>, insurance: u128, totalOi: u128, age: u64, slot: u64): (s: seq<byte>)
    requires |ctx| >= CTX_LEN
    ensures |s| == |ctx|
  {
    Splice(Splice(Splice(Splice(ctx,
      CTX_BASE + INSURANCE_OFF, EncodeU128(insurance)),
      CTX_BASE + TOTAL_OI_OFF, EncodeU128(totalOi)),
      CTX_BASE + MARKET_AGE_OFF, EncodeU64(age)),
      CTX_BASE + SNAPSHOT_SLOT_OFF, EncodeU64(slot))
  }

  /** Specification of `process_update_credibility` for the context bytes
      `ctx`, the slab and the clock; `slabIsCtx` / `clockIsCtx` say the account
      was passed as the context account too, whose data is already borrowed
      for writing. */
  function UpdateOutcome(ctx: seq<byte>, slabIsCtx: bool, slab: seq<byte>, clockIsCtx: bool, clock: seq<byte>)
    : (r: Result<seq<byte>>)
    ensures r.Ok? ==> |r.value| == |ctx|
  {
    if |ctx| < CTX_LEN then Err(AccountDataTooSmall)
    else if ReadU64(ctx, CTX_BASE + MAGIC_OFF) != MAGIC then Err(UninitializedAccount)
    else if slabIsCtx then Err(AccountBorrowFailed)
    else if |slab| < SLAB_MIN_LEN then Err(AccountDataTooSmall)
    else if clockIsCtx then Err(AccountBorrowFailed)
    else
      var insurance := ReadU128(slab, SLAB_ENGINE_OFF + ENGINE_INSURANCE_OFF);
      var totalOi := ReadU128(slab, SLAB_ENGINE_OFF + ENGINE_TOTAL_OI_OFF);
      var burned := AdminBurned(slab[SLAB_ADMIN_OFF..SLAB_ADMIN_OFF + 32]);
      var slot := CurrentSlot(clock);
      var age := MarketAge(burned, ReadU64(ctx, CTX_BASE + MARKET_AGE_OFF),
                           ReadU64(ctx, CTX_BASE + SNAPSHOT_SLOT_OFF), slot);
      Ok(UpdateWrites(ctx, insurance, totalOi, age, slot))
  }

  /** When every check passes, the update writes the slab's snapshots, the age
      and the clock's slot. */
  lemma UpdateSucceeds(ctx: seq<byte>, slab: seq<byte>, clock: seq<byte>)
    requires |ctx| >= CTX_LEN && ReadU64(ctx, CTX_BASE + MAGIC_OFF) == MAGIC && |slab| >= SLAB_MIN_LEN
    ensures UpdateOutcome(ctx, false, slab, false, clock)
      == Ok(UpdateWrites(ctx, ReadU128(slab, SLAB_ENGINE_OFF + ENGINE_INSURANCE_OFF),
                         ReadU128(slab, SLAB_ENGINE_OFF + ENGINE_TOTAL_OI_OFF),
                         MarketAge(AdminBurned(slab[SLAB_ADMIN_OFF..SLAB_ADMIN_OFF + 32]),
                                   ReadU64(ctx, CTX_BASE + MARKET_AGE_OFF),
                                   ReadU64(ctx, CTX_BASE + SNAPSHOT_SLOT_OFF), CurrentSlot(clock)),
                         CurrentSlot(clock)))
  {
  }

  /** The writes of a successful update, in the order the handler makes them. */
  method WriteSnapshots(ctx: array<byte>, insurance: u128, totalOi: u128, age: u64, slot: u64)
    requires ctx.Length >= CTX_LEN
    modifies ctx
    ensures ctx[..] == UpdateWrites(old(ctx[..]), insurance, totalOi, age, slot)
  {
    WriteU128(ctx, CTX_BASE + INSURANCE_OFF, insurance);
    WriteU128(ctx, CTX_BASE + TOTAL_OI_OFF, totalOi);
    WriteU64(ctx, CTX_BASE + MARKET_AGE_OFF, age);
    WriteU64(ctx, CTX_BASE + SNAPSHOT_SLOT_OFF, slot);
  }

  method ProcessUpdateCredibility(accounts: seq<AccountInfo>, data: seq<byte>) returns (r: Result<()>)
    modifies if |accounts| >= 3 then {accounts[0].data} else {}
    ensures |accounts| < 3 ==> r == Err(NotEnoughAccountKeys)
    ensures |accounts| >= 3 ==>
      var out := UpdateOutcome(old(accounts[0].data[..]),
                               accounts[1].data == accounts[0].data, old(accounts[1].data[..]),
                               accounts[2].data == accounts[0].data, old(accounts[2].data[..]));
      r == out.Status() && accounts[0].data[..] == After(out, old(accounts[0].data[..]))
  {
    if |accounts| < 3 {
      return Err(NotEnoughAccountKeys);
    }
    var ctx := accounts[0].data;
    var slab := accounts[1].data;
    var clock := accounts[2].data;
    if ctx.Length < CTX_LEN {
      return Err(AccountDataTooSmall);
    }
    ghost var before := ctx[..];
    assert before == old(accounts[0].data[..]);
    var magic := ReadU64(ctx[..], CTX_BASE + MAGIC_OFF);
    if magic != MAGIC {
      return Err(UninitializedAccount);
    }
    if slab == ctx {
      return Err(AccountBorrowFailed);
    }
    if slab.Length < SLAB_MIN_LEN {
      return Err(AccountDataTooSmall);
    }
    if clock == ctx {
      return Err(AccountBorrowFailed);
    }
    var insurance, totalOi, age, currentSlot := PlanUpdate(ctx[..], slab[..], clock[..]);
    WriteSnapshots(ctx, insurance, totalOi, age, currentSlot);
    r := Ok(());
  }

  /** The values a successful update writes: the slab's insurance balance and
      open interest, the market age and the clock's slot. */
  method PlanUpdate(ctx: seq<byte>, slab: seq<byte>, clock: seq<byte>)
    returns (insurance: u128, totalOi: u128, age: u64, currentSlot: u64)
    requires |ctx| >= CTX_LEN && ReadU64(ctx, CTX_BASE + MAGIC_OFF) == MAGIC && |slab| >= SLAB_MIN_LEN
    ensures UpdateOutcome(ctx, false, slab, false, clock) == Ok(UpdateWrites(ctx, insurance, totalOi, age, currentSlot))
  {
    insurance := ReadU128(slab, SLAB_ENGINE_OFF + ENGINE_INSURANCE_OFF);
    totalOi := ReadU128(slab, SLAB_ENGINE_OFF + ENGINE_TOTAL_OI_OFF);
    var admin := slab[SLAB_ADMIN_OFF..SLAB_ADMIN_OFF + 32];
    var burned := AdminBurned(admin);
    currentSlot := 0;
    if |clock| >= 8 {
      currentSlot := ReadU64(clock, 0);
    }
    var existingAge := ReadU64(ctx, CTX_BASE + MARKET_AGE_OFF);
    var existingSnapshot := ReadU64(ctx, CTX_BASE + SNAPSHOT_SLOT_OFF);
    assert currentSlot == CurrentSlot(clock);
    age := 0;
    if existingSnapshot > 0 && burned {
      age := TruncU64(existingAge + SaturatingSub(currentSlot, existingSnapshot));
      assert age == MarketAge(burned, existingAge, existingSnapshot, currentSlot);
    } else {
      assert age == MarketAge(burned, existingAge, existingSnapshot, currentSlot);
    }
    UpdateSucceeds(ctx, slab, clock);
  }

  // ===========================================================================
  // Dispatch on the tag byte
  // ===========================================================================

  method ProcessInstruction(accounts: seq<AccountInfo>, data: seq<byte>) returns (r: Result<()>)
    modifies set a | a in accounts :: a.data
    ensures |data| == 0 || (data[0] != 0x00 && data[0] != 0x02 && data[0] != 0x03) ==>
      r == Err(InvalidInstructionData) && forall a :: a in accounts ==> a.data[..] == old(a.data[..])
    ensures |data| > 0 && data[0] == 0x00 ==>
      if |accounts| < 2 then r == Err(NotEnoughAccountKeys)
      else
        var out := MatchOutcome(accounts[0].isSigner, accounts[0].key, data, old(accounts[1].data[..]));
        r == out.Status() && accounts[1].data[..] == After(out, old(accounts[1].data[..]))
    ensures |data| > 0 && data[0] == 0x02 ==>
      if |accounts| < 2 then r == Err(NotEnoughAccountKeys)
      else
        var out := InitOutcome(accounts[0].key, data, old(accounts[1].data[..]));
        r == out.Status() && accounts[1].data[..] == After(out, old(accounts[1].data[..]))
    ensures |data| > 0 && data[0] == 0x03 ==>
      if |accounts| < 3 then r == Err(NotEnoughAccountKeys)
      else
        var out := UpdateOutcome(old(accounts[0].data[..]),
                                 accounts[1].data == accounts[0].data, old(accounts[1].data[..]),
                                 accounts[2].data == accounts[0].data, old(accounts[2].data[..]));
        r == out.Status() && accounts[0].data[..] == After(out, old(accounts[0].data[..]))
    // Only the context account's data can change.
    ensures |data| > 0 && (data[0] == 0x00 || data[0] == 0x02) ==>
      forall a :: a in accounts && (|accounts| < 2 || a.data != accounts[1].data) ==> a.data[..] == old(a.data[..])
    ensures |data| > 0 && data[0] == 0x03 ==>
      forall a :: a in accounts && (|accounts| < 3 || a.data != accounts[0].data) ==> a.data[..] == old(a.data[..])
  {
    if |data| == 0 {
      return Err(InvalidInstructionData);
    }
    match data[0]
    case 0x00 => r := ProcessMatch(accounts, data);
    case 0x02 => r := ProcessInit(accounts, data);
    case 0x03 => r := ProcessUpdateCredibility(accounts, data);
    case _ => r := Err(InvalidInstructionData);
  }
}
