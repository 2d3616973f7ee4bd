/** The 320-byte matcher context account: a 64-byte return-data area followed
    by the 256-byte context proper, whose field offsets are relative to byte 64. */
module Layout {
  import opened Ints
  import opened LittleEndian

  /** "PERCMATC" */
  const MAGIC: u64 := 0x5045_5243_4d41_5443
  const VERSION: u32 := 4
  const KIND_CREDIBILITY: byte := 2

  const CTX_LEN: nat := 320
  const CTX_BASE: nat := 64

  // Return data (absolute offsets)
  const RET_EXEC_PRICE_OFF: nat := 0
  const RET_FILL_SIZE_OFF: nat := 8

  // Context fields (relative to CTX_BASE)
  const MAGIC_OFF: nat := 0
  const VERSION_OFF: nat := 8
  const KIND_OFF: nat := 12
  const LP_PDA_OFF: nat := 16
  const BASE_FEE_OFF: nat := 48
  const MIN_SPREAD_OFF: nat := 52
  const MAX_SPREAD_OFF: nat := 56
  const IMBALANCE_K_OFF: nat := 60
  const LIQUIDITY_OFF: nat := 64
  const MAX_FILL_OFF: nat := 80
  const INVENTORY_OFF: nat := 96
  const LAST_ORACLE_OFF: nat := 112
  const LAST_EXEC_OFF: nat := 120
  const MAX_INVENTORY_OFF: nat := 128
  const INSURANCE_OFF: nat := 144
  const TOTAL_OI_OFF: nat := 160
  const MARKET_AGE_OFF: nat := 176
  const LAST_DEFICIT_OFF: nat := 184
  const SNAPSHOT_SLOT_OFF: nat := 192
  const AGE_HALFLIFE_OFF: nat := 200
  const INSURANCE_WEIGHT_OFF: nat := 204
  const RESERVED_OFF: nat := 208

  /** The field (by its offset) that holds the context byte at absolute offset
      `i`; padding belongs to the field before it, the reserved tail to 208. */
  function FieldAt(i: nat): nat
    requires CTX_BASE <= i
  {
    var rel := i - CTX_BASE;
    if rel < VERSION_OFF then MAGIC_OFF
    else if rel < KIND_OFF then VERSION_OFF
    else if rel < LP_PDA_OFF then KIND_OFF
    else if rel < BASE_FEE_OFF then LP_PDA_OFF
    else if rel < MIN_SPREAD_OFF then BASE_FEE_OFF
    else if rel < MAX_SPREAD_OFF then MIN_SPREAD_OFF
    else if rel < IMBALANCE_K_OFF then MAX_SPREAD_OFF
    else if rel < LIQUIDITY_OFF then IMBALANCE_K_OFF
    else if rel < MAX_FILL_OFF then LIQUIDITY_OFF
    else if rel < INVENTORY_OFF then MAX_FILL_OFF
    else if rel < LAST_ORACLE_OFF then INVENTORY_OFF
    else if rel < LAST_EXEC_OFF then LAST_ORACLE_OFF
    else if rel < MAX_INVENTORY_OFF then LAST_EXEC_OFF
    else if rel < INSURANCE_OFF then MAX_INVENTORY_OFF
    else if rel < TOTAL_OI_OFF then INSURANCE_OFF
    else if rel < MARKET_AGE_OFF then TOTAL_OI_OFF
    else if rel < LAST_DEFICIT_OFF then MARKET_AGE_OFF
    else if rel < SNAPSHOT_SLOT_OFF then LAST_DEFICIT_OFF
    else if rel < AGE_HALFLIFE_OFF then SNAPSHOT_SLOT_OFF
    else if rel < INSURANCE_WEIGHT_OFF then AGE_HALFLIFE_OFF
    else if rel < INSURANCE_WEIGHT_OFF + 4 then INSURANCE_WEIGHT_OFF
    else RESERVED_OFF
  }

  type Pubkey = s: seq<byte> | |s| == 32 witness seq(32, _ => 0)

  /** Every field of the context, as the program reads it. */
  datatype MatcherContext = MatcherContext(
    magic: u64,
    version: u32,
    kind: byte,
    lpPda: Pubkey,
    baseFeeBps: u32,
    minSpreadBps: u32,
    maxSpreadBps: u32,
    imbalanceKBps: u32,
    liquidityE6: u128,
    maxFillAbs: u128,
    inventoryBase: i128,
    lastOraclePriceE6: u64,
    lastExecPriceE6: u64,
    maxInventoryAbs: u128,
    insuranceSnapshot: u128,
    totalOiSnapshot: u128,
    marketAgeSlots: u64,
    lastDeficitSlot: u64,
    snapshotSlot: u64,
    ageHalflifeSlots: u32,
    insuranceWeightBps: u32)

  function StoredPda(s: seq<byte>): (k: Pubkey)
    requires |s| >= CTX_LEN
  {
    s[CTX_BASE + LP_PDA_OFF..CTX_BASE + LP_PDA_OFF + 32]
  }

  /** Decode the context fields of a context account of at least 320 bytes. */
  function DecodeContext(s: seq<byte>): (c: MatcherContext)
    requires |s| >= CTX_LEN
  {
    MatcherContext(
      ReadU64(s, CTX_BASE + MAGIC_OFF),
      ReadU32(s, CTX_BASE + VERSION_OFF),
      s[CTX_BASE + KIND_OFF],
      StoredPda(s),
      ReadU32(s, CTX_BASE + BASE_FEE_OFF),
      ReadU32(s, CTX_BASE + MIN_SPREAD_OFF),
      ReadU32(s, CTX_BASE + MAX_SPREAD_OFF),
      ReadU32(s, CTX_BASE + IMBALANCE_K_OFF),
      ReadU128(s, CTX_BASE + LIQUIDITY_OFF),
      ReadU128(s, CTX_BASE + MAX_FILL_OFF),
      ReadI128(s, CTX_BASE + INVENTORY_OFF),
      ReadU64(s, CTX_BASE + LAST_ORACLE_OFF),
      ReadU64(s, CTX_BASE + LAST_EXEC_OFF),
      ReadU128(s, CTX_BASE + MAX_INVENTORY_OFF),
      ReadU128(s, CTX_BASE + INSURANCE_OFF),
      ReadU128(s, CTX_BASE + TOTAL_OI_OFF),
      ReadU64(s, CTX_BASE + MARKET_AGE_OFF),
      ReadU64(s, CTX_BASE + LAST_DEFICIT_OFF),
      ReadU64(s, CTX_BASE + SNAPSHOT_SLOT_OFF),
      ReadU32(s, CTX_BASE + AGE_HALFLIFE_OFF),
      ReadU32(s, CTX_BASE + INSURANCE_WEIGHT_OFF))
  }

  /** Decoding loses nothing: every field's bytes in the account are the
      little-endian encoding of the value decoded from them. */
  lemma DecodeContextEncodes(s: seq<byte>)
    requires |s| >= CTX_LEN
    ensures EncodeU64(DecodeContext(s).magic) == s[64..72]
    ensures EncodeU32(DecodeContext(s).version) == s[72..76]
    ensures [DecodeContext(s).kind] == s[76..77]
    ensures DecodeContext(s).lpPda == s[80..112]
    ensures EncodeU32(DecodeContext(s).baseFeeBps) == s[112..116]
    ensures EncodeU32(DecodeContext(s).minSpreadBps) == s[116..120]
    ensures EncodeU32(DecodeContext(s).maxSpreadBps) == s[120..124]
    ensures EncodeU32(DecodeContext(s).imbalanceKBps) == s[124..128]
    ensures EncodeU128(DecodeContext(s).liquidityE6) == s[128..144]
    ensures EncodeU128(DecodeContext(s).maxFillAbs) == s[144..160]
    ensures EncodeI128(DecodeContext(s).inventoryBase) == s[160..176]
    ensures EncodeU64(DecodeContext(s).lastOraclePriceE6) == s[176..184]
    ensures EncodeU64(DecodeContext(s).lastExecPriceE6) == s[184..192]
    ensures EncodeU128(DecodeContext(s).maxInventoryAbs) == s[192..208]
    ensures EncodeU128(DecodeContext(s).insuranceSnapshot) == s[208..224]
    ensures EncodeU128(DecodeContext(s).totalOiSnapshot) == s[224..240]
    ensures EncodeU64(DecodeContext(s).marketAgeSlots) == s[240..248]
    ensures EncodeU64(DecodeContext(s).lastDeficitSlot) == s[248..256]
    ensures EncodeU64(DecodeContext(s).snapshotSlot) == s[256..264]
    ensures EncodeU32(DecodeContext(s).ageHalflifeSlots) == s[264..268]
    ensures EncodeU32(DecodeContext(s).insuranceWeightBps) == s[268..272]
  {
    DecodeHeadEncodes(s);
    DecodeTailEncodes(s);
  }

  lemma DecodeHeadEncodes(s: seq<byte>)
    requires |s| >= CTX_LEN
    ensures EncodeU64(DecodeContext(s).magic) == s[64..72]
    ensures EncodeU32(DecodeContext(s).version) == s[72..76]
    ensures [DecodeContext(s).kind] == s[76..77]
    ensures DecodeContext(s).lpPda == s[80..112]
    ensures EncodeU32(DecodeContext(s).baseFeeBps) == s[112..116]
    ensures EncodeU32(DecodeContext(s).minSpreadBps) == s[116..120]
    ensures EncodeU32(DecodeContext(s).maxSpreadBps) == s[120..124]
    ensures EncodeU32(DecodeContext(s).imbalanceKBps) == s[124..128]
    ensures EncodeU128(DecodeContext(s).liquidityE6) == s[128..144]
    ensures EncodeU128(DecodeContext(s).maxFillAbs) == s[144..160]
  {
    EncodeReadU64(s, 64);
    EncodeReadU32(s, 72);
    EncodeReadU32(s, 112);
    EncodeReadU32(s, 116);
    EncodeReadU32(s, 120);
    EncodeReadU32(s, 124);
    EncodeReadU128(s, 128);
    EncodeReadU128(s, 144);
  }

  lemma DecodeTailEncodes(s: seq<byte>)
    requires |s| >= CTX_LEN
    ensures EncodeI128(DecodeContext(s).inventoryBase) == s[160..176]
    ensures EncodeU64(DecodeContext(s).lastOraclePriceE6) == s[176..184]
    ensures EncodeU64(DecodeContext(s).lastExecPriceE6) == s[184..192]
    ensures EncodeU128(DecodeContext(s).maxInventoryAbs) == s[192..208]
    ensures EncodeU128(DecodeContext(s).insuranceSnapshot) == s[208..224]
    ensures EncodeU128(DecodeContext(s).totalOiSnapshot) == s[224..240]
    ensures EncodeU64(DecodeContext(s).marketAgeSlots) == s[240..248]
    ensures EncodeU64(DecodeContext(s).lastDeficitSlot) == s[248..256]
    ensures EncodeU64(DecodeContext(s).snapshotSlot) == s[256..264]
    ensures EncodeU32(DecodeContext(s).ageHalflifeSlots) == s[264..268]
    ensures EncodeU32(DecodeContext(s).insuranceWeightBps) == s[268..272]
  {
    EncodeReadI128(s, 160);
    EncodeReadU64(s, 176);
    EncodeReadU64(s, 184);
    EncodeReadU128(s, 192);
    EncodeReadU128(s, 208);
    EncodeReadU128(s, 224);
    EncodeReadU64(s, 240);
    EncodeReadU64(s, 248);
    EncodeReadU64(s, 256);
    EncodeReadU32(s, 264);
    EncodeReadU32(s, 268);
  }

  /** The 24-byte record a successful match leaves at the start of the account. */
  datatype ReturnData = ReturnData(execPriceE6: i64, fillSize: i128)

  function DecodeReturnData(s: seq<byte>): (d: ReturnData)
    requires |s| >= CTX_LEN
  {
    ReturnData(ReadI64(s, RET_EXEC_PRICE_OFF), ReadI128(s, RET_FILL_SIZE_OFF))
  }
}
