/** What the three instructions do to the decoded context, proved about their
    specification functions: which fields each one sets, which bytes it leaves
    alone, when it is accepted, and how the instructions compose. */
module MatcherProperties {
  import opened Ints
  import opened LittleEndian
  import opened Layout
  import opened Pricing
  import opened Matcher

  /** Two buffers agree on the bytes `[o, o + n)`. */
  lemma SameSlice(s: seq<byte>, t: seq<byte>, o: nat, n: nat)
    requires o + n <= |s| && o + n <= |t|
    requires forall i :: o <= i < o + n ==> s[i] == t[i]
    ensures s[o..o + n] == t[o..o + n]
  {
  }

  // ===========================================================================
  // Match
  // ===========================================================================

  /** The slices of the context's fields other than those in `written` agree. */
  predicate FieldsAgreeExcept(s: seq<byte>, t: seq<byte>, written: set<nat>)
    requires |s| >= CTX_LEN && |t| >= CTX_LEN
  {
    HeadFieldsAgreeExcept(s, t, written) && TailFieldsAgreeExcept(s, t, written)
  }

  /** The fields from the magic to the fill limit. */
  predicate HeadFieldsAgreeExcept(s: seq<byte>, t: seq<byte>, written: set<nat>)
    requires |s| >= CTX_LEN && |t| >= CTX_LEN
  {
    && (MAGIC_OFF !in written ==> s[64..72] == t[64..72])
    && (VERSION_OFF !in written ==> s[72..76] == t[72..76])
    && (KIND_OFF !in written ==> s[76] == t[76])
    && (LP_PDA_OFF !in written ==> s[80..112] == t[80..112])
    && (BASE_FEE_OFF !in written ==> s[112..116] == t[112..116])
    && (MIN_SPREAD_OFF !in written ==> s[116..120] == t[116..120])
    && (MAX_SPREAD_OFF !in written ==> s[120..124] == t[120..124])
    && (IMBALANCE_K_OFF !in written ==> s[124..128] == t[124..128])
    && (LIQUIDITY_OFF !in written ==> s[128..144] == t[128..144])
    && (MAX_FILL_OFF !in written ==> s[144..160] == t[144..160])
  }

  /** The fields from the inventory to the insurance weight. */
  predicate TailFieldsAgreeExcept(s: seq<byte>, t: seq<byte>, written: set<nat>)
    requires |s| >= CTX_LEN && |t| >= CTX_LEN
  {
    && (INVENTORY_OFF !in written ==> s[160..176] == t[160..176])
    && (LAST_ORACLE_OFF !in written ==> s[176..184] == t[176..184])
    && (LAST_EXEC_OFF !in written ==> s[184..192] == t[184..192])
    && (MAX_INVENTORY_OFF !in written ==> s[192..208] == t[192..208])
    && (INSURANCE_OFF !in written ==> s[208..224] == t[208..224])
    && (TOTAL_OI_OFF !in written ==> s[224..240] == t[224..240])
    && (MARKET_AGE_OFF !in written ==> s[240..248] == t[240..248])
    && (LAST_DEFICIT_OFF !in written ==> s[248..256] == t[248..256])
    && (SNAPSHOT_SLOT_OFF !in written ==> s[256..264] == t[256..264])
    && (AGE_HALFLIFE_OFF !in written ==> s[264..268] == t[264..268])
    && (INSURANCE_WEIGHT_OFF !in written ==> s[268..272] == t[268..272])
  }

  /** Bytes that agree outside a set of fields give field slices that agree. */
  lemma FieldsAgreeFromBytes(s: seq<byte>, t: seq<byte>, written: set<nat>)
    requires |s| >= CTX_LEN && |t| >= CTX_LEN
    requires forall i :: CTX_BASE <= i < CTX_LEN && FieldAt(i) !in written ==> s[i] == t[i]
    ensures FieldsAgreeExcept(s, t, written)
  {
    HeadFieldsFromBytes(s, t, written);
    TailFieldsFromBytes(s, t, written);
  }

  lemma HeadFieldsFromBytes(s: seq<byte>, t: seq<byte>, written: set<nat>)
    requires |s| >= CTX_LEN && |t| >= CTX_LEN
    requires forall i :: CTX_BASE <= i < CTX_LEN && FieldAt(i) !in written ==> s[i] == t[i]
    ensures HeadFieldsAgreeExcept(s, t, written)
  {
    if MAGIC_OFF !in written { SameSlice(s, t, 64, 8); }
    if VERSION_OFF !in written { SameSlice(s, t, 72, 4); }
    if LP_PDA_OFF !in written { SameSlice(s, t, 80, 32); }
    if BASE_FEE_OFF !in written { SameSlice(s, t, 112, 4); }
    if MIN_SPREAD_OFF !in written { SameSlice(s, t, 116, 4); }
    if MAX_SPREAD_OFF !in written { SameSlice(s, t, 120, 4); }
    if IMBALANCE_K_OFF !in written { SameSlice(s, t, 124, 4); }
    if LIQUIDITY_OFF !in written { SameSlice(s, t, 128, 16); }
    if MAX_FILL_OFF !in written { SameSlice(s, t, 144, 16); }
  }

  lemma TailFieldsFromBytes(s: seq<byte>, t: seq<byte>, written: set<nat>)
    requires |s| >= CTX_LEN && |t| >= CTX_LEN
    requires forall i :: CTX_BASE <= i < CTX_LEN && FieldAt(i) !in written ==> s[i] == t[i]
    ensures TailFieldsAgreeExcept(s, t, written)
  {
    if INVENTORY_OFF !in written { SameSlice(s, t, 160, 16); }
    if LAST_ORACLE_OFF !in written { SameSlice(s, t, 176, 8); }
    if LAST_EXEC_OFF !in written { SameSlice(s, t, 184, 8); }
    if MAX_INVENTORY_OFF !in written { SameSlice(s, t, 192, 16); }
    if INSURANCE_OFF !in written { SameSlice(s, t, 208, 16); }
    if TOTAL_OI_OFF !in written { SameSlice(s, t, 224, 16); }
    if MARKET_AGE_OFF !in written { SameSlice(s, t, 240, 8); }
    if LAST_DEFICIT_OFF !in written { SameSlice(s, t, 248, 8); }
    if SNAPSHOT_SLOT_OFF !in written { SameSlice(s, t, 256, 8); }
    if AGE_HALFLIFE_OFF !in written { SameSlice(s, t, 264, 4); }
    if INSURANCE_WEIGHT_OFF !in written { SameSlice(s, t, 268, 4); }
  }

  // ===========================================================================
  // Match
  // ===========================================================================

  /** The fields a match writes. */
  const MATCH_WRITTEN: set<nat> := {INVENTORY_OFF, LAST_ORACLE_OFF, LAST_EXEC_OFF}

  /** A match's writes set the inventory and the last prices, fill the return
      record, and leave every other byte of the account as it was. */
  lemma MatchWritesEffect(ctx: seq<byte>, inventory: i128, oracle: u64, price: u64, tradeSize: i128, s: seq<byte>)
    requires |ctx| >= CTX_LEN && s == MatchWrites(ctx, inventory, oracle, price, tradeSize)
    ensures DecodeContext(s) == DecodeContext(ctx).(inventoryBase := inventory, lastOraclePriceE6 := oracle,
                                                    lastExecPriceE6 := price)
    ensures DecodeReturnData(s) == ReturnData(AsI64(price), tradeSize)
    ensures forall i :: 24 <= i < CTX_BASE + INVENTORY_OFF || CTX_BASE + MAX_INVENTORY_OFF <= i < |ctx| ==> s[i] == ctx[i]
  {
    MatchWritesBytes(ctx, inventory, oracle, price, tradeSize, s);
    MatchWritesFrame(ctx, inventory, oracle, price, tradeSize, s);
    FieldsAgreeFromBytes(s, ctx, MATCH_WRITTEN);
    MatchDecode(s, ctx, inventory, oracle, price);
    MatchReturnDecode(s, price, tradeSize);
  }

  lemma MatchWritesBytes(ctx: seq<byte>, inventory: i128, oracle: u64, price: u64, tradeSize: i128, s: seq<byte>)
    requires |ctx| >= CTX_LEN && s == MatchWrites(ctx, inventory, oracle, price, tradeSize)
    ensures s[0..8] == EncodeI64(AsI64(price)) && s[8..24] == EncodeI128(tradeSize)
    ensures s[160..176] == EncodeI128(inventory) && s[176..184] == EncodeU64(oracle)
    ensures s[184..192] == EncodeU64(price)
  {
    var s1 := Splice(ctx, 160, EncodeI128(inventory));
    var s2 := Splice(s1, 176, EncodeU64(oracle));
    var s3 := Splice(s2, 184, EncodeU64(price));
    var s4 := Splice(s3, 0, EncodeI64(AsI64(price)));
    var s5 := Splice(s4, 8, EncodeI128(tradeSize));
    SpliceInside(ctx, 160, EncodeI128(inventory));
    SpliceOutside(s1, 176, EncodeU64(oracle), 160, 16);
    SpliceOutside(s2, 184, EncodeU64(price), 160, 16);
    SpliceOutside(s3, 0, EncodeI64(AsI64(price)), 160, 16);
    SpliceOutside(s4, 8, EncodeI128(tradeSize), 160, 16);
    SpliceInside(s1, 176, EncodeU64(oracle));
    SpliceOutside(s2, 184, EncodeU64(price), 176, 8);
    SpliceOutside(s3, 0, EncodeI64(AsI64(price)), 176, 8);
    SpliceOutside(s4, 8, EncodeI128(tradeSize), 176, 8);
    SpliceInside(s2, 184, EncodeU64(price));
    SpliceOutside(s3, 0, EncodeI64(AsI64(price)), 184, 8);
    SpliceOutside(s4, 8, EncodeI128(tradeSize), 184, 8);
    SpliceInside(s3, 0, EncodeI64(AsI64(price)));
    SpliceOutside(s4, 8, EncodeI128(tradeSize), 0, 8);
    SpliceInside(s4, 8, EncodeI128(tradeSize));
    assert s == s5;
  }

  lemma MatchWritesFrame(ctx: seq<byte>, inventory: i128, oracle: u64, price: u64, tradeSize: i128, s: seq<byte>)
    requires |ctx| >= CTX_LEN && s == MatchWrites(ctx, inventory, oracle, price, tradeSize)
    ensures forall i :: CTX_BASE <= i < CTX_LEN && FieldAt(i) !in MATCH_WRITTEN ==> s[i] == ctx[i]
    ensures forall i :: 24 <= i < CTX_BASE + INVENTORY_OFF || CTX_BASE + MAX_INVENTORY_OFF <= i < |ctx| ==> s[i] == ctx[i]
  {
  }

  lemma MatchDecode(s: seq<byte>, ctx: seq<byte>, inventory: i128, oracle: u64, price: u64)
    requires |s| >= CTX_LEN && |ctx| >= CTX_LEN
    requires FieldsAgreeExcept(s, ctx, MATCH_WRITTEN)
    requires s[160..176] == EncodeI128(inventory) && s[176..184] == EncodeU64(oracle)
    requires s[184..192] == EncodeU64(price)
    ensures DecodeContext(s) == DecodeContext(ctx).(inventoryBase := inventory, lastOraclePriceE6 := oracle,
                                                    lastExecPriceE6 := price)
  {
    MatchUnchangedSlices(s, ctx);
    MatchFieldsDecode(s, ctx);
    ReadEncodedI128(s, 160, inventory);
    ReadEncodedU64(s, 176, oracle);
    ReadEncodedU64(s, 184, price);
  }

  lemma MatchReturnDecode(s: seq<byte>, price: u64, tradeSize: i128)
    requires |s| >= CTX_LEN
    requires s[0..8] == EncodeI64(AsI64(price)) && s[8..24] == EncodeI128(tradeSize)
    ensures DecodeReturnData(s) == ReturnData(AsI64(price), tradeSize)
  {
    ReadEncodedI64(s, 0, AsI64(price));
    ReadEncodedI128(s, 8, tradeSize);
  }

  /** The slices of the fields match leaves alone are unchanged. */
  lemma MatchUnchangedSlices(s: seq<byte>, ctx: seq<byte>)
    requires |s| >= CTX_LEN && |ctx| >= CTX_LEN
    requires FieldsAgreeExcept(s, ctx, MATCH_WRITTEN)
    ensures s[64..72] == ctx[64..72] && s[72..76] == ctx[72..76] && s[76] == ctx[76]
    ensures s[80..112] == ctx[80..112] && s[112..116] == ctx[112..116] && s[116..120] == ctx[116..120]
    ensures s[120..124] == ctx[120..124] && s[124..128] == ctx[124..128] && s[128..144] == ctx[128..144]
    ensures s[144..160] == ctx[144..160] && s[192..208] == ctx[192..208] && s[208..224] == ctx[208..224]
    ensures s[224..240] == ctx[224..240] && s[240..248] == ctx[240..248] && s[248..256] == ctx[248..256]
    ensures s[256..264] == ctx[256..264] && s[264..268] == ctx[264..268] && s[268..272] == ctx[268..272]
  {
  }

  lemma MatchFieldsDecode(s: seq<byte>, ctx: seq<byte>)
    requires |s| >= CTX_LEN && |ctx| >= CTX_LEN
    requires s[64..72] == ctx[64..72] && s[72..76] == ctx[72..76] && s[76] == ctx[76]
    requires s[80..112] == ctx[80..112] && s[112..116] == ctx[112..116] && s[116..120] == ctx[116..120]
    requires s[120..124] == ctx[120..124] && s[124..128] == ctx[124..128] && s[128..144] == ctx[128..144]
    requires s[144..160] == ctx[144..160] && s[192..208] == ctx[192..208] && s[208..224] == ctx[208..224]
    requires s[224..240] == ctx[224..240] && s[240..248] == ctx[240..248] && s[248..256] == ctx[248..256]
    requires s[256..264] == ctx[256..264] && s[264..268] == ctx[264..268] && s[268..272] == ctx[268..272]
    ensures DecodeContext(s) == DecodeContext(ctx).(inventoryBase := ReadI128(s, 160),
                                                    lastOraclePriceE6 := ReadU64(s, 176),
                                                    lastExecPriceE6 := ReadU64(s, 184))
  {
    assert ReadU64(s, 64) == ReadU64(ctx, 64) && ReadU32(s, 72) == ReadU32(ctx, 72) && StoredPda(s) == StoredPda(ctx);
    assert ReadU32(s, 112) == ReadU32(ctx, 112) && ReadU32(s, 116) == ReadU32(ctx, 116);
    assert ReadU32(s, 120) == ReadU32(ctx, 120) && ReadU32(s, 124) == ReadU32(ctx, 124);
    assert ReadU128(s, 128) == ReadU128(ctx, 128) && ReadU128(s, 144) == ReadU128(ctx, 144);
    assert ReadU128(s, 192) == ReadU128(ctx, 192) && ReadU128(s, 208) == ReadU128(ctx, 208);
    assert ReadU128(s, 224) == ReadU128(ctx, 224) && ReadU64(s, 240) == ReadU64(ctx, 240);
    assert ReadU64(s, 248) == ReadU64(ctx, 248) && ReadU64(s, 256) == ReadU64(ctx, 256);
    assert ReadU32(s, 264) == ReadU32(ctx, 264) && ReadU32(s, 268) == ReadU32(ctx, 268);
  }

  // ===========================================================================
  // Init
  // ===========================================================================

  /** The fields an init writes. */
  const INIT_WRITTEN: set<nat> := {MAGIC_OFF, VERSION_OFF, KIND_OFF, LP_PDA_OFF, BASE_FEE_OFF, MIN_SPREAD_OFF,
    MAX_SPREAD_OFF, IMBALANCE_K_OFF, LIQUIDITY_OFF, MAX_FILL_OFF, INVENTORY_OFF, MAX_INVENTORY_OFF,
    AGE_HALFLIFE_OFF, INSURANCE_WEIGHT_OFF}

  /** An init's writes set the magic, version, kind, LP key, every parameter and
      a zero inventory, and leave every other byte of the account as it was. */
  lemma InitWritesEffect(ctx: seq<byte>, lpKey: Pubkey, p: InitParams, s: seq<byte>)
    requires |ctx| >= CTX_LEN && s == InitWrites(ctx, lpKey, p)
    ensures DecodeContext(s) == DecodeContext(ctx).(
              magic := MAGIC, version := VERSION, kind := p.kind, lpPda := lpKey,
              baseFeeBps := p.baseFeeBps, minSpreadBps := p.minSpreadBps, maxSpreadBps := p.maxSpreadBps,
              imbalanceKBps := p.imbalanceKBps, liquidityE6 := p.liquidityE6, maxFillAbs := p.maxFillAbs,
              inventoryBase := 0, maxInventoryAbs := p.maxInventoryAbs,
              ageHalflifeSlots := p.ageHalflifeSlots, insuranceWeightBps := p.insuranceWeightBps)
    ensures forall i :: 0 <= i < CTX_BASE || CTX_BASE + KIND_OFF < i < CTX_BASE + LP_PDA_OFF
                        || CTX_BASE + LAST_ORACLE_OFF <= i < CTX_BASE + MAX_INVENTORY_OFF
                        || CTX_BASE + INSURANCE_OFF <= i < CTX_BASE + AGE_HALFLIFE_OFF
                        || CTX_BASE + RESERVED_OFF <= i < |ctx|
                        ==> s[i] == ctx[i]
  {
    InitWritesBytes(ctx, lpKey, p, s);
    InitWritesFrame(ctx, lpKey, p, s);
    FieldsAgreeFromBytes(s, ctx, INIT_WRITTEN);
    InitDecode(s, ctx, lpKey, p);
  }

  lemma InitWritesFrame(ctx: seq<byte>, lpKey: Pubkey, p: InitParams, s: seq<byte>)
    requires |ctx| >= CTX_LEN && s == InitWrites(ctx, lpKey, p)
    ensures forall i :: CTX_BASE <= i < CTX_LEN && FieldAt(i) !in INIT_WRITTEN ==> s[i] == ctx[i]
    ensures forall i :: 0 <= i < CTX_BASE || CTX_BASE + KIND_OFF < i < CTX_BASE + LP_PDA_OFF
                        || CTX_BASE + LAST_ORACLE_OFF <= i < CTX_BASE + MAX_INVENTORY_OFF
                        || CTX_BASE + INSURANCE_OFF <= i < CTX_BASE + AGE_HALFLIFE_OFF
                        || CTX_BASE + RESERVED_OFF <= i < |ctx|
                        ==> s[i] == ctx[i]
  {
  }

  lemma InitWritesBytes(ctx: seq<byte>, lpKey: Pubkey, p: InitParams, s: seq<byte>)
    requires |ctx| >= CTX_LEN && s == InitWrites(ctx, lpKey, p)
    ensures s[64..72] == EncodeU64(MAGIC) && s[72..76] == EncodeU32(VERSION) && s[76] == p.kind
    ensures s[80..112] == lpKey
    ensures s[112..116] == EncodeU32(p.baseFeeBps) && s[116..120] == EncodeU32(p.minSpreadBps)
    ensures s[120..124] == EncodeU32(p.maxSpreadBps) && s[124..128] == EncodeU32(p.imbalanceKBps)
    ensures s[128..144] == EncodeU128(p.liquidityE6) && s[144..160] == EncodeU128(p.maxFillAbs)
    ensures s[160..176] == EncodeI128(0) && s[192..208] == EncodeU128(p.maxInventoryAbs)
    ensures s[264..268] == EncodeU32(p.ageHalflifeSlots) && s[268..272] == EncodeU32(p.insuranceWeightBps)
  {
    InitWritesHeadBytes(ctx, lpKey, p, s);
    InitWritesTailBytes(ctx, lpKey, p, s);
  }

  lemma InitWritesHeadBytes(ctx: seq<byte>, lpKey: Pubkey, p: InitParams, s: seq<byte>)
    requires |ctx| >= CTX_LEN && s == InitWrites(ctx, lpKey, p)
    ensures s[64..72] == EncodeU64(MAGIC) && s[72..76] == EncodeU32(VERSION) && s[76] == p.kind
    ensures s[80..112] == lpKey
    ensures s[112..116] == EncodeU32(p.baseFeeBps) && s[116..120] == EncodeU32(p.minSpreadBps)
  {
    var s1 := Splice(ctx, 64, EncodeU64(MAGIC));
    var s2 := Splice(s1, 72, EncodeU32(VERSION));
    var s3 := Splice(s2, 76, [p.kind]);
    var s4 := Splice(s3, 80, lpKey);
    var s5 := Splice(s4, 112, EncodeU32(p.baseFeeBps));
    var s6 := Splice(s5, 116, EncodeU32(p.minSpreadBps));
    var s7 := Splice(s6, 120, EncodeU32(p.maxSpreadBps));
    var s8 := Splice(s7, 124, EncodeU32(p.imbalanceKBps));
    var s9 := Splice(s8, 128, EncodeU128(p.liquidityE6));
    var s10 := Splice(s9, 144, EncodeU128(p.maxFillAbs));
    var s11 := Splice(s10, 160, EncodeI128(0));
    var s12 := Splice(s11, 192, EncodeU128(p.maxInventoryAbs));
    var s13 := Splice(s12, 264, EncodeU32(p.ageHalflifeSlots));
    var s14 := Splice(s13, 268, EncodeU32(p.insuranceWeightBps));
    SpliceInside(ctx, 64, EncodeU64(MAGIC));
    SpliceOutside(s1, 72, EncodeU32(VERSION), 64, 8);
    SpliceOutside(s2, 76, [p.kind], 64, 8);
    SpliceOutside(s3, 80, lpKey, 64, 8);
    SpliceOutside(s4, 112, EncodeU32(p.baseFeeBps), 64, 8);
    SpliceOutside(s5, 116, EncodeU32(p.minSpreadBps), 64, 8);
    SpliceOutside(s6, 120, EncodeU32(p.maxSpreadBps), 64, 8);
    SpliceOutside(s7, 124, EncodeU32(p.imbalanceKBps), 64, 8);
    SpliceOutside(s8, 128, EncodeU128(p.liquidityE6), 64, 8);
    SpliceOutside(s9, 144, EncodeU128(p.maxFillAbs), 64, 8);
    SpliceOutside(s10, 160, EncodeI128(0), 64, 8);
    SpliceOutside(s11, 192, EncodeU128(p.maxInventoryAbs), 64, 8);
    SpliceOutside(s12, 264, EncodeU32(p.ageHalflifeSlots), 64, 8);
    SpliceOutside(s13, 268, EncodeU32(p.insuranceWeightBps), 64, 8);
    SpliceInside(s1, 72, EncodeU32(VERSION));
    SpliceOutside(s2, 76, [p.kind], 72, 4);
    SpliceOutside(s3, 80, lpKey, 72, 4);
    SpliceOutside(s4, 112, EncodeU32(p.baseFeeBps), 72, 4);
    SpliceOutside(s5, 116, EncodeU32(p.minSpreadBps), 72, 4);
    SpliceOutside(s6, 120, EncodeU32(p.maxSpreadBps), 72, 4);
    SpliceOutside(s7, 124, EncodeU32(p.imbalanceKBps), 72, 4);
    SpliceOutside(s8, 128, EncodeU128(p.liquidityE6), 72, 4);
    SpliceOutside(s9, 144, EncodeU128(p.maxFillAbs), 72, 4);
    SpliceOutside(s10, 160, EncodeI128(0), 72, 4);
    SpliceOutside(s11, 192, EncodeU128(p.maxInventoryAbs), 72, 4);
    SpliceOutside(s12, 264, EncodeU32(p.ageHalflifeSlots), 72, 4);
    SpliceOutside(s13, 268, EncodeU32(p.insuranceWeightBps), 72, 4);
    SpliceInside(s2, 76, [p.kind]);
    SpliceOutside(s3, 80, lpKey, 76, 1);
    SpliceOutside(s4, 112, EncodeU32(p.baseFeeBps), 76, 1);
    SpliceOutside(s5, 116, EncodeU32(p.minSpreadBps), 76, 1);
    SpliceOutside(s6, 120, EncodeU32(p.maxSpreadBps), 76, 1);
    SpliceOutside(s7, 124, EncodeU32(p.imbalanceKBps), 76, 1);
    SpliceOutside(s8, 128, EncodeU128(p.liquidityE6), 76, 1);
    SpliceOutside(s9, 144, EncodeU128(p.maxFillAbs), 76, 1);
    SpliceOutside(s10, 160, EncodeI128(0), 76, 1);
    SpliceOutside(s11, 192, EncodeU128(p.maxInventoryAbs), 76, 1);
    SpliceOutside(s12, 264, EncodeU32(p.ageHalflifeSlots), 76, 1);
    SpliceOutside(s13, 268, EncodeU32(p.insuranceWeightBps), 76, 1);
    SpliceInside(s3, 80, lpKey);
    SpliceOutside(s4, 112, EncodeU32(p.baseFeeBps), 80, 32);
    SpliceOutside(s5, 116, EncodeU32(p.minSpreadBps), 80, 32);
    SpliceOutside(s6, 120, EncodeU32(p.maxSpreadBps), 80, 32);
    SpliceOutside(s7, 124, EncodeU32(p.imbalanceKBps), 80, 32);
    SpliceOutside(s8, 128, EncodeU128(p.liquidityE6), 80, 32);
    SpliceOutside(s9, 144, EncodeU128(p.maxFillAbs), 80, 32);
    SpliceOutside(s10, 160, EncodeI128(0), 80, 32);
    SpliceOutside(s11, 192, EncodeU128(p.maxInventoryAbs), 80, 32);
    SpliceOutside(s12, 264, EncodeU32(p.ageHalflifeSlots), 80, 32);
    SpliceOutside(s13, 268, EncodeU32(p.insuranceWeightBps), 80, 32);
    SpliceInside(s4, 112, EncodeU32(p.baseFeeBps));
    SpliceOutside(s5, 116, EncodeU32(p.minSpreadBps), 112, 4);
    SpliceOutside(s6, 120, EncodeU32(p.maxSpreadBps), 112, 4);
    SpliceOutside(s7, 124, EncodeU32(p.imbalanceKBps), 112, 4);
    SpliceOutside(s8, 128, EncodeU128(p.liquidityE6), 112, 4);
    SpliceOutside(s9, 144, EncodeU128(p.maxFillAbs), 112, 4);
    SpliceOutside(s10, 160, EncodeI128(0), 112, 4);
    SpliceOutside(s11, 192, EncodeU128(p.maxInventoryAbs), 112, 4);
    SpliceOutside(s12, 264, EncodeU32(p.ageHalflifeSlots), 112, 4);
    SpliceOutside(s13, 268, EncodeU32(p.insuranceWeightBps), 112, 4);
    SpliceInside(s5, 116, EncodeU32(p.minSpreadBps));
    SpliceOutside(s6, 120, EncodeU32(p.maxSpreadBps), 116, 4);
    SpliceOutside(s7, 124, EncodeU32(p.imbalanceKBps), 116, 4);
    SpliceOutside(s8, 128, EncodeU128(p.liquidityE6), 116, 4);
    SpliceOutside(s9, 144, EncodeU128(p.maxFillAbs), 116, 4);
    SpliceOutside(s10, 160, EncodeI128(0), 116, 4);
    SpliceOutside(s11, 192, EncodeU128(p.maxInventoryAbs), 116, 4);
    SpliceOutside(s12, 264, EncodeU32(p.ageHalflifeSlots), 116, 4);
    SpliceOutside(s13, 268, EncodeU32(p.insuranceWeightBps), 116, 4);
    assert s4 == InitHeaderWrites(ctx, lpKey, p.kind);
    assert s == s14;
  }

  lemma InitWritesTailBytes(ctx: seq<byte>, lpKey: Pubkey, p: InitParams, s: seq<byte>)
    requires |ctx| >= CTX_LEN && s == InitWrites(ctx, lpKey, p)
    ensures s[120..124] == EncodeU32(p.maxSpreadBps) && s[124..128] == EncodeU32(p.imbalanceKBps)
    ensures s[128..144] == EncodeU128(p.liquidityE6) && s[144..160] == EncodeU128(p.maxFillAbs)
    ensures s[160..176] == EncodeI128(0) && s[192..208] == EncodeU128(p.maxInventoryAbs)
    ensures s[264..268] == EncodeU32(p.ageHalflifeSlots) && s[268..272] == EncodeU32(p.insuranceWeightBps)
  {
    var s1 := Splice(ctx, 64, EncodeU64(MAGIC));
    var s2 := Splice(s1, 72, EncodeU32(VERSION));
    var s3 := Splice(s2, 76, [p.kind]);
    var s4 := Splice(s3, 80, lpKey);
    var s5 := Splice(s4, 112, EncodeU32(p.baseFeeBps));
    var s6 := Splice(s5, 116, EncodeU32(p.minSpreadBps));
    var s7 := Splice(s6, 120, EncodeU32(p.maxSpreadBps));
    var s8 := Splice(s7, 124, EncodeU32(p.imbalanceKBps));
    var s9 := Splice(s8, 128, EncodeU128(p.liquidityE6));
    var s10 := Splice(s9, 144, EncodeU128(p.maxFillAbs));
    var s11 := Splice(s10, 160, EncodeI128(0));
    var s12 := Splice(s11, 192, EncodeU128(p.maxInventoryAbs));
    var s13 := Splice(s12, 264, EncodeU32(p.ageHalflifeSlots));
    var s14 := Splice(s13, 268, EncodeU32(p.insuranceWeightBps));
    SpliceInside(s6, 120, EncodeU32(p.maxSpreadBps));
    SpliceOutside(s7, 124, EncodeU32(p.imbalanceKBps), 120, 4);
    SpliceOutside(s8, 128, EncodeU128(p.liquidityE6), 120, 4);
    SpliceOutside(s9, 144, EncodeU128(p.maxFillAbs), 120, 4);
    SpliceOutside(s10, 160, EncodeI128(0), 120, 4);
    SpliceOutside(s11, 192, EncodeU128(p.maxInventoryAbs), 120, 4);
    SpliceOutside(s12, 264, EncodeU32(p.ageHalflifeSlots), 120, 4);
    SpliceOutside(s13, 268, EncodeU32(p.insuranceWeightBps), 120, 4);
    SpliceInside(s7, 124, EncodeU32(p.imbalanceKBps));
    SpliceOutside(s8, 128, EncodeU128(p.liquidityE6), 124, 4);
    SpliceOutside(s9, 144, EncodeU128(p.maxFillAbs), 124, 4);
    SpliceOutside(s10, 160, EncodeI128(0), 124, 4);
    SpliceOutside(s11, 192, EncodeU128(p.maxInventoryAbs), 124, 4);
    SpliceOutside(s12, 264, EncodeU32(p.ageHalflifeSlots), 124, 4);
    SpliceOutside(s13, 268, EncodeU32(p.insuranceWeightBps), 124, 4);
    SpliceInside(s8, 128, EncodeU128(p.liquidityE6));
    SpliceOutside(s9, 144, EncodeU128(p.maxFillAbs), 128, 16);
    SpliceOutside(s10, 160, EncodeI128(0), 128, 16);
    SpliceOutside(s11, 192, EncodeU128(p.maxInventoryAbs), 128, 16);
    SpliceOutside(s12, 264, EncodeU32(p.ageHalflifeSlots), 128, 16);
    SpliceOutside(s13, 268, EncodeU32(p.insuranceWeightBps), 128, 16);
    SpliceInside(s9, 144, EncodeU128(p.maxFillAbs));
    SpliceOutside(s10, 160, EncodeI128(0), 144, 16);
    SpliceOutside(s11, 192, EncodeU128(p.maxInventoryAbs), 144, 16);
    SpliceOutside(s12, 264, EncodeU32(p.ageHalflifeSlots), 144, 16);
    SpliceOutside(s13, 268, EncodeU32(p.insuranceWeightBps), 144, 16);
    SpliceInside(s10, 160, EncodeI128(0));
    SpliceOutside(s11, 192, EncodeU128(p.maxInventoryAbs), 160, 16);
    SpliceOutside(s12, 264, EncodeU32(p.ageHalflifeSlots), 160, 16);
    SpliceOutside(s13, 268, EncodeU32(p.insuranceWeightBps), 160, 16);
    SpliceInside(s11, 192, EncodeU128(p.maxInventoryAbs));
    SpliceOutside(s12, 264, EncodeU32(p.ageHalflifeSlots), 192, 16);
    SpliceOutside(s13, 268, EncodeU32(p.insuranceWeightBps), 192, 16);
    SpliceInside(s12, 264, EncodeU32(p.ageHalflifeSlots));
    SpliceOutside(s13, 268, EncodeU32(p.insuranceWeightBps), 264, 4);
    SpliceInside(s13, 268, EncodeU32(p.insuranceWeightBps));
    assert s4 == InitHeaderWrites(ctx, lpKey, p.kind);
    assert s == s14;
  }

  lemma InitDecode(s: seq<byte>, ctx: seq<byte>, lpKey: Pubkey, p: InitParams)
    requires |s| >= CTX_LEN && |ctx| >= CTX_LEN
    requires FieldsAgreeExcept(s, ctx, INIT_WRITTEN)
    requires s[64..72] == EncodeU64(MAGIC) && s[72..76] == EncodeU32(VERSION) && s[76] == p.kind
    requires s[80..112] == lpKey
    requires s[112..116] == EncodeU32(p.baseFeeBps) && s[116..120] == EncodeU32(p.minSpreadBps)
    requires s[120..124] == EncodeU32(p.maxSpreadBps) && s[124..128] == EncodeU32(p.imbalanceKBps)
    requires s[128..144] == EncodeU128(p.liquidityE6) && s[144..160] == EncodeU128(p.maxFillAbs)
    requires s[160..176] == EncodeI128(0) && s[192..208] == EncodeU128(p.maxInventoryAbs)
    requires s[264..268] == EncodeU32(p.ageHalflifeSlots) && s[268..272] == EncodeU32(p.insuranceWeightBps)
    ensures DecodeContext(s) == DecodeContext(ctx).(
              magic := MAGIC, version := VERSION, kind := p.kind, lpPda := lpKey,
              baseFeeBps := p.baseFeeBps, minSpreadBps := p.minSpreadBps, maxSpreadBps := p.maxSpreadBps,
              imbalanceKBps := p.imbalanceKBps, liquidityE6 := p.liquidityE6, maxFillAbs := p.maxFillAbs,
              inventoryBase := 0, maxInventoryAbs := p.maxInventoryAbs,
              ageHalflifeSlots := p.ageHalflifeSlots, insuranceWeightBps := p.insuranceWeightBps)
  {
    InitUnchangedSlices(s, ctx);
    InitFieldsDecode(s, ctx);
    InitReads(s, p);
  }

  lemma InitReads(s: seq<byte>, p: InitParams)
    requires |s| >= CTX_LEN
    requires s[64..72] == EncodeU64(MAGIC) && s[72..76] == EncodeU32(VERSION)
    requires s[112..116] == EncodeU32(p.baseFeeBps) && s[116..120] == EncodeU32(p.minSpreadBps)
    requires s[120..124] == EncodeU32(p.maxSpreadBps) && s[124..128] == EncodeU32(p.imbalanceKBps)
    requires s[128..144] == EncodeU128(p.liquidityE6) && s[144..160] == EncodeU128(p.maxFillAbs)
    requires s[160..176] == EncodeI128(0) && s[192..208] == EncodeU128(p.maxInventoryAbs)
    requires s[264..268] == EncodeU32(p.ageHalflifeSlots) && s[268..272] == EncodeU32(p.insuranceWeightBps)
    ensures ReadU64(s, 64) == MAGIC && ReadU32(s, 72) == VERSION
    ensures ReadU32(s, 112) == p.baseFeeBps && ReadU32(s, 116) == p.minSpreadBps
    ensures ReadU32(s, 120) == p.maxSpreadBps && ReadU32(s, 124) == p.imbalanceKBps
    ensures ReadU128(s, 128) == p.liquidityE6 && ReadU128(s, 144) == p.maxFillAbs
    ensures ReadI128(s, 160) == 0 && ReadU128(s, 192) == p.maxInventoryAbs
    ensures ReadU32(s, 264) == p.ageHalflifeSlots && ReadU32(s, 268) == p.insuranceWeightBps
  {
    ReadEncodedU64(s, 64, MAGIC);
    ReadEncodedU32(s, 72, VERSION);
    ReadEncodedU32(s, 112, p.baseFeeBps);
    ReadEncodedU32(s, 116, p.minSpreadBps);
    ReadEncodedU32(s, 120, p.maxSpreadBps);
    ReadEncodedU32(s, 124, p.imbalanceKBps);
    ReadEncodedU128(s, 128, p.liquidityE6);
    ReadEncodedU128(s, 144, p.maxFillAbs);
    ReadEncodedI128(s, 160, 0);
    ReadEncodedU128(s, 192, p.maxInventoryAbs);
    ReadEncodedU32(s, 264, p.ageHalflifeSlots);
    ReadEncodedU32(s, 268, p.insuranceWeightBps);
  }

  /** The slices of the fields init leaves alone are unchanged. */
  lemma InitUnchangedSlices(s: seq<byte>, ctx: seq<byte>)
    requires |s| >= CTX_LEN && |ctx| >= CTX_LEN
    requires FieldsAgreeExcept(s, ctx, INIT_WRITTEN)
    ensures s[176..184] == ctx[176..184] && s[184..192] == ctx[184..192] && s[208..224] == ctx[208..224]
    ensures s[224..240] == ctx[224..240] && s[240..248] == ctx[240..248] && s[248..256] == ctx[248..256]
    ensures s[256..264] == ctx[256..264]
  {
  }

  lemma InitFieldsDecode(s: seq<byte>, ctx: seq<byte>)
    requires |s| >= CTX_LEN && |ctx| >= CTX_LEN
    requires s[176..184] == ctx[176..184] && s[184..192] == ctx[184..192] && s[208..224] == ctx[208..224]
    requires s[224..240] == ctx[224..240] && s[240..248] == ctx[240..248] && s[248..256] == ctx[248..256]
    requires s[256..264] == ctx[256..264]
    ensures DecodeContext(s) == DecodeContext(ctx).(
              magic := ReadU64(s, 64), version := ReadU32(s, 72), kind := s[76], lpPda := StoredPda(s),
              baseFeeBps := ReadU32(s, 112), minSpreadBps := ReadU32(s, 116), maxSpreadBps := ReadU32(s, 120),
              imbalanceKBps := ReadU32(s, 124), liquidityE6 := ReadU128(s, 128), maxFillAbs := ReadU128(s, 144),
              inventoryBase := ReadI128(s, 160), maxInventoryAbs := ReadU128(s, 192),
              ageHalflifeSlots := ReadU32(s, 264), insuranceWeightBps := ReadU32(s, 268))
  {
  }

  // ===========================================================================
  // Update credibility
  // ===========================================================================

  /** The fields an update writes. */
  const UPDATE_WRITTEN: set<nat> := {INSURANCE_OFF, TOTAL_OI_OFF, MARKET_AGE_OFF, SNAPSHOT_SLOT_OFF}

  /** An update's writes set the two snapshots, the age and the snapshot slot,
      and leave every other byte of the account as it was. */
  lemma UpdateWritesEffect(ctx: seq<byte>, insurance: u128, totalOi: u128, age: u64, slot: u64, s: seq<byte>)
    requires |ctx| >= CTX_LEN && s == UpdateWrites(ctx, insurance, totalOi, age, slot)
    ensures DecodeContext(s) == DecodeContext(ctx).(insuranceSnapshot := insurance, totalOiSnapshot := totalOi,
                                                    marketAgeSlots := age, snapshotSlot := slot)
    ensures forall i :: 0 <= i < CTX_BASE + INSURANCE_OFF
                        || CTX_BASE + LAST_DEFICIT_OFF <= i < CTX_BASE + SNAPSHOT_SLOT_OFF
                        || CTX_BASE + AGE_HALFLIFE_OFF <= i < |ctx|
                        ==> s[i] == ctx[i]
  {
    UpdateWritesBytes(ctx, insurance, totalOi, age, slot, s);
    UpdateWritesFrame(ctx, insurance, totalOi, age, slot, s);
    FieldsAgreeFromBytes(s, ctx, UPDATE_WRITTEN);
    UpdateDecode(s, ctx, insurance, totalOi, age, slot);
  }

  lemma UpdateWritesBytes(ctx: seq<byte>, insurance: u128, totalOi: u128, age: u64, slot: u64, s: seq<byte>)
    requires |ctx| >= CTX_LEN && s == UpdateWrites(ctx, insurance, totalOi, age, slot)
    ensures s[208..224] == EncodeU128(insurance) && s[224..240] == EncodeU128(totalOi)
    ensures s[240..248] == EncodeU64(age) && s[256..264] == EncodeU64(slot)
  {
    var s1 := Splice(ctx, 208, EncodeU128(insurance));
    var s2 := Splice(s1, 224, EncodeU128(totalOi));
    var s3 := Splice(s2, 240, EncodeU64(age));
    var s4 := Splice(s3, 256, EncodeU64(slot));
    SpliceInside(ctx, 208, EncodeU128(insurance));
    SpliceOutside(s1, 224, EncodeU128(totalOi), 208, 16);
    SpliceOutside(s2, 240, EncodeU64(age), 208, 16);
    SpliceOutside(s3, 256, EncodeU64(slot), 208, 16);
    SpliceInside(s1, 224, EncodeU128(totalOi));
    SpliceOutside(s2, 240, EncodeU64(age), 224, 16);
    SpliceOutside(s3, 256, EncodeU64(slot), 224, 16);
    SpliceInside(s2, 240, EncodeU64(age));
    SpliceOutside(s3, 256, EncodeU64(slot), 240, 8);
    SpliceInside(s3, 256, EncodeU64(slot));
    assert s == s4;
  }

  lemma UpdateWritesFrame(ctx: seq<byte>, insurance: u128, totalOi: u128, age: u64, slot: u64, s: seq<byte>)
    requires |ctx| >= CTX_LEN && s == UpdateWrites(ctx, insurance, totalOi, age, slot)
    ensures forall i :: CTX_BASE <= i < CTX_LEN && FieldAt(i) !in UPDATE_WRITTEN ==> s[i] == ctx[i]
    ensures forall i :: 0 <= i < CTX_BASE + INSURANCE_OFF
                        || CTX_BASE + LAST_DEFICIT_OFF <= i < CTX_BASE + SNAPSHOT_SLOT_OFF
                        || CTX_BASE + AGE_HALFLIFE_OFF <= i < |ctx|
                        ==> s[i] == ctx[i]
  {
  }

  lemma UpdateDecode(s: seq<byte>, ctx: seq<byte>, insurance: u128, totalOi: u128, age: u64, slot: u64)
    requires |s| >= CTX_LEN && |ctx| >= CTX_LEN
    requires FieldsAgreeExcept(s, ctx, UPDATE_WRITTEN)
    requires s[208..224] == EncodeU128(insurance) && s[224..240] == EncodeU128(totalOi)
    requires s[240..248] == EncodeU64(age) && s[256..264] == EncodeU64(slot)
    ensures DecodeContext(s) == DecodeContext(ctx).(insuranceSnapshot := insurance, totalOiSnapshot := totalOi,
                                                    marketAgeSlots := age, snapshotSlot := slot)
  {
    UpdateUnchangedSlices(s, ctx);
    UpdateFieldsDecode(s, ctx);
    ReadEncodedU128(s, 208, insurance);
    ReadEncodedU128(s, 224, totalOi);
    ReadEncodedU64(s, 240, age);
    ReadEncodedU64(s, 256, slot);
  }

  /** The slices of the fields update leaves alone are unchanged. */
  lemma UpdateUnchangedSlices(s: seq<byte>, ctx: seq<byte>)
    requires |s| >= CTX_LEN && |ctx| >= CTX_LEN
    requires FieldsAgreeExcept(s, ctx, UPDATE_WRITTEN)
    ensures s[64..72] == ctx[64..72] && s[72..76] == ctx[72..76] && s[76] == ctx[76]
    ensures s[80..112] == ctx[80..112] && s[112..116] == ctx[112..116] && s[116..120] == ctx[116..120]
    ensures s[120..124] == ctx[120..124] && s[124..128] == ctx[124..128] && s[128..144] == ctx[128..144]
    ensures s[144..160] == ctx[144..160] && s[160..176] == ctx[160..176] && s[176..184] == ctx[176..184]
    ensures s[184..192] == ctx[184..192] && s[192..208] == ctx[192..208] && s[248..256] == ctx[248..256]
    ensures s[264..268] == ctx[264..268] && s[268..272] == ctx[268..272]
  {
  }

  lemma UpdateFieldsDecode(s: seq<byte>, ctx: seq<byte>)
    requires |s| >= CTX_LEN && |ctx| >= CTX_LEN
    requires s[64..72] == ctx[64..72] && s[72..76] == ctx[72..76] && s[76] == ctx[76]
    requires s[80..112] == ctx[80..112] && s[112..116] == ctx[112..116] && s[116..120] == ctx[116..120]
    requires s[120..124] == ctx[120..124] && s[124..128] == ctx[124..128] && s[128..144] == ctx[128..144]
    requires s[144..160] == ctx[144..160] && s[160..176] == ctx[160..176] && s[176..184] == ctx[176..184]
    requires s[184..192] == ctx[184..192] && s[192..208] == ctx[192..208] && s[248..256] == ctx[248..256]
    requires s[264..268] == ctx[264..268] && s[268..272] == ctx[268..272]
    ensures DecodeContext(s) == DecodeContext(ctx).(insuranceSnapshot := ReadU128(s, 208),
                                                    totalOiSnapshot := ReadU128(s, 224),
                                                    marketAgeSlots := ReadU64(s, 240),
                                                    snapshotSlot := ReadU64(s, 256))
  {
  }
}

/** Properties of the three instructions' specifications, stated on the decoded
    context, and of sequences of instructions. */
module InstructionProperties {
  import opened Ints
  import opened LittleEndian
  import opened Layout
  import opened Pricing
  import opened Matcher
  import opened MatcherProperties

  // ===========================================================================
  // Match
  // ===========================================================================

  /** A match is accepted exactly when the data is long enough, the LP signs,
      the context is large enough, and the checks of `MatchAllowed` pass. */
  lemma MatchAccepted(lpIsSigner: bool, lpKey: Pubkey, data: seq<byte>, ctx: seq<byte>)
    ensures MatchOutcome(lpIsSigner, lpKey, data, ctx).Ok? <==>
      && |data| >= MATCH_DATA_LEN && lpIsSigner && |ctx| >= CTX_LEN
      && MatchAllowed(lpKey, OraclePrice(data), TradeSize(data), DecodeContext(ctx))
  {
    if MatchOutcome(lpIsSigner, lpKey, data, ctx).Ok? {
      MatchOk(lpIsSigner, lpKey, data, ctx, MatchOutcome(lpIsSigner, lpKey, data, ctx).value);
    }
  }

  /** A successful match moves the inventory by the trade, records the oracle
      price and the quoted execution price, returns `[exec_price, trade_size]`,
      and changes no other byte. */
  lemma MatchEffect(lpIsSigner: bool, lpKey: Pubkey, data: seq<byte>, ctx: seq<byte>, s: seq<byte>)
    requires MatchOutcome(lpIsSigner, lpKey, data, ctx) == Ok(s)
    ensures |data| >= MATCH_DATA_LEN && |ctx| >= CTX_LEN && DecodeContext(ctx).maxSpreadBps >= 1
    ensures DecodeContext(s) == DecodeContext(ctx).(
              inventoryBase := NewInventory(DecodeContext(ctx).inventoryBase, TradeSize(data)),
              lastOraclePriceE6 := OraclePrice(data),
              lastExecPriceE6 := QuotedPrice(DecodeContext(ctx), OraclePrice(data), TradeSize(data)))
    ensures DecodeReturnData(s)
            == ReturnData(AsI64(QuotedPrice(DecodeContext(ctx), OraclePrice(data), TradeSize(data))), TradeSize(data))
    ensures forall i :: 24 <= i < CTX_BASE + INVENTORY_OFF || CTX_BASE + MAX_INVENTORY_OFF <= i < |ctx| ==> s[i] == ctx[i]
  {
    MatchOk(lpIsSigner, lpKey, data, ctx, s);
    MatchWritesEffect(ctx, NewInventory(DecodeContext(ctx).inventoryBase, TradeSize(data)), OraclePrice(data),
                      QuotedPrice(DecodeContext(ctx), OraclePrice(data), TradeSize(data)), TradeSize(data), s);
  }

  /** After a successful match the fill and the new inventory are within the
      context's limits (a zero limit means no limit). */
  lemma MatchRespectsLimits(lpIsSigner: bool, lpKey: Pubkey, data: seq<byte>, ctx: seq<byte>, s: seq<byte>)
    requires MatchOutcome(lpIsSigner, lpKey, data, ctx) == Ok(s)
    ensures |data| >= MATCH_DATA_LEN && |ctx| >= CTX_LEN && |s| >= CTX_LEN
    ensures DecodeContext(ctx).maxFillAbs == 0 || UnsignedAbs(TradeSize(data)) <= DecodeContext(ctx).maxFillAbs
    ensures DecodeContext(s).maxInventoryAbs == 0
            || UnsignedAbs(DecodeContext(s).inventoryBase) <= DecodeContext(s).maxInventoryAbs
  {
    MatchOk(lpIsSigner, lpKey, data, ctx, s);
    MatchEffect(lpIsSigner, lpKey, data, ctx, s);
  }

  /** The price a match records (`MatchEffect`): a sell is quoted at most at
      the oracle price, and a buy whose price at the widest spread fits a u64
      at least at the oracle price. */
  lemma QuotedPriceSides(c: MatcherContext, oracle: u64, tradeSize: i128)
    requires c.maxSpreadBps >= 1
    ensures tradeSize <= 0 ==> QuotedPrice(c, oracle, tradeSize) <= oracle
    ensures tradeSize > 0 && ScaleBps(oracle, BPS + c.maxSpreadBps + c.baseFeeBps) < TWO_64
            ==> QuotedPrice(c, oracle, tradeSize) >= oracle
  {
    ScaleBpsMonotone(oracle, BPS + ContextSpread(c) + c.baseFeeBps, BPS + c.maxSpreadBps + c.baseFeeBps);
  }

  /** Where the coverage product does not wrap and neither `as u64` cast
      truncates, the spread a context quotes is the rule without the casts, so
      the monotonicity lemmas about `Pricing.Spread` apply to the handler. */
  lemma ContextSpreadAgrees(c: MatcherContext)
    requires c.maxSpreadBps >= 1
    requires c.liquidityE6 > 0 ==> ImbalanceProduct(c.imbalanceKBps, UnsignedAbs(c.inventoryBase)) / c.liquidityE6 < TWO_64
    requires c.totalOiSnapshot > 0 ==> c.insuranceSnapshot * BPS < TWO_128
                                       && c.insuranceSnapshot * BPS / c.totalOiSnapshot < TWO_64
    ensures ContextSpread(c) == Spread(c.minSpreadBps, c.maxSpreadBps, c.imbalanceKBps, c.liquidityE6,
                                       c.insuranceWeightBps, c.inventoryBase, c.insuranceSnapshot, c.totalOiSnapshot)
  {
    SpreadAsWrittenAgrees(c.minSpreadBps, c.maxSpreadBps, c.imbalanceKBps, c.liquidityE6,
                          c.insuranceWeightBps, c.inventoryBase, c.insuranceSnapshot, c.totalOiSnapshot);
  }

  // ===========================================================================
  // Init
  // ===========================================================================

  /** An init is accepted exactly when the data is long enough, the context is
      large enough and not yet initialized, and the kind byte is 2. */
  lemma InitAccepted(lpKey: Pubkey, data: seq<byte>, ctx: seq<byte>)
    ensures InitOutcome(lpKey, data, ctx).Ok? <==>
      |data| >= INIT_DATA_LEN && |ctx| >= CTX_LEN && DecodeContext(ctx).magic != MAGIC
      && data[1] == KIND_CREDIBILITY
  {
  }

  /** A successful init stores the magic, the version, kind 2, the LP key and
      every parameter of the instruction, with a zero inventory; the last
      prices, the snapshots, the age and the deficit slot keep their old values. */
  lemma InitEffect(lpKey: Pubkey, data: seq<byte>, ctx: seq<byte>, s: seq<byte>)
    requires InitOutcome(lpKey, data, ctx) == Ok(s)
    ensures |data| >= INIT_DATA_LEN && |ctx| >= CTX_LEN
    ensures DecodeContext(s) == DecodeContext(ctx).(
              magic := MAGIC, version := VERSION, kind := KIND_CREDIBILITY, lpPda := lpKey,
              baseFeeBps := DecodeInitParams(data).baseFeeBps,
              minSpreadBps := DecodeInitParams(data).minSpreadBps,
              maxSpreadBps := DecodeInitParams(data).maxSpreadBps,
              imbalanceKBps := DecodeInitParams(data).imbalanceKBps,
              liquidityE6 := DecodeInitParams(data).liquidityE6,
              maxFillAbs := DecodeInitParams(data).maxFillAbs,
              inventoryBase := 0,
              maxInventoryAbs := DecodeInitParams(data).maxInventoryAbs,
              ageHalflifeSlots := DecodeInitParams(data).ageHalflifeSlots,
              insuranceWeightBps := DecodeInitParams(data).insuranceWeightBps)
  {
    var p := DecodeInitParams(data);
    assert p.kind == KIND_CREDIBILITY;
    InitWritesEffect(ctx, lpKey, p, s);
  }

  /** A context can be initialized only once. */
  lemma InitOnlyOnce(lpKey: Pubkey, data: seq<byte>, ctx: seq<byte>, s: seq<byte>, lpKey2: Pubkey, data2: seq<byte>)
    requires InitOutcome(lpKey, data, ctx) == Ok(s)
    requires |data2| >= INIT_DATA_LEN
    ensures InitOutcome(lpKey2, data2, s) == Err(AccountAlreadyInitialized)
  {
    InitEffect(lpKey, data, ctx, s);
  }

  /** After init, a signed match is refused as the wrong account exactly when
      it comes from another LP than the one the context was initialized for. */
  lemma InitBindsLp(lpKey: Pubkey, data: seq<byte>, ctx: seq<byte>, s: seq<byte>, matchKey: Pubkey,
                    matchData: seq<byte>)
    requires InitOutcome(lpKey, data, ctx) == Ok(s)
    requires |matchData| >= MATCH_DATA_LEN
    ensures MatchOutcome(true, matchKey, matchData, s) == Err(InvalidAccountData) <==> matchKey != lpKey
  {
    InitEffect(lpKey, data, ctx, s);
    MatchChecksLp(matchKey, matchData, s);
  }

  /** On an initialized context, a signed match is refused as the wrong account
      exactly when its LP key is not the stored one. */
  lemma MatchChecksLp(lpKey: Pubkey, data: seq<byte>, ctx: seq<byte>)
    requires |data| >= MATCH_DATA_LEN && |ctx| >= CTX_LEN && DecodeContext(ctx).magic == MAGIC
    ensures MatchOutcome(true, lpKey, data, ctx) == Err(InvalidAccountData) <==> lpKey != DecodeContext(ctx).lpPda
  {
  }

  /** After init, an update with a large enough slab and distinct accounts succeeds. */
  lemma UpdateAfterInit(lpKey: Pubkey, data: seq<byte>, ctx: seq<byte>, s: seq<byte>, slab: seq<byte>,
                        clock: seq<byte>)
    requires InitOutcome(lpKey, data, ctx) == Ok(s)
    requires |slab| >= SLAB_MIN_LEN
    ensures UpdateOutcome(s, false, slab, false, clock).Ok?
  {
    InitEffect(lpKey, data, ctx, s);
  }

  // ===========================================================================
  // Update credibility
  // ===========================================================================

  /** An update is accepted exactly when the context is large enough and
      initialized, the slab is a different account of at least 792 bytes, and
      the clock is a different account from the context. */
  lemma UpdateAccepted(ctx: seq<byte>, slabIsCtx: bool, slab: seq<byte>, clockIsCtx: bool, clock: seq<byte>)
    ensures UpdateOutcome(ctx, slabIsCtx, slab, clockIsCtx, clock).Ok? <==>
      |ctx| >= CTX_LEN && DecodeContext(ctx).magic == MAGIC && !slabIsCtx && |slab| >= SLAB_MIN_LEN && !clockIsCtx
  {
  }

  /** The insurance balance and the open interest an update reads from the slab. */
  function SlabInsurance(slab: seq<byte>): u128
    requires |slab| >= SLAB_MIN_LEN
  {
    ReadU128(slab, SLAB_ENGINE_OFF + ENGINE_INSURANCE_OFF)
  }

  function SlabTotalOi(slab: seq<byte>): u128
    requires |slab| >= SLAB_MIN_LEN
  {
    ReadU128(slab, SLAB_ENGINE_OFF + ENGINE_TOTAL_OI_OFF)
  }

  predicate SlabAdminBurned(slab: seq<byte>)
    requires |slab| >= SLAB_MIN_LEN
  {
    AdminBurned(slab[SLAB_ADMIN_OFF..SLAB_ADMIN_OFF + 32])
  }

  /** A successful update copies the slab's insurance balance and open
      interest, records the clock's slot and the market age, and changes
      nothing else in the context. */
  lemma UpdateEffect(ctx: seq<byte>, slabIsCtx: bool, slab: seq<byte>, clockIsCtx: bool, clock: seq<byte>,
                     s: seq<byte>)
    requires UpdateOutcome(ctx, slabIsCtx, slab, clockIsCtx, clock) == Ok(s)
    ensures |ctx| >= CTX_LEN && !slabIsCtx && |slab| >= SLAB_MIN_LEN && !clockIsCtx
    ensures DecodeContext(s) == DecodeContext(ctx).(
              insuranceSnapshot := SlabInsurance(slab),
              totalOiSnapshot := SlabTotalOi(slab),
              marketAgeSlots := MarketAge(SlabAdminBurned(slab), DecodeContext(ctx).marketAgeSlots,
                                          DecodeContext(ctx).snapshotSlot, CurrentSlot(clock)),
              snapshotSlot := CurrentSlot(clock))
  {
    UpdateSucceeds(ctx, slab, clock);
    UpdateWritesEffect(ctx, SlabInsurance(slab), SlabTotalOi(slab),
                       MarketAge(SlabAdminBurned(slab), DecodeContext(ctx).marketAgeSlots,
                                 DecodeContext(ctx).snapshotSlot, CurrentSlot(clock)),
                       CurrentSlot(clock), s);
  }

  /** The spread the next match quotes after an update is priced on the slab's
      insurance and open interest, with every other input unchanged. */
  lemma UpdateFeedsSpread(ctx: seq<byte>, slab: seq<byte>, clock: seq<byte>, s: seq<byte>)
    requires UpdateOutcome(ctx, false, slab, false, clock) == Ok(s)
    requires |ctx| >= CTX_LEN && DecodeContext(ctx).maxSpreadBps >= 1
    ensures |s| >= CTX_LEN && |slab| >= SLAB_MIN_LEN && DecodeContext(s).maxSpreadBps >= 1
    ensures ContextSpread(DecodeContext(s))
            == SpreadAsWritten(DecodeContext(ctx).minSpreadBps, DecodeContext(ctx).maxSpreadBps,
                      DecodeContext(ctx).imbalanceKBps, DecodeContext(ctx).liquidityE6,
                      DecodeContext(ctx).insuranceWeightBps, DecodeContext(ctx).inventoryBase,
                      SlabInsurance(slab), SlabTotalOi(slab))
  {
    UpdateEffect(ctx, false, slab, false, clock, s);
  }

  /** While the admin key is not burned the market age stays zero. */
  lemma AgeZeroUntilBurned(ctx: seq<byte>, slab: seq<byte>, clock: seq<byte>, s: seq<byte>)
    requires UpdateOutcome(ctx, false, slab, false, clock) == Ok(s)
    requires |slab| >= SLAB_MIN_LEN && !SlabAdminBurned(slab)
    ensures |s| >= CTX_LEN && DecodeContext(s).marketAgeSlots == 0
  {
    UpdateEffect(ctx, false, slab, false, clock, s);
  }

  /** Two updates of a burned market at nondecreasing slots add up: the age
      grows by the slots elapsed since the snapshot before the first one. */
  lemma AgeAccumulates(ctx: seq<byte>, slab1: seq<byte>, clock1: seq<byte>, s1: seq<byte>,
                       slab2: seq<byte>, clock2: seq<byte>, s2: seq<byte>)
    requires UpdateOutcome(ctx, false, slab1, false, clock1) == Ok(s1)
    requires UpdateOutcome(s1, false, slab2, false, clock2) == Ok(s2)
    requires |ctx| >= CTX_LEN && |slab1| >= SLAB_MIN_LEN && |slab2| >= SLAB_MIN_LEN
    requires SlabAdminBurned(slab1) && SlabAdminBurned(slab2)
    requires 0 < DecodeContext(ctx).snapshotSlot <= CurrentSlot(clock1) <= CurrentSlot(clock2)
    requires DecodeContext(ctx).marketAgeSlots + (CurrentSlot(clock2) - DecodeContext(ctx).snapshotSlot) <= U64_MAX
    ensures |s2| >= CTX_LEN
    ensures DecodeContext(s2).marketAgeSlots
            == DecodeContext(ctx).marketAgeSlots + (CurrentSlot(clock2) - DecodeContext(ctx).snapshotSlot)
    ensures DecodeContext(s2).snapshotSlot == CurrentSlot(clock2)
  {
    UpdateEffect(ctx, false, slab1, false, clock1, s1);
    UpdateEffect(s1, false, slab2, false, clock2, s2);
  }
}
