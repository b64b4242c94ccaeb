/** The instructions of the lending program and their byte encoding: a tag byte
    and then the fields of the instruction in a fixed order. */
module InstructionCodec {
  import opened FixedPoint
  import opened Bytes
  import opened ReserveConfig
  import opened Wire

  datatype LimiterConfig = LimiterConfig(windowDuration: U64, maxOutflow: U64)

  datatype Instruction =
    | InitLendingMarket(owner: Pubkey, quoteCurrency: Pubkey)
    | SetLendingMarketOwnerAndConfig(newOwner: Pubkey, limiter: LimiterConfig, whitelistedLiquidator: Option<Pubkey>,
                                     riskAuthority: Pubkey)
    | InitReserve(liquidityAmount: U64, config: Config)
    | RefreshReserve
    | DepositReserveLiquidity(liquidityAmount: U64)
    | RedeemReserveCollateral(collateralAmount: U64)
    | InitObligation
    | RefreshObligation
    | DepositObligationCollateral(collateralAmount: U64)
    | WithdrawObligationCollateral(collateralAmount: U64)
    | BorrowObligationLiquidity(liquidityAmount: U64)
    | RepayObligationLiquidity(liquidityAmount: U64)
    | LiquidateObligation(liquidityAmount: U64)
    | FlashLoan(amount: U64)
    | DepositReserveLiquidityAndObligationCollateral(liquidityAmount: U64)
    | WithdrawObligationCollateralAndRedeemReserveCollateral(collateralAmount: U64)
    | UpdateReserveConfig(config: Config, limiter: LimiterConfig)
    | LiquidateObligationAndRedeemReserveCollateral(liquidityAmount: U64)
    | RedeemFees
    | FlashBorrowReserveLiquidity(liquidityAmount: U64)
    | FlashRepayReserveLiquidity(liquidityAmount: U64, borrowInstructionIndex: U8)
    | ForgiveDebt(liquidityAmount: U64)
    | UpdateMarketMetadata
    | SetObligationCloseabilityStatus(closeable: bool)
    | DonateToReserve(liquidityAmount: U64)

  // ---- the layout ----

  const CONFIG_LEN: nat := 25

  /** The kind of a configuration's `i`-th field on the wire. */
  function ConfigKind(i: nat): Kind {
    if i == 14 then KeyKind
    else if i == 21 then I64Kind
    else if i == 22 then OptKeyKind
    else if i in {8, 9, 10, 12, 13, 17, 23, 24} then U64Kind
    else U8Kind
  }

  function ConfigKinds(): (kinds: seq<Kind>)
    ensures |kinds| == CONFIG_LEN
  {
    seq(CONFIG_LEN, (i: nat) => ConfigKind(i))
  }

  function Layout(tag: Byte): Option<seq<Kind>> {
    if tag == 0 then Some([KeyKind, KeyKind])
    else if tag == 1 then Some([KeyKind, U64Kind, U64Kind, OptKeyKind, KeyKind])
    else if tag == 2 then Some([U64Kind] + ConfigKinds())
    else if tag in {3, 6, 7, 18, 22} then Some([])
    else if tag in {4, 5, 8, 9, 10, 11, 12, 13, 14, 15, 17, 19, 21, 24} then Some([U64Kind])
    else if tag == 16 then Some(ConfigKinds() + [U64Kind, U64Kind])
    else if tag == 20 then Some([U64Kind, U8Kind])
    else if tag == 23 then Some([FlagKind])
    else None
  }

  function ReserveTypeByte(t: ReserveType): Byte {
    if t.Regular? then 0 else 1
  }

  /** The first fields of a configuration in wire order. */
  function ConfigHead(c: Config, i: nat): Field {
    if i == 0 then U8Field(c.optimalUtilizationRate)
    else if i == 1 then U8Field(c.maxUtilizationRate)
    else if i == 2 then U8Field(c.loanToValueRatio)
    else if i == 3 then U8Field(c.liquidationBonus)
    else if i == 4 then U8Field(c.liquidationThreshold)
    else if i == 5 then U8Field(c.minBorrowRate)
    else if i == 6 then U8Field(c.optimalBorrowRate)
    else if i == 7 then U8Field(c.maxBorrowRate)
    else if i == 8 then U64Field(c.superMaxBorrowRate)
    else if i == 9 then U64Field(c.fees.borrowFeeWad)
    else if i == 10 then U64Field(c.fees.flashLoanFeeWad)
    else U8Field(c.fees.hostFeePercentage)
  }

  /** The fields of a configuration in wire order. */
  function ConfigField(c: Config, i: nat): Field {
    if i < 12 then ConfigHead(c, i)
    else if i == 12 then U64Field(c.depositLimit)
    else if i == 13 then U64Field(c.borrowLimit)
    else if i == 14 then KeyField(c.feeReceiver)
    else if i == 15 then U8Field(c.protocolLiquidationFee)
    else if i == 16 then U8Field(c.protocolTakeRate)
    else if i == 17 then U64Field(c.addedBorrowWeightBps)
    else if i == 18 then U8Field(ReserveTypeByte(c.reserveType))
    else if i == 19 then U8Field(c.maxLiquidationBonus)
    else if i == 20 then U8Field(c.maxLiquidationThreshold)
    else if i == 21 then I64Field(c.scaledPriceOffsetBps)
    else if i == 22 then OptKeyField(c.extraOracle)
    else if i == 23 then U64Field(c.attributedBorrowLimitOpen)
    else U64Field(c.attributedBorrowLimitClose)
  }

  function ConfigFields(c: Config): (fs: seq<Field>)
    ensures |fs| == CONFIG_LEN
  {
    seq(CONFIG_LEN, (i: nat) => ConfigField(c, i))
  }

  predicate KindsAre(fs: seq<Field>, kinds: seq<Kind>) {
    |fs| == |kinds| && forall i :: 0 <= i < |fs| ==> KindOf(fs[i]) == kinds[i]
  }

  lemma {:induction false} KindsAreIff(fs: seq<Field>, kinds: seq<Kind>)
    ensures KindsOf(fs) == kinds <==> KindsAre(fs, kinds)
  {
    if fs != [] && kinds != [] {
      KindsAreIff(fs[1..], kinds[1..]);
      assert KindsAre(fs, kinds) <==> KindOf(fs[0]) == kinds[0] && KindsAre(fs[1..], kinds[1..]) by {
        assert |fs| == |kinds| ==> forall i :: 0 < i < |fs| ==> fs[i] == fs[1..][i - 1] && kinds[i] == kinds[1..][i - 1];
      }
      assert kinds == [kinds[0]] + kinds[1..];
    }
  }

  /** A reserve type byte other than 0 and 1 aborts the program. */
  function BuildConfig(fs: seq<Field>): Result<Config>
    requires KindsAre(fs, ConfigKinds())
  {
    if fs[18].u8 > 1 then Err(Panic) else
    Ok(Config(
      fs[0].u8, fs[1].u8, fs[2].u8, fs[3].u8, fs[19].u8, fs[4].u8, fs[20].u8, fs[5].u8, fs[6].u8, fs[7].u8,
      fs[8].u64, Fees(fs[9].u64, fs[10].u64, fs[11].u8), fs[12].u64, fs[13].u64, fs[14].key, fs[15].u8, fs[16].u8,
      fs[17].u64, if fs[18].u8 == 0 then Regular else Isolated, fs[21].i64, fs[22].optKey, fs[23].u64, fs[24].u64))
  }

  lemma FieldOfBuilt(fs: seq<Field>, i: nat)
    requires KindsAre(fs, ConfigKinds()) && BuildConfig(fs).Ok? && i < CONFIG_LEN
    ensures fs[i] == ConfigField(BuildConfig(fs).value, i)
  {
    assert KindOf(fs[i]) == ConfigKind(i);
  }

  lemma BuiltOfFields(c: Config, fs: seq<Field>)
    requires KindsAre(fs, ConfigKinds()) && fs == ConfigFields(c)
    ensures BuildConfig(fs) == Ok(c)
  {
    hide ConfigField, ConfigKind;
    BuiltHead(c, fs);
    BuiltTail(c, fs);
  }

  lemma BuiltHead(c: Config, fs: seq<Field>)
    requires fs == ConfigFields(c)
    ensures fs[0] == U8Field(c.optimalUtilizationRate) && fs[1] == U8Field(c.maxUtilizationRate)
    ensures fs[2] == U8Field(c.loanToValueRatio) && fs[3] == U8Field(c.liquidationBonus)
    ensures fs[4] == U8Field(c.liquidationThreshold) && fs[5] == U8Field(c.minBorrowRate)
    ensures fs[6] == U8Field(c.optimalBorrowRate) && fs[7] == U8Field(c.maxBorrowRate)
    ensures fs[8] == U64Field(c.superMaxBorrowRate) && fs[9] == U64Field(c.fees.borrowFeeWad)
    ensures fs[10] == U64Field(c.fees.flashLoanFeeWad) && fs[11] == U8Field(c.fees.hostFeePercentage)
  {
  }

  lemma BuiltTail(c: Config, fs: seq<Field>)
    requires fs == ConfigFields(c)
    ensures fs[12] == U64Field(c.depositLimit) && fs[13] == U64Field(c.borrowLimit)
    ensures fs[14] == KeyField(c.feeReceiver) && fs[15] == U8Field(c.protocolLiquidationFee)
    ensures fs[16] == U8Field(c.protocolTakeRate) && fs[17] == U64Field(c.addedBorrowWeightBps)
    ensures fs[18] == U8Field(ReserveTypeByte(c.reserveType)) && fs[19] == U8Field(c.maxLiquidationBonus)
    ensures fs[20] == U8Field(c.maxLiquidationThreshold) && fs[21] == I64Field(c.scaledPriceOffsetBps)
    ensures fs[22] == OptKeyField(c.extraOracle) && fs[23] == U64Field(c.attributedBorrowLimitOpen)
    ensures fs[24] == U64Field(c.attributedBorrowLimitClose)
  {
  }

  lemma BuildConfigIff(fs: seq<Field>, c: Config)
    requires KindsAre(fs, ConfigKinds())
    ensures BuildConfig(fs) == Ok(c) <==> fs == ConfigFields(c)
  {
    hide BuildConfig, ConfigField, ConfigKind;
    if BuildConfig(fs) == Ok(c) {
      forall i | 0 <= i < CONFIG_LEN
        ensures fs[i] == ConfigField(c, i)
      {
        FieldOfBuilt(fs, i);
      }
    }
    if fs == ConfigFields(c) {
      BuiltOfFields(c, fs);
    }
  }

  lemma ConfigFieldKinds(c: Config)
    ensures KindsAre(ConfigFields(c), ConfigKinds())
  {
  }

  // ---- instructions ----

  function Tag(i: Instruction): Byte {
    match i
    case InitLendingMarket(_, _) => 0
    case SetLendingMarketOwnerAndConfig(_, _, _, _) => 1
    case InitReserve(_, _) => 2
    case RefreshReserve => 3
    case DepositReserveLiquidity(_) => 4
    case RedeemReserveCollateral(_) => 5
    case InitObligation => 6
    case RefreshObligation => 7
    case DepositObligationCollateral(_) => 8
    case WithdrawObligationCollateral(_) => 9
    case BorrowObligationLiquidity(_) => 10
    case RepayObligationLiquidity(_) => 11
    case LiquidateObligation(_) => 12
    case FlashLoan(_) => 13
    case DepositReserveLiquidityAndObligationCollateral(_) => 14
    case WithdrawObligationCollateralAndRedeemReserveCollateral(_) => 15
    case UpdateReserveConfig(_, _) => 16
    case LiquidateObligationAndRedeemReserveCollateral(_) => 17
    case RedeemFees => 18
    case FlashBorrowReserveLiquidity(_) => 19
    case FlashRepayReserveLiquidity(_, _) => 20
    case ForgiveDebt(_) => 21
    case UpdateMarketMetadata => 22
    case SetObligationCloseabilityStatus(_) => 23
    case DonateToReserve(_) => 24
  }

  /** The fields of an instruction in wire order. */
  function Fields(i: Instruction): seq<Field> {
    match i
    case InitLendingMarket(owner, quoteCurrency) => [KeyField(owner), KeyField(quoteCurrency)]
    case SetLendingMarketOwnerAndConfig(newOwner, limiter, liquidator, authority) =>
      [KeyField(newOwner), U64Field(limiter.windowDuration), U64Field(limiter.maxOutflow), OptKeyField(liquidator),
       KeyField(authority)]
    case InitReserve(amount, config) => [U64Field(amount)] + ConfigFields(config)
    case UpdateReserveConfig(config, limiter) =>
      ConfigFields(config) + [U64Field(limiter.windowDuration), U64Field(limiter.maxOutflow)]
    case FlashRepayReserveLiquidity(amount, index) => [U64Field(amount), U8Field(index)]
    case SetObligationCloseabilityStatus(closeable) => [FlagField(closeable)]
    case DepositReserveLiquidity(amount) => [U64Field(amount)]
    case RedeemReserveCollateral(amount) => [U64Field(amount)]
    case DepositObligationCollateral(amount) => [U64Field(amount)]
    case WithdrawObligationCollateral(amount) => [U64Field(amount)]
    case BorrowObligationLiquidity(amount) => [U64Field(amount)]
    case RepayObligationLiquidity(amount) => [U64Field(amount)]
    case LiquidateObligation(amount) => [U64Field(amount)]
    case FlashLoan(amount) => [U64Field(amount)]
    case DepositReserveLiquidityAndObligationCollateral(amount) => [U64Field(amount)]
    case WithdrawObligationCollateralAndRedeemReserveCollateral(amount) => [U64Field(amount)]
    case LiquidateObligationAndRedeemReserveCollateral(amount) => [U64Field(amount)]
    case FlashBorrowReserveLiquidity(amount) => [U64Field(amount)]
    case ForgiveDebt(amount) => [U64Field(amount)]
    case DonateToReserve(amount) => [U64Field(amount)]
    case RefreshReserve => []
    case InitObligation => []
    case RefreshObligation => []
    case RedeemFees => []
    case UpdateMarketMetadata => []
  }

  /** The instruction of a tag that carries a single amount. */
  function BuildAmount(tag: Byte, amount: U64): Instruction {
    if tag == 4 then DepositReserveLiquidity(amount)
    else if tag == 5 then RedeemReserveCollateral(amount)
    else if tag == 8 then DepositObligationCollateral(amount)
    else if tag == 9 then WithdrawObligationCollateral(amount)
    else if tag == 10 then BorrowObligationLiquidity(amount)
    else if tag == 11 then RepayObligationLiquidity(amount)
    else if tag == 12 then LiquidateObligation(amount)
    else if tag == 13 then FlashLoan(amount)
    else if tag == 14 then DepositReserveLiquidityAndObligationCollateral(amount)
    else if tag == 15 then WithdrawObligationCollateralAndRedeemReserveCollateral(amount)
    else if tag == 17 then LiquidateObligationAndRedeemReserveCollateral(amount)
    else if tag == 19 then FlashBorrowReserveLiquidity(amount)
    else if tag == 21 then ForgiveDebt(amount)
    else DonateToReserve(amount)
  }

  /** The instruction of a tag without fields. */
  function BuildBare(tag: Byte): Instruction {
    if tag == 3 then RefreshReserve
    else if tag == 6 then InitObligation
    else if tag == 7 then RefreshObligation
    else if tag == 18 then RedeemFees
    else UpdateMarketMetadata
  }

  function BuildInitReserve(fs: seq<Field>): Result<Instruction>
    requires KindsAre(fs, [U64Kind] + ConfigKinds())
  {
    InitReserveKinds(fs);
    var config :- BuildConfig(fs[1..]);
    Ok(InitReserve(fs[0].u64, config))
  }

  function BuildUpdateConfig(fs: seq<Field>): Result<Instruction>
    requires KindsAre(fs, ConfigKinds() + [U64Kind, U64Kind])
  {
    UpdateConfigKinds(fs);
    var config :- BuildConfig(fs[..CONFIG_LEN]);
    Ok(UpdateReserveConfig(config, LimiterConfig(fs[CONFIG_LEN].u64, fs[CONFIG_LEN + 1].u64)))
  }

  lemma InitReserveKinds(fs: seq<Field>)
    requires |fs| == CONFIG_LEN + 1
    ensures KindsAre(fs, [U64Kind] + ConfigKinds()) <==> fs[0].U64Field? && KindsAre(fs[1..], ConfigKinds())
  {
    hide ConfigKinds;
    var kinds := [U64Kind] + ConfigKinds();
    assert forall i :: 0 <= i < CONFIG_LEN ==> fs[1..][i] == fs[i + 1] && kinds[i + 1] == ConfigKinds()[i];
    assert forall i :: 0 < i < |fs| ==> fs[i] == fs[1..][i - 1] && kinds[i] == ConfigKinds()[i - 1];
  }

  lemma UpdateConfigKinds(fs: seq<Field>)
    requires |fs| == CONFIG_LEN + 2
    ensures KindsAre(fs, ConfigKinds() + [U64Kind, U64Kind])
       <==> fs[CONFIG_LEN].U64Field? && fs[CONFIG_LEN + 1].U64Field? && KindsAre(fs[..CONFIG_LEN], ConfigKinds())
  {
    hide ConfigKinds;
    var kinds := ConfigKinds() + [U64Kind, U64Kind];
    assert forall i :: 0 <= i < CONFIG_LEN ==> fs[..CONFIG_LEN][i] == fs[i] && kinds[i] == ConfigKinds()[i];
    assert kinds[CONFIG_LEN] == U64Kind && kinds[CONFIG_LEN + 1] == U64Kind;
  }

  /** The instructions with a few fields. */
  function BuildShort(tag: Byte, fs: seq<Field>): Instruction
    requires tag != 2 && tag != 16 && Layout(tag).Some? && KindsAre(fs, Layout(tag).value)
  {
    if tag == 0 then InitLendingMarket(fs[0].key, fs[1].key)
    else if tag == 1 then
      SetLendingMarketOwnerAndConfig(fs[0].key, LimiterConfig(fs[1].u64, fs[2].u64), fs[3].optKey, fs[4].key)
    else if tag == 20 then FlashRepayReserveLiquidity(fs[0].u64, fs[1].u8)
    else if tag == 23 then SetObligationCloseabilityStatus(fs[0].flag)
    else if fs == [] then BuildBare(tag)
    else BuildAmount(tag, fs[0].u64)
  }

  function Build(tag: Byte, fs: seq<Field>): Result<Instruction>
    requires Layout(tag).Some? && KindsAre(fs, Layout(tag).value)
  {
    if tag == 2 then BuildInitReserve(fs)
    else if tag == 16 then BuildUpdateConfig(fs)
    else Ok(BuildShort(tag, fs))
  }

  function Unpack(input: seq<Byte>): Result<Instruction> {
    if input == [] || Layout(input[0]).None? then Err(InstructionUnpackError) else
    var kinds := Layout(input[0]).value;
    var parsed :- ReadAll(kinds, input[1..]);
    KindsAreIff(parsed.value, kinds);
    Build(input[0], parsed.value)
  }

  /** What `pack` appends; market metadata is packed by its own builder. */
  function Encoding(i: Instruction): seq<Byte> {
    if i.UpdateMarketMetadata? then [] else [Tag(i)] + WriteAll(Fields(i))
  }

  // ---- building is the inverse of taking apart ----

  const AMOUNT_TAGS: set<Byte> := {4, 5, 8, 9, 10, 11, 12, 13, 14, 15, 17, 19, 21, 24}

  lemma AmountIff(tag: Byte, amount: U64, i: Instruction)
    requires tag in AMOUNT_TAGS
    ensures BuildAmount(tag, amount) == i <==> Tag(i) == tag && Fields(i) == [U64Field(amount)]
  {
    hide ConfigFields;
  }

  lemma BareIff(tag: Byte, i: Instruction)
    requires tag in {3, 6, 7, 18, 22}
    ensures BuildBare(tag) == i <==> Tag(i) == tag && Fields(i) == []
  {
    hide ConfigFields;
  }

  lemma MarketFieldsIff(tag: Byte, fs: seq<Field>, i: Instruction)
    requires tag in {0, 1} && KindsAre(fs, Layout(tag).value)
    ensures BuildShort(tag, fs) == i <==> Tag(i) == tag && Fields(i) == fs
  {
    hide ConfigFields, ConfigKinds, BuildAmount, BuildBare;
    if BuildShort(tag, fs) == i {
      assert forall k :: 0 <= k < |fs| ==> fs[k] == Fields(i)[k];
    }
  }

  lemma FlashRepayOrFlagIff(tag: Byte, fs: seq<Field>, i: Instruction)
    requires tag in {20, 23} && KindsAre(fs, Layout(tag).value)
    ensures BuildShort(tag, fs) == i <==> Tag(i) == tag && Fields(i) == fs
  {
    hide ConfigFields, ConfigKinds, BuildAmount, BuildBare;
    if BuildShort(tag, fs) == i {
      assert forall k :: 0 <= k < |fs| ==> fs[k] == Fields(i)[k];
    }
  }

  lemma ShortIff(tag: Byte, fs: seq<Field>, i: Instruction)
    requires tag != 2 && tag != 16 && Layout(tag).Some? && KindsAre(fs, Layout(tag).value)
    ensures BuildShort(tag, fs) == i <==> Tag(i) == tag && Fields(i) == fs
  {
    hide Tag, Fields, BuildAmount, BuildBare, ConfigKinds;
    if tag in AMOUNT_TAGS {
      AmountIff(tag, fs[0].u64, i);
      assert fs == [U64Field(fs[0].u64)];
    } else if tag in {0, 1} {
      MarketFieldsIff(tag, fs, i);
    } else if tag in {20, 23} {
      FlashRepayOrFlagIff(tag, fs, i);
    } else {
      BareIff(tag, i);
    }
  }

  lemma ConfigTags(i: Instruction)
    ensures Tag(i) == 2 <==> i.InitReserve?
    ensures Tag(i) == 16 <==> i.UpdateReserveConfig?
    ensures i.InitReserve? ==> Fields(i) == [U64Field(i.liquidityAmount)] + ConfigFields(i.config)
    ensures i.UpdateReserveConfig? ==>
      Fields(i) == ConfigFields(i.config) + [U64Field(i.limiter.windowDuration), U64Field(i.limiter.maxOutflow)]
  {
    hide ConfigFields;
  }

  lemma SplitFirst(fs: seq<Field>, p: Field, tail: seq<Field>)
    requires |fs| == |tail| + 1
    ensures fs == [p] + tail <==> fs[0] == p && fs[1..] == tail
  {
    assert fs == [fs[0]] + fs[1..];
  }

  lemma InitReserveIff(fs: seq<Field>, i: Instruction)
    requires KindsAre(fs, [U64Kind] + ConfigKinds())
    ensures BuildInitReserve(fs) == Ok(i) <==> Tag(i) == 2 && Fields(i) == fs
  {
    InitReserveKinds(fs);
    hide *;
    ConfigTags(i);
    if i.InitReserve? {
      BuildConfigIff(fs[1..], i.config);
      SplitFirst(fs, U64Field(i.liquidityAmount), ConfigFields(i.config));
    }
    InitReserveBuilt(fs, i);
  }

  lemma InitReserveBuilt(fs: seq<Field>, i: Instruction)
    requires KindsAre(fs, [U64Kind] + ConfigKinds()) && fs[0].U64Field? && KindsAre(fs[1..], ConfigKinds())
    ensures BuildInitReserve(fs) == Ok(i)
       <==> i.InitReserve? && i.liquidityAmount == fs[0].u64 && BuildConfig(fs[1..]) == Ok(i.config)
  {
    hide ConfigKinds, BuildConfig;
  }

  lemma SplitLastTwo(fs: seq<Field>, head: seq<Field>, p: Field, q: Field)
    requires |fs| == |head| + 2
    ensures fs == head + [p, q] <==> fs[..|head|] == head && fs[|head|] == p && fs[|head| + 1] == q
  {
    assert fs == fs[..|head|] + [fs[|head|], fs[|head| + 1]];
  }

  lemma UpdateConfigIff(fs: seq<Field>, i: Instruction)
    requires KindsAre(fs, ConfigKinds() + [U64Kind, U64Kind])
    ensures BuildUpdateConfig(fs) == Ok(i) <==> Tag(i) == 16 && Fields(i) == fs
  {
    UpdateConfigKinds(fs);
    hide *;
    ConfigTags(i);
    if i.UpdateReserveConfig? {
      BuildConfigIff(fs[..CONFIG_LEN], i.config);
      SplitLastTwo(fs, ConfigFields(i.config), U64Field(i.limiter.windowDuration), U64Field(i.limiter.maxOutflow));
    }
    UpdateConfigBuilt(fs, i);
  }

  lemma UpdateConfigBuilt(fs: seq<Field>, i: Instruction)
    requires KindsAre(fs, ConfigKinds() + [U64Kind, U64Kind])
    requires fs[CONFIG_LEN].U64Field? && fs[CONFIG_LEN + 1].U64Field? && KindsAre(fs[..CONFIG_LEN], ConfigKinds())
    ensures BuildUpdateConfig(fs) == Ok(i)
       <==> && i.UpdateReserveConfig?
            && i.limiter == LimiterConfig(fs[CONFIG_LEN].u64, fs[CONFIG_LEN + 1].u64)
            && BuildConfig(fs[..CONFIG_LEN]) == Ok(i.config)
  {
    hide ConfigKinds, BuildConfig;
  }

  lemma BuildIff(tag: Byte, fs: seq<Field>, i: Instruction)
    requires Layout(tag).Some? && KindsAre(fs, Layout(tag).value)
    ensures Build(tag, fs) == Ok(i) <==> Tag(i) == tag && Fields(i) == fs
  {
    hide Tag, Fields, BuildShort, BuildInitReserve, BuildUpdateConfig;
    if tag == 2 {
      InitReserveIff(fs, i);
    } else if tag == 16 {
      UpdateConfigIff(fs, i);
    } else {
      ShortIff(tag, fs, i);
    }
  }

  lemma FieldsFit(i: Instruction)
    ensures Layout(Tag(i)).Some? && KindsAre(Fields(i), Layout(Tag(i)).value)
  {
    hide ConfigFields, ConfigKinds;
    if i.InitReserve? {
      ConfigFieldKinds(i.config);
      InitReserveKinds(Fields(i));
      assert Fields(i)[1..] == ConfigFields(i.config);
    } else if i.UpdateReserveConfig? {
      ConfigFieldKinds(i.config);
      assert Fields(i)[..CONFIG_LEN] == ConfigFields(i.config);
      UpdateConfigKinds(Fields(i));
    }
  }

  // ---- the codec ----

  lemma EncodedUnpacks(i: Instruction, rest: seq<Byte>)
    requires !i.UpdateMarketMetadata?
    ensures Unpack([Tag(i)] + (WriteAll(Fields(i)) + rest)) == Ok(i)
  {
    FieldsFit(i);
    hide Fields, Build, Tag, Layout, KindsAre, WriteAll, ReadAll;
    var input := [Tag(i)] + (WriteAll(Fields(i)) + rest);
    KindsAreIff(Fields(i), Layout(Tag(i)).value);
    ReadAllIff(Layout(Tag(i)).value, input[1..], Fields(i), rest);
    BuildIff(Tag(i), Fields(i), i);
  }

  lemma UnpackedStarts(input: seq<Byte>)
    requires Unpack(input).Ok?
    ensures var i := Unpack(input).value; [Tag(i)] + WriteAll(Fields(i)) <= input
  {
    hide Fields, Build, Tag, Layout, KindsAre, WriteAll, ReadAll;
    var kinds := Layout(input[0]).value;
    var parsed := ReadAll(kinds, input[1..]).value;
    KindsAreIff(parsed.value, kinds);
    BuildIff(input[0], parsed.value, Unpack(input).value);
    ReadAllIff(kinds, input[1..], parsed.value, parsed.rest);
    assert input == [input[0]] + input[1..];
  }

  /** An input unpacks to an instruction exactly when it starts with that
      instruction's encoding, whatever follows. */
  lemma UnpackIff(input: seq<Byte>, i: Instruction)
    requires !i.UpdateMarketMetadata?
    ensures Unpack(input) == Ok(i) <==> Encoding(i) <= input
  {
    hide Unpack, Tag, Fields, WriteAll;
    if Encoding(i) <= input {
      var rest := input[|Encoding(i)|..];
      assert input == [Tag(i)] + (WriteAll(Fields(i)) + rest);
      EncodedUnpacks(i, rest);
    }
    if Unpack(input) == Ok(i) {
      UnpackedStarts(input);
    }
  }

  /** No encoding is a prefix of another. */
  lemma PrefixFree(i: Instruction, j: Instruction)
    requires !i.UpdateMarketMetadata? && !j.UpdateMarketMetadata? && i != j
    ensures !(Encoding(i) <= Encoding(j))
  {
    hide Unpack, Encoding;
    UnpackIff(Encoding(j), i);
    UnpackIff(Encoding(j), j);
  }

  /** Market metadata alone does not survive: its tag unpacks, and packs to
      nothing, which does not unpack. */
  lemma MetadataIsLost(rest: seq<Byte>)
    ensures Unpack([22] + rest) == Ok(UpdateMarketMetadata)
    ensures Unpack(Encoding(UpdateMarketMetadata)) == Err(InstructionUnpackError)
  {
    ReadAllIff([], rest, [], rest);
    assert ([22] + rest)[1..] == rest;
  }

  /** Packing and unpacking restores an instruction exactly when it is not market
      metadata. */
  lemma RoundTripsIff(i: Instruction)
    ensures Unpack(Encoding(i)) == Ok(i) <==> !i.UpdateMarketMetadata?
  {
    if i.UpdateMarketMetadata? {
      MetadataIsLost([]);
    } else {
      UnpackIff(Encoding(i), i);
    }
  }

  // ---- packing in place ----

  function PackOption(key: Option<Pubkey>): seq<Byte> {
    match key
    case Some(k) => [1] + k
    case None => [0]
  }

  /** The encoding of the first `k` fields of a configuration. */
  function ConfigBytes(c: Config, k: nat): seq<Byte>
    requires k <= CONFIG_LEN
  {
    WriteAll(ConfigFields(c)[..k])
  }

  lemma ConfigPrefix(c: Config, k: nat)
    requires k < CONFIG_LEN
    ensures ConfigBytes(c, k + 1) == ConfigBytes(c, k) + Write(ConfigField(c, k))
  {
    var fs := ConfigFields(c);
    assert fs[..k + 1] == fs[..k] + [fs[k]];
    WriteAllPush(fs[..k], fs[k]);
  }

  method PackConfigHead(c: Config) returns (buf: seq<Byte>)
    ensures buf == ConfigBytes(c, 12)
  {
    hide ConfigBytes, ConfigFields, ToLE;
    NoConfigBytes(c);
    buf := [];
    ConfigPrefix(c, 0);
    buf := buf + [c.optimalUtilizationRate];
    ConfigPrefix(c, 1);
    buf := buf + [c.maxUtilizationRate];
    ConfigPrefix(c, 2);
    buf := buf + [c.loanToValueRatio];
    ConfigPrefix(c, 3);
    buf := buf + [c.liquidationBonus];
    ConfigPrefix(c, 4);
    buf := buf + [c.liquidationThreshold];
    ConfigPrefix(c, 5);
    buf := buf + [c.minBorrowRate];
    ConfigPrefix(c, 6);
    buf := buf + [c.optimalBorrowRate];
    ConfigPrefix(c, 7);
    buf := buf + [c.maxBorrowRate];
    ConfigPrefix(c, 8);
    buf := buf + ToLE(c.superMaxBorrowRate, 8);
    ConfigPrefix(c, 9);
    buf := buf + ToLE(c.fees.borrowFeeWad, 8);
    ConfigPrefix(c, 10);
    buf := buf + ToLE(c.fees.flashLoanFeeWad, 8);
    ConfigPrefix(c, 11);
    buf := buf + [c.fees.hostFeePercentage];
  }

  lemma NoConfigBytes(c: Config)
    ensures ConfigBytes(c, 0) == [] && ConfigBytes(c, CONFIG_LEN) == WriteAll(ConfigFields(c))
  {
    assert ConfigFields(c)[..0] == [] && ConfigFields(c)[..CONFIG_LEN] == ConfigFields(c);
  }

  method PackConfigMiddle(c: Config) returns (buf: seq<Byte>)
    ensures buf == ConfigBytes(c, 18)
  {
    hide ConfigBytes, ConfigFields, ToLE;
    buf := PackConfigHead(c);
    ConfigPrefix(c, 12);
    buf := buf + ToLE(c.depositLimit, 8);
    ConfigPrefix(c, 13);
    buf := buf + ToLE(c.borrowLimit, 8);
    ConfigPrefix(c, 14);
    buf := buf + c.feeReceiver;
    ConfigPrefix(c, 15);
    buf := buf + [c.protocolLiquidationFee];
    ConfigPrefix(c, 16);
    buf := buf + [c.protocolTakeRate];
    ConfigPrefix(c, 17);
    buf := buf + ToLE(c.addedBorrowWeightBps, 8);
  }

  method PackConfig(c: Config) returns (buf: seq<Byte>)
    ensures buf == WriteAll(ConfigFields(c))
  {
    hide ConfigBytes, ConfigFields, ToLE, WriteAll;
    NoConfigBytes(c);
    buf := PackConfigMiddle(c);
    ConfigPrefix(c, 18);
    buf := buf + [ReserveTypeByte(c.reserveType)];
    ConfigPrefix(c, 19);
    buf := buf + [c.maxLiquidationBonus];
    ConfigPrefix(c, 20);
    buf := buf + [c.maxLiquidationThreshold];
    ConfigPrefix(c, 21);
    buf := buf + ToLE(I64Word(c.scaledPriceOffsetBps), 8);
    ConfigPrefix(c, 22);
    buf := buf + PackOption(c.extraOracle);
    ConfigPrefix(c, 23);
    buf := buf + ToLE(c.attributedBorrowLimitOpen, 8);
    ConfigPrefix(c, 24);
    buf := buf + ToLE(c.attributedBorrowLimitClose, 8);
  }

  /** The byte vector an instruction is packed into, with the fields it holds
      after its tag. */
  class Buffer {
    const tag: Byte
    var bytes: seq<Byte>
    ghost var fields: seq<Field>

    ghost predicate Valid()
      reads this
    {
      bytes == [tag] + WriteAll(fields)
    }

    constructor (tag: Byte)
      ensures Valid() && this.tag == tag && fields == []
    {
      this.tag := tag;
      bytes := [tag];
      fields := [];
    }

    method Append(f: Field)
      requires Valid()
      modifies this
      ensures Valid() && fields == old(fields) + [f]
    {
      hide WriteAll, Write;
      WriteAllPush(fields, f);
      assert [tag] + (WriteAll(fields) + Write(f)) == [tag] + WriteAll(fields) + Write(f);
      bytes := bytes + Write(f);
      fields := fields + [f];
    }

    method AppendConfig(c: Config)
      requires Valid()
      modifies this
      ensures Valid() && fields == old(fields) + ConfigFields(c)
    {
      hide WriteAll, Write, ConfigFields;
      WriteAllAppend(fields, ConfigFields(c));
      assert [tag] + (WriteAll(fields) + WriteAll(ConfigFields(c))) == [tag] + WriteAll(fields) + WriteAll(ConfigFields(c));
      var packed := PackConfig(c);
      bytes := bytes + packed;
      fields := fields + ConfigFields(c);
    }
  }

  predicate HasConfig(i: Instruction) {
    i.InitReserve? || i.UpdateReserveConfig?
  }

  predicate HasOneAmount(i: Instruction) {
    Tag(i) in AMOUNT_TAGS
  }

  method AppendConfigured(i: Instruction, b: Buffer)
    requires b.Valid() && b.fields == [] && HasConfig(i)
    modifies b
    ensures b.Valid() && b.fields == Fields(i)
  {
    hide ConfigFields, WriteAll;
    match i {
      case InitReserve(amount, config) =>
        b.Append(U64Field(amount));
        b.AppendConfig(config);
      case UpdateReserveConfig(config, limiter) =>
        b.AppendConfig(config);
        b.Append(U64Field(limiter.windowDuration));
        b.Append(U64Field(limiter.maxOutflow));
    }
  }

  method AppendAmount(i: Instruction, b: Buffer)
    requires b.Valid() && b.fields == [] && HasOneAmount(i)
    modifies b
    ensures b.Valid() && b.fields == Fields(i)
  {
    hide ConfigFields, WriteAll;
    match i {
      case DepositReserveLiquidity(amount) => b.Append(U64Field(amount));
      case RedeemReserveCollateral(amount) => b.Append(U64Field(amount));
      case DepositObligationCollateral(amount) => b.Append(U64Field(amount));
      case WithdrawObligationCollateral(amount) => b.Append(U64Field(amount));
      case BorrowObligationLiquidity(amount) => b.Append(U64Field(amount));
      case RepayObligationLiquidity(amount) => b.Append(U64Field(amount));
      case LiquidateObligation(amount) => b.Append(U64Field(amount));
      case FlashLoan(amount) => b.Append(U64Field(amount));
      case DepositReserveLiquidityAndObligationCollateral(amount) => b.Append(U64Field(amount));
      case WithdrawObligationCollateralAndRedeemReserveCollateral(amount) => b.Append(U64Field(amount));
      case LiquidateObligationAndRedeemReserveCollateral(amount) => b.Append(U64Field(amount));
      case FlashBorrowReserveLiquidity(amount) => b.Append(U64Field(amount));
      case ForgiveDebt(amount) => b.Append(U64Field(amount));
      case DonateToReserve(amount) => b.Append(U64Field(amount));
    }
  }

  method AppendOther(i: Instruction, b: Buffer)
    requires b.Valid() && b.fields == [] && !HasConfig(i) && !HasOneAmount(i)
    modifies b
    ensures b.Valid() && b.fields == Fields(i)
  {
    hide ConfigFields, WriteAll;
    match i {
      case InitLendingMarket(owner, quoteCurrency) =>
        b.Append(KeyField(owner));
        b.Append(KeyField(quoteCurrency));
      case SetLendingMarketOwnerAndConfig(newOwner, limiter, liquidator, authority) =>
        b.Append(KeyField(newOwner));
        b.Append(U64Field(limiter.windowDuration));
        b.Append(U64Field(limiter.maxOutflow));
        b.Append(OptKeyField(liquidator));
        b.Append(KeyField(authority));
      case FlashRepayReserveLiquidity(amount, index) =>
        b.Append(U64Field(amount));
        b.Append(U8Field(index));
      case SetObligationCloseabilityStatus(closeable) =>
        b.Append(FlagField(closeable));
      case RefreshReserve =>
      case InitObligation =>
      case RefreshObligation =>
      case RedeemFees =>
      case UpdateMarketMetadata =>
    }
  }

  /** The tag, and then the fields that the instruction has. */
  method Pack(i: Instruction) returns (buf: seq<Byte>)
    ensures buf == Encoding(i)
  {
    if i.UpdateMarketMetadata? {
      return [];
    }
    var b := new Buffer(Tag(i));
    hide Tag, Fields, HasConfig, HasOneAmount, WriteAll;
    if HasConfig(i) {
      AppendConfigured(i, b);
    } else if HasOneAmount(i) {
      AppendAmount(i, b);
    } else {
      AppendOther(i, b);
    }
    buf := b.bytes;
  }
}
