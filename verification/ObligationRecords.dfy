/** The parts of an obligation's account data: deposit and borrow records, and
    the header in four groups of fields. */
module ObligationRecords {
  import opened FixedPoint
  import opened Bytes
  import opened Obligation
  import opened Wire

  // ---- records as fields ----

  function BoolByte(b: bool): U8 {
    if b then 1 else 0
  }

  predicate PackableCollateral(c: Collateral) {
    c.marketValue < U128_LIMIT && c.attributedBorrowValue < U128_LIMIT
  }

  predicate PackableDebt(d: Debt) {
    d.index < U128_LIMIT && d.borrowed < U128_LIMIT && d.marketValue < U128_LIMIT
  }

  predicate PackableHeader(o: ObligationState) {
    && o.depositedValue < U128_LIMIT && o.borrowedValue < U128_LIMIT && o.unweightedBorrowedValue < U128_LIMIT
    && o.borrowedValueUpperBound < U128_LIMIT && o.allowedBorrowValue < U128_LIMIT
    && o.unhealthyBorrowValue < U128_LIMIT && o.superUnhealthyBorrowValue < U128_LIMIT
  }

  // The header is four groups of fields, one after the other.
  const IDENTITY_KINDS: seq<Kind> := [U8Kind, U64Kind, U8Kind, KeyKind] // bytes 0..42
  const VALUE_KINDS: seq<Kind> := [KeyKind, U128Kind, U128Kind, U128Kind] // bytes 42..122
  const RISK_KINDS: seq<Kind> := [U128Kind, U128Kind, U8Kind, U128Kind] // bytes 122..171
  const STATUS_KINDS: seq<Kind> := [U128Kind, U8Kind] // bytes 171..188

  function IdentityFields(o: ObligationState): seq<Field> {
    [U8Field(o.version), U64Field(o.slot), U8Field(BoolByte(o.stale)), KeyField(o.lendingMarket)]
  }

  function ValueFields(o: ObligationState): seq<Field>
    requires PackableHeader(o)
  {
    [KeyField(o.owner), U128Field(o.depositedValue), U128Field(o.borrowedValue), U128Field(o.allowedBorrowValue)]
  }

  function RiskFields(o: ObligationState): seq<Field>
    requires PackableHeader(o)
  {
    [U128Field(o.unhealthyBorrowValue), U128Field(o.borrowedValueUpperBound), U8Field(BoolByte(o.borrowingIsolatedAsset)),
     U128Field(o.superUnhealthyBorrowValue)]
  }

  function StatusFields(o: ObligationState): seq<Field>
    requires PackableHeader(o)
  {
    [U128Field(o.unweightedBorrowedValue), U8Field(BoolByte(o.closeable))]
  }

  const COLLATERAL_KINDS: seq<Kind> := [KeyKind, U64Kind, U128Kind, U128Kind]

  function CollateralFields(c: Collateral): seq<Field>
    requires PackableCollateral(c)
  {
    [KeyField(c.depositReserve), U64Field(c.depositedAmount), U128Field(c.marketValue), U128Field(c.attributedBorrowValue)]
  }

  const DEBT_KINDS: seq<Kind> := [KeyKind, U128Kind, U128Kind, U128Kind]

  function DebtFields(d: Debt): seq<Field>
    requires PackableDebt(d)
  {
    [KeyField(d.borrowReserve), U128Field(d.index), U128Field(d.borrowed), U128Field(d.marketValue)]
  }

  // ---- records ----

  lemma WidthOfFour(kinds: seq<Kind>)
    requires |kinds| == 4
    ensures TotalWidth(kinds) == Width(kinds[0]) + Width(kinds[1]) + Width(kinds[2]) + Width(kinds[3])
  {
    var one, two := kinds[1..], kinds[2..];
    assert one[1..] == two && two[1..] == kinds[3..] && kinds[3..][1..] == [];
    assert TotalWidth(kinds[3..]) == Width(kinds[3]) + TotalWidth([]);
    assert TotalWidth(two) == Width(kinds[2]) + TotalWidth(kinds[3..]);
    assert TotalWidth(one) == Width(kinds[1]) + TotalWidth(two);
  }

  lemma RecordKinds()
    ensures Fixed(COLLATERAL_KINDS) && TotalWidth(COLLATERAL_KINDS) == 72
    ensures Fixed(DEBT_KINDS) && TotalWidth(DEBT_KINDS) == 80
    ensures Fixed(IDENTITY_KINDS) && TotalWidth(IDENTITY_KINDS) == 42
    ensures Fixed(VALUE_KINDS) && TotalWidth(VALUE_KINDS) == 80
    ensures Fixed(RISK_KINDS) && TotalWidth(RISK_KINDS) == 49
    ensures Fixed(STATUS_KINDS) && TotalWidth(STATUS_KINDS) == 17
  {
    WidthOfFour(COLLATERAL_KINDS);
    WidthOfFour(DEBT_KINDS);
    WidthOfFour(IDENTITY_KINDS);
    WidthOfFour(VALUE_KINDS);
    WidthOfFour(RISK_KINDS);
    assert STATUS_KINDS[1..] == [U8Kind];
  }

  function ReadRecord(kinds: seq<Kind>, rec: seq<Byte>): (fs: seq<Field>)
    requires Fixed(kinds) && |rec| == TotalWidth(kinds)
    ensures |fs| == |kinds| && (forall i :: 0 <= i < |fs| ==> KindOf(fs[i]) == kinds[i]) && WriteAll(fs) == rec
  {
    var fs := FieldsOf(kinds, rec);
    KindsAreEach(fs);
    fs
  }

  lemma {:induction false} KindsAreEach(fs: seq<Field>)
    ensures forall i :: 0 <= i < |fs| ==> KindsOf(fs)[i] == KindOf(fs[i])
  {
    if fs != [] {
      KindsAreEach(fs[1..]);
      assert forall i :: 0 < i < |fs| ==> KindsOf(fs)[i] == KindsOf(fs[1..])[i - 1] && fs[i] == fs[1..][i - 1];
    }
  }

  lemma RecordIff(kinds: seq<Kind>, rec: seq<Byte>, fs: seq<Field>)
    requires Fixed(kinds) && |rec| == TotalWidth(kinds)
    requires |fs| == |kinds| && forall i :: 0 <= i < |fs| ==> KindOf(fs[i]) == kinds[i]
    ensures ReadRecord(kinds, rec) == fs <==> rec == WriteAll(fs)
  {
    KindsAreEach(fs);
    assert KindsOf(fs) == kinds;
    FieldsOfWritten(kinds, fs);
  }

  function ReadCollateral(rec: seq<Byte>): (c: Collateral)
    requires |rec| == 72
    ensures PackableCollateral(c)
  {
    RecordKinds();
    var fs := ReadRecord(COLLATERAL_KINDS, rec);
    Collateral(fs[0].key, fs[1].u64, fs[2].u128, fs[3].u128)
  }

  function ReadDebt(rec: seq<Byte>): (d: Debt)
    requires |rec| == 80
    ensures PackableDebt(d)
  {
    RecordKinds();
    var fs := ReadRecord(DEBT_KINDS, rec);
    Debt(fs[0].key, fs[1].u128, fs[2].u128, fs[3].u128)
  }

  function CollateralRecord(c: Collateral): (rec: seq<Byte>)
    requires PackableCollateral(c)
    ensures |rec| == 72
  {
    CollateralWidth(c);
    WriteAll(CollateralFields(c))
  }

  function DebtRecord(d: Debt): (rec: seq<Byte>)
    requires PackableDebt(d)
    ensures |rec| == 80
  {
    DebtWidth(d);
    WriteAll(DebtFields(d))
  }

  lemma KindsEqual(fs: seq<Field>, kinds: seq<Kind>)
    requires |fs| == |kinds| && forall i :: 0 <= i < |fs| ==> KindOf(fs[i]) == kinds[i]
    ensures KindsOf(fs) == kinds
  {
    KindsAreEach(fs);
  }

  lemma CollateralWidth(c: Collateral)
    requires PackableCollateral(c)
    ensures |WriteAll(CollateralFields(c))| == 72
  {
    RecordKinds();
    GroupWidth(CollateralFields(c), COLLATERAL_KINDS);
  }

  lemma DebtWidth(d: Debt)
    requires PackableDebt(d)
    ensures |WriteAll(DebtFields(d))| == 80
  {
    RecordKinds();
    GroupWidth(DebtFields(d), DEBT_KINDS);
  }

  /** A record reads as a deposit exactly when it is that deposit written. */
  lemma CollateralIff(rec: seq<Byte>, c: Collateral)
    requires |rec| == 72 && PackableCollateral(c)
    ensures ReadCollateral(rec) == c <==> rec == CollateralRecord(c)
  {
    RecordKinds();
    RecordIff(COLLATERAL_KINDS, rec, CollateralFields(c));
    var fs := ReadRecord(COLLATERAL_KINDS, rec);
    assert fs == [fs[0], fs[1], fs[2], fs[3]];
  }

  lemma DebtIff(rec: seq<Byte>, d: Debt)
    requires |rec| == 80 && PackableDebt(d)
    ensures ReadDebt(rec) == d <==> rec == DebtRecord(d)
  {
    RecordKinds();
    RecordIff(DEBT_KINDS, rec, DebtFields(d));
    var fs := ReadRecord(DEBT_KINDS, rec);
    assert fs == [fs[0], fs[1], fs[2], fs[3]];
  }

  // ---- the header ----

  function UnpackBool(b: U8): Result<bool> {
    if b == 0 then Ok(false) else if b == 1 then Ok(true) else Err(InvalidAccountData)
  }

  const HEADER_LEN: nat := 188

  function HeaderBytes(o: ObligationState): (h: seq<Byte>)
    requires PackableHeader(o)
    ensures |h| == HEADER_LEN
  {
    HeaderWidths(o);
    WriteAll(IdentityFields(o)) + WriteAll(ValueFields(o)) + WriteAll(RiskFields(o)) + WriteAll(StatusFields(o))
  }

  lemma GroupWidth(fs: seq<Field>, kinds: seq<Kind>)
    requires Fixed(kinds) && |fs| == |kinds| && forall i :: 0 <= i < |fs| ==> KindOf(fs[i]) == kinds[i]
    ensures |WriteAll(fs)| == TotalWidth(kinds)
  {
    KindsEqual(fs, kinds);
    FixedLength(fs);
  }

  lemma HeaderWidths(o: ObligationState)
    requires PackableHeader(o)
    ensures |WriteAll(IdentityFields(o))| == 42 && |WriteAll(ValueFields(o))| == 80
    ensures |WriteAll(RiskFields(o))| == 49 && |WriteAll(StatusFields(o))| == 17
  {
    RecordKinds();
    hide TotalWidth, WriteAll, Fixed;
    GroupWidth(IdentityFields(o), IDENTITY_KINDS);
    GroupWidth(ValueFields(o), VALUE_KINDS);
    GroupWidth(RiskFields(o), RISK_KINDS);
    GroupWidth(StatusFields(o), STATUS_KINDS);
  }

  function ReadHeader(h: seq<Byte>, lists: Lists): Result<ObligationState>
    requires |h| == HEADER_LEN
  {
    RecordKinds();
    var identity := ReadRecord(IDENTITY_KINDS, h[..42]);
    var values := ReadRecord(VALUE_KINDS, h[42..122]);
    var risk := ReadRecord(RISK_KINDS, h[122..171]);
    var status := ReadRecord(STATUS_KINDS, h[171..]);
    BuildHeader(identity, values, risk, status, lists)
  }

  lemma ReadHeaderLists(h: seq<Byte>, lists: Lists)
    requires |h| == HEADER_LEN
    ensures ReadHeader(h, lists).Ok? ==> ReadHeader(h, lists).value.lists == lists
  {
    RecordKinds();
    hide ReadRecord, TotalWidth, WriteAll;
  }

  predicate KindsMatch(fs: seq<Field>, kinds: seq<Kind>) {
    |fs| == |kinds| && forall i :: 0 <= i < |fs| ==> KindOf(fs[i]) == kinds[i]
  }

  function BuildHeader(identity: seq<Field>, values: seq<Field>, risk: seq<Field>, status: seq<Field>, lists: Lists)
    : Result<ObligationState>
    requires KindsMatch(identity, IDENTITY_KINDS) && KindsMatch(values, VALUE_KINDS)
    requires KindsMatch(risk, RISK_KINDS) && KindsMatch(status, STATUS_KINDS)
  {
    var stale :- UnpackBool(identity[2].u8);
    var isolated :- UnpackBool(risk[2].u8);
    var closeable :- UnpackBool(status[1].u8);
    Ok(ObligationState(
      identity[0].u8, identity[1].u64, stale, identity[3].key, values[0].key, lists, values[1].u128, values[2].u128,
      status[0].u128, risk[1].u128, values[3].u128, risk[0].u128, risk[3].u128, isolated, closeable))
  }

  lemma BuildHeaderIff(identity: seq<Field>, values: seq<Field>, risk: seq<Field>, status: seq<Field>, o: ObligationState)
    requires KindsMatch(identity, IDENTITY_KINDS) && KindsMatch(values, VALUE_KINDS)
    requires KindsMatch(risk, RISK_KINDS) && KindsMatch(status, STATUS_KINDS)
    ensures BuildHeader(identity, values, risk, status, o.lists) == Ok(o)
       <==> && PackableHeader(o)
            && identity == IdentityFields(o) && values == ValueFields(o)
            && risk == RiskFields(o) && status == StatusFields(o)
  {
    assert identity == [identity[0], identity[1], identity[2], identity[3]];
    assert values == [values[0], values[1], values[2], values[3]];
    assert risk == [risk[0], risk[1], risk[2], risk[3]];
    assert status == [status[0], status[1]];
  }

  lemma SplitInFour(h: seq<Byte>, a: seq<Byte>, b: seq<Byte>, c: seq<Byte>, d: seq<Byte>)
    requires |h| == HEADER_LEN && |a| == 42 && |b| == 80 && |c| == 49 && |d| == 17
    ensures h == a + b + c + d <==> h[..42] == a && h[42..122] == b && h[122..171] == c && h[171..] == d
  {
    assert h == h[..42] + h[42..122] + h[122..171] + h[171..];
    assert (a + b + c + d)[..42] == a && (a + b + c + d)[42..122] == b;
    assert (a + b + c + d)[122..171] == c && (a + b + c + d)[171..] == d;
  }

  /** A header reads as an obligation's exactly when it is that header written;
      what can be read can be written again. */
  lemma HeaderIff(h: seq<Byte>, o: ObligationState)
    requires |h| == HEADER_LEN
    ensures ReadHeader(h, o.lists) == Ok(o) <==> PackableHeader(o) && h == HeaderBytes(o)
  {
    RecordKinds();
    hide TotalWidth, ReadRecord, BuildHeader, IdentityFields, ValueFields, RiskFields, StatusFields, WriteAll;
    BuildHeaderIff(ReadRecord(IDENTITY_KINDS, h[..42]), ReadRecord(VALUE_KINDS, h[42..122]),
      ReadRecord(RISK_KINDS, h[122..171]), ReadRecord(STATUS_KINDS, h[171..]), o);
    if PackableHeader(o) {
      HeaderWidths(o);
      SplitInFour(h, WriteAll(IdentityFields(o)), WriteAll(ValueFields(o)), WriteAll(RiskFields(o)), WriteAll(StatusFields(o)));
      GroupsIff(h, o);
    }
  }

  lemma GroupsIff(h: seq<Byte>, o: ObligationState)
    requires |h| == HEADER_LEN && PackableHeader(o)
    requires TotalWidth(IDENTITY_KINDS) == 42 && TotalWidth(VALUE_KINDS) == 80
    requires TotalWidth(RISK_KINDS) == 49 && TotalWidth(STATUS_KINDS) == 17
    requires Fixed(IDENTITY_KINDS) && Fixed(VALUE_KINDS) && Fixed(RISK_KINDS) && Fixed(STATUS_KINDS)
    ensures ReadRecord(IDENTITY_KINDS, h[..42]) == IdentityFields(o) <==> h[..42] == WriteAll(IdentityFields(o))
    ensures ReadRecord(VALUE_KINDS, h[42..122]) == ValueFields(o) <==> h[42..122] == WriteAll(ValueFields(o))
    ensures ReadRecord(RISK_KINDS, h[122..171]) == RiskFields(o) <==> h[122..171] == WriteAll(RiskFields(o))
    ensures ReadRecord(STATUS_KINDS, h[171..]) == StatusFields(o) <==> h[171..] == WriteAll(StatusFields(o))
  {
    hide TotalWidth, ReadRecord, WriteAll;
    RecordIff(IDENTITY_KINDS, h[..42], IdentityFields(o));
    RecordIff(VALUE_KINDS, h[42..122], ValueFields(o));
    RecordIff(RISK_KINDS, h[122..171], RiskFields(o));
    RecordIff(STATUS_KINDS, h[171..], StatusFields(o));
  }
}
