/** Packing an obligation into its account data and unpacking it again. */
module ObligationCodec {
  import opened FixedPoint
  import opened Bytes
  import opened Obligation
  import opened AccountArea
  import opened ObligationRecords

  const PROGRAM_VERSION: U8 := 1
  const COUNTS_AT: nat := 202 // after 14 bytes of padding
  const DATA_AT: nat := 204
  const COLLATERAL_STRIDE: nat := 88 // 72 bytes and 16 of padding
  const LIQUIDITY_STRIDE: nat := 112 // 80 bytes and 32 of padding

  predicate AllPackable(l: Lists) {
    && (forall i :: 0 <= i < |l.deposits| ==> PackableCollateral(l.deposits[i]))
    && (forall i :: 0 <= i < |l.borrows| ==> PackableDebt(l.borrows[i]))
  }

  function DepositRecords(l: Lists): (recs: seq<seq<Byte>>)
    requires AllPackable(l)
    ensures |recs| == |l.deposits| && Sized(recs, 72)
  {
    seq(|l.deposits|, i requires 0 <= i < |l.deposits| => CollateralRecord(l.deposits[i]))
  }

  function BorrowRecords(l: Lists): (recs: seq<seq<Byte>>)
    requires AllPackable(l)
    ensures |recs| == |l.borrows| && Sized(recs, 80)
  {
    seq(|l.borrows|, i requires 0 <= i < |l.borrows| => DebtRecord(l.borrows[i]))
  }

  function ReadDeposits(recs: seq<seq<Byte>>): (ds: seq<Collateral>)
    requires Sized(recs, 72)
    ensures |ds| == |recs|
  {
    seq(|recs|, i requires 0 <= i < |recs| => ReadCollateral(recs[i]))
  }

  function ReadBorrows(recs: seq<seq<Byte>>): (ds: seq<Debt>)
    requires Sized(recs, 80)
    ensures |ds| == |recs|
  {
    seq(|recs|, i requires 0 <= i < |recs| => ReadDebt(recs[i]))
  }

  /** Both lists fit the data area. */
  predicate Fits(deposits: nat, borrows: nat) {
    && Room(DATA_AT, COLLATERAL_STRIDE, deposits)
    && Room(BorrowsAt(deposits), LIQUIDITY_STRIDE, borrows)
  }

  function BorrowsAt(deposits: nat): nat {
    After(DATA_AT, COLLATERAL_STRIDE, deposits)
  }

  /** Packing anything else aborts the program: a decimal over 128 bits, or lists
      that do not fit. */
  predicate Packable(o: ObligationState) {
    PackableHeader(o) && AllPackable(o.lists) && Fits(|o.lists.deposits|, |o.lists.borrows|)
  }

  lemma FitsCount(deposits: nat, borrows: nat)
    ensures Fits(deposits, borrows)
       <==> (deposits == 0 || deposits * 88 <= 1096) && (borrows == 0 || deposits * 88 + borrows * 112 <= 1096)
    ensures BorrowsAt(deposits) == DATA_AT + deposits * 88
  {
    AfterIs(DATA_AT, COLLATERAL_STRIDE, deposits);
    AfterIs(BorrowsAt(deposits), LIQUIDITY_STRIDE, borrows);
  }

  /** A header, the two counts and the two lists of records, written into a
      buffer; padding keeps what was there. */
  function Assembled(s: seq<Byte>, header: seq<Byte>, deposits: seq<seq<Byte>>, borrows: seq<seq<Byte>>): (r: seq<Byte>)
    requires |s| >= OBLIGATION_LEN && |header| == HEADER_LEN && FitRecords(deposits, borrows)
    ensures |r| == |s|
  {
    FitsCount(|deposits|, |borrows|);
    PutRecords(
      PutRecords(Counted(s, header, |deposits|, |borrows|), DATA_AT, COLLATERAL_STRIDE, 72, deposits),
      BorrowsAt(|deposits|), LIQUIDITY_STRIDE, 80, borrows)
  }

  function Counted(s: seq<Byte>, header: seq<Byte>, deposits: Byte, borrows: Byte): (r: seq<Byte>)
    requires |s| >= OBLIGATION_LEN && |header| == HEADER_LEN
    ensures |r| == |s|
  {
    Overwrite(Overwrite(s, 0, header), COUNTS_AT, [deposits, borrows])
  }

  predicate FitRecords(deposits: seq<seq<Byte>>, borrows: seq<seq<Byte>>) {
    Sized(deposits, 72) && Sized(borrows, 80) && Fits(|deposits|, |borrows|)
  }

  /** The data after packing into a buffer. */
  function Packed(o: ObligationState, s: seq<Byte>): (r: seq<Byte>)
    requires |s| >= OBLIGATION_LEN && Packable(o)
    ensures |r| == |s|
  {
    Assembled(s, HeaderBytes(o), DepositRecords(o.lists), BorrowRecords(o.lists))
  }

  function ListsOf(s: seq<Byte>, deposits: nat, borrows: nat): Lists
    requires |s| >= OBLIGATION_LEN && Fits(deposits, borrows)
  {
    Lists(
      ReadDeposits(RecordsAt(s, DATA_AT, COLLATERAL_STRIDE, 72, deposits)),
      ReadBorrows(RecordsAt(s, BorrowsAt(deposits), LIQUIDITY_STRIDE, 80, borrows)))
  }

  /** `unpack_from_slice`; a short buffer or counts that do not fit abort. */
  function Unpack(s: seq<Byte>): Result<ObligationState> {
    if |s| < OBLIGATION_LEN then Err(Panic)
    else if s[0] > PROGRAM_VERSION then Err(InvalidAccountData)
    else if !Fits(s[COUNTS_AT], s[COUNTS_AT + 1]) then Err(Panic)
    else ReadHeader(s[..HEADER_LEN], ListsOf(s, s[COUNTS_AT], s[COUNTS_AT + 1]))
  }

  // ---- records of lists ----

  lemma DepositRecordsIff(recs: seq<seq<Byte>>, l: Lists)
    requires Sized(recs, 72) && AllPackable(l)
    ensures ReadDeposits(recs) == l.deposits <==> recs == DepositRecords(l)
  {
    if ReadDeposits(recs) == l.deposits {
      forall i | 0 <= i < |recs|
        ensures recs[i] == DepositRecords(l)[i]
      {
        assert ReadDeposits(recs)[i] == ReadCollateral(recs[i]);
        CollateralIff(recs[i], l.deposits[i]);
      }
    }
    if recs == DepositRecords(l) {
      forall i | 0 <= i < |recs|
        ensures ReadDeposits(recs)[i] == l.deposits[i]
      {
        CollateralIff(recs[i], l.deposits[i]);
      }
    }
  }

  lemma BorrowRecordsIff(recs: seq<seq<Byte>>, l: Lists)
    requires Sized(recs, 80) && AllPackable(l)
    ensures ReadBorrows(recs) == l.borrows <==> recs == BorrowRecords(l)
  {
    if ReadBorrows(recs) == l.borrows {
      forall i | 0 <= i < |recs|
        ensures recs[i] == BorrowRecords(l)[i]
      {
        assert ReadBorrows(recs)[i] == ReadDebt(recs[i]);
        DebtIff(recs[i], l.borrows[i]);
      }
    }
    if recs == BorrowRecords(l) {
      forall i | 0 <= i < |recs|
        ensures ReadBorrows(recs)[i] == l.borrows[i]
      {
        DebtIff(recs[i], l.borrows[i]);
      }
    }
  }

  // ---- the parts of the account ----

  /** The account holds this header, these counts and these records. */
  predicate Holds(r: seq<Byte>, header: seq<Byte>, deposits: seq<seq<Byte>>, borrows: seq<seq<Byte>>)
    requires |r| >= OBLIGATION_LEN && FitRecords(deposits, borrows)
  {
    && r[..HEADER_LEN] == header
    && r[COUNTS_AT] == |deposits| && r[COUNTS_AT + 1] == |borrows|
    && RecordsAt(r, DATA_AT, COLLATERAL_STRIDE, 72, |deposits|) == deposits
    && RecordsAt(r, BorrowsAt(|deposits|), LIQUIDITY_STRIDE, 80, |borrows|) == borrows
  }

  lemma CountedParts(s: seq<Byte>, header: seq<Byte>, deposits: Byte, borrows: Byte)
    requires |s| >= OBLIGATION_LEN && |header| == HEADER_LEN
    ensures Counted(s, header, deposits, borrows)[..HEADER_LEN] == header
    ensures Counted(s, header, deposits, borrows)[COUNTS_AT] == deposits
    ensures Counted(s, header, deposits, borrows)[COUNTS_AT + 1] == borrows
  {
  }

  /** Bytes before both lists are those of the buffer they were put into. */
  lemma HeadKept(s2: seq<Byte>, deposits: seq<seq<Byte>>, borrows: seq<seq<Byte>>)
    requires |s2| >= OBLIGATION_LEN && FitRecords(deposits, borrows)
    ensures var r := PutRecords(PutRecords(s2, DATA_AT, COLLATERAL_STRIDE, 72, deposits),
      BorrowsAt(|deposits|), LIQUIDITY_STRIDE, 80, borrows);
      r[..DATA_AT] == s2[..DATA_AT]
  {
    FitsCount(|deposits|, |borrows|);
    hide PutRecords;
    PutKeepsBefore(s2, DATA_AT, COLLATERAL_STRIDE, 72, deposits, 0, DATA_AT);
    PutKeepsBefore(PutRecords(s2, DATA_AT, COLLATERAL_STRIDE, 72, deposits), BorrowsAt(|deposits|), LIQUIDITY_STRIDE, 80,
      borrows, 0, DATA_AT);
  }

  lemma DepositsKept(s3: seq<Byte>, deposits: seq<seq<Byte>>, borrows: seq<seq<Byte>>)
    requires |s3| >= OBLIGATION_LEN && FitRecords(deposits, borrows)
    requires RecordsAt(s3, DATA_AT, COLLATERAL_STRIDE, 72, |deposits|) == deposits
    ensures var r := PutRecords(s3, BorrowsAt(|deposits|), LIQUIDITY_STRIDE, 80, borrows);
      RecordsAt(r, DATA_AT, COLLATERAL_STRIDE, 72, |deposits|) == deposits
  {
    FitsCount(|deposits|, |borrows|);
    var at2 := BorrowsAt(|deposits|);
    hide PutRecords, RecordsAt;
    var r := PutRecords(s3, at2, LIQUIDITY_STRIDE, 80, borrows);
    PutKeepsBefore(s3, at2, LIQUIDITY_STRIDE, 80, borrows, 0, at2);
    assert r[..at2] == r[0..at2] && s3[..at2] == s3[0..at2];
    RecordsDepend(s3, r, DATA_AT, COLLATERAL_STRIDE, 72, |deposits|, at2);
  }

  lemma HoldsAssembled(s: seq<Byte>, header: seq<Byte>, deposits: seq<seq<Byte>>, borrows: seq<seq<Byte>>)
    requires |s| >= OBLIGATION_LEN && |header| == HEADER_LEN && FitRecords(deposits, borrows)
    ensures Holds(Assembled(s, header, deposits, borrows), header, deposits, borrows)
  {
    FitsCount(|deposits|, |borrows|);
    CountedParts(s, header, |deposits|, |borrows|);
    hide PutRecords, RecordsAt, Counted;
    var s2 := Counted(s, header, |deposits|, |borrows|);
    var s3 := PutRecords(s2, DATA_AT, COLLATERAL_STRIDE, 72, deposits);
    HeadKept(s2, deposits, borrows);
    HeadSlices(Assembled(s, header, deposits, borrows), s2);
    RecordsPut(s2, DATA_AT, COLLATERAL_STRIDE, 72, deposits);
    DepositsKept(s3, deposits, borrows);
    RecordsPut(s3, BorrowsAt(|deposits|), LIQUIDITY_STRIDE, 80, borrows);
  }

  lemma HeadSlices(r: seq<Byte>, s: seq<Byte>)
    requires |r| == |s| >= OBLIGATION_LEN && r[..DATA_AT] == s[..DATA_AT]
    ensures r[..HEADER_LEN] == s[..HEADER_LEN] && r[COUNTS_AT] == s[COUNTS_AT] && r[COUNTS_AT + 1] == s[COUNTS_AT + 1]
  {
    assert forall i :: 0 <= i < DATA_AT ==> r[i] == r[..DATA_AT][i] && s[i] == s[..DATA_AT][i];
  }

  /** What is held already is what writing it would leave. */
  lemma HoldsIffUnchanged(s: seq<Byte>, header: seq<Byte>, deposits: seq<seq<Byte>>, borrows: seq<seq<Byte>>)
    requires |s| >= OBLIGATION_LEN && |header| == HEADER_LEN && FitRecords(deposits, borrows)
    ensures Holds(s, header, deposits, borrows) <==> Assembled(s, header, deposits, borrows) == s
  {
    FitsCount(|deposits|, |borrows|);
    hide RecordsAt, PutRecords, Overwrite;
    HoldsAssembled(s, header, deposits, borrows);
    if Holds(s, header, deposits, borrows) {
      OverwriteSame(s, 0, header);
      assert s[COUNTS_AT..COUNTS_AT + 2] == [|deposits|, |borrows|];
      OverwriteSame(s, COUNTS_AT, [|deposits|, |borrows|]);
      PutSame(s, DATA_AT, COLLATERAL_STRIDE, 72, |deposits|);
      PutSame(s, BorrowsAt(|deposits|), LIQUIDITY_STRIDE, 80, |borrows|);
    }
  }

  // ---- unpacking inverts packing ----

  lemma HeaderVersion(h: seq<Byte>, o: ObligationState)
    requires |h| == HEADER_LEN && PackableHeader(o) && h == HeaderBytes(o)
    ensures h[0] == o.version
  {
    hide ValueFields, RiskFields, StatusFields;
    HeaderWidths(o);
  }

  lemma ListsHeld(s: seq<Byte>, l: Lists, d: nat, b: nat)
    requires |s| >= OBLIGATION_LEN && Fits(d, b)
    ensures ListsOf(s, d, b) == l
       <==> && AllPackable(l) && |l.deposits| == d && |l.borrows| == b
            && RecordsAt(s, DATA_AT, COLLATERAL_STRIDE, 72, d) == DepositRecords(l)
            && RecordsAt(s, BorrowsAt(d), LIQUIDITY_STRIDE, 80, b) == BorrowRecords(l)
  {
    hide RecordsAt;
    var deposits := RecordsAt(s, DATA_AT, COLLATERAL_STRIDE, 72, d);
    var borrows := RecordsAt(s, BorrowsAt(d), LIQUIDITY_STRIDE, 80, b);
    ReadPackable(deposits, borrows);
    hide ReadDeposits, ReadBorrows, DepositRecords, BorrowRecords;
    if AllPackable(l) {
      DepositRecordsIff(deposits, l);
      BorrowRecordsIff(borrows, l);
    }
  }

  lemma ReadPackable(deposits: seq<seq<Byte>>, borrows: seq<seq<Byte>>)
    requires Sized(deposits, 72) && Sized(borrows, 80)
    ensures AllPackable(Lists(ReadDeposits(deposits), ReadBorrows(borrows)))
  {
  }

  /** A buffer unpacks to an obligation exactly when its version is supported, it
      can be packed, and packing it there would change no byte. */
  lemma UnpackIff(s: seq<Byte>, o: ObligationState)
    requires |s| >= OBLIGATION_LEN
    ensures Unpack(s) == Ok(o) <==> o.version <= PROGRAM_VERSION && Packable(o) && Packed(o, s) == s
  {
    hide ListsOf, ReadHeader, HeaderBytes, DepositRecords, BorrowRecords, RecordsAt, PutRecords, Overwrite;
    HeaderIff(s[..HEADER_LEN], o);
    hide Room, After, Assembled;
    if Fits(s[COUNTS_AT], s[COUNTS_AT + 1]) {
      ReadHeaderLists(s[..HEADER_LEN], ListsOf(s, s[COUNTS_AT], s[COUNTS_AT + 1]));
      ListsHeld(s, o.lists, s[COUNTS_AT], s[COUNTS_AT + 1]);
    }
    if Packable(o) {
      HoldsIffUnchanged(s, HeaderBytes(o), DepositRecords(o.lists), BorrowRecords(o.lists));
      if s[..HEADER_LEN] == HeaderBytes(o) {
        HeaderVersion(s[..HEADER_LEN], o);
      }
    }
  }

  /** Whatever the buffer held, an obligation that can be packed at all is
      restored in full, and packing it again changes nothing. */
  lemma UnpackPacked(o: ObligationState, s: seq<Byte>)
    requires |s| >= OBLIGATION_LEN && Packable(o) && o.version <= PROGRAM_VERSION
    ensures Unpack(Packed(o, s)) == Ok(o)
    ensures Packed(o, Packed(o, s)) == Packed(o, s)
  {
    HoldsAssembled(s, HeaderBytes(o), DepositRecords(o.lists), BorrowRecords(o.lists));
    hide Unpack, Holds, Assembled, HeaderBytes, DepositRecords, BorrowRecords;
    HoldsIffUnchanged(Packed(o, s), HeaderBytes(o), DepositRecords(o.lists), BorrowRecords(o.lists));
    UnpackIff(Packed(o, s), o);
  }

  // ---- which obligations fit ----

  /** Within the limit of ten entries, the lists fit the data area except in one
      case: ten borrows and no deposit. */
  lemma TenEntriesFit(deposits: nat, borrows: nat)
    requires deposits + borrows <= MAX_OBLIGATION_RESERVES
    ensures Fits(deposits, borrows) <==> !(deposits == 0 && borrows == 10)
  {
    FitsCount(deposits, borrows);
  }

  /** Every obligation that operations can produce packs and is restored, if its
      decimals are within 128 bits, exactly when it is not ten borrows without a
      deposit. */
  lemma ReachablePacks(o: ObligationState, ops: seq<Op>, s: seq<Byte>)
    requires o.lists == Run(ops) && o.version <= PROGRAM_VERSION && |s| >= OBLIGATION_LEN
    requires PackableHeader(o) && AllPackable(o.lists)
    ensures Packable(o) <==> !(|o.lists.deposits| == 0 && |o.lists.borrows| == 10)
    ensures Packable(o) ==> Unpack(Packed(o, s)) == Ok(o)
  {
    RunKeepsValid(ops);
    TenEntriesFit(|o.lists.deposits|, |o.lists.borrows|);
    if Packable(o) {
      UnpackPacked(o, s);
    }
  }

  // ---- in place ----

  method WriteAt(dst: array<Byte>, at: nat, bytes: seq<Byte>)
    requires at + |bytes| <= dst.Length
    modifies dst
    ensures dst[..] == Overwrite(old(dst[..]), at, bytes)
  {
    for k := 0 to |bytes|
      invariant forall j :: 0 <= j < dst.Length ==>
        dst[j] == if at <= j < at + k then bytes[j - at] else old(dst[..])[j]
    {
      dst[at + k] := bytes[k];
    }
    assert forall j :: 0 <= j < dst.Length ==> dst[..][j] == Overwrite(old(dst[..]), at, bytes)[j];
  }

  /** Write the deposits one by one at a moving offset. */
  method PackDeposits(l: Lists, dst: array<Byte>) returns (offset: nat)
    requires dst.Length >= OBLIGATION_LEN && AllPackable(l) && Fits(|l.deposits|, |l.borrows|)
    modifies dst
    ensures dst[..] == PutRecords(old(dst[..]), DATA_AT, COLLATERAL_STRIDE, 72, DepositRecords(l))
    ensures offset == BorrowsAt(|l.deposits|)
  {
    ghost var recs := DepositRecords(l);
    offset := DATA_AT;
    assert recs[0..] == recs;
    hide Overwrite, CollateralRecord, PutRecords;
    for i := 0 to |l.deposits|
      invariant Room(offset, COLLATERAL_STRIDE, |l.deposits| - i)
      invariant After(offset, COLLATERAL_STRIDE, |l.deposits| - i) == BorrowsAt(|l.deposits|)
      invariant PutRecords(dst[..], offset, COLLATERAL_STRIDE, 72, recs[i..])
             == PutRecords(old(dst[..]), DATA_AT, COLLATERAL_STRIDE, 72, recs)
    {
      PutStep(dst[..], offset, COLLATERAL_STRIDE, 72, recs[i..]);
      WriteAt(dst, offset, CollateralRecord(l.deposits[i]));
      offset := offset + COLLATERAL_STRIDE;
    }
    PutNone(dst[..], offset, COLLATERAL_STRIDE, 72);
  }

  /** Write the borrows, from where the deposits end. */
  method PackBorrows(l: Lists, dst: array<Byte>, start: nat)
    requires dst.Length >= OBLIGATION_LEN && AllPackable(l) && Room(start, LIQUIDITY_STRIDE, |l.borrows|)
    modifies dst
    ensures dst[..] == PutRecords(old(dst[..]), start, LIQUIDITY_STRIDE, 80, BorrowRecords(l))
  {
    ghost var recs := BorrowRecords(l);
    var offset: nat := start;
    assert recs[0..] == recs;
    hide Overwrite, DebtRecord, PutRecords;
    for i := 0 to |l.borrows|
      invariant Room(offset, LIQUIDITY_STRIDE, |l.borrows| - i)
      invariant PutRecords(dst[..], offset, LIQUIDITY_STRIDE, 80, recs[i..])
             == PutRecords(old(dst[..]), start, LIQUIDITY_STRIDE, 80, recs)
    {
      PutStep(dst[..], offset, LIQUIDITY_STRIDE, 80, recs[i..]);
      WriteAt(dst, offset, DebtRecord(l.borrows[i]));
      offset := offset + LIQUIDITY_STRIDE;
    }
    PutNone(dst[..], offset, LIQUIDITY_STRIDE, 80);
  }

  /** `pack_into_slice`: the header and the counts, then both lists. */
  method PackIntoSlice(o: ObligationState, dst: array<Byte>) returns (r: Result<()>)
    modifies dst
    ensures r.Ok? <==> dst.Length >= OBLIGATION_LEN && Packable(o)
    ensures r.Ok? ==> dst[..] == Packed(o, old(dst[..]))
    ensures r.Err? ==> r.error == Panic
  {
    if dst.Length < OBLIGATION_LEN || !Packable(o) {
      return Err(Panic);
    }
    hide HeaderBytes, Overwrite, PutRecords, DepositRecords, BorrowRecords;
    FitsCount(|o.lists.deposits|, |o.lists.borrows|);
    WriteAt(dst, 0, HeaderBytes(o));
    WriteAt(dst, COUNTS_AT, [|o.lists.deposits|, |o.lists.borrows|]);
    var offset: nat := PackDeposits(o.lists, dst);
    PackBorrows(o.lists, dst, offset);
    r := Ok(());
  }

  lemma ReadStep(s: seq<Byte>, at: nat, stride: nat, len: nat, n: nat)
    requires |s| >= OBLIGATION_LEN && Room(at, stride, n) && len <= stride && n > 0
    ensures RecordsAt(s, at, stride, len, n) == [s[at..at + len]] + RecordsAt(s, at + stride, stride, len, n - 1)
  {
  }

  lemma ReadOneMore(all: seq<seq<Byte>>, i: nat)
    requires i < |all|
    ensures Sized(all, 72) ==> ReadDeposits(all[..i + 1]) == ReadDeposits(all[..i]) + [ReadCollateral(all[i])]
    ensures Sized(all, 80) ==> ReadBorrows(all[..i + 1]) == ReadBorrows(all[..i]) + [ReadDebt(all[i])]
  {
    hide ReadCollateral, ReadDebt;
  }

  /** Read the deposits one by one at a moving offset, up to the end of the data. */
  method UnpackDeposits(src: array<Byte>, n: nat) returns (r: Result<(seq<Collateral>, nat)>)
    requires src.Length >= OBLIGATION_LEN
    ensures r == if Room(DATA_AT, COLLATERAL_STRIDE, n)
                 then Ok((ReadDeposits(RecordsAt(src[..], DATA_AT, COLLATERAL_STRIDE, 72, n)), BorrowsAt(n)))
                 else Err(Panic)
  {
    hide ReadCollateral, RecordsAt;
    var deposits: seq<Collateral>, offset: nat := [], DATA_AT;
    ghost var fits := Room(DATA_AT, COLLATERAL_STRIDE, n);
    ghost var all := if fits then RecordsAt(src[..], DATA_AT, COLLATERAL_STRIDE, 72, n) else [];
    for i := 0 to n
      invariant |deposits| == i && fits == Room(offset, COLLATERAL_STRIDE, n - i)
      invariant fits ==> After(offset, COLLATERAL_STRIDE, n - i) == BorrowsAt(n)
      invariant fits ==> RecordsAt(src[..], offset, COLLATERAL_STRIDE, 72, n - i) == all[i..]
      invariant fits ==> deposits == ReadDeposits(all[..i])
    {
      if offset + COLLATERAL_STRIDE > OBLIGATION_LEN {
        return Err(Panic);
      }
      if fits {
        ReadStep(src[..], offset, COLLATERAL_STRIDE, 72, n - i);
        ReadOneMore(all, i);
      }
      hide ReadDeposits;
      deposits := deposits + [ReadCollateral(src[offset..offset + 72])];
      offset := offset + COLLATERAL_STRIDE;
    }
    assert fits ==> all[..n] == all;
    r := Ok((deposits, offset));
  }

  method UnpackBorrows(src: array<Byte>, n: nat, start: nat) returns (r: Result<seq<Debt>>)
    requires src.Length >= OBLIGATION_LEN
    ensures r == if Room(start, LIQUIDITY_STRIDE, n)
                 then Ok(ReadBorrows(RecordsAt(src[..], start, LIQUIDITY_STRIDE, 80, n)))
                 else Err(Panic)
  {
    hide ReadDebt, RecordsAt;
    var borrows: seq<Debt>, offset: nat := [], start;
    ghost var fits := Room(start, LIQUIDITY_STRIDE, n);
    ghost var all := if fits then RecordsAt(src[..], start, LIQUIDITY_STRIDE, 80, n) else [];
    for i := 0 to n
      invariant |borrows| == i && fits == Room(offset, LIQUIDITY_STRIDE, n - i)
      invariant fits ==> RecordsAt(src[..], offset, LIQUIDITY_STRIDE, 80, n - i) == all[i..]
      invariant fits ==> borrows == ReadBorrows(all[..i])
    {
      if offset + LIQUIDITY_STRIDE > OBLIGATION_LEN {
        return Err(Panic);
      }
      if fits {
        ReadStep(src[..], offset, LIQUIDITY_STRIDE, 80, n - i);
        ReadOneMore(all, i);
      }
      hide ReadBorrows;
      borrows := borrows + [ReadDebt(src[offset..offset + 80])];
      offset := offset + LIQUIDITY_STRIDE;
    }
    assert fits ==> all[..n] == all;
    r := Ok(borrows);
  }

  /** `unpack_from_slice`: the version is checked before either list is read, the
      flags after both. */
  method UnpackFromSlice(src: array<Byte>) returns (r: Result<ObligationState>)
    ensures r == Unpack(src[..])
  {
    if src.Length < OBLIGATION_LEN {
      return Err(Panic);
    }
    if src[0] > PROGRAM_VERSION {
      return Err(InvalidAccountData);
    }
    hide ReadDeposits, ReadBorrows, RecordsAt, ReadHeader;
    var read :- UnpackDeposits(src, src[COUNTS_AT]);
    var (deposits, offset) := read;
    var borrows :- UnpackBorrows(src, src[COUNTS_AT + 1], offset);
    r := ReadHeader(src[..HEADER_LEN], Lists(deposits, borrows));
    assert src[..][..HEADER_LEN] == src[..HEADER_LEN];
  }
}
