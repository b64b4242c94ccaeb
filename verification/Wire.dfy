/** The wire fields of accounts and instructions: fixed-size little-endian words,
    keys, and an optional key behind a tag byte. */
module Wire {
  import opened FixedPoint
  import opened Bytes
  import opened ReserveConfig

  datatype Kind = U8Kind | U64Kind | I64Kind | U128Kind | KeyKind | OptKeyKind | FlagKind

  datatype Field =
    | U8Field(u8: U8)
    | U64Field(u64: U64)
    | I64Field(i64: I64)
    | U128Field(u128: Rate)
    | KeyField(key: Pubkey)
    | OptKeyField(optKey: Option<Pubkey>)
    | FlagField(flag: bool)

  function KindOf(f: Field): Kind {
    match f
    case U8Field(_) => U8Kind
    case U64Field(_) => U64Kind
    case I64Field(_) => I64Kind
    case U128Field(_) => U128Kind
    case KeyField(_) => KeyKind
    case OptKeyField(_) => OptKeyKind
    case FlagField(_) => FlagKind
  }

  /** Two's complement in 64 bits. */
  function I64Word(x: I64): U64 {
    if x < 0 then x + U64_LIMIT else x
  }

  function WordI64(w: U64): I64 {
    if w >= 0x8000_0000_0000_0000 then w - U64_LIMIT else w
  }

  function Write(f: Field): seq<Byte> {
    match f
    case U8Field(x) => [x]
    case U64Field(x) => ToLE(x, 8)
    case I64Field(x) => ToLE(I64Word(x), 8)
    case U128Field(x) => ToLE(x, 16)
    case KeyField(key) => key
    case OptKeyField(optKey) => if optKey.None? then [0] else [1] + optKey.value
    case FlagField(flag) => [if flag then 1 else 0]
  }

  datatype Parsed<+T> = Parsed(value: T, rest: seq<Byte>)

  /** Split off the first `n` bytes. */
  function Take(s: seq<Byte>, n: nat): Result<Parsed<seq<Byte>>> {
    if |s| < n then Err(InstructionUnpackError) else Ok(Parsed(s[..n], s[n..]))
  }

  lemma WordSizes()
    ensures Pow256(1) == 256 && Pow256(8) == U64_LIMIT && Pow256(16) == U128_LIMIT
  {
  }

  function Word64(s: seq<Byte>): U64
    requires |s| == 8
  {
    BytesRoundTrip(s);
    WordSizes();
    FromLE(s)
  }

  function Word128(s: seq<Byte>): Rate
    requires |s| == 16
  {
    BytesRoundTrip(s);
    WordSizes();
    FromLE(s)
  }

  function ReadKey(s: seq<Byte>): Result<Parsed<Pubkey>> {
    var taken :- Take(s, 32);
    Ok(Parsed(taken.value, taken.rest))
  }

  function Read(kind: Kind, s: seq<Byte>): Result<Parsed<Field>> {
    match kind
    case U8Kind =>
      var taken :- Take(s, 1);
      Ok(Parsed(U8Field(taken.value[0]), taken.rest))
    case U64Kind =>
      var taken :- Take(s, 8);
      Ok(Parsed(U64Field(Word64(taken.value)), taken.rest))
    case I64Kind =>
      var taken :- Take(s, 8);
      Ok(Parsed(I64Field(WordI64(Word64(taken.value))), taken.rest))
    case U128Kind =>
      var taken :- Take(s, 16);
      Ok(Parsed(U128Field(Word128(taken.value)), taken.rest))
    case KeyKind =>
      var key :- ReadKey(s);
      Ok(Parsed(KeyField(key.value), key.rest))
    case OptKeyKind =>
      var tag :- Take(s, 1);
      if tag.value[0] == 0 then Ok(Parsed(OptKeyField(None), tag.rest))
      else if tag.value[0] == 1 then
        var key :- ReadKey(tag.rest);
        Ok(Parsed(OptKeyField(Some(key.value)), key.rest))
      else Err(InstructionUnpackError)
    case FlagKind =>
      var taken :- Take(s, 1);
      if taken.value[0] == 0 then Ok(Parsed(FlagField(false), taken.rest))
      else if taken.value[0] == 1 then Ok(Parsed(FlagField(true), taken.rest))
      else Err(InstructionUnpackError)
  }

  lemma TakeIff(s: seq<Byte>, n: nat, head: seq<Byte>, rest: seq<Byte>)
    ensures Take(s, n) == Ok(Parsed(head, rest)) <==> |head| == n && s == head + rest
  {
    if |s| >= n {
      assert s == s[..n] + s[n..];
    }
    if s == head + rest && |head| == n {
      assert s[..n] == head && s[n..] == rest;
    }
  }

  lemma Word64Iff(s: seq<Byte>, x: U64)
    requires |s| == 8
    ensures Word64(s) == x <==> s == ToLE(x, 8)
  {
    WordSizes();
    BytesRoundTrip(s);
    NumberRoundTrip(x, 8);
  }

  lemma Word128Iff(s: seq<Byte>, x: Rate)
    requires |s| == 16
    ensures Word128(s) == x <==> s == ToLE(x, 16)
  {
    WordSizes();
    BytesRoundTrip(s);
    NumberRoundTrip(x, 16);
  }

  /** Reading is the exact inverse of writing, one field at a time: it yields a
      field exactly when the input starts with that field's bytes, and leaves
      the rest. */
  lemma ReadIff(kind: Kind, s: seq<Byte>, f: Field, rest: seq<Byte>)
    ensures Read(kind, s) == Ok(Parsed(f, rest)) <==> KindOf(f) == kind && s == Write(f) + rest
  {
    if KindOf(f) == kind {
      var n := |Write(f)|;
      TakeIff(s, n, Write(f), rest);
      match f
      case U64Field(x) =>
        if |s| >= 8 {
          Word64Iff(s[..8], x);
        }
      case I64Field(x) =>
        if |s| >= 8 {
          Word64Iff(s[..8], I64Word(x));
        }
      case U128Field(x) =>
        if |s| >= 16 {
          Word128Iff(s[..16], x);
        }
      case OptKeyField(optKey) => ReadOptKeyIff(s, optKey, rest);
      case _ =>
    }
  }

  lemma ReadOptKeyIff(s: seq<Byte>, optKey: Option<Pubkey>, rest: seq<Byte>)
    ensures Read(OptKeyKind, s) == Ok(Parsed(OptKeyField(optKey), rest)) <==> s == Write(OptKeyField(optKey)) + rest
  {
    if |s| > 0 {
      assert s == [s[0]] + s[1..];
      match optKey
      case None => TakeIff(s, 1, [0], rest);
      case Some(key) =>
        TakeIff(s[1..], 32, key, rest);
        assert [1] + key + rest == [1] + (key + rest);
    }
  }

  // ---- field lists ----

  function KindsOf(fs: seq<Field>): (kinds: seq<Kind>)
    ensures |kinds| == |fs|
  {
    if fs == [] then [] else [KindOf(fs[0])] + KindsOf(fs[1..])
  }

  function WriteAll(fs: seq<Field>): seq<Byte> {
    if fs == [] then [] else Write(fs[0]) + WriteAll(fs[1..])
  }

  function ReadAll(kinds: seq<Kind>, s: seq<Byte>): (r: Result<Parsed<seq<Field>>>)
    ensures r.Ok? ==> KindsOf(r.value.value) == kinds
  {
    if kinds == [] then Ok(Parsed([], s)) else
    var first :- Read(kinds[0], s);
    ReadIff(kinds[0], s, first.value, first.rest);
    var others :- ReadAll(kinds[1..], first.rest);
    Ok(Parsed([first.value] + others.value, others.rest))
  }

  lemma {:induction false} ReadAllIff(kinds: seq<Kind>, s: seq<Byte>, fs: seq<Field>, rest: seq<Byte>)
    ensures ReadAll(kinds, s) == Ok(Parsed(fs, rest)) <==> KindsOf(fs) == kinds && s == WriteAll(fs) + rest
  {
    if kinds == [] {
      assert fs == [] ==> WriteAll(fs) + rest == rest;
    } else if fs != [] {
      var first := Read(kinds[0], s);
      ReadIff(kinds[0], s, fs[0], WriteAll(fs[1..]) + rest);
      assert WriteAll(fs) + rest == Write(fs[0]) + (WriteAll(fs[1..]) + rest);
      ReadAllIff(kinds[1..], WriteAll(fs[1..]) + rest, fs[1..], rest);
      assert fs == [fs[0]] + fs[1..];
      if first.Ok? {
        ReadIff(kinds[0], s, first.value.value, first.value.rest);
        ReadAllIff(kinds[1..], first.value.rest, fs[1..], rest);
      }
    }
  }

  lemma {:induction false} WriteAllAppend(fs: seq<Field>, gs: seq<Field>)
    ensures WriteAll(fs + gs) == WriteAll(fs) + WriteAll(gs)
  {
    if fs == [] {
      assert fs + gs == gs;
    } else {
      assert (fs + gs)[1..] == fs[1..] + gs;
      WriteAllAppend(fs[1..], gs);
    }
  }

  lemma WriteAllPush(fs: seq<Field>, f: Field)
    ensures WriteAll(fs + [f]) == WriteAll(fs) + Write(f)
  {
    WriteAllAppend(fs, [f]);
    hide Write;
    assert WriteAll([f]) == Write(f) + [];
  }

  // ---- kinds of fixed width that accept any bytes ----

  predicate Fixed(kinds: seq<Kind>) {
    forall i :: 0 <= i < |kinds| ==> kinds[i] != OptKeyKind && kinds[i] != FlagKind
  }

  function Width(kind: Kind): nat {
    match kind
    case U8Kind => 1
    case U64Kind => 8
    case I64Kind => 8
    case U128Kind => 16
    case KeyKind => 32
    case OptKeyKind => 1
    case FlagKind => 1
  }

  function TotalWidth(kinds: seq<Kind>): nat {
    if kinds == [] then 0 else Width(kinds[0]) + TotalWidth(kinds[1..])
  }

  lemma {:induction false} FixedLength(fs: seq<Field>)
    requires Fixed(KindsOf(fs))
    ensures |WriteAll(fs)| == TotalWidth(KindsOf(fs))
  {
    if fs != [] {
      assert KindsOf(fs)[0] == KindOf(fs[0]) && KindsOf(fs)[1..] == KindsOf(fs[1..]);
      FixedLength(fs[1..]);
    }
  }

  lemma {:induction false} FixedReads(kinds: seq<Kind>, s: seq<Byte>)
    requires Fixed(kinds) && |s| == TotalWidth(kinds)
    ensures ReadAll(kinds, s).Ok? && ReadAll(kinds, s).value.rest == []
  {
    if kinds != [] {
      FixedReads(kinds[1..], s[Width(kinds[0])..]);
    }
  }

  /** The fields of a slice of exactly their width. */
  function FieldsOf(kinds: seq<Kind>, s: seq<Byte>): (fs: seq<Field>)
    requires Fixed(kinds) && |s| == TotalWidth(kinds)
    ensures KindsOf(fs) == kinds && WriteAll(fs) == s
  {
    FixedReads(kinds, s);
    var parsed := ReadAll(kinds, s).value;
    ReadAllIff(kinds, s, parsed.value, []);
    parsed.value
  }

  lemma FieldsOfWritten(kinds: seq<Kind>, fs: seq<Field>)
    requires Fixed(kinds) && KindsOf(fs) == kinds
    ensures |WriteAll(fs)| == TotalWidth(kinds) && FieldsOf(kinds, WriteAll(fs)) == fs
  {
    FixedLength(fs);
    ReadAllIff(kinds, WriteAll(fs), fs, []);
    assert WriteAll(fs) + [] == WriteAll(fs);
  }
}
