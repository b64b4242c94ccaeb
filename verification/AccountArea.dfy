/** A fixed-size account: bytes overwritten in place, and records written and
    read one after the other at a moving offset. */
module AccountArea {
  import opened Bytes
  import Arith

  const OBLIGATION_LEN: nat := 1300

  function Overwrite(s: seq<Byte>, at: nat, bytes: seq<Byte>): (r: seq<Byte>)
    requires at + |bytes| <= |s|
    ensures |r| == |s|
  {
    s[..at] + bytes + s[at + |bytes|..]
  }

  /** Space for `n` records of a stride, checked one by one as the slices are. */
  predicate Room(at: nat, stride: nat, n: nat)
    decreases n
  {
    n == 0 || (at + stride <= OBLIGATION_LEN && Room(at + stride, stride, n - 1))
  }

  predicate Sized(records: seq<seq<Byte>>, len: nat) {
    forall k :: 0 <= k < |records| ==> |records[k]| == len
  }

  /** Write each record at the offset, and move the offset by the stride. */
  function PutRecords(s: seq<Byte>, at: nat, stride: nat, len: nat, records: seq<seq<Byte>>): (r: seq<Byte>)
    requires |s| >= OBLIGATION_LEN && Room(at, stride, |records|)
    requires Sized(records, len) && len <= stride
    ensures |r| == |s|
    decreases |records|
  {
    if records == [] then s
    else PutRecords(Overwrite(s, at, records[0]), at + stride, stride, len, records[1..])
  }

  lemma OverwriteSlices(s: seq<Byte>, at: nat, bytes: seq<Byte>, lo: nat, hi: nat)
    requires at + |bytes| <= |s| && lo <= hi <= |s|
    ensures Overwrite(s, at, bytes)[at..at + |bytes|] == bytes
    ensures hi <= at || at + |bytes| <= lo ==> Overwrite(s, at, bytes)[lo..hi] == s[lo..hi]
  {
  }

  lemma OverwriteSame(s: seq<Byte>, at: nat, bytes: seq<Byte>)
    requires at + |bytes| <= |s| && s[at..at + |bytes|] == bytes
    ensures Overwrite(s, at, bytes) == s
  {
    assert s == s[..at] + s[at..at + |bytes|] + s[at + |bytes|..];
  }

  /** Nothing before the first record changes. */
  lemma {:induction false} PutKeepsBefore(s: seq<Byte>, at: nat, stride: nat, len: nat, records: seq<seq<Byte>>, lo: nat, hi: nat)
    requires |s| >= OBLIGATION_LEN && Room(at, stride, |records|) && Sized(records, len) && len <= stride
    requires lo <= hi <= at && hi <= |s|
    ensures PutRecords(s, at, stride, len, records)[lo..hi] == s[lo..hi]
    decreases |records|
  {
    if records != [] {
      OverwriteSlices(s, at, records[0], lo, hi);
      PutKeepsBefore(Overwrite(s, at, records[0]), at + stride, stride, len, records[1..], lo, hi);
    }
  }

  /** The slices of `n` records of a given length. */
  function RecordsAt(s: seq<Byte>, at: nat, stride: nat, len: nat, n: nat): (records: seq<seq<Byte>>)
    requires |s| >= OBLIGATION_LEN && Room(at, stride, n) && len <= stride
    ensures |records| == n && Sized(records, len)
    decreases n
  {
    if n == 0 then [] else [s[at..at + len]] + RecordsAt(s, at + stride, stride, len, n - 1)
  }

  lemma PutStep(s: seq<Byte>, at: nat, stride: nat, len: nat, records: seq<seq<Byte>>)
    requires |s| >= OBLIGATION_LEN && Room(at, stride, |records|) && Sized(records, len) && len <= stride
    requires records != []
    ensures PutRecords(s, at, stride, len, records)
         == PutRecords(Overwrite(s, at, records[0]), at + stride, stride, len, records[1..])
  {
    hide Overwrite;
  }

  lemma PutNone(s: seq<Byte>, at: nat, stride: nat, len: nat)
    requires |s| >= OBLIGATION_LEN && len <= stride
    ensures PutRecords(s, at, stride, len, []) == s
  {
  }

  lemma FirstRecord(s: seq<Byte>, at: nat, stride: nat, len: nat, records: seq<seq<Byte>>)
    requires |s| >= OBLIGATION_LEN && Room(at, stride, |records|) && Sized(records, len) && len <= stride
    requires records != []
    ensures PutRecords(s, at, stride, len, records)[at..at + |records[0]|] == records[0]
  {
    OverwriteSlices(s, at, records[0], at, at);
    PutKeepsBefore(Overwrite(s, at, records[0]), at + stride, stride, len, records[1..], at, at + |records[0]|);
  }

  lemma RecordsStep(r: seq<Byte>, at: nat, stride: nat, len: nat, records: seq<seq<Byte>>)
    requires |r| >= OBLIGATION_LEN && Room(at, stride, |records|) && len <= stride && records != []
    requires r[at..at + len] == records[0]
    requires RecordsAt(r, at + stride, stride, len, |records| - 1) == records[1..]
    ensures RecordsAt(r, at, stride, len, |records|) == records
  {
    assert records == [records[0]] + records[1..];
  }

  /** The records written are the records read. */
  lemma {:induction false} RecordsPut(s: seq<Byte>, at: nat, stride: nat, len: nat, records: seq<seq<Byte>>)
    requires |s| >= OBLIGATION_LEN && Room(at, stride, |records|) && len <= stride
    requires Sized(records, len)
    ensures RecordsAt(PutRecords(s, at, stride, len, records), at, stride, len, |records|) == records
    decreases |records|
  {
    if records != [] {
      hide Overwrite, PutRecords, RecordsAt;
      var r := PutRecords(s, at, stride, len, records);
      PutStep(s, at, stride, len, records);
      FirstRecord(s, at, stride, len, records);
      RecordsPut(Overwrite(s, at, records[0]), at + stride, stride, len, records[1..]);
      RecordsStep(r, at, stride, len, records);
    }
  }

  /** Writing back the records that are there changes nothing. */
  lemma {:induction false} PutSame(s: seq<Byte>, at: nat, stride: nat, len: nat, n: nat)
    requires |s| >= OBLIGATION_LEN && Room(at, stride, n) && len <= stride
    ensures PutRecords(s, at, stride, len, RecordsAt(s, at, stride, len, n)) == s
    decreases n
  {
    if n > 0 {
      OverwriteSame(s, at, s[at..at + len]);
      PutSame(s, at + stride, stride, len, n - 1);
    }
  }

  lemma SliceOfPrefix(s: seq<Byte>, end: nat, lo: nat, hi: nat)
    requires lo <= hi <= end <= |s|
    ensures s[..end][lo..hi] == s[lo..hi]
  {
  }

  /** Reading depends only on the bytes up to the end of the records. */
  lemma {:induction false} RecordsDepend(s: seq<Byte>, s': seq<Byte>, at: nat, stride: nat, len: nat, n: nat, end: nat)
    requires |s| >= OBLIGATION_LEN && |s'| == |s| && Room(at, stride, n) && len <= stride
    requires end == After(at, stride, n) <= |s| && s[..end] == s'[..end]
    ensures RecordsAt(s', at, stride, len, n) == RecordsAt(s, at, stride, len, n)
    decreases n
  {
    if n > 0 {
      AfterGrows(at + stride, stride, n - 1);
      SliceOfPrefix(s, end, at, at + len);
      SliceOfPrefix(s', end, at, at + len);
      hide Overwrite, PutRecords;
      RecordsDepend(s, s', at + stride, stride, len, n - 1, end);
    }
  }

  /** The offset after `n` records. */
  function After(at: nat, stride: nat, n: nat): nat
    decreases n
  {
    if n == 0 then at else After(at + stride, stride, n - 1)
  }

  lemma {:induction false} AfterGrows(at: nat, stride: nat, n: nat)
    ensures After(at, stride, n) >= at
    decreases n
  {
    if n > 0 {
      AfterGrows(at + stride, stride, n - 1);
    }
  }

  lemma {:induction false} AfterIs(at: nat, stride: nat, n: nat)
    ensures After(at, stride, n) == at + n * stride
    ensures Room(at, stride, n) <==> n == 0 || at + n * stride <= OBLIGATION_LEN
    decreases n
  {
    if n > 0 {
      AfterIs(at + stride, stride, n - 1);
      assert n * stride == stride + (n - 1) * stride;
      Arith.MulMono(0, stride, n - 1);
    }
  }
}
