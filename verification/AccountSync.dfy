/** The simulated account set: for each key the freshest data, by slot. */
module AccountSync {
  import opened FixedPoint
  import opened Bytes
  import opened Sequences

  datatype SlottedAccount = SlottedAccount(data: seq<Byte>, slot: U64)

  datatype State = State(accounts: map<Key, SlottedAccount>, currentSlot: U64)

  datatype Update = Update(key: Key, data: seq<Byte>, slot: U64)

  /** Only data from an older slot is dropped; a tie overwrites. */
  predicate Dropped(accounts: map<Key, SlottedAccount>, u: Update) {
    u.key in accounts && accounts[u.key].slot > u.slot
  }

  function Apply(s: State, u: Update): State {
    State(
      if Dropped(s.accounts, u) then s.accounts else s.accounts[u.key := SlottedAccount(u.data, u.slot)],
      if s.currentSlot > u.slot then s.currentSlot else u.slot)
  }

  /** The lag subtracts with saturation. */
  function Lag(s: State, key: Key): Option<U64> {
    if key !in s.accounts then None
    else if s.currentSlot < s.accounts[key].slot then Some(0)
    else Some(s.currentSlot - s.accounts[key].slot)
  }

  class AccountSyncPipeline {
    var accounts: map<Key, SlottedAccount>
    var currentSlot: U64

    function Contents(): State
      reads this
    {
      State(accounts, currentSlot)
    }

    constructor ()
      ensures Contents() == Run([])
    {
      accounts, currentSlot := map[], 0;
    }

    /** The answer tells whether the update was taken. */
    method ApplyUpdate(key: Key, data: seq<Byte>, slot: U64) returns (taken: bool)
      modifies this
      ensures Contents() == Apply(old(Contents()), Update(key, data, slot))
      ensures taken <==> !Dropped(old(accounts), Update(key, data, slot))
    {
      if currentSlot < slot {
        currentSlot := slot;
      }
      if key in accounts && accounts[key].slot > slot {
        return false;
      }
      accounts := accounts[key := SlottedAccount(data, slot)];
      taken := true;
    }

    method AccountLag(key: Key) returns (lag: Option<U64>)
      ensures lag == Lag(Contents(), key)
    {
      if key !in accounts {
        return None;
      }
      lag := Some(if currentSlot < accounts[key].slot then 0 else currentSlot - accounts[key].slot);
    }
  }

  /** The state after a list of updates, from the empty pipeline. */
  function Run(us: seq<Update>): State {
    if us == [] then State(map[], 0) else Apply(Run(us[..|us| - 1]), us[|us| - 1])
  }

  // ---- what a run leaves ----

  /** An update of the highest slot its key has in the list. */
  predicate IsTop(us: seq<Update>, u: Update) {
    u in us && forall i :: 0 <= i < |us| && us[i].key == u.key ==> us[i].slot <= u.slot
  }

  predicate Mentions(us: seq<Update>, key: Key) {
    exists i :: 0 <= i < |us| && us[i].key == key
  }

  function Held(s: State, key: Key): Update
    requires key in s.accounts
  {
    Update(key, s.accounts[key].data, s.accounts[key].slot)
  }

  /** The highest slot of all. */
  predicate IsCurrent(us: seq<Update>, slot: U64) {
    && (forall i :: 0 <= i < |us| ==> us[i].slot <= slot)
    && (slot == 0 || exists i :: 0 <= i < |us| && us[i].slot == slot)
  }

  lemma MentionsPush(us: seq<Update>, u: Update, key: Key)
    ensures Mentions(us + [u], key) <==> Mentions(us, key) || u.key == key
  {
    var all := us + [u];
    if Mentions(us, key) {
      var i :| 0 <= i < |us| && us[i].key == key;
      assert all[i].key == key;
    }
    assert all[|us|] == u;
  }

  lemma TopPush(us: seq<Update>, u: Update, top: Update)
    requires IsTop(us, top) || !Mentions(us, u.key)
    ensures IsTop(us, top) && (u.key != top.key || u.slot < top.slot) ==> IsTop(us + [u], top)
    ensures (IsTop(us, top) && u.key == top.key && u.slot >= top.slot) || !Mentions(us, u.key) ==> IsTop(us + [u], u)
  {
    var all := us + [u];
    assert all[|us|] == u;
    assert forall v :: v in us ==> v in all;
  }

  /** Each key mentioned, and no other, holds data of its highest slot; the
      current slot is the highest of all; and no lag saturates. */
  lemma {:induction false} RunHoldsTops(us: seq<Update>)
    ensures forall k: Key :: k in Run(us).accounts <==> Mentions(us, k)
    ensures forall k: Key :: k in Run(us).accounts ==> IsTop(us, Held(Run(us), k))
    ensures IsCurrent(us, Run(us).currentSlot)
  {
    if us != [] {
      var n := |us| - 1;
      var front, u := us[..n], us[n];
      RunHoldsTops(front);
      assert us == front + [u];
      CurrentPush(front, u, Run(front).currentSlot);
      forall k: Key
        ensures k in Run(us).accounts <==> Mentions(us, k)
        ensures k in Run(us).accounts ==> IsTop(us, Held(Run(us), k))
      {
        MentionsPush(front, u, k);
        if k in Run(front).accounts {
          TopPush(front, u, Held(Run(front), k));
        } else if k == u.key {
          TopPush(front, u, u);
        }
      }
    }
  }

  lemma CurrentPush(us: seq<Update>, u: Update, slot: U64)
    requires IsCurrent(us, slot)
    ensures IsCurrent(us + [u], if slot > u.slot then slot else u.slot)
  {
    var all := us + [u];
    assert all[|us|] == u;
    if slot > u.slot {
      var i :| 0 <= i < |us| && us[i].slot == slot;
      assert all[i].slot == slot;
    }
  }

  /** The lag is the distance between the two highest slots. */
  lemma LagIsDistance(us: seq<Update>, key: Key, top: Update, newest: Update)
    requires IsTop(us, top) && top.key == key
    requires newest in us && forall i :: 0 <= i < |us| ==> us[i].slot <= newest.slot
    ensures Lag(Run(us), key) == Some(newest.slot - top.slot)
  {
    RunHoldsTops(us);
    hide Run;
    var s := Run(us);
    var i :| 0 <= i < |us| && us[i] == top;
    assert us[i].key == key && Mentions(us, key);
    var held := Held(s, key);
    assert IsTop(us, held);
    var j :| 0 <= j < |us| && us[j] == held;
    assert held.slot == top.slot;
    var n :| 0 <= n < |us| && us[n] == newest;
    hide IsTop, Mentions;
    assert s.currentSlot == newest.slot;
  }

  // ---- when the order of arrival is lost ----

  /** Updates of a key at its highest slot carry the same data. */
  predicate TopsAgree(us: seq<Update>) {
    forall i, j :: 0 <= i < |us| && 0 <= j < |us| && us[i].key == us[j].key && IsTop(us, us[i]) && IsTop(us, us[j])
      ==> us[i].data == us[j].data
  }

  lemma TopOfPermutation(us: seq<Update>, vs: seq<Update>, u: Update)
    requires multiset(us) == multiset(vs) && IsTop(us, u)
    ensures IsTop(vs, u)
  {
    assert u in multiset(vs);
    forall i | 0 <= i < |vs| && vs[i].key == u.key
      ensures vs[i].slot <= u.slot
    {
      assert vs[i] in multiset(us);
    }
  }

  lemma MentionsOfPermutation(us: seq<Update>, vs: seq<Update>, key: Key)
    requires multiset(us) == multiset(vs) && Mentions(us, key)
    ensures Mentions(vs, key)
  {
    var i :| 0 <= i < |us| && us[i].key == key;
    assert us[i] in multiset(vs);
  }

  lemma CurrentOfPermutation(us: seq<Update>, vs: seq<Update>, a: U64, b: U64)
    requires multiset(us) == multiset(vs) && IsCurrent(us, a) && IsCurrent(vs, b)
    ensures b <= a
  {
    if b > 0 {
      var i :| 0 <= i < |vs| && vs[i].slot == b;
      assert vs[i] in multiset(us);
    }
  }

  lemma AgreeingTops(us: seq<Update>, a: Update, b: Update)
    requires TopsAgree(us) && IsTop(us, a) && IsTop(us, b) && a.key == b.key
    ensures a == b
  {
    var i :| 0 <= i < |us| && us[i] == a;
    var j :| 0 <= j < |us| && us[j] == b;
    assert us[i].data == us[j].data;
  }

  lemma AgreementConverges(us: seq<Update>, vs: seq<Update>)
    requires multiset(us) == multiset(vs) && TopsAgree(us)
    ensures Run(vs) == Run(us)
  {
    RunHoldsTops(us);
    RunHoldsTops(vs);
    hide Run, TopsAgree, IsTop, IsCurrent, Mentions;
    var a, b := Run(us), Run(vs);
    CurrentOfPermutation(us, vs, a.currentSlot, b.currentSlot);
    CurrentOfPermutation(vs, us, b.currentSlot, a.currentSlot);
    forall k: Key
      ensures k in a.accounts <==> k in b.accounts
      ensures k in a.accounts ==> a.accounts[k] == b.accounts[k]
    {
      if Mentions(us, k) {
        MentionsOfPermutation(us, vs, k);
        TopOfPermutation(vs, us, Held(b, k));
        AgreeingTops(us, Held(a, k), Held(b, k));
      } else if Mentions(vs, k) {
        MentionsOfPermutation(vs, us, k);
      }
    }
    assert a.accounts == b.accounts;
  }

  /** The update of the highest slot that arrives last is the one held. */
  lemma LastTopWins(us: seq<Update>, i: nat)
    requires i < |us| && IsTop(us, us[i])
    ensures us[i].key in Run(MovedLast(us, i)).accounts
    ensures Held(Run(MovedLast(us, i)), us[i].key) == us[i]
  {
    var vs, u := MovedLast(us, i), us[i];
    var front := us[..i] + us[i + 1..];
    assert vs[..|vs| - 1] == front;
    RunHoldsTops(front);
    if u.key in Run(front).accounts {
      assert Held(Run(front), u.key) in front;
      assert Held(Run(front), u.key) in us;
    }
  }

  lemma DisagreementDiverges(us: seq<Update>, i: nat, j: nat)
    requires i < |us| && j < |us| && us[i].key == us[j].key && us[i].data != us[j].data
    requires IsTop(us, us[i]) && IsTop(us, us[j])
    ensures Run(MovedLast(us, i)) != Run(MovedLast(us, j))
  {
    LastTopWins(us, i);
    LastTopWins(us, j);
  }

  /** Every order of arrival leads to the same state exactly when updates of a key
      at its highest slot carry the same data. */
  lemma ConvergesIff(us: seq<Update>)
    ensures TopsAgree(us) <==> forall vs: seq<Update> :: multiset(vs) == multiset(us) ==> Run(vs) == Run(us)
  {
    if TopsAgree(us) {
      forall vs: seq<Update> | multiset(vs) == multiset(us)
        ensures Run(vs) == Run(us)
      {
        AgreementConverges(us, vs);
      }
    } else {
      var i, j :| 0 <= i < |us| && 0 <= j < |us| && us[i].key == us[j].key
                && IsTop(us, us[i]) && IsTop(us, us[j]) && us[i].data != us[j].data;
      DisagreementDiverges(us, i, j);
      assert Run(MovedLast(us, i)) != Run(us) || Run(MovedLast(us, j)) != Run(us);
    }
  }

  /** In particular when no key repeats a slot. */
  lemma DistinctSlotsConverge(us: seq<Update>, vs: seq<Update>)
    requires forall i, j :: 0 <= i < j < |us| && us[i].key == us[j].key ==> us[i].slot != us[j].slot
    requires multiset(us) == multiset(vs)
    ensures Run(vs) == Run(us)
  {
    forall i, j | 0 <= i < |us| && 0 <= j < |us| && us[i].key == us[j].key && IsTop(us, us[i]) && IsTop(us, us[j])
      ensures us[i].data == us[j].data
    {
      assert us[i].slot == us[j].slot;
      assert !(i < j) && !(j < i);
    }
    AgreementConverges(us, vs);
  }
}
