/** The 64-bit lock word of the WBCTL model: two owned bits, three incarnation bits,
    thirteen owner bits and forty-six version bits, from the low end up.

    The first half is the bit arithmetic of the source.  The second half reads a word
    as a record of fields, and shows that every bit operation is the field operation
    that its name promises.  The transaction model works on the records.
 */
module LockWord {

  const OWNED_MASK: bv64 := 0x3
  const THREAD_MASK: bv64 := 0x1FFF
  const OWNER_MASK: bv64 := 0x3FFE0
  const VERSION_MASK: bv64 := 0x3FFF_FFFF_FFFF
  const VERSION_FIELD: bv64 := 0xFFFF_FFFF_FFFC_0000

  // Number of versions and of thread ids that the layout can hold.
  const VERSIONS: nat := 0x4000_0000_0000
  const THREADS: nat := 0x2000

  /* ----- the word as bits ----- */

  function New(version: bv64): bv64 {
    version << 18
  }

  predicate IsLocked(w: bv64) {
    w & OWNED_MASK != 0
  }

  predicate IsWriteLocked(w: bv64) {
    w & 0x1 != 0
  }

  function Owner(w: bv64): bv64 {
    (w >> 5) & THREAD_MASK
  }

  function Version(w: bv64): bv64 {
    (w >> 18) & VERSION_MASK
  }

  function SetVersion(w: bv64, v: bv64): bv64 {
    (w & !VERSION_FIELD) | (v << 18)
  }

  function TryLock(w: bv64, tid: bv64): (bool, bv64) {
    if IsLocked(w) then (false, w)
    else (true, ((w | 0x1) & !OWNER_MASK) | (tid << 5))
  }

  function UnlockOwner(w: bv64, tid: bv64): bv64 {
    if Owner(w) != tid then w else w & !(OWNED_MASK | OWNER_MASK)
  }

  function UnlockWithVersion(w: bv64, tid: bv64, v: bv64): bv64 {
    UnlockOwner(SetVersion(w, v), tid)
  }

  /* ----- the word as fields ----- */

  datatype Word = Word(version: nat, owner: nat, incarnation: nat, owned: nat) {
    predicate Locked() { owned != 0 }

    predicate WriteLocked() { owned % 2 == 1 }

    // Nobody holds the word and no owner is left behind.
    predicate Free() { owned == 0 && owner == 0 }

    // A version that does not fit is truncated to the width of its field.
    function WithVersion(v: nat): Word {
      this.(version := v % VERSIONS)
    }

    function Lock(tid: nat): Word {
      this.(owner := tid, owned := 1)
    }

    function Unlock(tid: nat): Word {
      if owner != tid then this else this.(owner := 0, owned := 0)
    }
  }

  function Fields(w: bv64): Word {
    Word(Version(w) as nat, Owner(w) as nat, ((w >> 2) & 0x7) as nat, (w & OWNED_MASK) as nat)
  }

  // The four fields cover the word: two words with equal fields are equal.
  lemma FieldsDetermineWord(w: bv64, u: bv64)
    requires Fields(w) == Fields(u)
    ensures w == u
  {
    BitsOfNat(Version(w), Version(u));
    BitsOfNat(Owner(w), Owner(u));
    BitsOfNat((w >> 2) & 0x7, (u >> 2) & 0x7);
    BitsOfNat(w & OWNED_MASK, u & OWNED_MASK);
    BitsCover(w, u);
  }

  lemma BitsCover(w: bv64, u: bv64)
    requires Version(w) == Version(u) && Owner(w) == Owner(u)
    requires (w >> 2) & 0x7 == (u >> 2) & 0x7 && w & OWNED_MASK == u & OWNED_MASK
    ensures w == u
  {
  }

  lemma BitsOfNat(x: bv64, y: bv64)
    requires x as nat == y as nat
    ensures x == y
  {
    ThereAndBack(x);
    ThereAndBack(y);
  }

  lemma ThereAndBack(x: bv64)
    ensures (x as nat) as bv64 == x
  {
  }

  lemma NewFields(version: bv64)
    requires version <= VERSION_MASK
    ensures Fields(New(version)) == Word(version as nat, 0, 0, 0)
  {
    var w := New(version);
    assert Version(w) == version && Owner(w) == 0 && (w >> 2) & 0x7 == 0 && w & OWNED_MASK == 0;
  }

  // try_lock succeeds exactly on unlocked words; it sets the owner and the write bit
  // and leaves version and incarnation alone.
  lemma TryLockFields(w: bv64, tid: bv64)
    requires tid <= THREAD_MASK
    ensures TryLock(w, tid).0 == !Fields(w).Locked()
    ensures TryLock(w, tid).0 ==> Fields(TryLock(w, tid).1) == Fields(w).Lock(tid as nat)
    ensures !TryLock(w, tid).0 ==> TryLock(w, tid).1 == w
  {
    if !IsLocked(w) {
      var u := TryLock(w, tid).1;
      assert Version(u) == Version(w) && Owner(u) == tid && (u >> 2) & 0x7 == (w >> 2) & 0x7;
      assert u & OWNED_MASK == 1;
    } else {
      BitsOfNatZero(w & OWNED_MASK);
    }
  }

  lemma BitsOfNatZero(x: bv64)
    ensures x as nat == 0 <==> x == 0
  {
    if x as nat == 0 { BitsOfNat(x, 0); }
  }

  // unlock_owner clears owner and owned bits for the owner, and does nothing for others.
  lemma UnlockOwnerFields(w: bv64, tid: bv64)
    ensures Fields(UnlockOwner(w, tid)) == Fields(w).Unlock(tid as nat)
  {
    SameNat(Owner(w), tid);
    if Owner(w) == tid {
      ClearBits(w, w & !(OWNED_MASK | OWNER_MASK));
    }
  }

  lemma SameNat(x: bv64, y: bv64)
    ensures x as nat == y as nat <==> x == y
  {
    if x as nat == y as nat { BitsOfNat(x, y); }
  }

  // The write bit is the low one of the two owned bits.
  lemma WriteLockedField(w: bv64)
    ensures IsWriteLocked(w) <==> Fields(w).WriteLocked()
  {
    OwnedCases(w, w & OWNED_MASK);
  }

  lemma OwnedCases(w: bv64, o: bv64)
    requires o == w & OWNED_MASK
    ensures o == 0 || o == 1 || o == 2 || o == 3
    ensures w & 0x1 != 0 <==> o == 1 || o == 3
  {
  }

  lemma ClearBits(w: bv64, u: bv64)
    requires u == w & !(OWNED_MASK | OWNER_MASK)
    ensures Version(u) == Version(w) && Owner(u) == 0
    ensures (u >> 2) & 0x7 == (w >> 2) & 0x7 && u & OWNED_MASK == 0
  {
  }

  lemma SetVersionFields(w: bv64, v: bv64)
    requires v <= VERSION_MASK
    ensures Fields(SetVersion(w, v)) == Fields(w).(version := v as nat)
  {
    FieldsOfSetVersion(w, v);
  }

  lemma FieldsOfSetVersion(w: bv64, v: bv64)
    requires v <= VERSION_MASK
    ensures Version(SetVersion(w, v)) == v && Owner(SetVersion(w, v)) == Owner(w)
    ensures (SetVersion(w, v) >> 2) & 0x7 == (w >> 2) & 0x7
    ensures SetVersion(w, v) & OWNED_MASK == w & OWNED_MASK
  {
  }

  // A thread that locks a free word and unlocks it leaves it as it was, bit for bit.
  lemma LockUnlockRestores(w: bv64, tid: bv64)
    requires w & OWNED_MASK == 0 && Owner(w) == 0 && tid <= THREAD_MASK
    ensures UnlockOwner(TryLock(w, tid).1, tid) == w
  {
    LockBits(w, tid);
    UnlockBits(w, TryLock(w, tid).1, tid);
  }

  // If it unlocks with a version, only the version bits differ.
  lemma LockPublishSetsVersion(w: bv64, tid: bv64, v: bv64)
    requires w & OWNED_MASK == 0 && Owner(w) == 0 && tid <= THREAD_MASK
    ensures UnlockWithVersion(TryLock(w, tid).1, tid, v) == SetVersion(w, v)
  {
    LockBits(w, tid);
    PublishBits(w, TryLock(w, tid).1, tid, v);
  }

  lemma LockBits(w: bv64, tid: bv64)
    requires w & OWNED_MASK == 0 && Owner(w) == 0 && tid <= THREAD_MASK
    ensures Owner(TryLock(w, tid).1) == tid
    ensures TryLock(w, tid).1 & !(OWNED_MASK | OWNER_MASK) == w
  {
  }

  lemma UnlockBits(w: bv64, u: bv64, tid: bv64)
    requires Owner(u) == tid && u & !(OWNED_MASK | OWNER_MASK) == w
    ensures UnlockOwner(u, tid) == w
  {
  }

  lemma PublishBits(w: bv64, u: bv64, tid: bv64, v: bv64)
    requires Owner(u) == tid && u & !(OWNED_MASK | OWNER_MASK) == w
    ensures UnlockWithVersion(u, tid, v) == SetVersion(w, v)
  {
    var x, y := SetVersion(u, v), SetVersion(w, v);
    assert Owner(x) == tid && x & !(OWNED_MASK | OWNER_MASK) == y by { SetVersionBits(w, u, v); }
    assert UnlockOwner(x, tid) == y by { UnlockBits(y, x, tid); }
  }

  lemma SetVersionBits(w: bv64, u: bv64, v: bv64)
    requires u & !(OWNED_MASK | OWNER_MASK) == w
    ensures SetVersion(u, v) & !(OWNED_MASK | OWNER_MASK) == SetVersion(w, v)
    ensures Owner(SetVersion(u, v)) == Owner(u)
  {
  }

  // The owner field is wide enough exactly for thread ids below 2^13.
  lemma LockNamesOwnerIffTidFits(tid: bv64)
    ensures (forall w: bv64 :: !IsLocked(w) ==>
               Owner(TryLock(w, tid).1) == tid && Version(TryLock(w, tid).1) == Version(w))
            <==> tid <= THREAD_MASK
  {
    if tid <= THREAD_MASK {
      forall w: bv64 | !IsLocked(w)
        ensures Owner(TryLock(w, tid).1) == tid && Version(TryLock(w, tid).1) == Version(w)
      {
      }
    } else {
      assert !IsLocked(0);
      assert Owner(TryLock(0, tid).1) != tid;
    }
  }

  // Once taken, a word is write-locked, and nobody takes it again.
  lemma LockExcludes(w: bv64, tid: bv64, other: bv64)
    requires TryLock(w, tid).0
    ensures var u := TryLock(w, tid).1; IsLocked(u) && IsWriteLocked(u) && TryLock(u, other) == (false, u)
  {
    var u := ((w | 0x1) & !OWNER_MASK) | (tid << 5);
    assert u & 0x1 == 0x1;
  }
}
