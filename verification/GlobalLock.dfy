/**
The global lock shared by the OS and the firmware (section 5.2.10.1 of the
ACPI Specification), as interleaved compare-exchange loops of the two sides
on one word.
*/
module GlobalLock {

  // ----- The word -----

  const PENDING: bv32 := 1
  const OWNED: bv32 := 2

  function Upper(v: bv32): bv32 {
    v & 0xFFFF_FFFC
  }

  predicate IsOwned(v: bv32) {
    v & OWNED == OWNED
  }

  predicate IsPending(v: bv32) {
    v & PENDING == PENDING
  }

  /** What an attempt writes: owned, and pending if it was owned already. */
  function Attempted(v: bv32): bv32 {
    Upper(v) | OWNED | (if IsOwned(v) then PENDING else 0)
  }

  lemma AttemptedUpper(v: bv32)
    ensures Upper(Attempted(v)) == Upper(v)
  {
  }

  lemma AttemptedBits(v: bv32)
    ensures IsOwned(Attempted(v))
    ensures IsPending(Attempted(v)) <==> IsOwned(v)
  {
  }

  lemma UpperTwice(v: bv32)
    ensures Upper(Upper(v)) == Upper(v)
  {
  }

  lemma UpperOwned(v: bv32)
    ensures !IsOwned(Upper(v))
  {
  }

  lemma UpperPending(v: bv32)
    ensures !IsPending(Upper(v))
  {
  }

  // ----- The machine -----

  datatype Side = Os | Firmware {
    function Other(): Side {
      if this == Os then Firmware else Os
    }
  }

  datatype Pc =
    | Outside
    | Trying(seen: bv32)        // has read the word, about to exchange it
    | Waiting                   // failed an attempt, waits for a release notification
    | Inside
    | Releasing(seen: bv32)

  /**
  One side. `contended` records whether the other side failed an attempt during
  the present tenure, and `told` an unconsumed release notification.
  */
  datatype Party = Party(pc: Pc, contended: bool, told: bool) {
    predicate Owns() {
      pc.Inside? || pc.Releasing?
    }
  }

  datatype State = State(word: bv32, os: Party, firmware: Party) {
    function Get(s: Side): Party {
      if s == Os then os else firmware
    }

    function Set(s: Side, p: Party): State {
      if s == Os then this.(os := p) else this.(firmware := p)
    }
  }

  datatype Step =
    | ReadToAcquire
    | ExchangeToAcquire
    | GiveUp                    // after 65535 attempts
    | ReadToRelease
    | ExchangeToRelease(notify: bool)

  /** One atomic access of one side. */
  predicate Next(c: State, s: Side, step: Step, c': State) {
    var p, q := c.Get(s), c.Get(s.Other());
    match step
    case ReadToAcquire =>
      (p.pc.Outside? || p.pc.Waiting?) && c' == c.Set(s, p.(pc := Trying(c.word), told := false))
    case ExchangeToAcquire =>
      && p.pc.Trying?
      && c' == if c.word != p.pc.seen then c.Set(s, p.(pc := Trying(c.word)))
               else if IsOwned(p.pc.seen)
               then c.(word := Attempted(p.pc.seen)).Set(s, p.(pc := Waiting)).Set(s.Other(), q.(contended := true))
               else c.(word := Attempted(p.pc.seen)).Set(s, p.(pc := Inside, contended := false))
    case GiveUp =>
      p.pc.Waiting? && c' == c.Set(s, p.(pc := Outside))
    case ReadToRelease =>
      p.pc.Inside? && c' == c.Set(s, p.(pc := Releasing(c.word)))
    case ExchangeToRelease(notify) =>
      && p.pc.Releasing?
      && (if c.word != p.pc.seen then !notify && c' == c.Set(s, p.(pc := Releasing(c.word)))
          else
            && notify == IsPending(p.pc.seen)
            && c' == c.(word := Upper(p.pc.seen)).Set(s, p.(pc := Outside, contended := false))
                      .Set(s.Other(), q.(told := q.told || notify)))
  }

  /** Nobody owns the lock, or the firmware still does from before. */
  predicate Init(c: State) {
    && c.os == Party(Outside, false, false)
    && !c.firmware.contended && !c.firmware.told
    && !IsPending(c.word)
    && (if IsOwned(c.word) then c.firmware.pc.Inside? else c.firmware.pc.Outside?)
  }

  // ----- The invariant -----

  /** The owned and pending bits agree with the two parties, whichever is which. */
  predicate Agree(owned: bool, pending: bool, p: Party, q: Party) {
    && !(p.Owns() && q.Owns())
    && (owned <==> p.Owns() || q.Owns())
    && (pending <==> p.contended || q.contended)
    && (p.contended ==> p.Owns())
    && (q.contended ==> q.Owns())
    && (p.pc.Waiting? ==> p.told || q.contended)
    && (q.pc.Waiting? ==> q.told || p.contended)
  }

  predicate Inv(c: State) {
    Agree(IsOwned(c.word), IsPending(c.word), c.os, c.firmware)
  }

  lemma InvOf(c: State, s: Side)
    ensures Inv(c) <==> Agree(IsOwned(c.word), IsPending(c.word), c.Get(s), c.Get(s.Other()))
  {
    hide IsOwned, IsPending;
  }

  lemma InitInv(c: State)
    requires Init(c)
    ensures Inv(c)
  {
  }

  /** A failed attempt marks the owner's tenure. */
  lemma FailedAttempt(pending: bool, p: Party, q: Party)
    requires Agree(true, pending, p, q) && p.pc.Trying?
    ensures Agree(true, true, p.(pc := Waiting), q.(contended := true))
  {
  }

  lemma SuccessfulAttempt(pending: bool, p: Party, q: Party)
    requires Agree(false, pending, p, q)
    ensures Agree(true, false, p.(pc := Inside, contended := false), q)
  {
  }

  lemma FailureKeepsInv(c: State, s: Side, c': State)
    requires Inv(c) && Next(c, s, ExchangeToAcquire, c') && c.Get(s).pc.Trying?
    requires c.word == c.Get(s).pc.seen && IsOwned(c.word)
    ensures Inv(c') && c'.word == Attempted(c.word)
  {
    AttemptedBits(c.word);
    hide Inv, Agree, Upper, IsOwned, IsPending, Attempted;
    InvOf(c, s);
    InvOf(c', s);
    FailedAttempt(IsPending(c.word), c.Get(s), c.Get(s.Other()));
  }

  lemma SuccessKeepsInv(c: State, s: Side, c': State)
    requires Inv(c) && Next(c, s, ExchangeToAcquire, c') && c.Get(s).pc.Trying?
    requires c.word == c.Get(s).pc.seen && !IsOwned(c.word)
    ensures Inv(c') && c'.word == Attempted(c.word)
  {
    AttemptedBits(c.word);
    hide Inv, Agree, Upper, IsOwned, IsPending, Attempted;
    InvOf(c, s);
    InvOf(c', s);
    SuccessfulAttempt(IsPending(c.word), c.Get(s), c.Get(s.Other()));
  }

  lemma RetryKeepsInv(c: State, s: Side, c': State)
    requires Inv(c) && Next(c, s, ExchangeToAcquire, c') && c.Get(s).pc.Trying? && c.word != c.Get(s).pc.seen
    ensures Inv(c') && c'.word == c.word
  {
    hide Inv, Agree, Upper, IsOwned, IsPending, Attempted;
    InvOf(c, s);
    InvOf(c', s);
    RetryAgrees(IsOwned(c.word), IsPending(c.word), c.Get(s), c.Get(s.Other()), c.word);
  }

  lemma AcquireKeepsInv(c: State, s: Side, c': State)
    requires Inv(c) && Next(c, s, ExchangeToAcquire, c')
    ensures Inv(c') && Upper(c'.word) == Upper(c.word)
  {
    AttemptedUpper(c.word);
    AcquiringReads(c, s, c');
    hide Inv, Next, Upper, IsOwned, IsPending, Attempted;
    if c.word != c.Get(s).pc.seen {
      RetryKeepsInv(c, s, c');
    } else if IsOwned(c.word) {
      FailureKeepsInv(c, s, c');
    } else {
      SuccessKeepsInv(c, s, c');
    }
  }

  lemma AcquiringReads(c: State, s: Side, c': State)
    requires Next(c, s, ExchangeToAcquire, c')
    ensures c.Get(s).pc.Trying?
  {
    hide Upper, IsOwned, IsPending, Attempted;
  }

  lemma RetryAgrees(owned: bool, pending: bool, p: Party, q: Party, v: bv32)
    requires Agree(owned, pending, p, q) && p.pc.Trying?
    ensures Agree(owned, pending, p.(pc := Trying(v)), q)
  {
  }

  lemma ReleaseKeepsInv(c: State, s: Side, notify: bool, c': State)
    requires Inv(c) && Next(c, s, ExchangeToRelease(notify), c')
    ensures Inv(c') && Upper(c'.word) == Upper(c.word)
  {
    ReleasingReads(c, s, notify, c');
    UpperTwice(c.word);
    hide Inv, Agree, Next, Upper, IsOwned, IsPending, Attempted;
    if c.word != c.Get(s).pc.seen {
      RetryReleaseKeepsInv(c, s, notify, c');
    } else {
      ReleasedKeepsInv(c, s, notify, c');
    }
  }

  lemma ReleasingReads(c: State, s: Side, notify: bool, c': State)
    requires Next(c, s, ExchangeToRelease(notify), c')
    ensures c.Get(s).pc.Releasing?
  {
    hide Upper, IsOwned, IsPending, Attempted;
  }

  lemma RetryReleaseKeepsInv(c: State, s: Side, notify: bool, c': State)
    requires Inv(c) && Next(c, s, ExchangeToRelease(notify), c') && c.Get(s).pc.Releasing?
    requires c.word != c.Get(s).pc.seen
    ensures Inv(c') && c'.word == c.word
  {
    hide Inv, Agree, Upper, IsOwned, IsPending, Attempted;
    InvOf(c, s);
    InvOf(c', s);
    RetryReleaseAgrees(IsOwned(c.word), IsPending(c.word), c.Get(s), c.Get(s.Other()), c.word);
  }

  lemma RetryReleaseAgrees(owned: bool, pending: bool, p: Party, q: Party, v: bv32)
    requires Agree(owned, pending, p, q) && p.pc.Releasing?
    ensures Agree(owned, pending, p.(pc := Releasing(v)), q)
  {
  }

  lemma ReleasedKeepsInv(c: State, s: Side, notify: bool, c': State)
    requires Inv(c) && Next(c, s, ExchangeToRelease(notify), c') && c.Get(s).pc.Releasing?
    requires c.word == c.Get(s).pc.seen
    ensures Inv(c') && c'.word == Upper(c.word)
  {
    hide Inv, Agree, Upper, IsOwned, IsPending, Attempted, Next;
    ReleasedIs(c, s, notify, c');
    UpperOwned(c.word);
    UpperPending(c.word);
    InvOf(c, s);
    InvOf(c', s);
    ReleasedAgrees(IsOwned(c.word), IsPending(c.word), c.Get(s), c.Get(s.Other()));
  }

  /** What a release that goes through leaves. */
  lemma ReleasedIs(c: State, s: Side, notify: bool, c': State)
    requires Next(c, s, ExchangeToRelease(notify), c') && c.Get(s).pc.Releasing? && c.word == c.Get(s).pc.seen
    ensures c'.word == Upper(c.word) && notify == IsPending(c.word)
    ensures c'.Get(s) == c.Get(s).(pc := Outside, contended := false)
    ensures c'.Get(s.Other()) == c.Get(s.Other()).(told := c.Get(s.Other()).told || notify)
  {
    hide Upper, IsOwned, IsPending, Attempted;
  }

  /** A release clears both bits and tells the other side exactly when it is waited for. */
  lemma ReleasedAgrees(owned: bool, pending: bool, p: Party, q: Party)
    requires Agree(owned, pending, p, q) && p.pc.Releasing?
    ensures Agree(false, false, p.(pc := Outside, contended := false), q.(told := q.told || pending))
  {
  }

  lemma NextKeepsInv(c: State, s: Side, step: Step, c': State)
    requires Inv(c) && Next(c, s, step, c')
    ensures Inv(c') && Upper(c'.word) == Upper(c.word)
  {
    match step {
      case ReadToAcquire =>
        hide Upper, IsOwned, IsPending, Attempted;
      case ExchangeToAcquire =>
        AcquireKeepsInv(c, s, c');
      case GiveUp =>
        hide Upper, IsOwned, IsPending, Attempted;
      case ReadToRelease =>
        hide Upper, IsOwned, IsPending, Attempted;
      case ExchangeToRelease(notify) =>
        ReleaseKeepsInv(c, s, notify, c');
    }
  }

  // ----- Every run -----

  predicate Run(cs: seq<State>, moves: seq<(Side, Step)>) {
    && |cs| == |moves| + 1 && Init(cs[0])
    && forall i :: 0 <= i < |moves| ==> Next(cs[i], moves[i].0, moves[i].1, cs[i + 1])
  }

  /** The two sides never own the lock together, and the upper 30 bits never change. */
  lemma {:induction false} NeverBoth(cs: seq<State>, moves: seq<(Side, Step)>, k: nat)
    requires Run(cs, moves) && k < |cs|
    ensures Inv(cs[k]) && !(cs[k].os.Owns() && cs[k].firmware.Owns())
    ensures Upper(cs[k].word) == Upper(cs[0].word)
  {
    hide Upper, IsOwned, IsPending, Attempted, Next, Init;
    if k == 0 {
      InitInv(cs[0]);
    } else {
      NeverBoth(cs, moves, k - 1);
      NextKeepsInv(cs[k - 1], moves[k - 1].0, moves[k - 1].1, cs[k]);
    }
  }

  /** The side failed an attempt with this step. */
  predicate Fails(c: State, s: Side, step: Step) {
    step.ExchangeToAcquire? && c.Get(s).pc.Trying? && c.Get(s).pc.seen == c.word && IsOwned(c.word)
  }

  predicate Acquires(c: State, s: Side, step: Step) {
    step.ExchangeToAcquire? && c.Get(s).pc.Trying? && c.Get(s).pc.seen == c.word && !IsOwned(c.word)
  }

  /** The side gives the lock up with this step. */
  predicate Releases(c: State, s: Side, step: Step) {
    step.ExchangeToRelease? && c.Get(s).pc.Releasing? && c.Get(s).pc.seen == c.word
  }

  /**
  A tenure of side `s` that runs from state `i` to state `k`: it began with the
  step before `i`, or the run found it there.
  */
  predicate Tenure(cs: seq<State>, moves: seq<(Side, Step)>, s: Side, i: nat, k: nat)
    requires |cs| == |moves| + 1
  {
    && i <= k <= |moves|
    && (i == 0 || (moves[i - 1].0 == s && Acquires(cs[i - 1], s, moves[i - 1].1)))
    && forall j :: i <= j <= k ==> cs[j].Get(s).Owns()
  }

  /** The flag follows the other side's failed attempts. */
  lemma ContendedStep(c: State, s: Side, step: Step, c': State, owner: Side)
    requires Inv(c) && Next(c, s, step, c') && c.Get(owner).Owns() && c'.Get(owner).Owns()
    ensures c'.Get(owner).contended <==> c.Get(owner).contended || (s == owner.Other() && Fails(c, s, step))
  {
    hide Upper, IsOwned, IsPending, Attempted;
    match step {
      case ReadToAcquire =>
      case ExchangeToAcquire =>
      case GiveUp =>
      case ReadToRelease =>
      case ExchangeToRelease(_) =>
    }
  }

  lemma AcquireStartsClean(c: State, s: Side, step: Step, c': State)
    requires Next(c, s, step, c') && Acquires(c, s, step)
    ensures !c'.Get(s).contended && c'.Get(s).Owns()
  {
    hide Upper, IsOwned, IsPending, Attempted;
  }

  lemma InitStartsClean(c: State, s: Side)
    requires Init(c)
    ensures !c.Get(s).contended
  {
    hide IsOwned, IsPending;
  }

  /** Within a tenure the owner is contended exactly when the other side has failed an attempt in it. */
  lemma {:induction false} ContendedIsHistory(cs: seq<State>, moves: seq<(Side, Step)>, s: Side, i: nat, k: nat)
    requires Run(cs, moves) && Tenure(cs, moves, s, i, k)
    ensures cs[k].Get(s).contended <==>
            exists j :: i <= j < k && moves[j].0 == s.Other() && Fails(cs[j], s.Other(), moves[j].1)
  {
    hide Upper, IsOwned, IsPending, Attempted, Next, Inv, Init, Fails, Acquires;
    if k == 0 {
      InitStartsClean(cs[0], s);
    } else if k == i {
      AcquireStartsClean(cs[k - 1], s, moves[k - 1].1, cs[k]);
    } else {
      NeverBoth(cs, moves, k - 1);
      ContendedIsHistory(cs, moves, s, i, k - 1);
      ContendedStep(cs[k - 1], moves[k - 1].0, moves[k - 1].1, cs[k], s);
    }
  }

  /**
  GBL_RLS is written exactly when the other side failed an attempt during the
  tenure that the release ends.
  */
  lemma NotifiesExactlyWhenContended(cs: seq<State>, moves: seq<(Side, Step)>, s: Side, i: nat, k: nat)
    requires Run(cs, moves) && Tenure(cs, moves, s, i, k) && k < |moves|
    requires moves[k].0 == s && Releases(cs[k], s, moves[k].1)
    ensures moves[k].1.notify <==>
            exists j :: i <= j < k && moves[j].0 == s.Other() && Fails(cs[j], s.Other(), moves[j].1)
  {
    hide Upper, IsOwned, IsPending, Attempted, Inv, Init, Fails, Acquires;
    NeverBoth(cs, moves, k);
    ContendedIsHistory(cs, moves, s, i, k);
    assert Next(cs[k], moves[k].0, moves[k].1, cs[k + 1]);
    PendingIsContended(cs[k], s);
  }

  lemma PendingIsContended(c: State, s: Side)
    requires Inv(c) && c.Get(s).Owns()
    ensures IsPending(c.word) <==> c.Get(s).contended
  {
    hide IsOwned, IsPending;
  }

  /** Who waits has been told of a release, or the owner will tell at its release. */
  lemma NoLostNotification(cs: seq<State>, moves: seq<(Side, Step)>, k: nat, s: Side)
    requires Run(cs, moves) && k < |cs| && cs[k].Get(s).pc.Waiting?
    ensures cs[k].Get(s).told || (cs[k].Get(s.Other()).Owns() && IsPending(cs[k].word))
  {
    hide Upper, IsOwned, IsPending, Next, Init;
    NeverBoth(cs, moves, k);
  }
}
