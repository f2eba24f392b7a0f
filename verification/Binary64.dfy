/** Instants compared as binary64 numbers. Between 2^60 and 2^61 nanoseconds (2006 to 2043) neighbouring
    numbers lie 256 apart, so rounding moves an instant by at most 128. */
module Binary64 {
  import opened Schedules

  const Lo := 0x1000_0000_0000_0000
  const Hi := 0x2000_0000_0000_0000

  predicate InBand(x: int) {
    Lo <= x < Hi
  }

  function Pow2(k: nat): nat {
    if k == 0 then 1 else 2 * Pow2(k - 1)
  }

  lemma {:induction false} UlpOf(x: nat, k: nat)
    requires k > 0 ==> 0x10_0000_0000_0000 * Pow2(k) <= x
    requires x < 0x20_0000_0000_0000 * Pow2(k)
    ensures Ulp(x) == Pow2(k)
  {
    if k > 0 {
      assert Pow2(k) == 2 * Pow2(k - 1);
      assert Pow2(k - 1) >= 1;
      UlpOf(x / 2, k - 1);
    }
  }

  lemma BandUlp(x: int)
    requires InBand(x)
    ensures Ulp(x) == 256
  {
    assert Pow2(8) == 256 by {
      assert Pow2(2) == 4;
      assert Pow2(4) == 16;
      assert Pow2(6) == 64;
    }
    UlpOf(x, 8);
  }

  lemma RoundNear(x: int)
    requires InBand(x)
    ensures x - 128 <= Round(x) <= x + 128
  {
    BandUlp(x);
  }

  /** Rounding in the band: to the nearer multiple of 256, to the even one from the middle. */
  lemma BandRound(x: int)
    requires InBand(x)
    ensures var q, r := x / 256, x % 256;
            Round(x) == (if r < 128 || (r == 128 && q % 2 == 0) then q else q + 1) * 256
  {
    hide Ulp;
    BandUlp(x);
  }

  lemma RoundMonotone(x: int, y: int)
    requires InBand(x) && InBand(y) && x <= y
    ensures Round(x) <= Round(y)
  {
    hide Round;
    BandRound(x);
    BandRound(y);
  }

  /** A slot that Due lists is never refused for its time by a claim at the same instant. */
  lemma DueIsNotLater(s: Schedule, now: Time)
    requires now.At? && InBand(now.nanos) && IsDue(s, now) && InBand(s.state.nextFireAt.nanos)
    ensures !Later(Binary64, s.state.nextFireAt, now)
  {
    RoundMonotone(s.state.nextFireAt.nanos, now.nanos);
  }

  /** An accepted slot is at most 256 ns early. */
  lemma AcceptedIsNear(slot: int, now: int)
    requires InBand(slot) && InBand(now) && !Later(Binary64, At(slot), At(now))
    ensures slot <= now + 256
  {
    RoundNear(slot);
    RoundNear(now);
  }

  /** A slot more than 256 ns ahead is refused. */
  lemma FarIsLater(slot: int, now: int)
    requires InBand(slot) && InBand(now) && slot > now + 256
    ensures Later(Binary64, At(slot), At(now))
  {
    RoundNear(slot);
    RoundNear(now);
  }

  /** So a claim that takes a slot more than 256 ns past `last` runs later than `last`. */
  lemma TakesLater(slot: int, now: int, last: int)
    requires InBand(slot) && InBand(now) && InBand(last)
    requires slot > last + 256 && !Later(Binary64, At(slot), At(now))
    ensures now > last
  {
    FarIsLater(slot, last);
    if now <= last { RoundMonotone(now, last); }
  }

  /** 256 is the exact margin: at a suitable instant a slot 256 ns ahead is accepted, so two claims
      at that one instant both win. */
  lemma MarginIsTight(st: Store, n: string)
    requires n in st.schedules && st.schedules[n].state.enabled && st.schedules[n].state.deletionId == ""
    requires st.schedules[n].spec.maxFires == 0 && st.schedules[n].state.nextFireAt == At(Lo + 384)
    ensures var op := Claim(n, At(Lo + 384), At(Lo + 640));
            && Apply(Binary64, st, op).1.Returned?
            && Apply(Binary64, Apply(Binary64, st, op).0, op).1.Returned?
  {
    BandUlp(Lo + 384);
    BandUlp(Lo + 640);
    assert Round(Lo + 384) == Lo + 512 == Round(Lo + 640);
  }
}
