/** The bloom index's random generator (contrib/bloom/blutils.c:202-246), with C's int32 arithmetic. */
module BloomRand {

  const P: int := 0x7fff_ffff

  predicate Int32(x: int) { -0x8000_0000 <= x <= 0x7fff_ffff }

  /** C's division and remainder, which truncate toward zero. */
  function TruncDiv(a: int, b: int): int
    requires b > 0
  {
    if a >= 0 then a / b else -((-a) / b)
  }

  function TruncMod(a: int, b: int): int
    requires b > 0
  {
    if a >= 0 then a % b else -((-a) % b)
  }

  /** A state the generator works from. */
  predicate Good(next: int) { next != 0 && -P < next < P }

  // One step

  function Hi(next: int): int { TruncDiv(next, 127773) }

  function Lo(next: int): int { TruncMod(next, 127773) }

  /** The split product before it is brought into range. */
  function Split(next: int): int { 16807 * Lo(next) - 2836 * Hi(next) }

  lemma HiLo(next: int)
    requires Good(next)
    ensures next == 127773 * Hi(next) + Lo(next)
    ensures next > 0 ==> 0 <= Hi(next) <= 16807 && 0 <= Lo(next) < 127773 && (Hi(next) == 16807 ==> Lo(next) <= 2835)
    ensures next < 0 ==> -16807 <= Hi(next) <= 0 && -127773 < Lo(next) <= 0 && (Hi(next) == -16807 ==> Lo(next) >= -2835)
  {
  }

  /** 16807 and 2836 have no common factor. */
  lemma Coprime(hi: int, lo: int)
    requires 16807 * lo == 2836 * hi && -16807 < hi < 16807
    ensures hi == 0
  {
    var m := 5790 * lo - 977 * hi;
    assert hi == 16807 * m;
  }

  lemma SplitRange(next: int)
    requires Good(next)
    ensures Split(next) == 16807 * next - P * Hi(next)
    ensures -P < Split(next) < P && Split(next) != 0
    ensures Int32(16807 * Lo(next)) && Int32(2836 * Hi(next))
  {
    HiLo(next);
    var hi, lo := Hi(next), Lo(next);
    if 16807 * lo == 2836 * hi && -16807 < hi < 16807 {
      Coprime(hi, lo);
    }
  }

  /** The generator's step: 16807 times the state, modulo the prime 2^31 - 1. */
  function Next(s: int): int { (16807 * s) % P }

  lemma ModIs(x: int, y: int, m: int)
    requires 0 <= y < P && x == P * m + y
    ensures x % P == y
  {
    var q := x / P;
    assert x == P * q + x % P;
    assert P * (q - m) == y - x % P;
  }

  lemma SplitIsNext(s: int)
    requires Good(s)
    ensures Next(s) == if Split(s) < 0 then Split(s) + P else Split(s)
    ensures 1 <= Next(s) <= P - 1
  {
    SplitRange(s);
    if Split(s) < 0 {
      ModIs(16807 * s, Split(s) + P, Hi(s) - 1);
    } else {
      ModIs(16807 * s, Split(s), Hi(s));
    }
  }

  // Seeding

  function ToInt32(seed: int): int { if seed < 0x8000_0000 then seed else seed - 0x1_0000_0000 }

  function Seeded(seed: int): int { TruncMod(ToInt32(seed), 0x7fff_fffe) + 1 }

  /** Two seeds leave the generator at 0; from all others it works. */
  lemma SeedIff(seed: int)
    requires 0 <= seed < 0x1_0000_0000
    ensures Good(Seeded(seed)) <==> seed != 0xffff_ffff && seed != 0x8000_0001
    ensures !Good(Seeded(seed)) ==> Seeded(seed) == 0
  {
  }

  /** The state after `k` steps of the C code, from any state. */
  function StateAfter(s: int, k: nat): int {
    if k == 0 then s
    else
      var x := Split(StateAfter(s, k - 1));
      if x < 0 then x + P else x
  }

  lemma {:induction false} StaysGood(s: int, k: nat)
    requires Good(s)
    ensures Good(StateAfter(s, k)) && (k > 0 ==> 1 <= StateAfter(s, k) <= P - 1)
    ensures k > 0 ==> StateAfter(s, k) == Next(StateAfter(s, k - 1))
  {
    if k > 0 {
      StaysGood(s, k - 1);
      SplitIsNext(StateAfter(s, k - 1));
    }
  }

  lemma {:induction false} StaysZero(k: nat)
    ensures StateAfter(0, k) == 0
  {
    if k > 0 { StaysZero(k - 1); }
  }

  /** All numbers drawn from a seed lie in [0, 0x7ffffffd], or none does: -1 is drawn for ever from two of the seeds. */
  lemma DrawsInRangeIff(seed: int, k: nat)
    requires 0 <= seed < 0x1_0000_0000 && k > 0
    ensures 0 <= StateAfter(Seeded(seed), k) - 1 <= 0x7fff_fffd <==> seed != 0xffff_ffff && seed != 0x8000_0001
  {
    SeedIff(seed);
    if Good(Seeded(seed)) {
      StaysGood(Seeded(seed), k);
    } else {
      StaysZero(k);
    }
  }

  class Generator {
    var next: int

    constructor ()
      ensures next == 0
    {
      next := 0;
    }

    /** myRand: every product and difference fits int32; from state 0 it stays there and draws -1. */
    method MyRand() returns (r: int)
      requires next == 0 || Good(next)
      modifies this
      ensures r == next - 1
      ensures old(next) == 0 ==> next == 0 && r == -1
      ensures old(next) != 0 ==> next == Next(old(next)) && Good(next) && 0 <= r <= 0x7fff_fffd
    {
      if next != 0 {
        SplitRange(next);
        SplitIsNext(next);
      }
      var hi, lo := TruncDiv(next, 127773), TruncMod(next, 127773);
      var x := 16807 * lo - 2836 * hi;
      if x < 0 {
        x := x + 0x7fff_ffff;
      }
      next := x;
      r := x - 1;
    }

    method MySrand(seed: int)
      requires 0 <= seed < 0x1_0000_0000
      modifies this
      ensures next == Seeded(seed)
    {
      next := ToInt32(seed);
      next := TruncMod(next, 0x7fff_fffe) + 1;
    }
  }
}
